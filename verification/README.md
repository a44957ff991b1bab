# halite-matches: match-output parser and result assembly

A Dafny model of the core of `match.py` from the halite-matches runner. One
invocation runs a Halite match between containerised bots. The simulator
(`halite -q`) prints a line-oriented report. `parse_output` reads it into an
`Output`. `run_match` then pairs the parsed results with the bot roster and
builds the `Match` record.

The wire format, as `parse_output` reads it:

1. `width height`;
2. `replay_path seed`;
3. one line `player_id rank last_frame_alive` per bot. All three are 1-based
   on the wire and are decremented on read;
4. optionally, a line of timed-out player ids (decremented), then a line of
   log paths co-indexed with them.

Modules, one per concern:

- `Wrappers`: `Option` and `Result`, so that Python's exceptions become
  explicit `Failure` values.
- `Records`: the source's dataclasses (`Result` is `PlayerResult`, plus
  `Output`, `MatchResult`, `Match`), the roster entry `Bot`, and `Error`
  with one constructor per exception the code can raise.
- `Text`: `str.splitlines()` and argument-less `str.split()`, using
  Python 3's line-boundary and whitespace character sets. Each comes with
  the join that inverts it.
- `Decimal`: `int(token)`, meaning an optional sign followed by ASCII
  digits, and its inverse `str(n)`.
- `Parser`: `parse_output`, stated over the report's lines. It keeps the
  source's order of evaluation, so the error matches the exception Python
  raises first. The seed token is converted last.
- `Wire`: one layout a report can have: single spaces, every line ended by
  "\n". The parser is proved to invert it.
- `Assembly`: the loop of `run_match` that builds one `MatchResult` per
  roster bot.
- `Runner`: the simulator command line and `run_match` itself.
- `Pipeline`: end-to-end properties and an example report with two bots,
  both timed out.

Three external effects are function parameters, so nothing about them is
assumed:

- `os.path.relpath` is `relPath: string -> string`.
- The simulator run is `halite: seq<string> -> Option<string>`. `None`
  stands for a failed `check_output`.
- The clock reading is the parameter `date`.

Facts about the code that the model keeps:

- `parse_output` does not check that `num_bots` result lines exist.
  `lines[:num_bots]` is a slice, so a short report yields fewer results.
  The failure comes later, as an `IndexError` in the assembly loop
  (`Pipeline.RunMatchShortReport`).
- `last_frame_alive` is decremented like the other two fields, so a wire
  value of 300 is read as 299 (`Pipeline.ParseExample`).
- Only the replay path passes through `relpath` while parsing. Log paths
  pass through it when the assembly loop attaches them.
- A single line after the results always fails. If it holds a token that
  is not an integer, `int` raises `ValueError`. Otherwise the second `pop`
  finds no line left, even when the line is blank.
- Lines after the log line are never read.
- The assembly loop does not look results up by player id. It trusts roster
  order: bot `i` gets `output.results[i]`.

## Model

| member | source | states |
|---|---|---|
| `Text.SplitLines` | match.py:53 | `str.splitlines()`: every line it yields is free of line breaks, and empty text has no lines; `Text.SplitJoinLinesBy` gives its full behaviour |
| `Text.SplitJoinLines` | match.py:53 | `splitlines` returns exactly the break-free lines of a text that ends each of them with "\n" |
| `Text.SplitJoinLinesBy` | match.py:53 | `splitlines` returns exactly the break-free lines of any text built from them, each ended by `\r\n` (counted once) or by any single line-break character, and a non-empty last line may go unterminated. The one exception is a lone `\r` followed by an empty line ended by `\n`, which reads as one `\r\n` |
| `Text.Split` | match.py:55-68 | argument-less `str.split()`: every token it yields is non-empty and free of whitespace; `Text.SplitJoinWordsBy` gives its full behaviour |
| `Text.SplitJoinWords` | match.py:55 | `split()` returns exactly the whitespace-free tokens of a space-joined line |
| `Text.SplitJoinWordsBy` | match.py:55 | `split()` returns exactly the whitespace-free tokens of any line built from them with non-empty whitespace runs between tokens and optional whitespace before the first and after the last; a line of whitespace only gives no tokens |
| `Decimal.ParseInt` | match.py:55 | `int` succeeds exactly on an optional sign followed by at least one digit; a `-` sign gives a value at most 0, any other input a value at least 0 |
| `Decimal.ParseIntPlus` | match.py:55 | a `+` sign before a digit string does not change the value `int` gives |
| `Decimal.ParseIntMinus` | match.py:55 | a `-` sign before a digit string negates the value `int` gives |
| `Decimal.ParseIntLeadingZero` | match.py:55 | a leading `0` before a digit string is accepted and does not change the value |
| `Decimal.ParseShow` | match.py:74 | `int(str(n)) == n` for every integer `Show` renders, the property the seed and every wire integer rely on; CPython's 4300-digit conversion limit is not modelled (see Left out) |
| `Parser.ParseInts` | match.py:55 | the list comprehension of `int` succeeds iff every token is an integer; each value is its token's; otherwise the error names the first bad token |
| `Parser.ParseRow` | match.py:58-61 | a result line succeeds iff it has exactly three integer tokens, and each field is its wire value minus 1; a non-integer token fails with `int`'s error for the first such token, before the count is checked; an all-integer line with another count fails with the argument-count error |
| `Parser.ParseRows` | match.py:58-61 | the result lines parse iff each has three integers, giving one result per line in order, each the wire values minus 1 |
| `Parser.FirstBadRow` | match.py:58-61 | a failure of the result lines is the error of the first line that does not hold three integers |
| `Wire.DecrementIdTokens` | match.py:67 | reading a line of rendered 1-based ids as integers and decrementing them gives back the 0-based ids |
| `Parser.ParseTimeouts` | match.py:63-68 | no extra lines gives empty timeout lists; otherwise success needs an integer id line and a following log line; ids are decremented and logs are the next line's tokens; an id line with a non-integer token fails with `int`'s error before the second `pop` is reached; an integer id line with nothing after it fails at the second `pop` |
| `Parser.ParseHeader` | match.py:55-56 | succeeds iff there are two lines, the first holding exactly two integers and the second exactly two tokens; an empty report fails at the first `pop`, and a one-line report whose line holds two integers fails at the second `pop`; a non-integer size token fails with `int`'s error for the first such token; a wrong count of integers is an unpacking error, and so is a replay line without exactly two tokens |
| `Parser.ParseBody` | match.py:58-68 | reads `min(num_bots, remaining)` result lines, then the optional timeout block; exactly one extra line fails; no extra lines gives empty timeout lists |
| `Parser.BodyErrors` | match.py:58-68 | a bad result line raises before anything in the timeout block is read; otherwise the body raises what the timeout block raises |
| `Parser.ParseLines` | match.py:52-78 | succeeds iff the report is well formed; width and height are the first line's integers, the seed is the second token of the second line, the replay is `relpath` of its first token; results and timeout lists are as read from the lines that follow. Errors come in the source's order: a malformed header raises the header's error, then a malformed body raises the body's error, and only a well-formed frame can fail at `int(seed)`, which is therefore converted last |
| `Parser.TrailingLinesIgnored` | match.py:65-68 | lines after the log line never change the result or the error |
| `Parser.ParseOutput` | match.py:52-53 | parsing the stdout text succeeds iff its lines are well formed, and never yields more results than bots |
| `Wire.ParseRenderLines` | match.py:52-78 | parsing the lines of any report in `Render`'s layout gives back its content 0-based. This holds with or without a timeout block, and also for a larger roster when no timeout block follows |
| `Wire.ParseRender` | match.py:52-78 | the same round trip over the whole stdout text |
| `Assembly.IndexOf` | match.py:98 | `list.index` returns the first position of the id |
| `Assembly.ErrorLog` | match.py:96-99 | the lookup fails iff the id's first position is beyond the log list; otherwise there is a log iff the id timed out, and it is `relpath` of the log co-indexed with the first occurrence |
| `Assembly.AssemblePrefix` | match.py:94-109 | the loop over the first `n` bots succeeds iff none of them lacks a result or its log, giving one `MatchResult` per bot in roster order; otherwise the error is the first failing bot's `IndexError` |
| `Assembly.Assemble` | match.py:92-109 | succeeds iff no bot lacks a result or its log, giving one `MatchResult` per roster bot, in roster order, with the roster name and image, rank + 1, last frame unchanged and the log iff timed out; fewer results than bots fails; otherwise the error is the first failing bot's `IndexError` |
| `Assembly.AssembleShort` | match.py:94-95 | without timed-out bots, fewer results than bots fails with the `IndexError` of the first bot without a result |
| `Runner.BotArgs` | match.py:82-84 | two arguments per bot: the sandboxed `docker run` command with its image, then its name |
| `Runner.Command` | match.py:86 | the command is `halite -q -d <map_size> -o` followed by two entries per bot, so its length is `5 + 2*|bots|` |
| `Runner.RosterOfCommand` | match.py:82-86 | the command line determines the roster, names and images in order |
| `Runner.RunMatch` | match.py:81-119 | a failed simulator run fails the match. After a successful run, the match succeeds iff the output parses and no bot lacks a result or its log; a parse error is returned unchanged, and an assembly error is the first failing bot's `IndexError`. On success, the `Match` carries the given id and date, and the parser's replay, seed, width and height unchanged. It holds exactly one result per bot, each reporting its bot |
| `Pipeline.RunMatchWithoutTimeouts` | match.py:90-119 | a report without a timeout block and with one result per bot gives a match. Each bot has its rank back to the wire value, its last frame as parsed, and no error log |
| `Pipeline.RunMatchWithTimeouts` | match.py:94-109 | with a timeout block whose logs cover its ids, a bot gets an error log iff its player id timed out. The log is the one co-indexed with the id's first occurrence |
| `Pipeline.RunMatchShortReport` | match.py:58-62 | a report with fewer result lines than bots still parses, and the match fails with `IndexError` at the first bot without a result |
| `Pipeline.ParseExample` | match.py:58-68 | an example report with two bots, both timed out, parses to width and height 20 and seed 42. Its results are (0, 0, 299) and (1, 1, 249), and the timed-out ids are [0, 1] with their two logs |

## Left out

- Process I/O is not modelled: `check_output`, `docker pull` in `pull`, and the echo of commands to stderr (match.py:87-88, 122-127). The simulator's output is the `halite` parameter instead.
- `main` is not modelled (match.py:130-155). This covers reading `sys.argv`, `json.loads` of the roster, writing the JSON file, the tar archive and the file deletions, all of which are filesystem and library calls. Roster entries are `Bot` records, so the `KeyError` that a bot without `name` or `docker-image` would raise is not modelled.
- `datetime.utcnow().isoformat()` is not modelled (match.py:113). It is a clock read, passed in as `date`.
- The internals of `os.path.relpath` are not modelled (match.py:73, 99). They depend on the working directory, so `relPath` is a parameter. Its `ValueError` on an empty path cannot arise, because every path here is a non-empty token.
- Decimal.ParseInt: accepts only an optional sign followed by ASCII digits. Python's `int` also accepts `_` between digits, surrounding whitespace and non-ASCII decimal digits, so a token such as `1_000` is a failure here but not in Python. In the other direction, CPython (3.11 and later, and security releases of earlier versions) raises `ValueError` on a token of more than 4300 digits, which this model accepts.
- `Error.WrongTokenCount` merges two Python exceptions. It covers both the unpacking `ValueError` (lines 55-56) and the `TypeError` from `Result(*…)` with a wrong argument count (line 59).
- `universal_newlines=True` translates line endings before the parser sees them. The model instead lets `splitlines` handle every line boundary itself, which yields the same lines.
- The archive upload and its retry policy are not in match.py, so they are not modelled.
- Decimal.ParseShow: holds for every integer, whereas in CPython `int(str(n))` raises `ValueError` once `n` has more than 4300 digits, because the 4300-digit conversion limit is not modelled.
- The example report with two bots is stated at the parse level only (`Pipeline.ParseExample`). Its assembly is an instance of `Pipeline.RunMatchWithTimeouts`.
