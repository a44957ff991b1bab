/** The records of match.py: the simulator's per-player `Result`, the parsed
    `Output`, the reported `MatchResult` and `Match`, the roster entry, and
    the errors the Python code raises. */
module Records {
  import opened Wrappers

  /** One bot of the roster: the JSON object `{"name": …, "docker-image": …}`. */
  datatype Bot = Bot(name: string, dockerImage: string)

  /** The source's `Result`: one simulator result line, every field already
      shifted from the wire's 1-based value to 0-based. */
  datatype PlayerResult = PlayerResult(playerId: int, rank: int, lastFrameAlive: int)

  /** What `parse_output` returns. */
  datatype Output = Output(
    width: int,
    height: int,
    hltFile: string,
    seed: int,
    results: seq<PlayerResult>,
    timeoutBots: seq<int>,
    timeoutLogs: seq<string>)

  /** The reported outcome of one roster bot. */
  datatype MatchResult = MatchResult(
    botName: string,
    dockerImage: string,
    rank: int,
    lastFrameAlive: int,
    errorLog: Option<string>)

  /** The record `run_match` returns. */
  datatype Match = Match(
    id: string,
    date: string,
    replay: string,
    seed: int,
    width: int,
    height: int,
    matchResults: seq<MatchResult>)

  /** The exceptions the source raises, one constructor per cause. */
  datatype Error =
    | MissingLine(line: nat)                    // IndexError: pop from an empty list of lines
    | NotAnInteger(token: string)               // ValueError from int()
    | WrongTokenCount(expected: nat, found: nat) // unpacking ValueError, or TypeError from Result(*…)
    | MissingResult(bot: nat)                   // IndexError: output.results[i]
    | MissingLog(bot: nat, index: nat)          // IndexError: output.timeout_logs[index]
    | SimulatorFailed                           // CalledProcessError from check_output
}
