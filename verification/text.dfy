/** Python's `str.splitlines()` and argument-less `str.split()`, the two
    tokenisers the simulator-output parser is built on, with the joins that
    invert them. */
module Text {

  /** Characters at which `str.splitlines()` ends a line ("\r\n" counts once). */
  predicate IsLineBreak(c: char) {
    c == '\n' || c == '\r' || c == '\U{0B}' || c == '\U{0C}'
    || c == '\U{1C}' || c == '\U{1D}' || c == '\U{1E}' || c == '\U{85}'
    || c == '\U{2028}' || c == '\U{2029}'
  }

  /** Characters for which `str.isspace()` holds; argument-less `str.split()`
      separates tokens at runs of them. */
  predicate IsSpace(c: char) {
    c == ' ' || c == '\t' || c == '\n' || c == '\r' || c == '\U{0B}' || c == '\U{0C}'
    || c == '\U{1C}' || c == '\U{1D}' || c == '\U{1E}' || c == '\U{1F}'
    || c == '\U{85}' || c == '\U{A0}' || c == '\U{1680}'
    || ('\U{2000}' <= c <= '\U{200A}')
    || c == '\U{2028}' || c == '\U{2029}' || c == '\U{202F}' || c == '\U{205F}' || c == '\U{3000}'
  }

  lemma LineBreakIsSpace(c: char)
    requires IsLineBreak(c)
    ensures IsSpace(c)
  {
  }

  /** A line as `splitlines` yields it: no line-break character inside. */
  predicate IsLine(s: string) {
    forall i :: 0 <= i < |s| ==> !IsLineBreak(s[i])
  }

  /** A token as `split` yields it: non-empty and free of whitespace. */
  predicate IsWord(s: string) {
    |s| > 0 && forall i :: 0 <= i < |s| ==> !IsSpace(s[i])
  }

  // ---------------------------------------------------------------------------
  // splitlines

  /** `cur` is the part of the current line already read. */
  function LinesFrom(s: string, cur: string): seq<string>
    decreases |s|
  {
    if |s| == 0 then
      if cur == [] then [] else [cur]
    else if s[0] == '\r' && |s| >= 2 && s[1] == '\n' then
      [cur] + LinesFrom(s[2..], [])
    else if IsLineBreak(s[0]) then
      [cur] + LinesFrom(s[1..], [])
    else
      LinesFrom(s[1..], cur + [s[0]])
  }

  /** `str.splitlines()`: the lines of `s`, without their terminators; a final
      terminator does not start an empty last line. */
  function SplitLines(s: string): (ls: seq<string>)
    ensures forall i :: 0 <= i < |ls| ==> IsLine(ls[i])
    ensures |s| == 0 ==> ls == []
  {
    LinesFromAreLines(s, []);
    LinesFrom(s, [])
  }

  lemma {:induction false} LinesFromAreLines(s: string, cur: string)
    requires IsLine(cur)
    ensures forall i :: 0 <= i < |LinesFrom(s, cur)| ==> IsLine(LinesFrom(s, cur)[i])
    decreases |s|
  {
    if |s| == 0 {
    } else if s[0] == '\r' && |s| >= 2 && s[1] == '\n' {
      LinesFromAreLines(s[2..], []);
    } else if IsLineBreak(s[0]) {
      LinesFromAreLines(s[1..], []);
    } else {
      LinesFromAreLines(s[1..], cur + [s[0]]);
    }
  }

  /** Writes every line followed by "\n": one layout a report can have. */
  function JoinLines(ls: seq<string>): string
  {
    if |ls| == 0 then [] else ls[0] + "\n" + JoinLines(ls[1..])
  }

  /** Reading past a break-free stretch only extends the current line. */
  lemma {:induction false} LinesFromLine(w: string, rest: string, cur: string)
    requires IsLine(w)
    ensures LinesFrom(w + rest, cur) == LinesFrom(rest, cur + w)
    decreases |w|
  {
    if |w| == 0 {
      assert w + rest == rest;
      assert cur + w == cur;
    } else {
      assert (w + rest)[0] == w[0];
      assert !IsLineBreak(w[0]);
      assert (w + rest)[1..] == w[1..] + rest;
      LinesFromLine(w[1..], rest, cur + [w[0]]);
      assert cur + [w[0]] + w[1..] == cur + w;
    }
  }

  /** `splitlines` recovers the lines written by `JoinLines`. */
  lemma {:induction false} SplitJoinLines(ls: seq<string>)
    requires forall i :: 0 <= i < |ls| ==> IsLine(ls[i])
    ensures SplitLines(JoinLines(ls)) == ls
    decreases |ls|
  {
    if |ls| > 0 {
      var rest := JoinLines(ls[1..]);
      assert JoinLines(ls) == ls[0] + ("\n" + rest);
      LinesFromLine(ls[0], "\n" + rest, []);
      assert [] + ls[0] == ls[0];
      assert ("\n" + rest)[1..] == rest;
      assert LinesFrom("\n" + rest, ls[0]) == [ls[0]] + LinesFrom(rest, []);
      SplitJoinLines(ls[1..]);
      assert ls == [ls[0]] + ls[1..];
    }
  }

  /** The line terminators `splitlines` recognises: "\r\n", or one break. */
  predicate IsTerminator(t: string) {
    t == "\r\n" || (|t| == 1 && IsLineBreak(t[0]))
  }

  /** Lines `ls`, line `i` followed by terminator `ts[i]`; the last line may
      go unterminated (`|ts| + 1 == |ls|`). */
  function JoinLinesBy(ls: seq<string>, ts: seq<string>): string
    requires |ts| == |ls| || |ts| + 1 == |ls|
    decreases |ls|
  {
    if |ls| == 0 then []
    else if |ts| == 0 then ls[0]
    else ls[0] + ts[0] + JoinLinesBy(ls[1..], ts[1..])
  }

  /** The terminators can be told apart from the text: each is a terminator,
      an unterminated last line is not empty (it would vanish), and a lone
      "\r" is not followed by an empty line ended by "\n" (the two would
      read as one "\r\n"). */
  predicate Terminates(ls: seq<string>, ts: seq<string>) {
    && (|ts| == |ls| || |ts| + 1 == |ls|)
    && (forall i :: 0 <= i < |ts| ==> IsTerminator(ts[i]))
    && (|ts| < |ls| ==> ls[|ls| - 1] != [])
    && (forall i :: 0 <= i < |ts| - 1 && ts[i] == "\r" && ls[i + 1] == [] ==> ts[i + 1] != "\n")
  }

  /** One line and its terminator come off the front of the text, unless a
      lone "\r" would merge with a "\n" after it. */
  lemma LinesFromStep(line: string, t: string, rest: string)
    requires IsLine(line) && IsTerminator(t)
    requires t == "\r" && |rest| > 0 ==> rest[0] != '\n'
    ensures LinesFrom(line + t + rest, []) == [line] + LinesFrom(rest, [])
  {
    LinesFromLine(line, t + rest, []);
    assert line + t + rest == line + (t + rest);
    assert [] + line == line;
    if t == "\r\n" {
      assert (t + rest)[2..] == rest;
    } else {
      assert (t + rest)[1..] == rest;
    }
  }

  /** Joined lines start with "\n" only when the first line is empty and
      ended by "\n". */
  lemma JoinLinesByHead(ls: seq<string>, ts: seq<string>)
    requires forall i :: 0 <= i < |ls| ==> IsLine(ls[i])
    requires Terminates(ls, ts)
    requires |ls| > 0 && ls[0] == [] && |ts| > 0 ==> ts[0] != "\n"
    ensures var t := JoinLinesBy(ls, ts); |t| == 0 || t[0] != '\n'
  {
  }

  /** `splitlines` recovers the lines whatever their terminators: "\r\n"
      counts as one break, any single break character ends a line, and a last
      line without terminator is kept. */
  lemma {:induction false} SplitJoinLinesBy(ls: seq<string>, ts: seq<string>)
    requires forall i :: 0 <= i < |ls| ==> IsLine(ls[i])
    requires Terminates(ls, ts)
    ensures SplitLines(JoinLinesBy(ls, ts)) == ls
    decreases |ls|
  {
    if |ls| == 0 {
    } else if |ts| == 0 {
      LinesFromLine(ls[0], [], []);
      assert ls[0] + [] == ls[0];
      assert [] + ls[0] == ls[0];
    } else {
      var rest := JoinLinesBy(ls[1..], ts[1..]);
      assert JoinLinesBy(ls, ts) == ls[0] + ts[0] + rest;
      assert Terminates(ls[1..], ts[1..]);
      if ts[0] == "\r" {
        JoinLinesByHead(ls[1..], ts[1..]);
      }
      LinesFromStep(ls[0], ts[0], rest);
      SplitJoinLinesBy(ls[1..], ts[1..]);
      assert ls == [ls[0]] + ls[1..];
    }
  }

  // ---------------------------------------------------------------------------
  // split

  /** `cur` is the part of the current token already read. */
  function WordsFrom(s: string, cur: string): seq<string>
    decreases |s|
  {
    if |s| == 0 then
      if cur == [] then [] else [cur]
    else if IsSpace(s[0]) then
      if cur == [] then WordsFrom(s[1..], []) else [cur] + WordsFrom(s[1..], [])
    else
      WordsFrom(s[1..], cur + [s[0]])
  }

  /** Argument-less `str.split()`: the maximal whitespace-free runs of `s`. */
  function Split(s: string): (ws: seq<string>)
    ensures forall i :: 0 <= i < |ws| ==> IsWord(ws[i])
  {
    WordsFromAreWords(s, []);
    WordsFrom(s, [])
  }

  lemma {:induction false} WordsFromAreWords(s: string, cur: string)
    requires forall i :: 0 <= i < |cur| ==> !IsSpace(cur[i])
    ensures forall i :: 0 <= i < |WordsFrom(s, cur)| ==> IsWord(WordsFrom(s, cur)[i])
    decreases |s|
  {
    if |s| == 0 {
    } else if IsSpace(s[0]) {
      WordsFromAreWords(s[1..], []);
    } else {
      WordsFromAreWords(s[1..], cur + [s[0]]);
    }
  }

  /** Python's `" ".join(ws)`. */
  function JoinWords(ws: seq<string>): string
  {
    if |ws| == 0 then []
    else if |ws| == 1 then ws[0]
    else ws[0] + " " + JoinWords(ws[1..])
  }

  /** Reading past a whitespace-free stretch only extends the current token. */
  lemma {:induction false} WordsFromWord(w: string, rest: string, cur: string)
    requires forall i :: 0 <= i < |w| ==> !IsSpace(w[i])
    ensures WordsFrom(w + rest, cur) == WordsFrom(rest, cur + w)
    decreases |w|
  {
    if |w| == 0 {
      assert w + rest == rest;
      assert cur + w == cur;
    } else {
      assert (w + rest)[0] == w[0];
      assert (w + rest)[1..] == w[1..] + rest;
      WordsFromWord(w[1..], rest, cur + [w[0]]);
      assert cur + [w[0]] + w[1..] == cur + w;
    }
  }

  /** `split` recovers the tokens joined by single spaces. */
  lemma {:induction false} SplitJoinWords(ws: seq<string>)
    requires forall i :: 0 <= i < |ws| ==> IsWord(ws[i])
    ensures Split(JoinWords(ws)) == ws
    decreases |ws|
  {
    if |ws| == 1 {
      WordsFromWord(ws[0], [], []);
      assert ws[0] + [] == ws[0];
      assert [] + ws[0] == ws[0];
    } else if |ws| > 1 {
      var rest := JoinWords(ws[1..]);
      assert JoinWords(ws) == ws[0] + (" " + rest);
      WordsFromWord(ws[0], " " + rest, []);
      assert [] + ws[0] == ws[0];
      assert (" " + rest)[1..] == rest;
      assert WordsFrom(" " + rest, ws[0]) == [ws[0]] + WordsFrom(rest, []);
      SplitJoinWords(ws[1..]);
      assert ws == [ws[0]] + ws[1..];
    }
  }

  /** A joined line of tokens is a line when the tokens are. */
  lemma {:induction false} JoinWordsIsLine(ws: seq<string>)
    requires forall i :: 0 <= i < |ws| ==> IsWord(ws[i])
    ensures IsLine(JoinWords(ws))
    decreases |ws|
  {
    if |ws| > 1 {
      JoinWordsIsLine(ws[1..]);
      var j := JoinWords(ws);
      var rest := JoinWords(ws[1..]);
      assert j == ws[0] + " " + rest;
      forall i | 0 <= i < |j|
        ensures !IsLineBreak(j[i])
      {
        if i < |ws[0]| {
          assert j[i] == ws[0][i];
          if IsLineBreak(j[i]) { LineBreakIsSpace(j[i]); }
        } else if i > |ws[0]| {
          assert j[i] == rest[i - |ws[0]| - 1];
        }
      }
    } else if |ws| == 1 {
      forall i | 0 <= i < |ws[0]|
        ensures !IsLineBreak(ws[0][i])
      {
        if IsLineBreak(ws[0][i]) { LineBreakIsSpace(ws[0][i]); }
      }
    }
  }

  /** A whitespace-only stretch. */
  predicate IsBlank(s: string) {
    forall i :: 0 <= i < |s| ==> IsSpace(s[i])
  }

  /** Tokens `ws` with `seps[i]` before token `i` and `seps[|ws|]` after the
      last one. */
  function JoinWordsBy(ws: seq<string>, seps: seq<string>): string
    requires |seps| == |ws| + 1
    decreases |ws|
  {
    if |ws| == 0 then seps[0] else seps[0] + ws[0] + JoinWordsBy(ws[1..], seps[1..])
  }

  /** Separators made of whitespace, non-empty between two tokens; leading
      and trailing ones may be empty. */
  predicate Separates(ws: seq<string>, seps: seq<string>) {
    && |seps| == |ws| + 1
    && (forall i :: 0 <= i < |seps| ==> IsBlank(seps[i]))
    && (forall i :: 0 < i < |ws| ==> seps[i] != [])
  }

  /** Leading whitespace before a token is skipped. */
  lemma {:induction false} SkipBlank(sp: string, rest: string)
    requires IsBlank(sp)
    ensures WordsFrom(sp + rest, []) == WordsFrom(rest, [])
    decreases |sp|
  {
    if |sp| > 0 {
      assert (sp + rest)[0] == sp[0];
      assert (sp + rest)[1..] == sp[1..] + rest;
      SkipBlank(sp[1..], rest);
    } else {
      assert sp + rest == rest;
    }
  }

  /** A token followed by whitespace or the end comes off the front. */
  lemma WordsFromStep(w: string, tail: string)
    requires IsWord(w)
    requires |tail| > 0 ==> IsSpace(tail[0])
    ensures WordsFrom(w + tail, []) == [w] + WordsFrom(tail, [])
  {
    WordsFromWord(w, tail, []);
    assert [] + w == w;
  }

  /** `split()` recovers the tokens whatever whitespace separates them, with
      any leading and trailing whitespace. */
  lemma {:induction false} SplitJoinWordsBy(ws: seq<string>, seps: seq<string>)
    requires forall i :: 0 <= i < |ws| ==> IsWord(ws[i])
    requires Separates(ws, seps)
    ensures Split(JoinWordsBy(ws, seps)) == ws
    decreases |ws|
  {
    if |ws| == 0 {
      SkipBlank(seps[0], []);
      assert seps[0] + [] == seps[0];
    } else {
      var tail := JoinWordsBy(ws[1..], seps[1..]);
      assert Separates(ws[1..], seps[1..]);
      assert JoinWordsBy(ws, seps) == seps[0] + (ws[0] + tail);
      SkipBlank(seps[0], ws[0] + tail);
      if |tail| > 0 {
        assert tail[0] == seps[1][0];
      }
      WordsFromStep(ws[0], tail);
      SplitJoinWordsBy(ws[1..], seps[1..]);
      assert ws == [ws[0]] + ws[1..];
    }
  }
}
