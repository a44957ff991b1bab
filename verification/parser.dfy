/** `parse_output` (match.py:52-78): the simulator's line-oriented report
    read into an `Output`. */
module Parser {
  import opened Wrappers
  import opened Text
  import opened Decimal
  import opened Records

  // ---------------------------------------------------------------------------
  // What a well-formed report looks like, stated over its lines

  /** Every token is an integer literal. */
  predicate AllInts(ts: seq<string>) {
    forall i :: 0 <= i < |ts| ==> IsIntLiteral(ts[i])
  }

  /** The line holds exactly `k` integer tokens. */
  predicate IntLine(line: string, k: nat) {
    |Split(line)| == k && AllInts(Split(line))
  }

  /** `line` is the wire form of `pr`: three integers, each one more than the
      corresponding field. */
  predicate Carries(line: string, pr: PlayerResult) {
    var ts := Split(line);
    && |ts| == 3
    && ParseInt(ts[0]) == Some(pr.playerId + 1)
    && ParseInt(ts[1]) == Some(pr.rank + 1)
    && ParseInt(ts[2]) == Some(pr.lastFrameAlive + 1)
  }

  /** `ids` are the tokens of `line`, each decreased by one. */
  predicate CarriesIds(line: string, ids: seq<int>) {
    var ts := Split(line);
    && |ids| == |ts|
    && forall j :: 0 <= j < |ids| ==> ParseInt(ts[j]) == Some(ids[j] + 1)
  }

  /** The number of result lines read: `numBots`, or fewer when the report
      ends first (the source slices, it does not check). */
  function ResultCount(lines: seq<string>, numBots: nat): (n: nat)
    ensures 2 + n <= |lines| || (|lines| < 2 && n == 0)
    ensures n <= numBots
    ensures |lines| >= 2 ==> n == numBots || 2 + n == |lines|
  {
    if |lines| < 2 then 0 else if numBots <= |lines| - 2 then numBots else |lines| - 2
  }

  /** Lines 55-56 can be read: a size line of two integers and a replay
      line of two tokens. */
  predicate HeaderWellFormed(lines: seq<string>) {
    && |lines| >= 2
    && IntLine(lines[0], 2)
    && |Split(lines[1])| == 2
  }

  /** Lines 58-68 can be read: result lines of three integers and, when lines
      remain after the results, a line of integer ids followed by at least
      one more line. */
  predicate BodyWellFormed(lines: seq<string>, numBots: nat) {
    && (forall i :: 2 <= i < |lines| && i < 2 + numBots ==> IntLine(lines[i], 3))
    && (|lines| > 2 + numBots ==>
          |lines| >= 4 + numBots && AllInts(Split(lines[2 + numBots])))
  }

  /** Everything `parse_output` checks except the seed. */
  predicate FrameWellFormed(lines: seq<string>, numBots: nat) {
    HeaderWellFormed(lines) && BodyWellFormed(lines, numBots)
  }

  /** The reports `parse_output` accepts: a well-formed frame whose seed,
      the second token of the replay line, is an integer. */
  predicate WellFormed(lines: seq<string>, numBots: nat) {
    FrameWellFormed(lines, numBots) && IsIntLiteral(Split(lines[1])[1])
  }

  // ---------------------------------------------------------------------------
  // The parser

  /** The first token of `ts` that is not an integer is at `k`. */
  predicate FirstNonInt(ts: seq<string>, k: int) {
    && 0 <= k < |ts|
    && !IsIntLiteral(ts[k])
    && forall j :: 0 <= j < k ==> IsIntLiteral(ts[j])
  }

  /** Every token converted with `int`; the first token that is not an
      integer raises. */
  function ParseInts(ts: seq<string>): (r: Result<seq<int>, Error>)
    ensures r.Success? <==> AllInts(ts)
    ensures r.Success? ==> |r.value| == |ts|
    ensures r.Success? ==> forall i :: 0 <= i < |ts| ==> ParseInt(ts[i]) == Some(r.value[i])
    ensures r.Failure? ==> exists k :: FirstNonInt(ts, k) && r.error == NotAnInteger(ts[k])
    decreases |ts|
  {
    if |ts| == 0 then
      Success([])
    else
      var v :- ParseInt(ts[0]).ToResult(NotAnInteger(ts[0]));
      var vs :- ParseInts(ts[1..]);
      Success([v] + vs)
  }

  /** One result line: all its tokens converted, then exactly three of them
      become a result, each one lower than on the wire. */
  function ParseRow(line: string): (r: Result<PlayerResult, Error>)
    ensures r.Success? <==> IntLine(line, 3)
    ensures r.Success? ==> Carries(line, r.value)
    ensures r.Failure? && AllInts(Split(line)) ==> r.error == WrongTokenCount(3, |Split(line)|)
    ensures !AllInts(Split(line)) ==> r == Failure(ParseInts(Split(line)).error)
  {
    var vs :- ParseInts(Split(line));
    if |vs| != 3 then Failure(WrongTokenCount(3, |vs|))
    else Success(PlayerResult(vs[0] - 1, vs[1] - 1, vs[2] - 1))
  }

  /** The result lines, in order; the first malformed one raises. */
  function ParseRows(ls: seq<string>): (r: Result<seq<PlayerResult>, Error>)
    ensures r.Success? <==> forall i :: 0 <= i < |ls| ==> IntLine(ls[i], 3)
    ensures r.Success? ==> |r.value| == |ls|
    ensures r.Success? ==> forall i :: 0 <= i < |ls| ==> Carries(ls[i], r.value[i])
    decreases |ls|
  {
    if |ls| == 0 then
      Success([])
    else
      var pr :- ParseRow(ls[0]);
      var prs :- ParseRows(ls[1..]);
      Success([pr] + prs)
  }

  /** A failure of the result lines is the failure of the first line that
      does not hold three integers. */
  lemma {:induction false} FirstBadRow(ls: seq<string>)
    requires ParseRows(ls).Failure?
    ensures exists i ::
      && 0 <= i < |ls| && !IntLine(ls[i], 3)
      && (forall m :: 0 <= m < i ==> IntLine(ls[m], 3))
      && ParseRows(ls) == Failure(ParseRow(ls[i]).error)
    decreases |ls|
  {
    if ParseRow(ls[0]).Failure? {
      assert !IntLine(ls[0], 3);
    } else {
      FirstBadRow(ls[1..]);
      var i :| 0 <= i < |ls[1..]| && !IntLine(ls[1..][i], 3)
        && (forall m :: 0 <= m < i ==> IntLine(ls[1..][m], 3)) && ParseRows(ls[1..]) == Failure(ParseRow(ls[1..][i]).error);
      assert forall m :: 1 <= m < i + 1 ==> ls[m] == ls[1..][m - 1];
      assert ls[i + 1] == ls[1..][i];
    }
  }

  /** Every element decreased by one: the wire's 1-based ids made 0-based. */
  function Decrement(xs: seq<int>): (ys: seq<int>)
    ensures |ys| == |xs|
    ensures forall i :: 0 <= i < |xs| ==> ys[i] + 1 == xs[i]
  {
    seq(|xs|, i requires 0 <= i < |xs| => xs[i] - 1)
  }

  /** The optional timeout block after the results; `at` is the index of its
      first line among all lines. */
  function ParseTimeouts(extra: seq<string>, at: nat): (r: Result<(seq<int>, seq<string>), Error>)
    ensures |extra| == 0 ==> r == Success(([], []))
    ensures r.Success? <==> |extra| == 0 || (|extra| >= 2 && AllInts(Split(extra[0])))
    ensures r.Success? && |extra| > 0 ==> CarriesIds(extra[0], r.value.0) && r.value.1 == Split(extra[1])
    ensures |extra| == 1 && AllInts(Split(extra[0])) ==> r == Failure(MissingLine(at + 1))
    ensures |extra| > 0 && !AllInts(Split(extra[0])) ==> r == Failure(ParseInts(Split(extra[0])).error)
  {
    if |extra| == 0 then
      Success(([], []))
    else
      var ids :- ParseInts(Split(extra[0]));
      if |extra| == 1 then Failure(MissingLine(at + 1))
      else Success((Decrement(ids), Split(extra[1])))
  }

  /** The first two lines, before the seed is converted. */
  datatype Header = Header(width: int, height: int, hltToken: string, seedToken: string)

  /** Lines 55-56: `[width, height]` from the first line, `[hlt_file, seed]`
      from the second, each `pop` raising when no line is left. */
  function ParseHeader(lines: seq<string>): (r: Result<Header, Error>)
    ensures r.Success? <==> HeaderWellFormed(lines)
    ensures |lines| == 0 ==> r == Failure(MissingLine(0))
    ensures |lines| == 1 && IntLine(lines[0], 2) ==> r == Failure(MissingLine(1))
    ensures |lines| > 0 && AllInts(Split(lines[0])) && |Split(lines[0])| != 2 ==>
      r == Failure(WrongTokenCount(2, |Split(lines[0])|))
    ensures |lines| > 0 && !AllInts(Split(lines[0])) ==> r == Failure(ParseInts(Split(lines[0])).error)
    ensures |lines| >= 2 && IntLine(lines[0], 2) && |Split(lines[1])| != 2 ==>
      r == Failure(WrongTokenCount(2, |Split(lines[1])|))
    ensures r.Success? ==>
      && ParseInt(Split(lines[0])[0]) == Some(r.value.width)
      && ParseInt(Split(lines[0])[1]) == Some(r.value.height)
      && Split(lines[1]) == [r.value.hltToken, r.value.seedToken]
  {
    if |lines| == 0 then Failure(MissingLine(0)) else
    var dims :- ParseInts(Split(lines[0]));
    if |dims| != 2 then Failure(WrongTokenCount(2, |dims|)) else
    if |lines| == 1 then Failure(MissingLine(1)) else
    var head := Split(lines[1]);
    if |head| != 2 then Failure(WrongTokenCount(2, |head|)) else
    Success(Header(dims[0], dims[1], head[0], head[1]))
  }

  /** The two steps of the body succeed exactly on a well-formed body. */
  lemma BodyShape(lines: seq<string>, numBots: nat)
    requires |lines| >= 2
    ensures var n := ResultCount(lines, numBots);
      (ParseRows(lines[2..2 + n]).Success? && ParseTimeouts(lines[2 + n..], 2 + n).Success?) <==>
        BodyWellFormed(lines, numBots)
  {
    var n := ResultCount(lines, numBots);
    var ls := lines[2..2 + n];
    assert forall i :: 2 <= i < |lines| && i < 2 + numBots ==> lines[i] == ls[i - 2];
    if |lines| > 2 + numBots {
      assert lines[2 + n..][0] == lines[2 + numBots];
    }
  }

  /** Lines 58-68: the results and the optional timeout block. */
  function ParseBody(lines: seq<string>, numBots: nat): (r: Result<(seq<PlayerResult>, seq<int>, seq<string>), Error>)
    requires |lines| >= 2
    ensures r.Success? <==> BodyWellFormed(lines, numBots)
    ensures |lines| == 3 + numBots ==> r.Failure?
    ensures r.Success? ==>
      && |r.value.0| == ResultCount(lines, numBots)
      && forall i :: 0 <= i < |r.value.0| ==> Carries(lines[2 + i], r.value.0[i])
    ensures r.Success? && |lines| <= 2 + numBots ==> r.value.1 == [] && r.value.2 == []
    ensures r.Success? && |lines| > 2 + numBots ==>
      && CarriesIds(lines[2 + numBots], r.value.1)
      && r.value.2 == Split(lines[3 + numBots])
  {
    var n := ResultCount(lines, numBots);
    BodyShape(lines, numBots);
    var results :- ParseRows(lines[2..2 + n]);
    var timeouts :- ParseTimeouts(lines[2 + n..], 2 + n);
    Success((results, timeouts.0, timeouts.1))
  }

  /** The body raises what its first failing step raises: a bad result line
      before anything in the timeout block. */
  lemma BodyErrors(lines: seq<string>, numBots: nat)
    requires |lines| >= 2
    ensures var n := ResultCount(lines, numBots);
      && (ParseRows(lines[2..2 + n]).Failure? ==>
            ParseBody(lines, numBots) == Failure(ParseRows(lines[2..2 + n]).error))
      && (ParseRows(lines[2..2 + n]).Success? && ParseTimeouts(lines[2 + n..], 2 + n).Failure? ==>
            ParseBody(lines, numBots) == Failure(ParseTimeouts(lines[2 + n..], 2 + n).error))
  {
  }

  /** `parse_output` over the lines of the report. `relPath` stands for
      `os.path.relpath`, whose result depends on the working directory. The
      seed is converted last, after every other line has been read. */
  function ParseLines(lines: seq<string>, numBots: nat, relPath: string -> string): (r: Result<Output, Error>)
    ensures r.Success? <==> WellFormed(lines, numBots)
    ensures |lines| == 0 ==> r == Failure(MissingLine(0))
    ensures |lines| == 1 && IntLine(lines[0], 2) ==> r == Failure(MissingLine(1))
    ensures |lines| == 3 + numBots ==> r.Failure?
    ensures |lines| > 0 && AllInts(Split(lines[0])) && |Split(lines[0])| != 2 ==>
      r == Failure(WrongTokenCount(2, |Split(lines[0])|))
    ensures !HeaderWellFormed(lines) ==> r == Failure(ParseHeader(lines).error)
    ensures HeaderWellFormed(lines) && !BodyWellFormed(lines, numBots) ==>
      r == Failure(ParseBody(lines, numBots).error)
    ensures FrameWellFormed(lines, numBots) && !IsIntLiteral(Split(lines[1])[1]) ==>
      r == Failure(NotAnInteger(Split(lines[1])[1]))
    ensures r.Success? ==>
      && ParseInt(Split(lines[0])[0]) == Some(r.value.width)
      && ParseInt(Split(lines[0])[1]) == Some(r.value.height)
      && r.value.hltFile == relPath(Split(lines[1])[0])
      && ParseInt(Split(lines[1])[1]) == Some(r.value.seed)
    ensures r.Success? ==>
      && |r.value.results| == ResultCount(lines, numBots)
      && forall i :: 0 <= i < |r.value.results| ==> Carries(lines[2 + i], r.value.results[i])
    ensures r.Success? && |lines| <= 2 + numBots ==>
      r.value.timeoutBots == [] && r.value.timeoutLogs == []
    ensures r.Success? && |lines| > 2 + numBots ==>
      && CarriesIds(lines[2 + numBots], r.value.timeoutBots)
      && r.value.timeoutLogs == Split(lines[3 + numBots])
  {
    var h :- ParseHeader(lines);
    var body :- ParseBody(lines, numBots);
    var seed :- ParseInt(h.seedToken).ToResult(NotAnInteger(h.seedToken));
    Success(Output(h.width, h.height, relPath(h.hltToken), seed, body.0, body.1, body.2))
  }

  /** Once the log line has been read, whatever follows it is never looked
      at: appending lines changes neither the result nor the error. */
  lemma TrailingLinesIgnored(lines: seq<string>, more: seq<string>, numBots: nat, relPath: string -> string)
    requires |lines| >= 4 + numBots
    ensures ParseLines(lines + more, numBots, relPath) == ParseLines(lines, numBots, relPath)
  {
    var all := lines + more;
    assert all[0] == lines[0] && all[1] == lines[1];
    assert ParseHeader(all) == ParseHeader(lines);
    assert ResultCount(all, numBots) == numBots == ResultCount(lines, numBots);
    assert all[2..2 + numBots] == lines[2..2 + numBots];
    var extra, extra' := lines[2 + numBots..], all[2 + numBots..];
    assert extra'[0] == extra[0] && extra'[1] == extra[1];
    assert ParseTimeouts(extra', 2 + numBots) == ParseTimeouts(extra, 2 + numBots);
    assert ParseBody(all, numBots) == ParseBody(lines, numBots);
  }

  /** `parse_output(result, num_bots)` on the simulator's whole stdout. */
  function ParseOutput(text: string, numBots: nat, relPath: string -> string): (r: Result<Output, Error>)
    ensures r.Success? <==> WellFormed(SplitLines(text), numBots)
    ensures r.Success? ==> |r.value.results| <= numBots
  {
    ParseLines(SplitLines(text), numBots, relPath)
  }
}
