/** One layout a report can have: single spaces between tokens, every line
    ended by "\n". The parser is checked against it as its inverse. */
module Wire {
  import opened Wrappers
  import opened Text
  import opened Decimal
  import opened Records
  import opened Parser

  /** The content of one simulator report, 0-based as the parser yields it.
      `timeouts` is the optional block: the timed-out ids and their logs. */
  datatype Report = Report(
    width: int,
    height: int,
    replay: string,
    seed: int,
    results: seq<PlayerResult>,
    timeouts: Option<(seq<int>, seq<string>)>)

  /** Paths are single tokens, so that `split` keeps them whole. */
  predicate ValidReport(rep: Report) {
    && IsWord(rep.replay)
    && (rep.timeouts.Some? ==>
          forall j :: 0 <= j < |rep.timeouts.value.1| ==> IsWord(rep.timeouts.value.1[j]))
  }

  /** The wire line of one result: each field plus one. */
  function RowLine(pr: PlayerResult): string {
    JoinWords([Show(pr.playerId + 1), Show(pr.rank + 1), Show(pr.lastFrameAlive + 1)])
  }

  /** The wire tokens of timed-out ids: each id plus one. */
  function IdTokens(ids: seq<int>): (ts: seq<string>)
    ensures |ts| == |ids|
  {
    seq(|ids|, i requires 0 <= i < |ids| => Show(ids[i] + 1))
  }

  function RenderLines(rep: Report): seq<string> {
    [JoinWords([Show(rep.width), Show(rep.height)]), JoinWords([rep.replay, Show(rep.seed)])]
    + seq(|rep.results|, i requires 0 <= i < |rep.results| => RowLine(rep.results[i]))
    + (match rep.timeouts
       case None => []
       case Some((ids, logs)) => [JoinWords(IdTokens(ids)), JoinWords(logs)])
  }

  /** The report in this layout: single spaces, every line ended by "\n". */
  function Render(rep: Report): string {
    JoinLines(RenderLines(rep))
  }

  /** The `Output` a report should parse to. */
  function Expected(rep: Report, relPath: string -> string): Output {
    Output(rep.width, rep.height, relPath(rep.replay), rep.seed, rep.results,
           if rep.timeouts.Some? then rep.timeouts.value.0 else [],
           if rep.timeouts.Some? then rep.timeouts.value.1 else [])
  }

  // ---------------------------------------------------------------------------

  lemma ShowWords(a: int, b: int)
    ensures Split(JoinWords([Show(a), Show(b)])) == [Show(a), Show(b)]
  {
    ShowIsWord(a);
    ShowIsWord(b);
    SplitJoinWords([Show(a), Show(b)]);
  }

  lemma RowLineCarries(pr: PlayerResult)
    ensures IntLine(RowLine(pr), 3)
    ensures Carries(RowLine(pr), pr)
  {
    var ts := [Show(pr.playerId + 1), Show(pr.rank + 1), Show(pr.lastFrameAlive + 1)];
    assert RowLine(pr) == JoinWords(ts);
    ShowIsWord(pr.playerId + 1);
    ShowIsWord(pr.rank + 1);
    ShowIsWord(pr.lastFrameAlive + 1);
    SplitJoinWords(ts);
    assert Split(RowLine(pr)) == ts;
    ParseShow(pr.playerId + 1);
    ParseShow(pr.rank + 1);
    ParseShow(pr.lastFrameAlive + 1);
  }

  lemma IdLineCarries(ids: seq<int>)
    ensures AllInts(Split(JoinWords(IdTokens(ids))))
    ensures CarriesIds(JoinWords(IdTokens(ids)), ids)
  {
    var ts := IdTokens(ids);
    forall j | 0 <= j < |ts|
      ensures IsWord(ts[j]) && ParseInt(ts[j]) == Some(ids[j] + 1)
    {
      ShowIsWord(ids[j] + 1);
      ParseShow(ids[j] + 1);
    }
    SplitJoinWords(ts);
  }

  /** Reading the rendered timeout ids back and making them 0-based gives the
      ids: `Decrement` undoes the simulator's 1-based numbering. */
  lemma DecrementIdTokens(ids: seq<int>)
    ensures var parsed := ParseInts(Split(JoinWords(IdTokens(ids))));
            parsed.Success? && Decrement(parsed.value) == ids
  {
    IdLineCarries(ids);
    var parsed := ParseInts(Split(JoinWords(IdTokens(ids))));
    assert forall j :: 0 <= j < |ids| ==> parsed.value[j] == ids[j] + 1;
  }

  /** A result line names exactly one result. */
  lemma CarriesUnique(line: string, a: PlayerResult, b: PlayerResult)
    requires Carries(line, a) && Carries(line, b)
    ensures a == b
  {
  }

  /** The roster size a report can be parsed against: its own result count,
      or more when no timeout block follows (the missing result lines are
      not an error for the parser). */
  predicate FitsRoster(rep: Report, numBots: nat) {
    numBots == |rep.results| || (rep.timeouts.None? && numBots > |rep.results|)
  }

  /** What the rendered lines say, token by token. */
  lemma RenderedTokens(rep: Report)
    requires ValidReport(rep)
    ensures var lines, n := RenderLines(rep), |rep.results|;
      && |lines| == 2 + n + (if rep.timeouts.Some? then 2 else 0)
      && Split(lines[0]) == [Show(rep.width), Show(rep.height)]
      && Split(lines[1]) == [rep.replay, Show(rep.seed)]
      && (forall i :: 2 <= i < 2 + n ==> IntLine(lines[i], 3) && Carries(lines[i], rep.results[i - 2]))
      && (rep.timeouts.Some? ==>
            && AllInts(Split(lines[2 + n]))
            && CarriesIds(lines[2 + n], rep.timeouts.value.0)
            && Split(lines[3 + n]) == rep.timeouts.value.1)
  {
    var lines := RenderLines(rep);
    var n := |rep.results|;
    ShowWords(rep.width, rep.height);
    ShowIsWord(rep.seed);
    SplitJoinWords([rep.replay, Show(rep.seed)]);
    forall i | 2 <= i < 2 + n
      ensures IntLine(lines[i], 3) && Carries(lines[i], rep.results[i - 2])
    {
      assert lines[i] == RowLine(rep.results[i - 2]);
      RowLineCarries(rep.results[i - 2]);
    }
    if rep.timeouts.Some? {
      var (ids, logs) := rep.timeouts.value;
      assert lines[2 + n] == JoinWords(IdTokens(ids));
      assert lines[3 + n] == JoinWords(logs);
      IdLineCarries(ids);
      SplitJoinWords(logs);
    }
  }

  /** Parsing the lines of a rendered report gives back its content. */
  lemma ParseRenderLines(rep: Report, numBots: nat, relPath: string -> string)
    requires ValidReport(rep) && FitsRoster(rep, numBots)
    ensures ParseLines(RenderLines(rep), numBots, relPath) == Success(Expected(rep, relPath))
  {
    var lines := RenderLines(rep);
    var n := |rep.results|;
    RenderedTokens(rep);
    ParseShow(rep.width);
    ParseShow(rep.height);
    ParseShow(rep.seed);
    assert WellFormed(lines, numBots);
    var r := ParseLines(lines, numBots, relPath);
    var e := Expected(rep, relPath);
    assert r.value.results == e.results by {
      forall i | 0 <= i < n
        ensures r.value.results[i] == e.results[i]
      {
        CarriesUnique(lines[2 + i], r.value.results[i], e.results[i]);
      }
    }
    if rep.timeouts.Some? {
      assert r.value.timeoutBots == e.timeoutBots;
    }
  }

  lemma RenderedLinesAreLines(rep: Report)
    requires ValidReport(rep)
    ensures forall i :: 0 <= i < |RenderLines(rep)| ==> IsLine(RenderLines(rep)[i])
  {
    var lines := RenderLines(rep);
    ShowIsWord(rep.width);
    ShowIsWord(rep.height);
    ShowIsWord(rep.seed);
    JoinWordsIsLine([Show(rep.width), Show(rep.height)]);
    JoinWordsIsLine([rep.replay, Show(rep.seed)]);
    forall i | 2 <= i < 2 + |rep.results|
      ensures IsLine(lines[i])
    {
      var pr := rep.results[i - 2];
      ShowIsWord(pr.playerId + 1);
      ShowIsWord(pr.rank + 1);
      ShowIsWord(pr.lastFrameAlive + 1);
      JoinWordsIsLine([Show(pr.playerId + 1), Show(pr.rank + 1), Show(pr.lastFrameAlive + 1)]);
    }
    if rep.timeouts.Some? {
      var (ids, logs) := rep.timeouts.value;
      var ts := IdTokens(ids);
      forall j | 0 <= j < |ts|
        ensures IsWord(ts[j])
      {
        ShowIsWord(ids[j] + 1);
      }
      JoinWordsIsLine(ts);
      JoinWordsIsLine(logs);
    }
  }

  /** The round trip over the whole stdout text: `parse_output` recovers
      everything a report in this layout holds, shifted to 0-based. */
  lemma ParseRender(rep: Report, numBots: nat, relPath: string -> string)
    requires ValidReport(rep) && FitsRoster(rep, numBots)
    ensures ParseOutput(Render(rep), numBots, relPath) == Success(Expected(rep, relPath))
  {
    RenderedLinesAreLines(rep);
    SplitJoinLines(RenderLines(rep));
    ParseRenderLines(rep, numBots, relPath);
  }
}
