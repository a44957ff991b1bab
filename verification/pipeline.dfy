/** End-to-end properties of `run_match`: a report, rendered in one layout
    it can have and read back by the parser, assembled against the roster. */
module Pipeline {
  import opened Wrappers
  import opened Records
  import opened Parser
  import opened Assembly
  import opened Runner
  import opened Wire
  import opened Text
  import opened Decimal

  /** A report without a timeout block, one result per bot: the match
      succeeds, reports every bot in roster order with its rank back to
      1-based, its last frame as parsed, and no error log. */
  lemma RunMatchWithoutTimeouts(bots: seq<Bot>, mapSize: string, matchId: string, date: string,
                                halite: seq<string> -> Option<string>, relPath: string -> string, rep: Report)
    requires ValidReport(rep) && rep.timeouts.None? && |rep.results| == |bots|
    requires halite(Command(bots, mapSize)) == Some(Render(rep))
    ensures RunMatch(bots, mapSize, matchId, date, halite, relPath).Success?
    ensures var m := RunMatch(bots, mapSize, matchId, date, halite, relPath).value;
      && m == Match(matchId, date, relPath(rep.replay), rep.seed, rep.width, rep.height, m.matchResults)
      && |m.matchResults| == |bots|
      && forall i :: 0 <= i < |bots| ==>
           m.matchResults[i] == MatchResult(bots[i].name, bots[i].dockerImage,
                                            rep.results[i].rank + 1, rep.results[i].lastFrameAlive, None)
  {
    ParseRender(rep, |bots|, relPath);
    var out := Expected(rep, relPath);
    assert out.timeoutBots == [];
    assert forall j :: 0 <= j < |bots| ==> !Fails(out, j);
  }

  /** A report with a timeout block whose log list covers its id list: every
      bot whose player id timed out gets the log co-indexed with the id's
      first occurrence, and no other bot gets a log. */
  lemma RunMatchWithTimeouts(bots: seq<Bot>, mapSize: string, matchId: string, date: string,
                             halite: seq<string> -> Option<string>, relPath: string -> string, rep: Report)
    requires ValidReport(rep) && |rep.results| == |bots|
    requires rep.timeouts.Some? && |rep.timeouts.value.0| <= |rep.timeouts.value.1|
    requires halite(Command(bots, mapSize)) == Some(Render(rep))
    ensures RunMatch(bots, mapSize, matchId, date, halite, relPath).Success?
    ensures var m := RunMatch(bots, mapSize, matchId, date, halite, relPath).value;
      var (ids, logs) := rep.timeouts.value;
      && |m.matchResults| == |bots|
      && m == Match(matchId, date, relPath(rep.replay), rep.seed, rep.width, rep.height, m.matchResults)
      && forall i :: 0 <= i < |bots| ==>
           && m.matchResults[i].botName == bots[i].name
           && m.matchResults[i].dockerImage == bots[i].dockerImage
           && m.matchResults[i].rank == rep.results[i].rank + 1
           && m.matchResults[i].lastFrameAlive == rep.results[i].lastFrameAlive
           && (m.matchResults[i].errorLog.Some? <==> rep.results[i].playerId in ids)
           && forall k :: FirstIndex(ids, rep.results[i].playerId, k) ==>
                m.matchResults[i].errorLog == Some(relPath(logs[k]))
  {
    ParseRender(rep, |bots|, relPath);
    var out := Expected(rep, relPath);
    assert forall j :: 0 <= j < |bots| ==> !Fails(out, j);
  }

  /** Fewer result lines than bots is not a parse error: the report parses,
      and the match fails at the first bot without a result. */
  lemma RunMatchShortReport(bots: seq<Bot>, mapSize: string, matchId: string, date: string,
                            halite: seq<string> -> Option<string>, relPath: string -> string, rep: Report)
    requires ValidReport(rep) && rep.timeouts.None? && |rep.results| < |bots|
    requires halite(Command(bots, mapSize)) == Some(Render(rep))
    ensures ParseOutput(Render(rep), |bots|, relPath).Success?
    ensures RunMatch(bots, mapSize, matchId, date, halite, relPath) == Failure(MissingResult(|rep.results|))
  {
    ParseRender(rep, |bots|, relPath);
    AssembleShort(bots, Expected(rep, relPath), relPath);
  }

  /** An example report with two bots, both timed out. Its lines, each
      followed by "\n" when rendered. */
  const ExampleLines: seq<string> :=
    ["20 20", "replay.hlt 42", "1 1 300", "2 2 250", "1 2", "bot1.log bot2.log"]

  /** What the example lines say, 0-based. */
  const ExampleReport: Report := Report(20, 20, "replay.hlt", 42,
                                        [PlayerResult(0, 0, 299), PlayerResult(1, 1, 249)],
                                        Some(([0, 1], ["bot1.log", "bot2.log"])))

  lemma RowsRendered()
    ensures RowLine(PlayerResult(0, 0, 299)) == "1 1 300"
    ensures RowLine(PlayerResult(1, 1, 249)) == "2 2 250"
  {
  }
  lemma HeadRendered()
    ensures JoinWords([Show(20), Show(20)]) == "20 20"
    ensures JoinWords(["replay.hlt", Show(42)]) == "replay.hlt 42"
  {
  }
  lemma TimeoutsRendered()
    ensures JoinWords(IdTokens([0, 1])) == "1 2"
    ensures JoinWords(["bot1.log", "bot2.log"]) == "bot1.log bot2.log"
  {
  }
  lemma ExampleRendered()
    ensures RenderLines(ExampleReport) == ExampleLines
  {
    RowsRendered();
    HeadRendered();
    TimeoutsRendered();
    var rep := ExampleReport;
    var rows := seq(2, i requires 0 <= i < 2 => RowLine(rep.results[i]));
    assert rows == ["1 1 300", "2 2 250"];
  }
  /** Every field of a result line, the last frame included, is read one
      lower than written: "1 1 300" is player 0, rank 0, last frame 299. */
  lemma ParseExample(relPath: string -> string)
    ensures ParseOutput(JoinLines(ExampleLines), 2, relPath) == Success(Output(
      20, 20, relPath("replay.hlt"), 42,
      [PlayerResult(0, 0, 299), PlayerResult(1, 1, 249)],
      [0, 1], ["bot1.log", "bot2.log"]))
  {
    ExampleRendered();
    ParseRender(ExampleReport, 2, relPath);
  }
}
