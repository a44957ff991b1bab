/** The result-assembly loop of `run_match` (match.py:92-109): one
    `MatchResult` per roster bot, with timeout logs cross-referenced. */
module Assembly {
  import opened Wrappers
  import opened Records

  /** `k` is where `x` first occurs in `s`, the index `s.index(x)` returns. */
  predicate FirstIndex(s: seq<int>, x: int, k: int) {
    && 0 <= k < |s|
    && s[k] == x
    && forall j :: 0 <= j < k ==> s[j] != x
  }

  /** `s.index(x)`. */
  function IndexOf(s: seq<int>, x: int): (k: nat)
    requires x in s
    ensures FirstIndex(s, x, k)
    decreases |s|
  {
    if s[0] == x then 0 else 1 + IndexOf(s[1..], x)
  }

  /** The log of a timed-out player can be looked up: its first position
      among the timed-out ids is within the log list. */
  ghost predicate LogAvailable(out: Output, id: int) {
    forall k :: FirstIndex(out.timeoutBots, id, k) ==> k < |out.timeoutLogs|
  }

  /** Lines 96-99 for the bot at roster index `bot` whose player id is `id`:
      the relative path of the log co-indexed with the first occurrence of
      `id` among the timed-out ids, or no log when `id` did not time out. */
  function ErrorLog(id: int, out: Output, relPath: string -> string, bot: nat): (r: Result<Option<string>, Error>)
    ensures r.Success? <==> LogAvailable(out, id)
    ensures r.Success? ==> (r.value.Some? <==> id in out.timeoutBots)
    ensures forall k :: FirstIndex(out.timeoutBots, id, k) ==>
      if k < |out.timeoutLogs| then r == Success(Some(relPath(out.timeoutLogs[k])))
      else r == Failure(MissingLog(bot, k))
  {
    if id in out.timeoutBots then
      var k := IndexOf(out.timeoutBots, id);
      if k < |out.timeoutLogs| then Success(Some(relPath(out.timeoutLogs[k])))
      else Failure(MissingLog(bot, k))
    else
      Success(None)
  }

  /** `mr` is what the source reports for roster entry `bot` whose simulator
      result is `pr`: the roster's name and image, the rank back to 1-based,
      the last frame as parsed, and a log exactly when the player timed out. */
  ghost predicate Reports(bot: Bot, pr: PlayerResult, out: Output, relPath: string -> string, mr: MatchResult) {
    && mr.botName == bot.name
    && mr.dockerImage == bot.dockerImage
    && mr.rank == pr.rank + 1
    && mr.lastFrameAlive == pr.lastFrameAlive
    && (mr.errorLog.Some? <==> pr.playerId in out.timeoutBots)
    && forall k :: FirstIndex(out.timeoutBots, pr.playerId, k) ==>
         k < |out.timeoutLogs| && mr.errorLog == Some(relPath(out.timeoutLogs[k]))
  }

  /** The roster entry at `j` makes the loop raise: its result is missing or
      its log cannot be looked up. */
  ghost predicate Fails(out: Output, j: nat) {
    j >= |out.results| || !LogAvailable(out, out.results[j].playerId)
  }

  /** The exception the loop raises at roster index `j`. */
  function ErrorAt(out: Output, j: nat): Error
    requires Fails(out, j)
  {
    if j >= |out.results| then MissingResult(j)
    else MissingLog(j, IndexOf(out.timeoutBots, out.results[j].playerId))
  }

  /** The loop over the first `n` roster entries: their match results, or
      the exception raised at the first entry that fails. */
  function AssemblePrefix(bots: seq<Bot>, out: Output, relPath: string -> string, n: nat): (r: Result<seq<MatchResult>, Error>)
    requires n <= |bots|
    ensures r.Success? <==> forall j :: 0 <= j < n ==> !Fails(out, j)
    ensures r.Success? ==> |r.value| == n
    ensures r.Success? ==> forall j :: 0 <= j < n ==>
      j < |out.results| && Reports(bots[j], out.results[j], out, relPath, r.value[j])
    ensures r.Failure? ==>
      exists j :: 0 <= j < n && Fails(out, j)
        && (forall m :: 0 <= m < j ==> !Fails(out, m)) && r.error == ErrorAt(out, j)
    decreases n
  {
    if n == 0 then
      Success([])
    else
      var done :- AssemblePrefix(bots, out, relPath, n - 1);
      var i := n - 1;
      if i >= |out.results| then
        assert Fails(out, i);
        Failure(MissingResult(i))
      else
        var pr := out.results[i];
        var log := ErrorLog(pr.playerId, out, relPath, i);
        if log.Failure? then
          assert FirstIndex(out.timeoutBots, pr.playerId, IndexOf(out.timeoutBots, pr.playerId));
          assert Fails(out, i) && log.error == ErrorAt(out, i);
          Failure(log.error)
        else
          var mr := MatchResult(bots[i].name, bots[i].dockerImage, pr.rank + 1, pr.lastFrameAlive, log.value);
          assert Reports(bots[i], pr, out, relPath, mr);
          Success(done + [mr])
  }

  /** The whole loop: the match results in roster order, or the first
      exception it raises. */
  function Assemble(bots: seq<Bot>, out: Output, relPath: string -> string): (r: Result<seq<MatchResult>, Error>)
    ensures r.Success? <==> forall j :: 0 <= j < |bots| ==> !Fails(out, j)
    ensures r.Success? ==> |r.value| == |bots|
    ensures r.Success? ==> forall j :: 0 <= j < |bots| ==>
      j < |out.results| && Reports(bots[j], out.results[j], out, relPath, r.value[j])
    ensures |out.results| < |bots| ==> r.Failure?
    ensures r.Failure? ==>
      exists j :: 0 <= j < |bots| && Fails(out, j)
        && (forall m :: 0 <= m < j ==> !Fails(out, m)) && r.error == ErrorAt(out, j)
  {
    assert |out.results| < |bots| ==> Fails(out, |out.results|);
    AssemblePrefix(bots, out, relPath, |bots|)
  }

  /** Without timeouts every bot with a result is assembled, so a short
      result list fails exactly at the first bot without a result. */
  lemma AssembleShort(bots: seq<Bot>, out: Output, relPath: string -> string)
    requires out.timeoutBots == [] && |out.results| < |bots|
    ensures Assemble(bots, out, relPath) == Failure(MissingResult(|out.results|))
  {
    var r := Assemble(bots, out, relPath);
    var j :| 0 <= j < |bots| && Fails(out, j) && (forall m :: 0 <= m < j ==> !Fails(out, m)) && r.error == ErrorAt(out, j);
    if j < |out.results| {
      assert false;
    } else if j > |out.results| {
      assert Fails(out, |out.results|);
      assert false;
    }
  }
}
