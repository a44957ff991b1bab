/** The pure parts of `run_match` (match.py:81-119): the simulator command
    line and the `Match` built from the simulator's report. */
module Runner {
  import opened Wrappers
  import opened Records
  import opened Parser
  import opened Assembly

  /** The sandboxed command each bot runs under (line 84), before its image. */
  const DockerRun: string := "docker run --rm -i -c=1024 "

  /** The fixed head of the simulator command (line 86). */
  function CommandHead(mapSize: string): seq<string> {
    ["halite", "-q", "-d", mapSize, "-o"]
  }

  /** Lines 82-84: two arguments per bot, its run command then its name. */
  function BotArgs(bots: seq<Bot>): (args: seq<string>)
    ensures |args| == 2 * |bots|
    ensures forall i :: 0 <= i < |bots| ==>
      args[2 * i] == DockerRun + bots[i].dockerImage && args[2 * i + 1] == bots[i].name
    decreases |bots|
  {
    if |bots| == 0 then []
    else
      var last := bots[|bots| - 1];
      BotArgs(bots[..|bots| - 1]) + [DockerRun + last.dockerImage, last.name]
  }

  /** Line 86: the simulator command line. */
  function Command(bots: seq<Bot>, mapSize: string): (cmd: seq<string>)
    ensures |cmd| == 5 + 2 * |bots|
    ensures cmd[..5] == CommandHead(mapSize)
    ensures forall i :: 0 <= i < |bots| ==>
      cmd[5 + 2 * i] == DockerRun + bots[i].dockerImage && cmd[6 + 2 * i] == bots[i].name
  {
    CommandHead(mapSize) + BotArgs(bots)
  }

  /** The roster read back from a command line, when it has the shape
      `Command` produces. */
  function RosterOf(cmd: seq<string>): Option<seq<Bot>>
  {
    if |cmd| < 5 || (|cmd| - 5) % 2 != 0 then None
    else
      var n := (|cmd| - 5) / 2;
      if forall i :: 0 <= i < n ==> |DockerRun| <= |cmd[5 + 2 * i]| && cmd[5 + 2 * i][..|DockerRun|] == DockerRun then
        Some(seq(n, i requires 0 <= i < n => Bot(cmd[6 + 2 * i], cmd[5 + 2 * i][|DockerRun|..])))
      else
        None
  }

  /** The command line determines the roster: names, images and their order. */
  lemma RosterOfCommand(bots: seq<Bot>, mapSize: string)
    ensures RosterOf(Command(bots, mapSize)) == Some(bots)
  {
    var cmd := Command(bots, mapSize);
    forall i | 0 <= i < |bots|
      ensures |DockerRun| <= |cmd[5 + 2 * i]| && cmd[5 + 2 * i][..|DockerRun|] == DockerRun
      ensures cmd[5 + 2 * i][|DockerRun|..] == bots[i].dockerImage
    {
      assert cmd[5 + 2 * i] == DockerRun + bots[i].dockerImage;
    }
    var n := |bots|;
    assert (|cmd| - 5) / 2 == n && (|cmd| - 5) % 2 == 0;
    var read := seq(n, i requires 0 <= i < n => Bot(cmd[6 + 2 * i], cmd[5 + 2 * i][|DockerRun|..]));
    assert read == bots;
  }

  /** `run_match(bots, map_size, match_id)`. The simulator run (`check_output`)
      is the parameter `halite`, `None` standing for a failed run; `date` is
      the clock reading of line 113; `relPath` is `os.path.relpath`. */
  function RunMatch(bots: seq<Bot>, mapSize: string, matchId: string, date: string,
                    halite: seq<string> -> Option<string>, relPath: string -> string): (r: Result<Match, Error>)
    ensures halite(Command(bots, mapSize)).None? ==> r == Failure(SimulatorFailed)
    ensures r.Success? ==>
      && halite(Command(bots, mapSize)).Some?
      && ParseOutput(halite(Command(bots, mapSize)).value, |bots|, relPath).Success?
    ensures r.Success? ==>
      var out := ParseOutput(halite(Command(bots, mapSize)).value, |bots|, relPath).value;
      && r.value.id == matchId
      && r.value.date == date
      && r.value.replay == out.hltFile
      && r.value.seed == out.seed
      && r.value.width == out.width
      && r.value.height == out.height
      && |r.value.matchResults| == |bots|
      && |out.results| == |bots|
      && forall j :: 0 <= j < |bots| ==> Reports(bots[j], out.results[j], out, relPath, r.value.matchResults[j])
    ensures halite(Command(bots, mapSize)).Some? ==>
      var parsed := ParseOutput(halite(Command(bots, mapSize)).value, |bots|, relPath);
      && (r.Success? <==> parsed.Success? && forall j :: 0 <= j < |bots| ==> !Fails(parsed.value, j))
      && (parsed.Failure? ==> r == Failure(parsed.error))
      && (parsed.Success? && r.Failure? ==>
            exists j :: 0 <= j < |bots| && Fails(parsed.value, j)
              && (forall m :: 0 <= m < j ==> !Fails(parsed.value, m))
              && r.error == ErrorAt(parsed.value, j))
  {
    var stdout :- halite(Command(bots, mapSize)).ToResult(SimulatorFailed);
    var out :- ParseOutput(stdout, |bots|, relPath);
    var results :- Assemble(bots, out, relPath);
    Success(Match(matchId, date, out.hltFile, out.seed, out.width, out.height, results))
  }
}
