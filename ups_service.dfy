/**
 * The Windows service around the policy: the optional NUT client handle, the
 * `running` flag, one poll cycle (`monitor_ups` with `connect_to_nut`), the
 * `SvcDoRun` loop and `SvcStop`.
 *
 * The NUT server is an oracle: each cycle is given whether connecting would
 * succeed, whether listing the UPS names would succeed, and what querying the
 * UPS variables returns. Whether `SvcStop` was called while a cycle ran is
 * given the same way.
 */
module Service {
  import opened Wrappers
  import opened PyText
  import opened Policy

  /** Seconds slept after a failed connect and after every cycle of the run loop. */
  const PollSeconds := 5

  const DefaultHost := "localhost"
  const DefaultPort := 3493
  const DefaultUser := "ups"
  const DefaultPassword := "password"
  const DefaultUpsName := "ups"

  /** A connected `PyNUTClient`, known by the arguments it was opened with. */
  datatype Handle = Handle(params: ConnParams)

  /** What `GetUPSVars` gives back: the variables, or an exception. */
  datatype Reply = Vars(snapshot: Snapshot) | QueryError

  /** The outside world during one cycle. */
  datatype Env = Env(connectOk: bool, namesOk: bool, reply: Reply, stopRequested: bool)

  datatype CycleResult = CycleResult(client: Option<Handle>, acts: seq<Action>)

  datatype RunResult = RunResult(client: Option<Handle>, running: bool, acts: seq<Action>, cycles: nat)

  /** The `PyNUTClient` arguments, each `nut_server` key falling back to its default. */
  function Params(server: NutServer): (p: ConnParams)
    ensures server.host.None? ==> p.host == DefaultHost
    ensures server.port.None? ==> p.port == DefaultPort
    ensures server.user.None? ==> p.login == DefaultUser
    ensures server.password.None? ==> p.password == DefaultPassword
    ensures server.host.Some? ==> p.host == server.host.value
    ensures server.port.Some? ==> p.port == server.port.value
    ensures server.user.Some? ==> p.login == server.user.value
    ensures server.password.Some? ==> p.password == server.password.value
  {
    ConnParams(server.host.GetOr(DefaultHost), server.port.GetOr(DefaultPort),
               server.user.GetOr(DefaultUser), server.password.GetOr(DefaultPassword))
  }

  /**
   * `connect_to_nut`: a missing `nut_server` raises before any connection is
   * tried; otherwise one connection attempt is made. Success stores the new
   * handle and reports 1000; any failure reports 1001 and keeps `client`.
   */
  function ConnectStep(config: Config, client: Option<Handle>, connectOk: bool): (r: CycleResult)
    ensures Count(r.acts, IsConnect) == (if config.nutServer.Some? then 1 else 0)
    ensures config.nutServer.Some? && connectOk ==> r.client == Some(Handle(Params(config.nutServer.value)))
    ensures !(config.nutServer.Some? && connectOk) ==> r.client == client
    ensures |r.acts| > 0 && (r.acts[|r.acts| - 1] == Log(EventConnectFailed) <==> !(config.nutServer.Some? && connectOk))
    ensures Count(r.acts, IsShutdown) == 0 && Count(r.acts, IsQuery) == 0
  {
    match config.nutServer
    case None => CycleResult(client, [Log(EventConnectFailed)])
    case Some(server) =>
      var p := Params(server);
      if connectOk then CycleResult(Some(Handle(p)), [Connect(p), Log(EventInfo)])
      else CycleResult(client, [Connect(p), Log(EventConnectFailed)])
  }

  /**
   * Lines 78-90 once `GetUPSVars` has answered: report the data (1000), then
   * the policy's actions.
   */
  function Fetched(config: Config, vars: Snapshot): (r: seq<Action>)
    ensures ShutdownCount(r) == (if ShutdownDue(config, vars) then 1 else 0)
    ensures Count(r, IsConnect) == 0
    ensures (Log(EventMonitorError) in r) <==> PolicyRaises(config, vars)
  {
    var tail := Evaluate(config, vars);
    Quiet([Log(EventInfo)]);
    CountsConcat([Log(EventInfo)], tail);
    [Log(EventInfo)] + tail
  }

  /**
   * Lines 75-93 with a client in hand: list the UPS names, look up the UPS
   * name, fetch its variables and apply the policy. An exception at any step
   * ends the cycle with event 1004.
   */
  function QueryStep(config: Config, namesOk: bool, reply: Reply): (r: seq<Action>)
    ensures |r| > 0 && r[0] == ListUps
    ensures ShutdownCount(r) ==
              (if namesOk && config.nutServer.Some? && reply.Vars? && ShutdownDue(config, reply.snapshot) then 1 else 0)
    ensures Count(r, IsConnect) == 0
    ensures (Log(EventMonitorError) in r) <==>
              !namesOk || config.nutServer.None? || reply.QueryError? || PolicyRaises(config, reply.snapshot)
  {
    Quiet([Log(EventMonitorError)]);
    CountZero([ListUps, Log(EventMonitorError)], IsShutdown);
    CountZero([ListUps, Log(EventMonitorError)], IsConnect);
    CountZero([ListUps, Log(EventInfo), Log(EventMonitorError)], IsShutdown);
    CountZero([ListUps, Log(EventInfo), Log(EventMonitorError)], IsConnect);
    if !namesOk then
      [ListUps, Log(EventMonitorError)]
    else
      match config.nutServer
      case None => [ListUps, Log(EventInfo), Log(EventMonitorError)]
      case Some(server) =>
        var fetch := [ListUps, Log(EventInfo), QueryVars(server.upsName.GetOr(DefaultUpsName))];
        CountZero(fetch, IsShutdown);
        CountZero(fetch, IsConnect);
        match reply
        case QueryError =>
          CountsConcat(fetch, [Log(EventMonitorError)]);
          fetch + [Log(EventMonitorError)]
        case Vars(vars) =>
          var tail := Fetched(config, vars);
          CountsConcat(fetch, tail);
          fetch + tail
  }

  /** When a cycle starting from `client` ends with a shutdown command. */
  predicate CycleShutsDown(config: Config, client: Option<Handle>, env: Env) {
    (client.Some? || env.connectOk) && config.nutServer.Some? && env.namesOk &&
    env.reply.Vars? && ShutdownDue(config, env.reply.snapshot)
  }

  /** `monitor_ups`: one poll cycle from the handle `client`. */
  function Cycle(config: Config, client: Option<Handle>, env: Env): (r: CycleResult)
    ensures client.Some? ==> r.client == client
    ensures client.None? && config.nutServer.Some? && env.connectOk ==>
              r.client == Some(Handle(Params(config.nutServer.value)))
    ensures client.None? && !(config.nutServer.Some? && env.connectOk) ==> r.client.None?
  {
    if client.None? then
      var c := ConnectStep(config, client, env.connectOk);
      if c.client.None? then CycleResult(None, c.acts + [Wait(PollSeconds)])
      else CycleResult(c.client, c.acts + QueryStep(config, env.namesOk, env.reply))
    else
      CycleResult(client, QueryStep(config, env.namesOk, env.reply))
  }

  /** What one poll cycle does to the handle, and which actions it takes. */
  lemma CycleFacts(config: Config, client: Option<Handle>, env: Env)
    ensures var r := Cycle(config, client, env);
      |r.acts| > 0 &&
      // A handle, once held, is kept: errors while querying are only reported.
      (client.Some? ==> r.client == client && Count(r.acts, IsConnect) == 0) &&
      // Without a handle, exactly one connection is attempted (none when `nut_server` is missing).
      (client.None? ==> Count(r.acts, IsConnect) == (if config.nutServer.Some? then 1 else 0)) &&
      (client.None? ==> (r.client.Some? <==> env.connectOk && config.nutServer.Some?)) &&
      // A failed connect ends the cycle: nothing is queried, nothing shut down, then the 5 s wait.
      (r.client.None? ==>
         Count(r.acts, IsQuery) == 0 && ShutdownCount(r.acts) == 0 &&
         r.acts[|r.acts| - 1] == Wait(PollSeconds)) &&
      ShutdownCount(r.acts) == (if CycleShutsDown(config, client, env) then 1 else 0)
  {
    if client.None? {
      var c := ConnectStep(config, client, env.connectOk);
      if c.client.None? {
        CountConcat(c.acts, [Wait(PollSeconds)], IsConnect);
        CountConcat(c.acts, [Wait(PollSeconds)], IsShutdown);
        CountConcat(c.acts, [Wait(PollSeconds)], IsQuery);
      } else {
        var q := QueryStep(config, env.namesOk, env.reply);
        CountConcat(c.acts, q, IsConnect);
        CountConcat(c.acts, q, IsShutdown);
      }
    }
  }

  /** What `SvcStop` reports. */
  const StopActions: seq<Action> := [Log(EventInfo)]

  /**
   * The `while self.running` loop of `SvcDoRun` over the cycles described by
   * `envs`: each cycle is followed by the 5 s sleep; a stop requested during
   * a cycle clears `running`, and the loop ends once that cycle is finished.
   */
  function Run(config: Config, client: Option<Handle>, running: bool, envs: seq<Env>): (r: RunResult)
    ensures r.cycles <= |envs|
    ensures !running ==> r == RunResult(client, false, [], 0)
    decreases |envs|
  {
    if !running || envs == [] then RunResult(client, running, [], 0)
    else
      var c := Cycle(config, client, envs[0]);
      var acts := c.acts + [Wait(PollSeconds)];
      if envs[0].stopRequested then RunResult(c.client, false, acts + StopActions, 1)
      else
        var rest := Run(config, c.client, true, envs[1..]);
        RunResult(rest.client, rest.running, acts + rest.acts, rest.cycles + 1)
  }

  /** One turn of the loop: `Run` is a cycle, its wait, and then either the stop or the rest of the run. */
  lemma RunStep(config: Config, client: Option<Handle>, envs: seq<Env>)
    requires envs != []
    ensures var c := Cycle(config, client, envs[0]);
            var r := Run(config, client, true, envs);
            if envs[0].stopRequested
            then r == RunResult(c.client, false, c.acts + [Wait(PollSeconds)] + StopActions, 1)
            else var next := Run(config, c.client, true, envs[1..]);
                 r == RunResult(next.client, next.running, c.acts + [Wait(PollSeconds)] + next.acts, next.cycles + 1)
  {
  }

  /**
   * `RunStep` in the form the loop of `SvcDoRun` uses: a turn's own actions,
   * the stop included when requested, followed by the run from the state it
   * leaves.
   */
  lemma LoopTurn(config: Config, client: Option<Handle>, envs: seq<Env>)
    requires envs != []
    ensures var c := Cycle(config, client, envs[0]);
            var next := Run(config, c.client, !envs[0].stopRequested, envs[1..]);
            var turn := c.acts + [Wait(PollSeconds)] + (if envs[0].stopRequested then StopActions else []);
            Run(config, client, true, envs) == RunResult(next.client, next.running, turn + next.acts, next.cycles + 1)
  {
    RunStep(config, client, envs);
    var c := Cycle(config, client, envs[0]);
    if envs[0].stopRequested {
      assert c.acts + [Wait(PollSeconds)] + StopActions + [] == c.acts + [Wait(PollSeconds)] + StopActions;
    } else {
      assert c.acts + [Wait(PollSeconds)] + [] == c.acts + [Wait(PollSeconds)];
    }
  }

  /** The shutdowns of one loop turn: those of the cycle, none from the sleep, then those that follow. */
  lemma TurnShutdowns(cycle: seq<Action>, stop: bool, after: seq<Action>)
    ensures var turn := cycle + [Wait(PollSeconds)] + (if stop then StopActions else []);
            ShutdownCount(turn + after) == ShutdownCount(cycle) + ShutdownCount(after)
  {
    var tail := [Wait(PollSeconds)] + (if stop then StopActions else []);
    Quiet(tail);
    assert cycle + [Wait(PollSeconds)] + (if stop then StopActions else []) == cycle + tail;
    CountConcat(cycle, tail, IsShutdown);
    CountConcat(cycle + tail, after, IsShutdown);
  }

  class UpsMonitorService {
    const config: Config
    var nutClient: Option<Handle>
    var running: bool

    /** `__init__` with the configuration already loaded. */
    constructor (config: Config)
      ensures this.config == config && nutClient == None && running
    {
      this.config := config;
      nutClient := None;
      running := true;
    }

    method ConnectToNut(connectOk: bool) returns (acts: seq<Action>)
      modifies this`nutClient
      ensures CycleResult(nutClient, acts) == ConnectStep(config, old(nutClient), connectOk)
    {
      match config.nutServer {
        case None =>
          acts := [Log(EventConnectFailed)];
        case Some(server) =>
          var p := Params(server);
          acts := [Connect(p)];
          if connectOk {
            nutClient := Some(Handle(p));
            acts := acts + [Log(EventInfo)];
          } else {
            acts := acts + [Log(EventConnectFailed)];
          }
      }
    }

    method MonitorUps(env: Env) returns (acts: seq<Action>)
      modifies this`nutClient
      ensures CycleResult(nutClient, acts) == Cycle(config, old(nutClient), env)
    {
      acts := [];
      if nutClient.None? {
        acts := ConnectToNut(env.connectOk);
        if nutClient.None? {
          acts := acts + [Wait(PollSeconds)];
          return;
        }
      }
      acts := acts + QueryStep(config, env.namesOk, env.reply);
    }

    method SvcStop() returns (acts: seq<Action>)
      modifies this`running
      ensures !running && acts == StopActions
    {
      running := false;
      acts := [Log(EventInfo)];
    }

    /**
     * One turn of the `SvcDoRun` loop: a poll cycle, the 5 s sleep, and the
     * stop when one was requested during the cycle.
     */
    method PollOnce(env: Env) returns (acts: seq<Action>)
      modifies this`nutClient, this`running
      ensures var c := Cycle(config, old(nutClient), env);
              nutClient == c.client &&
              running == (old(running) && !env.stopRequested) &&
              acts == c.acts + [Wait(PollSeconds)] + (if env.stopRequested then StopActions else [])
    {
      var a := MonitorUps(env);
      acts := a + [Wait(PollSeconds)];
      if env.stopRequested {
        var s := SvcStop();
        acts := acts + s;
      }
    }

    /**
     * `SvcDoRun`: report the start, then poll while `running`. The loop is
     * bounded by the cycles `envs` describes; the service itself polls until
     * stopped.
     */
    method SvcDoRun(envs: seq<Env>) returns (acts: seq<Action>, cycles: nat)
      modifies this`nutClient, this`running
      ensures var r := Run(config, old(nutClient), old(running), envs);
              acts == [Log(EventInfo)] + r.acts && cycles == r.cycles &&
              nutClient == r.client && running == r.running
    {
      ghost var total := Run(config, nutClient, running, envs);
      ghost var rest := total;
      acts := [Log(EventInfo)];
      var i := 0;
      while running && i < |envs|
        invariant 0 <= i <= |envs|
        invariant rest == Run(config, nutClient, running, envs[i..])
        invariant acts + rest.acts == [Log(EventInfo)] + total.acts
        invariant i + rest.cycles == total.cycles
        invariant rest.client == total.client && rest.running == total.running
        decreases |envs| - i
      {
        LoopTurn(config, nutClient, envs[i..]);
        assert envs[i..][0] == envs[i] && envs[i..][1..] == envs[i + 1..];
        ghost var before := acts;
        var a := PollOnce(envs[i]);
        acts := acts + a;
        rest := Run(config, nutClient, running, envs[i + 1..]);
        assert acts + rest.acts == before + (a + rest.acts);
        i := i + 1;
      }
      cycles := i;
    }
  }

  // ---------------------------------------------------------------------
  // Properties across cycles

  /** A cycle that fails to connect leaves no handle, so the next cycle tries again. */
  lemma FailedConnectRetriesNextCycle(config: Config, first: Env, second: Env)
    requires config.nutServer.Some? && !first.connectOk
    ensures var c1 := Cycle(config, None, first);
            c1.client.None? &&
            Count(Cycle(config, c1.client, second).acts, IsConnect) == 1
  {
    CycleFacts(config, None, first);
    CycleFacts(config, None, second);
  }

  /** Once connected, no number of cycles drops or replaces the handle. */
  lemma {:induction false} HandleNeverCleared(config: Config, h: Handle, running: bool, envs: seq<Env>)
    ensures Run(config, Some(h), running, envs).client == Some(h)
    ensures Count(Run(config, Some(h), running, envs).acts, IsConnect) == 0
    decreases |envs|
  {
    if running && envs != [] {
      var c := Cycle(config, Some(h), envs[0]);
      CountConcat(c.acts, [Wait(PollSeconds)], IsConnect);
      if envs[0].stopRequested {
        CountConcat(c.acts + [Wait(PollSeconds)], StopActions, IsConnect);
      } else {
        HandleNeverCleared(config, h, true, envs[1..]);
        CountConcat(c.acts + [Wait(PollSeconds)], Run(config, c.client, true, envs[1..]).acts, IsConnect);
      }
    }
  }

  /**
   * No once-per-episode guard: when every poll finds the UPS in a state the
   * policy fires on, every cycle the loop runs issues the shutdown command
   * again.
   */
  lemma {:induction false} ShutdownOnEveryQualifyingPoll(config: Config, h: Handle, running: bool, envs: seq<Env>)
    requires forall j :: 0 <= j < |envs| ==> CycleShutsDown(config, Some(h), envs[j])
    ensures var r := Run(config, Some(h), running, envs);
            ShutdownCount(r.acts) == r.cycles
    decreases |envs|
  {
    if running && envs != [] {
      var stop := envs[0].stopRequested;
      var c := Cycle(config, Some(h), envs[0]);
      var next := Run(config, Some(h), !stop, envs[1..]);
      LoopTurn(config, Some(h), envs);
      HeldCycleShutsDown(config, h, envs[0]);
      assert ShutdownCount(next.acts) == next.cycles by {
        forall j | 0 <= j < |envs[1..]| ensures CycleShutsDown(config, Some(h), envs[1..][j]) {
          assert envs[1..][j] == envs[j + 1];
        }
        ShutdownOnEveryQualifyingPoll(config, h, !stop, envs[1..]);
      }
      TurnShutdowns(c.acts, stop, next.acts);
    }
  }

  /** A qualifying poll with a handle held keeps the handle and issues one shutdown. */
  lemma HeldCycleShutsDown(config: Config, h: Handle, env: Env)
    requires CycleShutsDown(config, Some(h), env)
    ensures Cycle(config, Some(h), env).client == Some(h)
    ensures ShutdownCount(Cycle(config, Some(h), env).acts) == 1
  {
    CycleFacts(config, Some(h), env);
  }

  /**
   * The service as constructed, with no handle: the first cycle connects,
   * that handle is kept for the rest of the run, and every cycle the loop
   * runs issues the shutdown command when every poll qualifies.
   */
  lemma {:induction false} FromStartShutdownOnEveryQualifyingPoll(config: Config, envs: seq<Env>)
    requires config.nutServer.Some? && envs != [] && envs[0].connectOk
    requires forall j :: 0 <= j < |envs| ==>
               CycleShutsDown(config, Some(Handle(Params(config.nutServer.value))), envs[j])
    ensures var r := Run(config, None, true, envs);
            r.client == Some(Handle(Params(config.nutServer.value))) &&
            r.cycles >= 1 && ShutdownCount(r.acts) == r.cycles
  {
    var h := Handle(Params(config.nutServer.value));
    var stop := envs[0].stopRequested;
    var c := Cycle(config, None, envs[0]);
    var next := Run(config, Some(h), !stop, envs[1..]);
    LoopTurn(config, None, envs);
    FirstCycleConnects(config, envs[0]);
    forall j | 0 <= j < |envs[1..]| ensures CycleShutsDown(config, Some(h), envs[1..][j]) {
      assert envs[1..][j] == envs[j + 1];
    }
    ShutdownOnEveryQualifyingPoll(config, h, !stop, envs[1..]);
    HandleNeverCleared(config, h, !stop, envs[1..]);
    TurnShutdowns(c.acts, stop, next.acts);
  }

  /** A first cycle that connects and then finds a qualifying poll holds the new handle and issues one shutdown. */
  lemma FirstCycleConnects(config: Config, env: Env)
    requires config.nutServer.Some? && env.connectOk
    requires CycleShutsDown(config, Some(Handle(Params(config.nutServer.value))), env)
    ensures Cycle(config, None, env).client == Some(Handle(Params(config.nutServer.value)))
    ensures ShutdownCount(Cycle(config, None, env).acts) == 1
  {
    CycleFacts(config, None, env);
  }

  /**
   * The loop runs up to and including the first cycle during which a stop
   * was requested, and is still running afterwards only if none was.
   */
  lemma {:induction false} RunEndsAfterStopRequest(config: Config, client: Option<Handle>, envs: seq<Env>)
    ensures var r := Run(config, client, true, envs);
            (r.running <==> forall j :: 0 <= j < |envs| ==> !envs[j].stopRequested) &&
            (forall j :: 0 <= j < r.cycles - 1 ==> !envs[j].stopRequested) &&
            (r.cycles < |envs| ==> r.cycles > 0 && envs[r.cycles - 1].stopRequested)
    decreases |envs|
  {
    if envs != [] && !envs[0].stopRequested {
      var c := Cycle(config, client, envs[0]);
      RunEndsAfterStopRequest(config, c.client, envs[1..]);
      var r := Run(config, client, true, envs);
      forall j | 0 <= j < r.cycles - 1 ensures !envs[j].stopRequested {
        if j > 0 { assert envs[j] == envs[1..][j - 1]; }
      }
      if forall j :: 0 <= j < |envs[1..]| ==> !envs[1..][j].stopRequested {
        forall j | 0 <= j < |envs| ensures !envs[j].stopRequested {
          if j > 0 { assert envs[j] == envs[1..][j - 1]; }
        }
      }
    }
  }

  /** How many of the polls `envs` find the UPS in a state the policy fires on, with handle `h` held. */
  function QualifyingPolls(config: Config, h: Handle, envs: seq<Env>): (n: nat)
    ensures n <= |envs|
  {
    if envs == [] then 0
    else (if CycleShutsDown(config, Some(h), envs[0]) then 1 else 0) + QualifyingPolls(config, h, envs[1..])
  }

  /**
   * Without a stop request every poll runs, and the run issues exactly as
   * many shutdown commands as there are polls the policy fires on.
   */
  lemma {:induction false} ShutdownsPerQualifyingPoll(config: Config, h: Handle, envs: seq<Env>)
    requires forall j :: 0 <= j < |envs| ==> !envs[j].stopRequested
    ensures Run(config, Some(h), true, envs).cycles == |envs|
    ensures ShutdownCount(Run(config, Some(h), true, envs).acts) == QualifyingPolls(config, h, envs)
    decreases |envs|
  {
    if envs != [] {
      var c := Cycle(config, Some(h), envs[0]);
      CycleFacts(config, Some(h), envs[0]);
      ShutdownsPerQualifyingPoll(config, h, envs[1..]);
      CountConcat(c.acts, [Wait(PollSeconds)], IsShutdown);
      CountConcat(c.acts + [Wait(PollSeconds)], Run(config, c.client, true, envs[1..]).acts, IsShutdown);
    }
  }

  /** A connected poll that reads this status and charge, with no stop request. */
  function ConnectedPoll(status: string, charge: int): Env {
    Env(true, true, Vars(Reading(status, charge)), false)
  }

  /**
   * Capacity mode at threshold 20 over one on-battery episode with charges
   * 50, 30, 20, 15: the command is issued at the 20 poll and again at the 15
   * poll, since nothing records that it already fired.
   */
  lemma CapacityEpisodeFiresOnEveryLowPoll(config: Config, h: Handle)
    requires config.nutServer.Some?
    requires config.monitorType == Some(BatteryPercentage) && config.shutdownThreshold == Some(20)
    ensures var envs := CapacityEpisode();
            ShutdownCount(Run(config, Some(h), true, envs).acts) == 2
  {
    ShutdownsPerQualifyingPoll(config, h, CapacityEpisode());
    CapacityEpisodeQualifying(config, h);
  }

  /** The polls of that episode: on battery, charge 50, 30, 20, then 15. */
  function CapacityEpisode(): (envs: seq<Env>)
    ensures forall j :: 0 <= j < |envs| ==> !envs[j].stopRequested
  {
    [ConnectedPoll("OB", 50), ConnectedPoll("OB", 30), ConnectedPoll("OB", 20), ConnectedPoll("OB", 15)]
  }

  lemma CapacityEpisodeQualifying(config: Config, h: Handle)
    requires config.nutServer.Some?
    requires config.monitorType == Some(BatteryPercentage) && config.shutdownThreshold == Some(20)
    ensures QualifyingPolls(config, h, CapacityEpisode()) == 2
  {
    var envs := CapacityEpisode();
    CapacityPollQualifies(config, h, 50);
    CapacityPollQualifies(config, h, 30);
    CapacityPollQualifies(config, h, 20);
    CapacityPollQualifies(config, h, 15);
    assert envs[1..] == [ConnectedPoll("OB", 30), ConnectedPoll("OB", 20), ConnectedPoll("OB", 15)];
    assert envs[1..][1..] == [ConnectedPoll("OB", 20), ConnectedPoll("OB", 15)];
    assert envs[1..][1..][1..] == [ConnectedPoll("OB", 15)];
    assert QualifyingPolls(config, h, envs[1..][1..][1..]) == 1;
    assert QualifyingPolls(config, h, envs[1..][1..]) == 2;
    assert QualifyingPolls(config, h, envs[1..]) == 2;
  }

  /** In capacity mode a connected "OB" poll qualifies exactly when its charge is at or below the threshold. */
  lemma CapacityPollQualifies(config: Config, h: Handle, charge: int)
    requires config.nutServer.Some?
    requires config.monitorType == Some(BatteryPercentage) && config.shutdownThreshold.Some?
    ensures CycleShutsDown(config, Some(h), ConnectedPoll("OB", charge)) <==> charge <= config.shutdownThreshold.value
  {
    assert Lower("OB") == "ob";
    assert IsOnBattery(Reading("OB", charge));
  }

  /** A stop request is honoured after the cycle it arrived in: exactly that many cycles run. */
  lemma StopAfterCurrentCycle(config: Config, client: Option<Handle>, envs: seq<Env>, k: nat)
    requires k < |envs| && envs[k].stopRequested
    requires forall j :: 0 <= j < k ==> !envs[j].stopRequested
    ensures Run(config, client, true, envs).cycles == k + 1
    ensures !Run(config, client, true, envs).running
  {
    RunEndsAfterStopRequest(config, client, envs);
  }
}
