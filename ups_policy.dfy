/**
 * What one poll decides once the UPS variables are in hand: the on-battery
 * test, the charge reading and the two shutdown policies of
 * `UPSMonitorService.monitor_ups`, with `initiate_shutdown`.
 *
 * The decision is written as the trace of side effects it produces: the
 * event ids it reports, the waits it makes and the shutdown command it runs.
 * A Python exception raised inside the poll's `try` block ends the trace with
 * the error event 1004, which is what the handler reports.
 */
module Policy {
  import opened Wrappers
  import opened PyText

  // Event ids reported to the Windows event log.
  const EventInfo := 1000
  const EventConnectFailed := 1001
  const EventOnBattery := 1002
  const EventTimeOnBattery := 1003
  const EventMonitorError := 1004
  const EventShutdown := 1005

  const BatteryPercentage := "battery_percentage"
  const TimeOnBattery := "time_on_battery"
  const DefaultShutdownCommand := "shutdown /s /t 0"
  const ReasonCritical := "Battery level critical."
  const ReasonTimeOnBattery := "Time on battery exceeded threshold."

  /** The snapshot keys the poll reads, and the charge assumed when absent. */
  const StatusKey := "status"
  const ChargeKey := "battery.charge"
  const DefaultCharge := 100

  /** The `nut_server` object of the configuration; `None` marks an absent key. */
  datatype NutServer = NutServer(
    host: Option<string>,
    port: Option<int>,
    user: Option<string>,
    password: Option<string>,
    upsName: Option<string>)

  /**
   * The parsed configuration file. Every key the code reads is optional here
   * because the code reads several of them with `config[...]`, which raises
   * when the key is missing.
   */
  datatype Config = Config(
    nutServer: Option<NutServer>,
    monitorType: Option<string>,
    shutdownThreshold: Option<int>,
    shutdownDelay: Option<int>,
    shutdownCommand: Option<string>)

  /** The arguments `PyNUTClient` is constructed with. */
  datatype ConnParams = ConnParams(host: string, port: int, login: string, password: string)

  /** Side effects of the service, in the order they happen. */
  datatype Action =
    | Log(eventId: int)                          // ReportEvent with this event id
    | Connect(params: ConnParams)                // PyNUTClient(...): open and log in
    | ListUps                                    // GetUPSNames()
    | QueryVars(upsName: string)                 // GetUPSVars(ups_name)
    | Wait(seconds: int)                         // time.sleep(seconds)
    | Shutdown(reason: string, command: string)  // os.system(command)

  /** The variables reported by the NUT server for one UPS. */
  type Snapshot = map<string, string>

  // ---------------------------------------------------------------------
  // Counting actions in a trace

  predicate IsShutdown(a: Action) { a.Shutdown? }
  predicate IsConnect(a: Action) { a.Connect? }

  predicate IsQuery(a: Action) { a.ListUps? || a.QueryVars? }

  function Count(acts: seq<Action>, p: Action -> bool): (n: nat)
    ensures n <= |acts|
  {
    if acts == [] then 0 else (if p(acts[0]) then 1 else 0) + Count(acts[1..], p)
  }

  /** A trace counts none of the actions `p` picks out exactly when it holds none of them. */
  lemma {:induction false} CountZero(acts: seq<Action>, p: Action -> bool)
    ensures Count(acts, p) == 0 <==> forall i :: 0 <= i < |acts| ==> !p(acts[i])
    decreases |acts|
  {
    if acts != [] {
      CountZero(acts[1..], p);
      assert forall i :: 1 <= i < |acts| ==> acts[i] == acts[1..][i - 1];
    }
  }

  /** A trace of reports and sleeps only: no shutdown, no connect, no query. */
  lemma Quiet(acts: seq<Action>)
    requires forall i :: 0 <= i < |acts| ==> acts[i].Log? || acts[i].Wait?
    ensures ShutdownCount(acts) == 0 && Count(acts, IsConnect) == 0 && Count(acts, IsQuery) == 0
  {
    CountZero(acts, IsShutdown);
    CountZero(acts, IsConnect);
    CountZero(acts, IsQuery);
  }

  /** Counting over a trace split in two, for the three kinds of action the properties count. */
  lemma CountsConcat(a: seq<Action>, b: seq<Action>)
    ensures ShutdownCount(a + b) == ShutdownCount(a) + ShutdownCount(b)
    ensures Count(a + b, IsConnect) == Count(a, IsConnect) + Count(b, IsConnect)
    ensures Count(a + b, IsQuery) == Count(a, IsQuery) + Count(b, IsQuery)
  {
    CountConcat(a, b, IsShutdown);
    CountConcat(a, b, IsConnect);
    CountConcat(a, b, IsQuery);
  }

  function ShutdownCount(acts: seq<Action>): nat {
    Count(acts, IsShutdown)
  }

  lemma {:induction false} CountConcat(a: seq<Action>, b: seq<Action>, p: Action -> bool)
    ensures Count(a + b, p) == Count(a, p) + Count(b, p)
    decreases |a|
  {
    if a == [] {
      assert a + b == b;
    } else {
      CountConcat(a[1..], b, p);
      assert (a + b)[1..] == a[1..] + b;
    }
  }

  // ---------------------------------------------------------------------
  // Reading the snapshot

  /** `ups_data.get("status", "")` */
  function StatusOf(vars: Snapshot): (status: string)
    ensures StatusKey in vars ==> status == vars[StatusKey]
    ensures StatusKey !in vars ==> status == ""
  {
    if StatusKey in vars then vars[StatusKey] else ""
  }

  /** `ups_data.get("status", "").lower().startswith("ob")` */
  predicate IsOnBattery(vars: Snapshot): (b: bool)
    ensures b ==> StatusKey in vars && |vars[StatusKey]| >= 2
  {
    StartsWith(Lower(StatusOf(vars)), "ob")
  }

  /** `int(ups_data.get("battery.charge", 100))`; `None` where `int` raises. */
  function BatteryLevel(vars: Snapshot): (r: Option<int>)
    ensures ChargeKey !in vars ==> r == Some(DefaultCharge)
    ensures ChargeKey in vars ==> r == ParseInt(vars[ChargeKey])
  {
    if ChargeKey in vars then ParseInt(vars[ChargeKey]) else Some(DefaultCharge)
  }

  /** The command `initiate_shutdown` runs: `config.get("shutdown_command", "shutdown /s /t 0")`. */
  function ShutdownCommand(config: Config): (command: string)
    ensures config.shutdownCommand.Some? ==> command == config.shutdownCommand.value
    ensures config.shutdownCommand.None? ==> command == DefaultShutdownCommand
  {
    config.shutdownCommand.GetOr(DefaultShutdownCommand)
  }

  // ---------------------------------------------------------------------
  // Reference predicates: when a poll shuts down, when it reports an error

  /**
   * The longest whole-second length `time.sleep` accepts: CPython converts it
   * to a signed 64-bit count of nanoseconds and raises `OverflowError` when
   * that does not fit, so the limit is (2^63 - 1) / 10^9 rounded down.
   */
  const MaxSleepSeconds: int := 9_223_372_036

  /** `time.sleep(seconds)` returns instead of raising: not negative and not too long. */
  predicate SleepAccepts(seconds: int) {
    0 <= seconds <= MaxSleepSeconds
  }

  /** On battery with charge `level`, the configured mode's condition holds. */
  predicate PolicyFires(config: Config, level: int) {
    (config.monitorType == Some(BatteryPercentage) && config.shutdownThreshold.Some? &&
     level <= config.shutdownThreshold.value) ||
    (config.monitorType == Some(TimeOnBattery) && config.shutdownDelay.Some? &&
     SleepAccepts(config.shutdownDelay.value))
  }

  /**
   * On battery, the chosen branch raises: a configuration key it reads is
   * missing, or `time.sleep` refuses the delay (negative, or too long).
   */
  predicate PolicyMisconfigured(config: Config) {
    config.monitorType.None? ||
    (config.monitorType == Some(BatteryPercentage) && config.shutdownThreshold.None?) ||
    (config.monitorType == Some(TimeOnBattery) &&
     (config.shutdownDelay.None? || !SleepAccepts(config.shutdownDelay.value)))
  }

  /** The policy fires for this snapshot: on battery, readable charge, and a mode whose condition holds. */
  predicate ShutdownDue(config: Config, vars: Snapshot) {
    IsOnBattery(vars) && BatteryLevel(vars).Some? && PolicyFires(config, BatteryLevel(vars).value)
  }

  /** Evaluating lines 80-90 raises: the charge is not an integer, or, on battery, the policy is misconfigured. */
  predicate PolicyRaises(config: Config, vars: Snapshot) {
    BatteryLevel(vars).None? || (IsOnBattery(vars) && PolicyMisconfigured(config))
  }

  // ---------------------------------------------------------------------
  // The decision

  /** `initiate_shutdown(reason)`: report event 1005, then run the configured command. */
  function InitiateShutdown(config: Config, reason: string): (r: seq<Action>)
    ensures |r| == 2 && r[0] == Log(EventShutdown)
    ensures ShutdownCount(r) == 1 && r[|r| - 1] == Shutdown(reason, ShutdownCommand(config))
    ensures Count(r, IsConnect) == 0 && Count(r, IsQuery) == 0
    ensures Log(EventMonitorError) !in r
  {
    var r := [Log(EventShutdown), Shutdown(reason, ShutdownCommand(config))];
    CountZero(r, IsConnect);
    CountZero(r, IsQuery);
    assert Count(r[1..][1..], IsShutdown) == 0;
    assert Count(r[1..], IsShutdown) == 1;
    r
  }

  /** Lines 85-90, reached only while on battery with a readable charge `level`. */
  function OnBatteryPolicy(config: Config, level: int): (r: seq<Action>)
    ensures ShutdownCount(r) == (if PolicyFires(config, level) then 1 else 0)
    ensures ShutdownCount(r) == 1 ==>
              r[|r| - 1] == Shutdown(
                if config.monitorType == Some(BatteryPercentage) then ReasonCritical
                else ReasonTimeOnBattery,
                ShutdownCommand(config))
    ensures Count(r, IsConnect) == 0 && Count(r, IsQuery) == 0
    ensures Log(EventOnBattery) !in r
    ensures (Log(EventMonitorError) in r) <==> PolicyMisconfigured(config)
    ensures (exists d :: Wait(d) in r) <==>
              config.monitorType == Some(TimeOnBattery) &&
              config.shutdownDelay.Some? && SleepAccepts(config.shutdownDelay.value)
  {
    Quiet([Log(EventMonitorError)]);
    Quiet([Log(EventTimeOnBattery), Log(EventMonitorError)]);
    match config.monitorType
    case None => [Log(EventMonitorError)]
    case Some(mode) =>
      if mode == BatteryPercentage then
        match config.shutdownThreshold
        case None => [Log(EventMonitorError)]
        case Some(threshold) =>
          if level <= threshold then InitiateShutdown(config, ReasonCritical) else []
      else if mode == TimeOnBattery then
        match config.shutdownDelay
        case None => [Log(EventTimeOnBattery), Log(EventMonitorError)]
        case Some(delay) =>
          if !SleepAccepts(delay) then [Log(EventTimeOnBattery), Log(EventMonitorError)]
          else
            var tail := InitiateShutdown(config, ReasonTimeOnBattery);
            Quiet([Log(EventTimeOnBattery), Wait(delay)]);
            CountsConcat([Log(EventTimeOnBattery), Wait(delay)], tail);
            [Log(EventTimeOnBattery), Wait(delay)] + tail
      else []
  }

  /**
   * Lines 80-90 for a fetched snapshot: the actions that follow the
   * "ups data" event, ending in event 1004 when an exception is raised.
   */
  function Evaluate(config: Config, vars: Snapshot): (r: seq<Action>)
    ensures Count(r, IsConnect) == 0 && Count(r, IsQuery) == 0
    ensures ShutdownCount(r) == (if ShutdownDue(config, vars) then 1 else 0)
    ensures ShutdownDue(config, vars) ==>
              r[|r| - 1] == Shutdown(
                if config.monitorType == Some(BatteryPercentage) then ReasonCritical
                else ReasonTimeOnBattery,
                ShutdownCommand(config))
    ensures (Log(EventMonitorError) in r) <==> PolicyRaises(config, vars)
    ensures (Log(EventOnBattery) in r) <==> IsOnBattery(vars) && BatteryLevel(vars).Some?
    ensures (exists d :: Wait(d) in r) <==>
              IsOnBattery(vars) && BatteryLevel(vars).Some? &&
              config.monitorType == Some(TimeOnBattery) &&
              config.shutdownDelay.Some? && SleepAccepts(config.shutdownDelay.value)
  {
    Quiet([Log(EventMonitorError)]);
    match BatteryLevel(vars)
    case None => [Log(EventMonitorError)]
    case Some(level) =>
      if !IsOnBattery(vars) then []
      else
        var tail := OnBatteryPolicy(config, level);
        Quiet([Log(EventOnBattery)]);
        CountsConcat([Log(EventOnBattery)], tail);
        [Log(EventOnBattery)] + tail
  }

  // ---------------------------------------------------------------------
  // Properties of one poll's decision

  /** On battery exactly when the status code starts with "ob" in any mix of case. */
  lemma OnBatteryIff(vars: Snapshot)
    ensures IsOnBattery(vars) <==>
              StatusKey in vars && |vars[StatusKey]| >= 2 &&
              (vars[StatusKey][0] == 'o' || vars[StatusKey][0] == 'O') &&
              (vars[StatusKey][1] == 'b' || vars[StatusKey][1] == 'B')
  {
    LowerStartsWith(StatusOf(vars), "ob");
  }

  /** A snapshot without a status code reads as "", which is never on battery. */
  lemma MissingStatusIsOnline(vars: Snapshot)
    requires StatusKey !in vars
    ensures !IsOnBattery(vars)
  {
  }

  /**
   * Only the key "status" is consulted: a snapshot that reports its status
   * under the NUT variable name "ups.status" reads as online.
   */
  lemma NutStatusNameIsNotRead()
    ensures !IsOnBattery(map["ups.status" := "OB DISCHRG", ChargeKey := "5"])
  {
    MissingStatusIsOnline(map["ups.status" := "OB DISCHRG", ChargeKey := "5"]);
  }

  /** Online, no policy runs: no shutdown and no event beyond a possible charge error. */
  lemma OnlineNeverShutsDown(config: Config, vars: Snapshot)
    requires !IsOnBattery(vars)
    ensures ShutdownCount(Evaluate(config, vars)) == 0
    ensures Evaluate(config, vars) == if BatteryLevel(vars).None? then [Log(EventMonitorError)] else []
  {
  }

  /**
   * A charge `int` cannot read raises before the on-battery test is acted on:
   * only event 1004 is reported, whatever the status, and nothing shuts down.
   */
  lemma UnreadableChargeOnlyReportsError(config: Config, vars: Snapshot)
    requires ChargeKey in vars && ParseInt(vars[ChargeKey]).None?
    ensures Evaluate(config, vars) == [Log(EventMonitorError)]
  {
  }

  /**
   * A charge written as a decimal such as "95.0" makes `int` raise, so the
   * poll only reports event 1004 and neither policy can fire, whatever the
   * status and the configuration.
   */
  lemma DecimalChargeOnlyReportsError(config: Config, vars: Snapshot)
    requires ChargeKey in vars && vars[ChargeKey] == "95.0"
    ensures Evaluate(config, vars) == [Log(EventMonitorError)]
    ensures ShutdownCount(Evaluate(config, vars)) == 0
  {
    ParseExamples();
  }

  /** A snapshot holding exactly this status and this charge, written as `str(charge)`. */
  function Reading(status: string, charge: int): (vars: Snapshot)
    ensures BatteryLevel(vars) == Some(charge)
    ensures StatusOf(vars) == status
  {
    ParseFormat(charge);
    map[StatusKey := status, ChargeKey := FormatInt(charge)]
  }

  /** Capacity policy on battery: shut down exactly when the charge is at or below the threshold. */
  lemma CapacityFiresAtOrBelowThreshold(config: Config, status: string, charge: int)
    requires config.monitorType == Some(BatteryPercentage) && config.shutdownThreshold.Some?
    requires StartsWith(Lower(status), "ob")
    ensures var r := Evaluate(config, Reading(status, charge));
            ShutdownCount(r) == (if charge <= config.shutdownThreshold.value then 1 else 0) &&
            (charge <= config.shutdownThreshold.value ==>
               r == [Log(EventOnBattery), Log(EventShutdown),
                     Shutdown(ReasonCritical, ShutdownCommand(config))]) &&
            (charge > config.shutdownThreshold.value ==> r == [Log(EventOnBattery)])
  {
    var vars := Reading(status, charge);
    assert IsOnBattery(vars);
  }

  /** The boundary: a charge equal to the threshold fires, one above it does not. */
  lemma CapacityBoundary(config: Config, threshold: int)
    requires config.monitorType == Some(BatteryPercentage)
    requires config.shutdownThreshold == Some(threshold)
    ensures ShutdownCount(Evaluate(config, Reading("OB", threshold))) == 1
    ensures ShutdownCount(Evaluate(config, Reading("OB", threshold + 1))) == 0
  {
    CapacityFiresAtOrBelowThreshold(config, "OB", threshold);
    CapacityFiresAtOrBelowThreshold(config, "OB", threshold + 1);
  }

  /** An absent charge counts as 100, so the capacity policy fires on it only for a threshold of 100 or more. */
  lemma MissingChargeCountsAsFull(config: Config, vars: Snapshot)
    requires ChargeKey !in vars && IsOnBattery(vars)
    requires config.monitorType == Some(BatteryPercentage) && config.shutdownThreshold.Some?
    ensures ShutdownCount(Evaluate(config, vars)) == (if DefaultCharge <= config.shutdownThreshold.value then 1 else 0)
  {
  }

  /**
   * Duration policy on battery: every such poll waits `shutdown_delay` and
   * then shuts down, whatever the charge.
   */
  lemma TimeOnBatteryAlwaysShutsDown(config: Config, vars: Snapshot)
    requires IsOnBattery(vars) && BatteryLevel(vars).Some?
    requires config.monitorType == Some(TimeOnBattery)
    requires config.shutdownDelay.Some? && SleepAccepts(config.shutdownDelay.value)
    ensures Evaluate(config, vars) ==
              [Log(EventOnBattery), Log(EventTimeOnBattery), Wait(config.shutdownDelay.value),
               Log(EventShutdown), Shutdown(ReasonTimeOnBattery, ShutdownCommand(config))]
  {
    var d := config.shutdownDelay.value;
    assert OnBatteryPolicy(config, BatteryLevel(vars).value) ==
           [Log(EventTimeOnBattery), Wait(d)] + InitiateShutdown(config, ReasonTimeOnBattery);
  }

  /**
   * Duration policy on battery with a delay `time.sleep` refuses, negative or
   * too long: no wait and no shutdown, only the duration event and then 1004.
   */
  lemma RefusedDelayOnlyReportsError(config: Config, vars: Snapshot)
    requires IsOnBattery(vars) && BatteryLevel(vars).Some?
    requires config.monitorType == Some(TimeOnBattery)
    requires config.shutdownDelay.Some? && !SleepAccepts(config.shutdownDelay.value)
    ensures Evaluate(config, vars) ==
              [Log(EventOnBattery), Log(EventTimeOnBattery), Log(EventMonitorError)]
    ensures ShutdownCount(Evaluate(config, vars)) == 0
  {
  }

  /** The largest delay `time.sleep` accepts still shuts down; one second more does not. */
  lemma SleepLimitBoundary(config: Config, vars: Snapshot)
    requires IsOnBattery(vars) && BatteryLevel(vars).Some?
    requires config.monitorType == Some(TimeOnBattery)
    ensures ShutdownCount(Evaluate(config.(shutdownDelay := Some(MaxSleepSeconds)), vars)) == 1
    ensures ShutdownCount(Evaluate(config.(shutdownDelay := Some(MaxSleepSeconds + 1)), vars)) == 0
  {
  }

  /** Any other monitor type never shuts down and reports nothing beyond the on-battery event. */
  lemma UnknownModeNeverShutsDown(config: Config, vars: Snapshot)
    requires config.monitorType.Some?
    requires config.monitorType.value != BatteryPercentage && config.monitorType.value != TimeOnBattery
    ensures ShutdownCount(Evaluate(config, vars)) == 0
    ensures Evaluate(config, vars) ==
              if BatteryLevel(vars).None? then [Log(EventMonitorError)]
              else if IsOnBattery(vars) then [Log(EventOnBattery)]
              else []
  {
  }
}
