# UPS Monitor Service — Dafny model

A model of the decision core of `windows_nut_service.py`, a Windows service
that polls a NUT (Network UPS Tools) server and runs an operating-system
shutdown command when the UPS is on battery and a configured policy fires.

What is modelled:

- **One poll cycle**, `UPSMonitorService.monitor_ups`: connect lazily when
  there is no client handle (`connect_to_nut`), give up for the cycle after a
  failed connect (then the 5 s sleep), otherwise list the UPS names, fetch the
  variable snapshot, classify on-battery by `status.lower().startswith("ob")`,
  read `battery.charge` with `int(...)` defaulting to 100, and apply the
  `battery_percentage` (charge ≤ `shutdown_threshold`) or `time_on_battery`
  (sleep `shutdown_delay`, then shut down) policy. Any exception in that block
  is reported as event 1004 and the handle is kept.
- **`initiate_shutdown`**: event 1005, then the command from
  `shutdown_command` (default `shutdown /s /t 0`).
- **The service object** (`class Service.UpsMonitorService`) with its two
  mutable fields, `nutClient` and `running`; `SvcDoRun`'s
  `while self.running` loop and `SvcStop`.

The NUT server and the stop request are inputs, and the clock is not modelled: each cycle is
described by an `Env` saying whether connecting succeeds, whether
`GetUPSNames` succeeds, what `GetUPSVars` returns (a snapshot or an error) and
whether `SvcStop` was called during the cycle. Side effects are recorded as a
trace of `Action`s: reported event ids, connection attempts, queries, sleeps
and the shutdown command.

Files: `wrappers.dfy` (Option), `py_text.dfy` (the Python `str.lower`,
`startswith` and `int` the poll relies on), `ups_policy.dfy` (configuration,
snapshot reading and the decision of lines 80-98), `ups_service.dfy` (the
connection handle, the cycle, the run loop and the properties across cycles).

A monitor of this kind might be expected to fire once per on-battery
episode, to time the episode for the duration policy, and to drop the
connection on transport errors; this code does none of these, and the model
makes the absences explicit: `ShutdownOnEveryQualifyingPoll` and
`CapacityEpisodeFiresOnEveryLowPoll` show the command issued on every
qualifying poll, `TimeOnBatteryAlwaysShutsDown` shows the duration policy as a
sleep followed by an unconditional shutdown, and `HandleNeverCleared` shows
that no error drops the handle.

Other behaviour of the code the model keeps: the charge is parsed before the
on-battery test is acted on, so an unreadable charge reports 1004 on every
poll, online or not; a missing `monitor_type`, `shutdown_threshold` or
`shutdown_delay` raises only on the path that reads it; a negative
`shutdown_delay`, or one longer than the 9223372036 s that CPython's
`time.sleep` can convert to nanoseconds, makes `time.sleep` raise, so no
shutdown follows; and the
status is read from the key `status`, so a snapshot that names it
`ups.status` (the NUT variable name) reads as online (`NutStatusNameIsNotRead`).

## Model

| member | source | states |
|---|---|---|
| PyText.Lower | windows_nut_service.py:80 | `str.lower` keeps the length and lower-cases each character in place |
| PyText.LowerStartsWith | windows_nut_service.py:80 | `s.lower().startswith(p)` holds iff each prefix character of `s` matches `p` up to case |
| PyText.ParseInt | windows_nut_service.py:81 | `int(s)` succeeds iff `s` is an optional sign followed by one or more decimal digits, and gives the digits' value, negated after '-' |
| PyText.ParseExamples | windows_nut_service.py:81 | "95.0", "12%", "+" and "-" are refused; "+5" reads as 5 and "-007" as -7 |
| PyText.NatDigitsValue | windows_nut_service.py:81 | the digits written for a natural number read back as that number |
| PyText.ParseFormat | windows_nut_service.py:81 | `int(str(n)) == n` for every integer |
| PyText.ParseRejectsNonNumeric | windows_nut_service.py:81 | text not starting with a digit or sign makes `int` raise |
| Policy.StatusOf | windows_nut_service.py:80 | the `status` value, or "" when the key is absent |
| Policy.IsOnBattery | windows_nut_service.py:80 | a poll reads as on battery only when `status` is present with at least two characters (the exact condition is `OnBatteryIff`) |
| Policy.BatteryLevel | windows_nut_service.py:81 | an absent `battery.charge` reads as 100; a present one is whatever `int` makes of it |
| Policy.ShutdownCommand | windows_nut_service.py:97 | the configured `shutdown_command`, or `shutdown /s /t 0` when absent |
| Policy.InitiateShutdown | windows_nut_service.py:95-98 | event 1005 first, then exactly one shutdown, last, with the given reason and the configured command or `shutdown /s /t 0`; no connect, no query, no 1004 |
| Policy.OnBatteryPolicy | windows_nut_service.py:83-90 | an on-battery poll issues at most one shutdown, always as its last action, and never connects to or queries the server |
| Policy.Evaluate | windows_nut_service.py:80-90 | one shutdown iff on battery with a readable charge and the mode's condition holds; 1004 iff the block raises; 1002 iff on battery; a wait iff the duration policy runs |
| Policy.OnBatteryIff | windows_nut_service.py:80 | on battery iff `status` is present and starts with o/O then b/B |
| Policy.MissingStatusIsOnline | windows_nut_service.py:80 | a missing `status` reads as "" and is never on battery |
| Policy.NutStatusNameIsNotRead | windows_nut_service.py:80 | a status reported only under `ups.status` reads as online |
| Policy.OnlineNeverShutsDown | windows_nut_service.py:83-90 | when not on battery nothing shuts down, whatever the mode, charge or threshold |
| Policy.DecimalChargeOnlyReportsError | windows_nut_service.py:81-93 | a charge of "95.0" makes the whole poll only event 1004, with no shutdown |
| Policy.UnreadableChargeOnlyReportsError | windows_nut_service.py:81 | a charge `int` refuses yields only event 1004 and no shutdown |
| Policy.CapacityFiresAtOrBelowThreshold | windows_nut_service.py:85-86 | in `battery_percentage` mode on battery, shutdown iff charge ≤ threshold, with the exact trace either way |
| Policy.CapacityBoundary | windows_nut_service.py:85-86 | charge equal to the threshold fires; threshold + 1 does not |
| Policy.MissingChargeCountsAsFull | windows_nut_service.py:81-86 | an absent charge fires the capacity policy only when the threshold is at least 100 |
| Policy.TimeOnBatteryAlwaysShutsDown | windows_nut_service.py:87-90 | in `time_on_battery` mode every on-battery poll waits `shutdown_delay` and then shuts down, whatever the charge, whenever `time.sleep` accepts the delay |
| Policy.RefusedDelayOnlyReportsError | windows_nut_service.py:87-93 | a delay `time.sleep` refuses (negative or too long) gives the duration event, then 1004, with no wait and no shutdown |
| Policy.SleepLimitBoundary | windows_nut_service.py:87-90 | a delay of exactly 9223372036 s still shuts down; one second more does not |
| Policy.UnknownModeNeverShutsDown | windows_nut_service.py:85-90 | any other monitor type never shuts down |
| Service.Params | windows_nut_service.py:58-63 | each `nut_server` key present is passed through unchanged; each absent one falls back to localhost, 3493, ups, password |
| Service.ConnectStep | windows_nut_service.py:56-66 | exactly one connection attempt when `nut_server` exists; success stores the handle, failure keeps the old one and ends with event 1001 |
| Service.Fetched | windows_nut_service.py:78-90 | after the data event, the shutdowns and the 1004 event are exactly those of the policy |
| Service.QueryStep | windows_nut_service.py:75-93 | starts with listing UPS names; never connects; one shutdown iff every query step succeeds and the policy fires; 1004 iff some step raises |
| Service.Cycle | windows_nut_service.py:68-93 | a held handle is kept; without one, a successful connect stores the handle built from `nut_server`, and a failed or impossible one leaves none |
| Service.CycleFacts | windows_nut_service.py:68-93 | a held handle is kept; without one, exactly one connect when `nut_server` exists and none otherwise; a failed connect queries nothing, shuts nothing down and ends with the 5 s wait; one shutdown iff the cycle qualifies |
| Service.Run | windows_nut_service.py:100-104 | the loop runs at most one cycle per input and none when not running |
| Service.UpsMonitorService.constructor | windows_nut_service.py:29-34 | starts with no client handle and `running` true |
| Service.UpsMonitorService.ConnectToNut | windows_nut_service.py:56-66 | updates the handle and returns the actions `ConnectStep` gives |
| Service.UpsMonitorService.MonitorUps | windows_nut_service.py:68-93 | updates the handle and returns the actions of one `Cycle` |
| Service.UpsMonitorService.PollOnce | windows_nut_service.py:102-104 | one turn of the loop: a `Cycle`, the 5 s sleep, and the stop when one was requested during it |
| Service.UpsMonitorService.SvcStop | windows_nut_service.py:106-109 | clears `running` and reports event 1000 |
| Service.UpsMonitorService.SvcDoRun | windows_nut_service.py:100-104 | reports the start, then its trace, cycle count, handle and flag are those of `Run` |
| Service.FailedConnectRetriesNextCycle | windows_nut_service.py:69-73 | a failed connect leaves no handle, and the next cycle makes one new attempt |
| Service.HandleNeverCleared | windows_nut_service.py:75-93 | once set, the handle survives any number of cycles and no further connect is made |
| Service.ShutdownOnEveryQualifyingPoll | windows_nut_service.py:83-98 | no once-per-episode guard: with a handle held, every cycle of a run of qualifying polls issues the command again |
| Service.FirstCycleConnects | windows_nut_service.py:69-98 | from no handle, a first cycle that connects and qualifies holds the new handle and issues one shutdown |
| Service.FromStartShutdownOnEveryQualifyingPoll | windows_nut_service.py:68-104 | from the service as constructed, the first cycle connects, the handle is kept, and every cycle the loop runs issues one shutdown when every poll qualifies |
| Service.ShutdownsPerQualifyingPoll | windows_nut_service.py:83-104 | without a stop request every poll runs and the run issues one shutdown per qualifying poll |
| Service.CapacityPollQualifies | windows_nut_service.py:85-86 | a connected "OB" poll qualifies in capacity mode iff its charge is at or below the threshold |
| Service.CapacityEpisodeQualifying | windows_nut_service.py:85-86 | with threshold 20, two of the polls 50, 30, 20, 15 qualify |
| Service.CapacityEpisodeFiresOnEveryLowPoll | windows_nut_service.py:83-98 | with threshold 20 and charges 50, 30, 20, 15 on battery, the command is issued twice |
| Service.RunEndsAfterStopRequest | windows_nut_service.py:102-107 | the loop runs up to and including the cycle during which stop was requested, and still runs afterwards only if none was |
| Service.StopAfterCurrentCycle | windows_nut_service.py:102-107 | a stop requested during cycle k ends the loop after exactly k + 1 cycles |

## Left out

- The Win32 service framework, the stop event object and `HandleCommandLine`: operating-system service plumbing.
- `ReportEvent` messages, event types and the log file handler: output only; the trace keeps the event id of each report.
- Loading `config.json` (events 1000 and 1006, the fatal error on failure): file I/O; the model starts from a parsed `Config`.
- PyNUTClient networking, `GetUPSNames` and `GetUPSVars`: foreign calls, replaced by the per-cycle `Env` oracle; the list of names is not kept, only whether the call succeeded.
- `os.system`: the shutdown command is recorded as a `Shutdown(reason, command)` action and is not run.
- `time.sleep`: recorded as `Wait(seconds)` actions with no timing; a fractional `shutdown_delay` is not modelled.
- Policy.SleepAccepts: uses the limit of current CPython (a signed 64-bit nanosecond count); Windows builds of CPython before 3.11 refuse lengths above 2^32 - 1 ms (about 49.7 days), and that lower limit is not modelled.
- Configuration values of the wrong JSON type (a string threshold, a non-string command): the model types every value; the `TypeError` these would raise is not modelled.
- Concurrency of `SvcStop`: it runs on another thread in the service; the model takes a stop request as arriving during a given cycle and applies it after that cycle's 5 s sleep, where the loop condition would next see it.
- Service.Run: the service loops until stopped; the model runs at most as many cycles as the `Env` inputs it is given.
- PyText.Lower: ASCII lower-casing only, not Python's full Unicode `str.lower`.
- PyText.ParseInt: no surrounding whitespace, `_` separators or non-ASCII digits, all of which Python's `int` accepts.
