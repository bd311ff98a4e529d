/**
 The health monitor: missing heartbeats or fatal logs restart the agent, and after five restarts in
 vain it backs off once.
 */
module Heartbeat {
  import opened Text
  import opened LogScanner

  const ERROR_THRESHOLD: nat := 3
  const MAX_RESTARTS: nat := 5

  datatype Counters = Counters(errors: nat, restarts: nat)

  /** What a tick of the monitor sees; the logs are only looked at when needed. */
  datatype Tick = Beat | Missed(fatalLogs: bool)

  const INITIAL: Counters := Counters(0, 0)

  predicate TakesAction(s: Counters, t: Tick)
  {
    t.Missed? && (s.errors + 1 > ERROR_THRESHOLD || t.fatalLogs)
  }

  predicate Restarts(s: Counters, t: Tick)
  {
    TakesAction(s, t) && s.restarts < MAX_RESTARTS
  }

  /** One tick of `monitor_heartbeat`. */
  function Step(s: Counters, t: Tick): Counters
  {
    if t.Beat? then Counters(0, 0)
    else if !TakesAction(s, t) then Counters(s.errors + 1, s.restarts)
    else if Restarts(s, t) then Counters(0, s.restarts + 1)
    else Counters(0, 0)
  }

  class SelfMonitorInfo {
    var consecutiveErrorCount: nat
    var consecutiveHighMemoryUsage: nat
    var memoryUsedInPercent: real

    constructor ()
      ensures consecutiveErrorCount == 0
    {
      consecutiveErrorCount, consecutiveHighMemoryUsage, memoryUsedInPercent := 0, 0, 0.0;
    }

    method Reset()
      modifies this
      ensures consecutiveErrorCount == 0 && consecutiveHighMemoryUsage == 0 && memoryUsedInPercent == 0.0
    {
      consecutiveErrorCount, consecutiveHighMemoryUsage, memoryUsedInPercent := 0, 0, 0.0;
    }

    method ResetErrorInfo()
      modifies this`consecutiveErrorCount
      ensures consecutiveErrorCount == 0
    {
      consecutiveErrorCount := 0;
    }

    method IncrementHeartbeatMissingCount()
      modifies this`consecutiveErrorCount
      ensures consecutiveErrorCount == old(consecutiveErrorCount) + 1
    {
      consecutiveErrorCount := consecutiveErrorCount + 1;
    }

    predicate CrossedErrorThreshold()
      reads this
    {
      consecutiveErrorCount > ERROR_THRESHOLD
    }
  }

  class Watcher {
    var consecutiveRestartsDueToError: nat

    constructor ()
      ensures consecutiveRestartsDueToError == 0
    {
      consecutiveRestartsDueToError := 0;
    }

    function State(info: SelfMonitorInfo): Counters
      reads this, info
    {
      Counters(info.consecutiveErrorCount, consecutiveRestartsDueToError)
    }

    /** Restarts the agent and forgets the history. */
    method TakeCorrectiveAction(info: SelfMonitorInfo)
      modifies info
      ensures info.consecutiveErrorCount == 0
      ensures info.consecutiveHighMemoryUsage == 0 && info.memoryUsedInPercent == 0.0
    {
      info.Reset();
    }

    method MonitorHeartbeat(received: bool, info: SelfMonitorInfo, marker: LogFileMarker,
                            log: Option<string>, isFatal: string -> bool)
      returns (restarted: bool)
      modifies this, info, marker
      ensures var before, scan := old(State(info)), CheckFile(old(marker.State()), log, isFatal);
              var tick := if received then Beat else Missed(scan.fatal);
              && State(info) == Step(before, tick)
              && restarted == Restarts(before, tick)
              && marker.State() == if !received && before.errors < ERROR_THRESHOLD then scan.marker else old(marker.State())
      ensures var before, fatal := old(State(info)), CheckFile(old(marker.State()), log, isFatal).fatal;
              restarted <==> !received && before.restarts < 5 && (before.errors >= 3 || fatal)
    {
      restarted := false;
      var takeAction := false;
      if !received {
        info.IncrementHeartbeatMissingCount();
        if info.CrossedErrorThreshold() {
          takeAction := true;
        } else {
          var fatal := CheckForFatalOmsLogs(marker, log, isFatal);
          if fatal {
            takeAction := true;
          }
        }
        if takeAction {
          if consecutiveRestartsDueToError < MAX_RESTARTS {
            TakeCorrectiveAction(info);
            consecutiveRestartsDueToError := consecutiveRestartsDueToError + 1;
            restarted := true;
          } else {
            consecutiveRestartsDueToError := 0;
            info.ResetErrorInfo();
          }
        }
      } else {
        info.ResetErrorInfo();
        consecutiveRestartsDueToError := 0;
      }
    }
  }

  // ---------- Runs ----------

  function StateAfter(s: Counters, ticks: seq<Tick>): Counters
    decreases |ticks|
  {
    if ticks == [] then s else StateAfter(Step(s, ticks[0]), ticks[1..])
  }

  function RestartCount(s: Counters, ticks: seq<Tick>): nat
    decreases |ticks|
  {
    if ticks == [] then 0
    else (if Restarts(s, ticks[0]) then 1 else 0) + RestartCount(Step(s, ticks[0]), ticks[1..])
  }

  predicate Bounded(s: Counters)
  {
    s.errors <= ERROR_THRESHOLD && s.restarts <= MAX_RESTARTS
  }

  lemma {:induction false} StaysBounded(s: Counters, ticks: seq<Tick>)
    requires Bounded(s)
    ensures Bounded(StateAfter(s, ticks))
    decreases |ticks|
  {
    if ticks != [] {
      StaysBounded(Step(s, ticks[0]), ticks[1..]);
    }
  }

  lemma OneTick(s: Counters, t: Tick)
    ensures StateAfter(s, [t]) == Step(s, t)
    ensures RestartCount(s, [t]) == if Restarts(s, t) then 1 else 0
  {
    assert [t][1..] == [];
  }

  /**
   What one tick does.  A missed beat restarts the agent if it is the fourth in a row or comes with a
   fatal log, and fewer than five restarts have been in vain; after five it starts counting afresh.
   */
  lemma TickExactly(s: Counters, t: Tick)
    requires Bounded(s)
    ensures RestartCount(s, [t]) == if t.Missed? && s.restarts < 5 && (s.errors == 3 || t.fatalLogs) then 1 else 0
    ensures StateAfter(s, [t]) ==
            if t.Beat? then Counters(0, 0)
            else if s.errors < 3 && !t.fatalLogs then Counters(s.errors + 1, s.restarts)
            else Counters(0, if s.restarts == 5 then 0 else s.restarts + 1)
  {
    OneTick(s, t);
  }

  lemma {:induction false} RunsCompose(s: Counters, before: seq<Tick>, after: seq<Tick>)
    ensures StateAfter(s, before + after) == StateAfter(StateAfter(s, before), after)
    ensures RestartCount(s, before + after) == RestartCount(s, before) + RestartCount(StateAfter(s, before), after)
    decreases |before|
  {
    if before == [] {
      assert before + after == after;
    } else {
      assert (before + after)[1..] == before[1..] + after;
      RunsCompose(Step(s, before[0]), before[1..], after);
    }
  }

  lemma {:induction false} RestartsFrom(s: Counters, ticks: seq<Tick>)
    requires Bounded(s)
    ensures RestartCount(s, ticks) <= |ticks| - (|ticks| + s.restarts) / 6
    decreases |ticks|
  {
    if ticks != [] {
      RestartsFrom(Step(s, ticks[0]), ticks[1..]);
    }
  }

  /** Any n consecutive ticks of any run hold at most n - floor(n / 6) restarts: five in six. */
  lemma RestartRate(before: seq<Tick>, window: seq<Tick>)
    ensures RestartCount(INITIAL, before + window) - RestartCount(INITIAL, before) <= |window| - |window| / 6
    ensures Bounded(StateAfter(INITIAL, before))
  {
    StaysBounded(INITIAL, before);
    RunsCompose(INITIAL, before, window);
    RestartsFrom(StateAfter(INITIAL, before), window);
  }

  function FatalTicks(n: nat): seq<Tick>
  {
    if n == 0 then [] else FatalTicks(n - 1) + [Missed(true)]
  }

  /** The rate is attained: with a fatal log at every missed beat five ticks in six restart. */
  lemma {:induction false} FatalRun(n: nat)
    ensures |FatalTicks(n)| == n
    ensures StateAfter(INITIAL, FatalTicks(n)) == Counters(0, n % 6)
    ensures RestartCount(INITIAL, FatalTicks(n)) == n - n / 6
  {
    if n > 0 {
      FatalRun(n - 1);
      RunsCompose(INITIAL, FatalTicks(n - 1), [Missed(true)]);
      TickExactly(Counters(0, (n - 1) % 6), Missed(true));
    }
  }

  function Silence(n: nat): seq<Tick>
  {
    if n == 0 then [] else Silence(n - 1) + [Missed(false)]
  }

  /** Without heartbeats or fatal logs the n-th tick finds the counters at n modulo 4 and n / 4 modulo 6. */
  lemma {:induction false} SilentRun(n: nat)
    ensures |Silence(n)| == n
    ensures StateAfter(INITIAL, Silence(n)) == Counters(n % 4, n / 4 % 6)
    ensures RestartCount(INITIAL, Silence(n)) == n / 4 - n / 24
  {
    if n > 0 {
      SilentRun(n - 1);
      RunsCompose(INITIAL, Silence(n - 1), [Missed(false)]);
      OneTick(Counters((n - 1) % 4, (n - 1) / 4 % 6), Missed(false));
      SilentStep(n);
    }
  }

  lemma SilentStep(n: nat)
    requires n > 0
    ensures var s := Counters((n - 1) % 4, (n - 1) / 4 % 6);
            && Step(s, Missed(false)) == Counters(n % 4, n / 4 % 6)
            && n / 4 - n / 24 == (n - 1) / 4 - (n - 1) / 24 + (if Restarts(s, Missed(false)) then 1 else 0)
  {
    assert n / 24 == n / 4 / 6 && (n - 1) / 24 == (n - 1) / 4 / 6;
  }

  /** How many missed beats a state can stand before the next restart. */
  function Patience(s: Counters): int
  {
    ERROR_THRESHOLD + 1 - s.errors + (if s.restarts < MAX_RESTARTS then 0 else ERROR_THRESHOLD + 1)
  }

  lemma {:induction false} RestartComes(s: Counters, ticks: seq<Tick>)
    requires Bounded(s) && |ticks| >= Patience(s) && forall t | t in ticks :: t.Missed?
    ensures RestartCount(s, ticks) >= 1
    decreases |ticks|
  {
    assert ticks[0] in ticks;
    if !Restarts(s, ticks[0]) {
      RestartComes(Step(s, ticks[0]), ticks[1..]);
    }
  }

  /** A dead agent is not given up: any eight consecutive missed beats of any run hold a restart. */
  lemma EightMissesRestart(before: seq<Tick>, window: seq<Tick>)
    requires |window| == 8 && forall t | t in window :: t.Missed?
    ensures RestartCount(INITIAL, before + window) > RestartCount(INITIAL, before)
  {
    StaysBounded(INITIAL, before);
    RunsCompose(INITIAL, before, window);
    RestartComes(StateAfter(INITIAL, before), window);
  }
}
