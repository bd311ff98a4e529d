/**
 The collection loop of the daemon and the query windows it opens, one per cycle.  Clock readings
 are real numbers; a run of the endless loop is cut after any number of cycles.
 */
module Scheduler {
  import opened Text
  import opened Calendar
  import opened StorageKeys

  const INTERVAL: int := 60
  const TABLE_DELAY: int := 300

  /** A cycle's two clock readings after its start: when it computes its window, when it is done. */
  datatype Cycle = Cycle(query: real, elapsed: real)

  datatype Window = Window(start: int, end: int)

  /** Python's `%` on floats: the result has the sign of n. */
  function PyMod(x: real, n: real): real
    requires n > 0.0
  {
    x - n * (x / n).Floor as real
  }

  function TimeToWait(elapsed: real): real
  {
    PyMod(INTERVAL as real - elapsed, INTERVAL as real)
  }

  function NextStart(start: real, elapsed: real): real
  {
    start + elapsed + TimeToWait(elapsed)
  }

  function Minute(t: real): int
  {
    t.Floor / INTERVAL
  }

  /** The window asked for by `getStorageTableKeyRange` at time `now`. */
  function QueryWindow(now: real): Window
  {
    var endTime := now.Floor / INTERVAL * INTERVAL - TABLE_DELAY;
    Window(endTime - INTERVAL, endTime)
  }

  /** The window is the latest whole minute that ended at least five minutes ago. */
  lemma WindowIs(now: real)
    ensures var w := QueryWindow(now);
            && w.end % 60 == 0 && w.end - w.start == 60
            && w.end as real <= now - 300.0 < (w.end + 60) as real
  {
  }

  /** What the loop does: each start follows from the last one, each window from its query time. */
  ghost predicate IsRun(start: real, cycles: seq<Cycle>, starts: seq<real>, windows: seq<Window>)
  {
    && |starts| == |cycles| + 1 && |windows| == |cycles| && starts[0] == start
    && (forall i | 0 <= i < |cycles| :: starts[i + 1] == NextStart(starts[i], cycles[i].elapsed))
    && (forall i | 0 <= i < |cycles| :: windows[i] == QueryWindow(starts[i] + cycles[i].query))
  }

  method Daemon(start: real, cycles: seq<Cycle>) returns (starts: seq<real>, windows: seq<Window>)
    ensures IsRun(start, cycles, starts, windows)
  {
    var startTime := start;
    starts, windows := [start], [];
    for i := 0 to |cycles|
      invariant IsRun(start, cycles[..i], starts, windows)
      invariant startTime == starts[i]
    {
      windows := windows + [QueryWindow(startTime + cycles[i].query)];
      var timeElapsed := cycles[i].elapsed;
      var timeToWait := INTERVAL as real - timeElapsed;
      timeToWait := PyMod(timeToWait, INTERVAL as real);
      startTime := startTime + timeElapsed + timeToWait;
      starts := starts + [startTime];
    }
    assert cycles[..|cycles|] == cycles;
  }

  /** How many intervals a cycle takes, rounded up. */
  function Slots(elapsed: real): int
  {
    -((-elapsed / INTERVAL as real).Floor)
  }

  /** The loop resumes at the least multiple of the interval that is not before the cycle's end. */
  lemma NextStartIsLeastMultiple(start: real, elapsed: real)
    ensures NextStart(start, elapsed) == start + (INTERVAL * Slots(elapsed)) as real
    ensures elapsed <= (INTERVAL * Slots(elapsed)) as real
    ensures forall m: int :: elapsed <= (INTERVAL * m) as real ==> Slots(elapsed) <= m
    ensures NextStart(start, elapsed) > start <==> elapsed > 0.0
    ensures 0.0 <= TimeToWait(elapsed) < INTERVAL as real
  {
    var x := -elapsed / 60.0;
    assert (60.0 - elapsed) / 60.0 == x + 1.0;
    assert (x + 1.0).Floor == x.Floor + 1;
    assert elapsed == -60.0 * x;
    forall m: int | elapsed <= (INTERVAL * m) as real ensures Slots(elapsed) <= m {
      assert (-m) as real <= x;
    }
  }

  /**
   One cycle of any run, late ones included: its window is that of its query time, and the next one
   starts a whole number of minutes after it, within a minute of its end.
   */
  lemma CycleExactly(start: real, cycles: seq<Cycle>, starts: seq<real>, windows: seq<Window>, i: nat)
    requires IsRun(start, cycles, starts, windows) && i < |cycles|
    ensures var now, end := starts[i] + cycles[i].query, starts[i] + cycles[i].elapsed;
            && windows[i].end % 60 == 0 && windows[i].end - windows[i].start == 60
            && windows[i].end as real <= now - 300.0 < (windows[i].end + 60) as real
            && end <= starts[i + 1] < end + 60.0
            && exists k: int :: starts[i + 1] == starts[i] + (60 * k) as real
  {
    WindowIs(starts[i] + cycles[i].query);
    NextStartIsLeastMultiple(starts[i], cycles[i].elapsed);
  }

  lemma MinuteShift(t: real, k: int)
    ensures Minute(t + (INTERVAL * k) as real) == Minute(t) + k
  {
    assert (t + (60 * k) as real).Floor == t.Floor + 60 * k;
  }

  /** Starts never drift: whole intervals separate any of them from the first. */
  lemma {:induction false} NoDrift(start: real, cycles: seq<Cycle>, starts: seq<real>, windows: seq<Window>, i: nat)
    returns (k: int)
    requires IsRun(start, cycles, starts, windows) && i < |starts|
    ensures starts[i] == start + (60 * k) as real
  {
    if i == 0 {
      k := 0;
    } else {
      k := NoDrift(start, cycles, starts, windows, i - 1);
      NextStartIsLeastMultiple(starts[i - 1], cycles[i - 1].elapsed);
      k := k + Slots(cycles[i - 1].elapsed);
    }
  }

  /** Every cycle computes its window within the minute it started in. */
  ghost predicate Punctual(cycles: seq<Cycle>, starts: seq<real>)
    requires |starts| > |cycles|
  {
    forall i | 0 <= i < |cycles| :: Minute(starts[i] + cycles[i].query) == Minute(starts[i])
  }

  ghost predicate Short(c: Cycle)
  {
    0.0 < c.elapsed <= INTERVAL as real
  }

  /** Two successive windows meet, with no gap or overlap, exactly when the first cycle was short. */
  lemma WindowsMeet(start: real, cycles: seq<Cycle>, starts: seq<real>, windows: seq<Window>, i: nat)
    requires IsRun(start, cycles, starts, windows) && Punctual(cycles, starts) && i + 1 < |cycles|
    ensures windows[i + 1].start - windows[i].end == INTERVAL * (Slots(cycles[i].elapsed) - 1)
    ensures windows[i].end == windows[i + 1].start <==> Short(cycles[i])
  {
    var e := cycles[i].elapsed;
    NextStartIsLeastMultiple(starts[i], e);
    MinuteShift(starts[i], Slots(e));
    assert e <= (INTERVAL * 1) as real ==> Slots(e) <= 1;
    assert e <= (INTERVAL * 0) as real ==> Slots(e) <= 0;
  }

  ghost predicate Inside(t: int, w: Window)
  {
    w.start <= t < w.end
  }

  /** With short cycles the windows tile time: cycle i has the i-th minute after the first window. */
  lemma {:induction false} WindowsTile(start: real, cycles: seq<Cycle>, starts: seq<real>, windows: seq<Window>, i: nat)
    requires IsRun(start, cycles, starts, windows) && Punctual(cycles, starts) && i < |cycles|
    requires forall c | c in cycles :: Short(c)
    ensures windows[i] == Window(windows[0].start + INTERVAL * i, windows[0].start + INTERVAL * (i + 1))
  {
    if i > 0 {
      WindowsTile(start, cycles, starts, windows, i - 1);
      assert cycles[i - 1] in cycles;
      WindowsMeet(start, cycles, starts, windows, i - 1);
    }
  }

  /** The query over window w returns a row stamped t. */
  predicate Fetches(w: Window, t: nat)
    requires 0 <= w.start && 0 <= w.end
  {
    InKeyRange(StorageTimestamp(t), StorageTimestamp(w.start), StorageTimestamp(w.end))
  }

  lemma FetchesByMinute(w: Window, t: nat)
    requires 0 <= w.start < YEAR_10000 && 0 <= w.end < YEAR_10000 && t < YEAR_10000
    ensures Fetches(w, t) <==> w.start / INTERVAL <= t / INTERVAL < w.end / INTERVAL
  {
    RangeSelectsMinutes(t, w.start, w.end);
  }

  lemma MinuteSlot(first: nat, k: int, t: nat)
    requires first % INTERVAL == 0 && first <= t
    ensures (first + INTERVAL * k) / INTERVAL <= t / INTERVAL < (first + INTERVAL * (k + 1)) / INTERVAL
            <==> k == (t - first) / INTERVAL
  {
  }

  /** The minutes that have gone by when cycle i starts. */
  function SlotsBefore(cycles: seq<Cycle>, i: nat): int
    requires i <= |cycles|
  {
    if i == 0 then 0 else SlotsBefore(cycles, i - 1) + Slots(cycles[i - 1].elapsed)
  }

  ghost predicate Forward(cycles: seq<Cycle>)
  {
    forall i | 0 <= i < |cycles| :: cycles[i].elapsed > 0.0
  }

  lemma SlotsPositive(elapsed: real)
    requires elapsed > 0.0
    ensures Slots(elapsed) >= 1
    ensures elapsed <= INTERVAL as real ==> Slots(elapsed) == 1
  {
    NextStartIsLeastMultiple(0.0, elapsed);
    assert Slots(elapsed) <= 0 ==> (INTERVAL * Slots(elapsed)) as real <= 0.0;
    assert elapsed <= (INTERVAL * 1) as real ==> Slots(elapsed) <= 1;
  }

  lemma {:induction false} SlotsGrow(cycles: seq<Cycle>, i: nat, j: nat)
    requires Forward(cycles) && i < j <= |cycles|
    ensures SlotsBefore(cycles, i) < SlotsBefore(cycles, j)
    decreases j
  {
    SlotsPositive(cycles[j - 1].elapsed);
    if i < j - 1 {
      SlotsGrow(cycles, i, j - 1);
    }
  }

  /** Long cycles leave minutes out: window i is the minute that begins when cycle i does, and no other. */
  lemma {:induction false} WindowAt(start: real, cycles: seq<Cycle>, starts: seq<real>, windows: seq<Window>, i: nat)
    requires IsRun(start, cycles, starts, windows) && Punctual(cycles, starts) && i < |cycles|
    ensures var first := windows[0].start + INTERVAL * SlotsBefore(cycles, i); windows[i] == Window(first, first + INTERVAL)
  {
    if i > 0 {
      WindowAt(start, cycles, starts, windows, i - 1);
      WindowsMeet(start, cycles, starts, windows, i - 1);
    }
  }

  /** Dates the clock can name, for every window of a run. */
  ghost predicate InRange(windows: seq<Window>)
  {
    forall i | 0 <= i < |windows| :: 0 <= windows[i].start && windows[i].end < YEAR_10000
  }

  lemma WindowOrder(start: real, cycles: seq<Cycle>, starts: seq<real>, windows: seq<Window>, i: nat)
    requires IsRun(start, cycles, starts, windows) && Punctual(cycles, starts) && Forward(cycles) && i < |cycles|
    ensures windows[0].start <= windows[i].start && windows[i].end <= windows[|windows| - 1].end
  {
    WindowAt(start, cycles, starts, windows, i);
    WindowAt(start, cycles, starts, windows, |cycles| - 1);
    if i > 0 {
      SlotsGrow(cycles, 0, i);
    }
    if i < |cycles| - 1 {
      SlotsGrow(cycles, i, |cycles| - 1);
    }
  }

  /** The minute of a row, counted from the first window. */
  function RowSlot(first: int, t: nat): int
  {
    (t - first) / INTERVAL
  }

  lemma MinuteFetches(w: Window, first: nat, k: int, t: nat)
    requires first % INTERVAL == 0 && w == Window(first + INTERVAL * k, first + INTERVAL * k + INTERVAL)
    requires 0 <= w.start && w.end < YEAR_10000 && first <= t < YEAR_10000
    ensures Fetches(w, t) <==> k == RowSlot(first, t)
  {
    FetchesByMinute(w, t);
    MinuteSlot(first, k, t);
  }

  lemma SlotWindow(start: real, cycles: seq<Cycle>, starts: seq<real>, windows: seq<Window>, i: nat)
    requires IsRun(start, cycles, starts, windows) && Punctual(cycles, starts) && i < |cycles|
    ensures windows[0].start % INTERVAL == 0
    ensures var first := windows[0].start + INTERVAL * SlotsBefore(cycles, i); windows[i] == Window(first, first + INTERVAL)
  {
    WindowAt(start, cycles, starts, windows, i);
  }

  lemma RowAtSlot(start: real, cycles: seq<Cycle>, starts: seq<real>, windows: seq<Window>, i: nat, t: nat, w: Window)
    requires IsRun(start, cycles, starts, windows) && Punctual(cycles, starts) && i < |cycles| && w == windows[i]
    requires 0 <= windows[0].start && 0 <= w.start && w.end < YEAR_10000 && windows[0].start <= t < YEAR_10000
    ensures 0 <= w.end && (Fetches(w, t) <==> SlotsBefore(cycles, i) == RowSlot(windows[0].start, t))
  {
    SlotWindow(start, cycles, starts, windows, i);
    MinuteFetches(w, windows[0].start, SlotsBefore(cycles, i), t);
  }

  /**
   In every punctual run a row is fetched by the cycles that start in the row's minute, counted from
   the first window.  If cycles take time there is at most one: a minute that a long cycle passes
   over is not fetched, and none is fetched twice.
   */
  lemma FetchedAtItsSlot(start: real, cycles: seq<Cycle>, starts: seq<real>, windows: seq<Window>, i: nat, t: nat)
    requires IsRun(start, cycles, starts, windows) && Punctual(cycles, starts) && i < |cycles|
    requires InRange(windows) && windows[0].start <= t < YEAR_10000
    ensures Fetches(windows[i], t) <==> SlotsBefore(cycles, i) == RowSlot(windows[0].start, t)
    ensures Forward(cycles) ==> forall j | 0 <= j < |cycles| && j != i :: Fetches(windows[i], t) ==> !Fetches(windows[j], t)
  {
    RowAtSlot(start, cycles, starts, windows, i, t, windows[i]);
    if Forward(cycles) {
      forall j | 0 <= j < |cycles| && j != i ensures Fetches(windows[i], t) ==> !Fetches(windows[j], t) {
        RowAtSlot(start, cycles, starts, windows, j, t, windows[j]);
        SlotsGrow(cycles, if i < j then i else j, if i < j then j else i);
      }
    }
  }

  lemma {:induction false} ShortSlots(cycles: seq<Cycle>, i: nat)
    requires i <= |cycles| && forall c | c in cycles :: Short(c)
    ensures SlotsBefore(cycles, i) == i
  {
    if i > 0 {
      ShortSlots(cycles, i - 1);
      assert cycles[i - 1] in cycles;
      SlotsPositive(cycles[i - 1].elapsed);
    }
  }

  lemma ShortForward(cycles: seq<Cycle>)
    requires forall c | c in cycles :: Short(c)
    ensures Forward(cycles)
  {
    forall i | 0 <= i < |cycles| ensures cycles[i].elapsed > 0.0 {
      assert cycles[i] in cycles;
    }
  }

  /**
   With short cycles nothing is missed either: a row stamped anywhere between the first and the last
   window is returned by the query of exactly one cycle.
   */
  lemma EveryRowFetchedOnce(start: real, cycles: seq<Cycle>, starts: seq<real>, windows: seq<Window>, t: nat)
    returns (k: nat)
    requires IsRun(start, cycles, starts, windows) && Punctual(cycles, starts) && cycles != []
    requires forall c | c in cycles :: Short(c)
    requires 0 <= windows[0].start && windows[|windows| - 1].end < YEAR_10000
    requires windows[0].start <= t < windows[|windows| - 1].end
    ensures k < |cycles|
    ensures forall i | 0 <= i < |cycles| :: 0 <= windows[i].start && 0 <= windows[i].end
    ensures forall i | 0 <= i < |cycles| :: Fetches(windows[i], t) <==> i == k
  {
    k := RowSlot(windows[0].start, t);
    ShortForward(cycles);
    forall i | 0 <= i < |cycles| ensures 0 <= windows[i].start && windows[i].end < YEAR_10000 {
      WindowOrder(start, cycles, starts, windows, i);
    }
    WindowsTile(start, cycles, starts, windows, |cycles| - 1);
    forall i | 0 <= i < |cycles| ensures Fetches(windows[i], t) <==> i == k {
      RowAtSlot(start, cycles, starts, windows, i, t, windows[i]);
      ShortSlots(cycles, i);
    }
  }
}
