/**
 Running each configuration at most once: the freshest settings file names a sequence number, and the
 mrseq file remembers the last one acted upon.
 */
module SequenceNumbers {
  import opened Text

  // ---------- Choosing a sequence number ----------

  datatype SettingsFile = SettingsFile(name: string, mtime: int)

  /** The number before the first dot of a file name; None is the ValueError that skips the file. */
  function SeqOf(name: string): Option<nat>
  {
    ParseNat(Split(name, '.')[0])
  }

  /** The number of a file stands before the first dot of its name, or is the whole name. */
  lemma SeqOfName(stem: string, rest: string)
    requires Free(stem, '.')
    ensures SeqOf(stem + "." + rest) == SeqOf(stem)
    ensures SeqOf(stem) == if stem != "" && AllDigits(stem) then Some(Value(stem)) else None
  {
    SplitAtFirst(stem, rest, '.');
    assert stem + "." + rest == stem + ['.'] + rest;
  }

  predicate Numbered(f: SettingsFile)
  {
    SeqOf(f.name).Some?
  }

  /** File i is at least as fresh as every other numbered file, and fresher than those before it. */
  ghost predicate IsFreshest(files: seq<SettingsFile>, i: nat)
  {
    && i < |files| && Numbered(files[i])
    && forall j | 0 <= j < |files| && Numbered(files[j]) ::
         if j < i then files[j].mtime < files[i].mtime else files[j].mtime <= files[i].mtime
  }

  method GetCurrentSeqNo(files: seq<SettingsFile>) returns (seqNo: int)
    ensures seqNo == -1 <==> forall f | f in files :: !Numbered(f)
    ensures seqNo != -1 ==> exists i: nat :: IsFreshest(files, i) && SeqOf(files[i].name) == Some(seqNo)
  {
    seqNo := -1;
    var freshestTime: Option<int> := None;
    ghost var at: nat := 0;
    for k := 0 to |files|
      invariant freshestTime.None? ==> seqNo == -1 && forall j | 0 <= j < k :: !Numbered(files[j])
      invariant freshestTime.Some? ==>
        at < k && IsFreshest(files[..k], at) && freshestTime.value == files[at].mtime && SeqOf(files[at].name) == Some(seqNo)
    {
      var curSeqNo := SeqOf(files[k].name);
      if curSeqNo.Some? {
        if freshestTime.None? || files[k].mtime > freshestTime.value {
          freshestTime := Some(files[k].mtime);
          seqNo := curSeqNo.value;
          at := k;
        }
      }
    }
    assert files[..|files|] == files;
    if freshestTime.Some? {
      assert files[at] in files;
    }
  }

  lemma FreshestUnique(files: seq<SettingsFile>, i: nat, j: nat)
    requires IsFreshest(files, i) && IsFreshest(files, j)
    ensures i == j
  {
  }

  // ---------- The mrseq file ----------

  datatype SeqError = ValueError

  /** `_get_most_recent_seq`: -1 for a missing or an empty file. */
  function MostRecent(mrseq: Option<string>): Result<int, SeqError>
  {
    if mrseq.None? || mrseq.value == "" then Ok(-1)
    else
      match ParseNat(mrseq.value)
      case None => Err(ValueError)
      case Some(n) => Ok(n as int)
  }

  class HandlerUtility {
    var mrseq: Option<string>
    const seqNo: nat

    constructor (seqNo: nat, mrseq: Option<string>)
      ensures this.seqNo == seqNo && this.mrseq == mrseq
    {
      this.seqNo := seqNo;
      this.mrseq := mrseq;
    }

    method SaveSeq()
      modifies this
      ensures mrseq == Some(Decimal(seqNo)) && MostRecent(mrseq) == Ok(seqNo)
    {
      mrseq := Some(Decimal(seqNo));
      ValueOfDecimal(seqNo);
    }

    /** True if the caller must stop; otherwise the number has been stored. */
    method ExitIfSeqSmaller() returns (exits: Result<bool, SeqError>)
      modifies this
      ensures exits == (match MostRecent(old(mrseq))
                        case Err(e) => Err(e)
                        case Ok(recent) => Ok(seqNo <= recent))
      ensures if exits == Ok(false) then MostRecent(mrseq) == Ok(seqNo) else mrseq == old(mrseq)
    {
      var recent := MostRecent(mrseq);
      if recent.Err? {
        return Err(recent.error);
      }
      if seqNo <= recent.value {
        return Ok(true);
      }
      SaveSeq();
      return Ok(false);
    }
  }

  // ---------- Enable, with crashes ----------

  /** How far an enable command has come.  The file is rewritten by truncating and then writing it. */
  datatype Phase = Idle | Parsed(seqNo: nat) | Checked(seqNo: nat) | Truncated(seqNo: nat) | Saved(seqNo: nat)

  datatype State = State(mrseq: Option<string>, phase: Phase, launched: seq<nat>)

  datatype Event = Begin(seqNo: nat) | Advance | Crash

  function Step(s: State, e: Event): State
  {
    match (e, s.phase)
    case (Begin(n), Idle) => s.(phase := Parsed(n))
    case (Begin(_), _) => s
    case (Crash, _) => s.(phase := Idle)
    case (Advance, Idle) => s
    case (Advance, Parsed(n)) =>
      var recent := MostRecent(s.mrseq);
      if recent.Err? || n <= recent.value then s.(phase := Idle) else s.(phase := Checked(n))
    case (Advance, Checked(n)) => s.(mrseq := Some(""), phase := Truncated(n))
    case (Advance, Truncated(n)) => s.(mrseq := Some(Decimal(n)), phase := Saved(n))
    case (Advance, Saved(n)) => s.(phase := Idle, launched := s.launched + [n])
  }

  function Run(s: State, events: seq<Event>): State
    decreases |events|
  {
    if events == [] then s else Run(Step(s, events[0]), events[1..])
  }

  predicate Increasing(s: seq<nat>)
  {
    forall i, j | 0 <= i < j < |s| :: s[i] < s[j]
  }

  predicate AllBelow(s: seq<nat>, n: int)
  {
    forall i | 0 <= i < |s| :: s[i] < n
  }

  /** A crash between truncating and writing the file. */
  predicate Torn(s: State, e: Event)
  {
    e.Crash? && s.phase.Truncated?
  }

  ghost predicate NoneTorn(s: State, events: seq<Event>)
    decreases |events|
  {
    events != [] ==> !Torn(s, events[0]) && NoneTorn(Step(s, events[0]), events[1..])
  }

  /** The stored number, when there is one to read, is at least everything launched. */
  predicate Remembers(s: State)
  {
    MostRecent(s.mrseq).Ok? ==> AllBelow(s.launched, MostRecent(s.mrseq).value + 1)
  }

  predicate Safe(s: State)
  {
    && Increasing(s.launched)
    && (!s.phase.Truncated? ==> Remembers(s))
    && (s.phase.Checked? || s.phase.Truncated? || s.phase.Saved? ==> AllBelow(s.launched, s.phase.seqNo))
    && (s.phase.Saved? ==> s.mrseq == Some(Decimal(s.phase.seqNo)))
  }

  lemma StepSafe(s: State, e: Event)
    requires Safe(s) && !Torn(s, e)
    ensures Safe(Step(s, e))
  {
    if s.phase.Truncated? || s.phase.Saved? {
      ValueOfDecimal(s.phase.seqNo);
    }
  }

  /** However often enable is killed, launches strictly increase and never pass the stored number. */
  lemma {:induction false} LaunchesIncrease(s: State, events: seq<Event>)
    requires Safe(s) && NoneTorn(s, events)
    ensures Safe(Run(s, events)) && Increasing(Run(s, events).launched)
    decreases |events|
  {
    if events != [] {
      StepSafe(s, events[0]);
      LaunchesIncrease(Step(s, events[0]), events[1..]);
    }
  }

  /** An enable command on n that nobody interrupts. */
  function Enable(n: nat): seq<Event>
  {
    [Begin(n), Advance, Advance, Advance, Advance]
  }

  /** Undisturbed, the machine does what `exit_if_enabled` followed by the launch does. */
  lemma EnableRuns(s: State, n: nat)
    requires s.phase == Idle
    ensures NoneTorn(s, Enable(n))
    ensures Run(s, Enable(n)) ==
            match MostRecent(s.mrseq)
            case Err(_) => s
            case Ok(recent) => if n <= recent then s else State(Some(Decimal(n)), Idle, s.launched + [n])
  {
    var e := Enable(n);
    var s1 := Step(s, e[0]);
    var s2 := Step(s1, Advance);
    var s3 := Step(s2, Advance);
    var s4 := Step(s3, Advance);
    assert e[1..] == [Advance, Advance, Advance, Advance];
    assert e[1..][1..] == [Advance, Advance, Advance];
    assert e[1..][1..][1..] == [Advance, Advance];
    assert e[1..][1..][1..][1..] == [Advance];
    assert e[1..][1..][1..][1..][1..] == [];
    assert Run(s4, [Advance]) == Step(s4, Advance);
    assert Run(s3, [Advance, Advance]) == Run(s4, [Advance]);
    assert Run(s2, [Advance, Advance, Advance]) == Run(s3, [Advance, Advance]);
    assert NoneTorn(s4, [Advance]) && NoneTorn(s3, [Advance, Advance]) && NoneTorn(s2, [Advance, Advance, Advance]);
  }

  /** A file that holds something but no number stops every command: nothing is launched or stored. */
  lemma UnreadableStops(s: State, n: nat)
    requires s.phase == Idle && s.mrseq.Some? && s.mrseq.value != ""
    requires exists i | 0 <= i < |s.mrseq.value| :: !IsDigit(s.mrseq.value[i])
    ensures Run(s, Enable(n)) == s
  {
    EnableRuns(s, n);
  }

  /** From an idle state every future is at-most-once exactly when the file remembers what was launched. */
  lemma SafeExactly(s: State)
    requires s.phase == Idle && Increasing(s.launched) && MostRecent(s.mrseq).Ok?
    ensures (forall events | NoneTorn(s, events) :: Increasing(Run(s, events).launched)) <==> Remembers(s)
  {
    if Remembers(s) {
      forall events | NoneTorn(s, events) ensures Increasing(Run(s, events).launched) {
        LaunchesIncrease(s, events);
      }
    } else {
      var i :| 0 <= i < |s.launched| && s.launched[i] > MostRecent(s.mrseq).value;
      var n := s.launched[i];
      EnableRuns(s, n);
      var after := Run(s, Enable(n)).launched;
      assert after[i] == n == after[|after| - 1];
      assert !Increasing(Run(s, Enable(n)).launched);
    }
  }

  /** A torn write makes the file forget, so a number already launched is launched again. */
  lemma TornWriteRelaunches(n: nat)
    ensures var start := State(None, Idle, []);
            var events := Enable(n) + [Begin(n + 1), Advance, Advance, Crash] + Enable(n);
            Run(start, events).launched == [n, n]
  {
    var start := State(None, Idle, []);
    EnableRuns(start, n);
    ValueOfDecimal(n);
    var s1 := State(Some(Decimal(n)), Idle, [n]);
    var torn := [Begin(n + 1), Advance, Advance, Crash];
    var s2 := State(Some(""), Idle, [n]);
    assert [] + [n] == [n] && [n] + [n] == [n, n];
    TornRun(s1, n + 1);
    EnableRuns(s2, n);
    RunAppend(start, Enable(n), torn);
    RunAppend(start, Enable(n) + torn, Enable(n));
  }

  lemma TornRun(s: State, n: nat)
    requires s.phase == Idle && MostRecent(s.mrseq).Ok? && MostRecent(s.mrseq).value < n
    ensures Run(s, [Begin(n), Advance, Advance, Crash]) == s.(mrseq := Some(""))
  {
    var e := [Begin(n), Advance, Advance, Crash];
    assert e[1..] == [Advance, Advance, Crash];
    assert e[1..][1..] == [Advance, Crash];
    assert e[1..][1..][1..] == [Crash];
    assert e[1..][1..][1..][1..] == [];
    var s2 := Step(Step(s, e[0]), Advance);
    var s3 := Step(s2, Advance);
    assert Run(s3, [Crash]) == Step(s3, Crash);
    assert Run(s2, [Advance, Crash]) == Run(s3, [Crash]);
    assert Run(s, e) == Run(Step(s, e[0]), [Advance, Advance, Crash]);
    assert Run(Step(s, e[0]), [Advance, Advance, Crash]) == Run(s2, [Advance, Crash]);
  }

  lemma {:induction false} RunAppend(s: State, a: seq<Event>, b: seq<Event>)
    ensures Run(s, a + b) == Run(Run(s, a), b)
    decreases |a|
  {
    if a == [] {
      assert a + b == b;
    } else {
      assert (a + b)[1..] == a[1..] + b;
      RunAppend(Step(s, a[0]), a[1..], b);
    }
  }

  // ---------- Torn writes under monotone numbers ----------

  /** Every number begun is at least `low` and at least all begun before it. */
  predicate Monotone(low: nat, events: seq<Event>)
    decreases |events|
  {
    if events == [] then true
    else if events[0].Begin? then events[0].seqNo >= low && Monotone(events[0].seqNo, events[1..])
    else Monotone(low, events[1..])
  }

  /** The file remembers, or all numbers still to come are above the launched ones. */
  predicate SafeUpTo(s: State, high: nat)
  {
    && Increasing(s.launched)
    && (Remembers(s) || AllBelow(s.launched, high))
    && (s.phase != Idle ==> s.phase.seqNo <= high)
    && (s.phase.Parsed? ==> Remembers(s) || AllBelow(s.launched, s.phase.seqNo))
    && (s.phase.Checked? || s.phase.Truncated? || s.phase.Saved? ==> AllBelow(s.launched, s.phase.seqNo))
    && (s.phase.Saved? ==> s.mrseq == Some(Decimal(s.phase.seqNo)))
  }

  lemma {:induction false} MonotoneKeepsSafe(s: State, high: nat, events: seq<Event>)
    requires SafeUpTo(s, high) && Monotone(high, events)
    ensures Increasing(Run(s, events).launched)
    decreases |events|
  {
    if events != [] {
      var e := events[0];
      StepSafeUpTo(s, high, e);
      MonotoneKeepsSafe(Step(s, e), if e.Begin? then e.seqNo else high, events[1..]);
    }
  }

  lemma StepSafeUpTo(s: State, high: nat, e: Event)
    requires SafeUpTo(s, high) && (e.Begin? ==> e.seqNo >= high)
    ensures SafeUpTo(Step(s, e), if e.Begin? then e.seqNo else high)
  {
    if s.phase.Truncated? || s.phase.Saved? {
      ValueOfDecimal(s.phase.seqNo);
    }
  }

  lemma EnableMonotone(n: nat, high: nat)
    requires high <= n
    ensures Monotone(high, Enable(n))
  {
    var e := Enable(n);
    assert e[1..] == [Advance, Advance, Advance, Advance];
    assert e[1..][1..] == [Advance, Advance, Advance];
    assert e[1..][1..][1..] == [Advance, Advance];
    assert e[1..][1..][1..][1..] == [Advance];
    assert Monotone(n, [Advance]) && Monotone(n, [Advance, Advance]) && Monotone(n, [Advance, Advance, Advance]);
  }

  /** A number that is at least `high` and above the stored one, but has been launched, is launched again. */
  lemma Relaunched(s: State, high: nat)
    requires s.phase == Idle && Increasing(s.launched) && MostRecent(s.mrseq).Ok?
    requires !Remembers(s) && !AllBelow(s.launched, high)
    ensures exists events :: Monotone(high, events) && !Increasing(Run(s, events).launched)
  {
    var k := |s.launched| - 1;
    var n := s.launched[k];
    EnableMonotone(n, high);
    EnableRuns(s, n);
    var after := Run(s, Enable(n)).launched;
    assert after[k] == n == after[k + 1];
    assert !Increasing(Run(s, Enable(n)).launched);
  }

  /**
   With writes that may be torn anywhere, numbers that never go down are launched at most once in every
   future exactly if the file remembers what was launched, or all that is to come is above it.
   */
  lemma MonotoneExactly(s: State, high: nat)
    requires s.phase == Idle && Increasing(s.launched) && MostRecent(s.mrseq).Ok?
    ensures (forall events | Monotone(high, events) :: Increasing(Run(s, events).launched))
            <==> Remembers(s) || AllBelow(s.launched, high)
  {
    if Remembers(s) || AllBelow(s.launched, high) {
      forall events | Monotone(high, events) ensures Increasing(Run(s, events).launched) {
        MonotoneKeepsSafe(s, high, events);
      }
    } else {
      Relaunched(s, high);
    }
  }
}
