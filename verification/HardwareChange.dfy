/**
 The persisted detector of network hardware changes.  Its only memory is the HwInfo file: a time
 and the sorted MAC addresses, one a line.
 */
module HardwareChange {
  import opened Text

  datatype HwError = ValueError

  /** What `getHwInfo` finds: nothing, or a time and a list. */
  datatype HwInfo = HwInfo(time: nat, macs: seq<string>)

  // ---------- Sorting ----------

  predicate Sorted(s: seq<string>)
  {
    forall i, j | 0 <= i < j < |s| :: LexLeq(s[i], s[j])
  }

  function Insert(x: string, s: seq<string>): seq<string>
  {
    if s == [] || LexLeq(x, s[0]) then [x] + s else [s[0]] + Insert(x, s[1..])
  }

  /** `list.sort()`. */
  function Sort(s: seq<string>): seq<string>
  {
    if s == [] then [] else Insert(s[0], Sort(s[1..]))
  }

  lemma LexLeqTransitive(a: string, b: string, c: string)
    requires LexLeq(a, b) && LexLeq(b, c)
    ensures LexLeq(a, c)
  {
    if a != b && b != c {
      LexTransitive(a, b, c);
    }
  }

  lemma {:induction false} InsertSorts(x: string, s: seq<string>)
    requires Sorted(s)
    ensures Sorted(Insert(x, s)) && multiset(Insert(x, s)) == multiset{x} + multiset(s)
  {
    if s == [] {
    } else if LexLeq(x, s[0]) {
      forall j | 0 <= j < |s| ensures LexLeq(x, s[j]) {
        if j > 0 {
          LexLeqTransitive(x, s[0], s[j]);
        }
      }
    } else {
      InsertSorts(x, s[1..]);
      LexTotal(x, s[0]);
      assert s == [s[0]] + s[1..];
      var rest := Insert(x, s[1..]);
      forall j | 0 <= j < |rest| ensures LexLeq(s[0], rest[j]) {
        assert rest[j] in multiset(rest);
        assert rest[j] == x || rest[j] in s[1..];
      }
    }
  }

  lemma {:induction false} SortSorts(s: seq<string>)
    ensures Sorted(Sort(s)) && multiset(Sort(s)) == multiset(s)
  {
    if s != [] {
      SortSorts(s[1..]);
      InsertSorts(s[0], Sort(s[1..]));
      assert s == [s[0]] + s[1..];
    }
  }

  lemma {:induction false} SortedUnique(a: seq<string>, b: seq<string>)
    requires Sorted(a) && Sorted(b) && multiset(a) == multiset(b)
    ensures a == b
  {
    if a == [] {
      assert |multiset(b)| == 0;
    } else {
      assert |multiset(a)| == |multiset(b)|;
      HeadIsLeast(a, b);
      HeadIsLeast(b, a);
      LexTotal(a[0], b[0]);
      assert a == [a[0]] + a[1..] && b == [b[0]] + b[1..];
      assert multiset(a[1..]) == multiset(a) - multiset{a[0]};
      assert multiset(b[1..]) == multiset(b) - multiset{b[0]};
      SortedUnique(a[1..], b[1..]);
    }
  }

  lemma HeadIsLeast(a: seq<string>, b: seq<string>)
    requires Sorted(a) && a != [] && b != [] && multiset(a) == multiset(b)
    ensures LexLeq(a[0], b[0])
  {
    assert b[0] in multiset(b);
    assert b[0] in a;
  }

  /** Sorted copies are equal exactly when the lists hold the same addresses equally often. */
  lemma SortEqualsMultiset(a: seq<string>, b: seq<string>)
    ensures Sort(a) == Sort(b) <==> multiset(a) == multiset(b)
  {
    SortSorts(a);
    SortSorts(b);
    if multiset(a) == multiset(b) {
      SortedUnique(Sort(a), Sort(b));
    }
  }

  method SameList(l1: Option<seq<string>>, l2: Option<seq<string>>) returns (same: bool)
    ensures same <==> l1 == l2
  {
    if l1.None? || l2.None? {
      return l1 == l2;
    }
    var a, b := l1.value, l2.value;
    if |a| != |b| {
      return false;
    }
    for i := 0 to |a|
      invariant a[..i] == b[..i]
    {
      if a[i] != b[i] {
        return false;
      }
    }
    assert a[..|a|] == a && b[..|b|] == b;
    return true;
  }

  // ---------- The file ----------

  /** The text `setHwInfo` writes. */
  function HwText(time: nat, macs: seq<string>): string
  {
    Decimal(time) + "\n" + Join(macs, '\n')
  }

  /** `getHwInfo`; the first line must be a number. */
  function GetHwInfo(file: Option<string>): Result<Option<HwInfo>, HwError>
  {
    if file.None? then Ok(None)
    else
      var lines := Split(file.value, '\n');
      match ParseNat(lines[0])
      case None => Err(ValueError)
      case Some(time) => Ok(Some(HwInfo(time, lines[1..])))
  }

  lemma HwTextParts(time: nat, macs: seq<string>)
    ensures GetHwInfo(Some(HwText(time, macs))) == Ok(Some(HwInfo(time, Split(Join(macs, '\n'), '\n'))))
  {
    ValueOfDecimal(time);
    assert HwText(time, macs) == Decimal(time) + ['\n'] + Join(macs, '\n');
    SplitAtFirst(Decimal(time), Join(macs, '\n'), '\n');
  }

  /** Writing and reading back is the identity exactly on non-empty lists of newline-free addresses. */
  lemma HwInfoRoundTrip(time: nat, macs: seq<string>)
    ensures GetHwInfo(Some(HwText(time, macs))) == Ok(Some(HwInfo(time, macs))) <==> macs != [] && AllFree(macs, '\n')
  {
    HwTextParts(time, macs);
    SplitJoinExactly(macs, '\n');
  }

  /** One call of `getLastHardwareChange`: the file afterwards and what is returned. */
  function Observe(file: Option<string>, time: nat, macs: seq<string>): (Option<string>, Result<nat, HwError>)
  {
    match GetHwInfo(file)
    case Err(e) => (file, Err(e))
    case Ok(info) =>
      if info.Some? && info.value.macs == Sort(macs) then (file, Ok(info.value.time))
      else (Some(HwText(time, Sort(macs))), Ok(time))
  }

  class HardwareChangeInfo {
    var hwInfoFile: Option<string>

    constructor ()
      ensures hwInfoFile == None
    {
      hwInfoFile := None;
    }

    method SetHwInfo(time: nat, macs: seq<string>)
      modifies this
      ensures hwInfoFile == Some(HwText(time, macs))
    {
      var content := Decimal(time);
      content := content + "\n" + Join(macs, '\n');
      hwInfoFile := Some(content);
    }

    method GetLastHardwareChange(adapters: seq<string>, newTime: nat) returns (r: Result<nat, HwError>)
      modifies this
      ensures (hwInfoFile, r) == Observe(old(hwInfoFile), newTime, adapters)
    {
      var info := GetHwInfo(hwInfoFile);
      if info.Err? {
        return Err(info.error);
      }
      var oldMacs := if info.value.Some? then Some(info.value.value.macs) else None;
      var newMacs := Sort(adapters);
      var same := SameList(Some(newMacs), oldMacs);
      if oldMacs.None? || !same {
        SetHwInfo(newTime, newMacs);
        return Ok(newTime);
      } else {
        return Ok(info.value.value.time);
      }
    }
  }

  // ---------- Runs ----------

  datatype Observation = Observation(time: nat, macs: seq<string>)

  /** The file after n observations.  Nothing else survives a call, so restarts change nothing. */
  function FileAt(obs: seq<Observation>, n: nat): Option<string>
    requires n <= |obs|
  {
    if n == 0 then None else Observe(FileAt(obs, n - 1), obs[n - 1].time, obs[n - 1].macs).0
  }

  /** What the i-th observation of a run reports. */
  function Report(obs: seq<Observation>, i: nat): Result<nat, HwError>
    requires i < |obs|
  {
    Observe(FileAt(obs, i), obs[i].time, obs[i].macs).1
  }

  /** An empty list is stored as a single empty line and reads back as such. */
  function Stored(macs: seq<string>): seq<string>
  {
    if macs == [] then [""] else macs
  }

  predicate Differs(before: seq<string>, after: seq<string>)
  {
    multiset(after) != multiset(Stored(before))
  }

  predicate IsChange(obs: seq<Observation>, i: nat)
    requires i < |obs|
  {
    i == 0 || Differs(obs[i - 1].macs, obs[i].macs)
  }

  ghost predicate AllNewlineFree(obs: seq<Observation>)
  {
    forall o | o in obs :: AllFree(o.macs, '\n')
  }

  lemma SortStored(macs: seq<string>)
    requires AllFree(macs, '\n')
    ensures Split(Join(Sort(macs), '\n'), '\n') == Sort(Stored(macs))
  {
    SortSorts(macs);
    forall m | m in Sort(macs) ensures Free(m, '\n') {
      assert m in multiset(Sort(macs));
      assert m in multiset(macs);
    }
    if macs != [] {
      assert macs[0] in multiset(macs);
      assert macs[0] in multiset(Sort(macs));
      SplitJoin(Sort(macs), '\n');
    }
  }

  /** The file says that the addresses are `macs` and last changed at `since`. */
  predicate Holds(file: Option<string>, since: nat, macs: seq<string>)
  {
    GetHwInfo(file) == Ok(Some(HwInfo(since, Sort(Stored(macs)))))
  }

  /** The latest change up to observation i. */
  function LatestChange(obs: seq<Observation>, i: nat): (j: nat)
    requires i < |obs|
    ensures j <= i && IsChange(obs, j)
    ensures forall k | j < k <= i :: !IsChange(obs, k)
  {
    if IsChange(obs, i) then i else LatestChange(obs, i - 1)
  }

  /**
   Each report is the time of the latest change: the observation at which the addresses last
   differed, as multisets, from those stored by the one before.
   */
  lemma {:induction false} ReportsLatestChange(obs: seq<Observation>, i: nat)
    requires i < |obs| && AllNewlineFree(obs)
    ensures Report(obs, i) == Ok(obs[LatestChange(obs, i)].time)
    ensures Holds(FileAt(obs, i + 1), obs[LatestChange(obs, i)].time, obs[i].macs)
  {
    if i == 0 {
      FirstReport(obs);
    } else {
      ReportsLatestChange(obs, i - 1);
      NextReport(obs, i, obs[LatestChange(obs, i - 1)].time);
    }
  }

  lemma FirstReport(obs: seq<Observation>)
    requires obs != [] && AllNewlineFree(obs)
    ensures Report(obs, 0) == Ok(obs[0].time) && Holds(FileAt(obs, 1), obs[0].time, obs[0].macs)
  {
    assert obs[0] in obs;
    ObserveFirst(obs[0]);
  }

  lemma NextReport(obs: seq<Observation>, i: nat, since: nat)
    requires 0 < i < |obs| && AllNewlineFree(obs) && Holds(FileAt(obs, i), since, obs[i - 1].macs)
    ensures var t := if IsChange(obs, i) then obs[i].time else since;
            Report(obs, i) == Ok(t) && Holds(FileAt(obs, i + 1), t, obs[i].macs)
  {
    assert obs[i] in obs;
    ObserveNext(FileAt(obs, i), since, obs[i - 1].macs, obs[i]);
  }

  lemma ObserveFirst(o: Observation)
    requires AllFree(o.macs, '\n')
    ensures Observe(None, o.time, o.macs).1 == Ok(o.time)
    ensures Holds(Observe(None, o.time, o.macs).0, o.time, o.macs)
  {
    SortStored(o.macs);
    HwTextParts(o.time, Sort(o.macs));
  }

  /** One step from a file that holds the addresses `before` and the time `since`. */
  lemma ObserveNext(file: Option<string>, since: nat, before: seq<string>, o: Observation)
    requires AllFree(o.macs, '\n')
    requires Holds(file, since, before)
    ensures var t := if Differs(before, o.macs) then o.time else since;
            && Observe(file, o.time, o.macs).1 == Ok(t)
            && Holds(Observe(file, o.time, o.macs).0, t, o.macs)
  {
    SortEqualsMultiset(o.macs, Stored(before));
    if Differs(before, o.macs) {
      SortStored(o.macs);
      HwTextParts(o.time, Sort(o.macs));
    } else {
      StoredAgain(before, o.macs);
    }
  }

  /** A list that reads back equal is stored the same way again. */
  lemma StoredAgain(before: seq<string>, after: seq<string>)
    requires !Differs(before, after)
    ensures Sort(Stored(before)) == Sort(Stored(after))
  {
    assert |multiset(after)| > 0;
    SortEqualsMultiset(Stored(before), Stored(after));
  }

  /** What the file says after an observation: the time of the latest change, then the addresses, sorted, one a line. */
  lemma FileSays(obs: seq<Observation>, i: nat)
    requires i < |obs| && AllNewlineFree(obs)
    ensures FileAt(obs, i + 1).Some?
    ensures var lines := Split(FileAt(obs, i + 1).value, '\n');
            && lines[0] != "" && AllDigits(lines[0]) && Value(lines[0]) == obs[LatestChange(obs, i)].time
            && Sorted(lines[1..])
            && multiset(lines[1..]) == if obs[i].macs == [] then multiset{""} else multiset(obs[i].macs)
  {
    ReportsLatestChange(obs, i);
    SortSorts(Stored(obs[i].macs));
  }

  /** With addresses present at every observation, changes are exactly differences of the multisets. */
  lemma ChangesAreDifferences(obs: seq<Observation>, i: nat)
    requires i < |obs| && forall o | o in obs :: o.macs != []
    ensures IsChange(obs, i) <==> i == 0 || multiset(obs[i].macs) != multiset(obs[i - 1].macs)
  {
    if i > 0 {
      assert obs[i - 1] in obs;
    }
  }

  /** The detector is wrong about two lists exactly when an empty one precedes an empty or a blank one. */
  lemma DetectsExactly(before: seq<string>, after: seq<string>)
    ensures (Differs(before, after) <==> multiset(before) != multiset(after))
            <==> !(before == [] && (after == [] || after == [""]))
  {
    if before == [] {
      if multiset(after) == multiset([""]) {
        assert |multiset(after)| == 1;
        assert after[0] in multiset(after);
        assert after == [""];
      }
      if multiset(after) == multiset(before) {
        assert |multiset(after)| == 0;
      }
    }
  }

  /** No adapters twice in a row: nothing changed, yet the second report is its own time. */
  lemma EmptyListsAlwaysChange(t1: nat, t2: nat)
    ensures Report([Observation(t1, []), Observation(t2, [])], 1) == Ok(t2)
  {
    var obs := [Observation(t1, []), Observation(t2, [])];
    ReportsLatestChange(obs, 1);
    assert Stored([]) == [""];
    assert multiset{""}[""] == 1;
    assert IsChange(obs, 1);
  }
}
