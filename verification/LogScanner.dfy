/**
 The incremental scan of the agent log.  A marker remembers how far the log was read and the digest
 of its first line; the digest is taken to be injective, so the marker holds the line itself.
 */
module LogScanner {
  import opened Text

  // ---------- Lines ----------

  /** The position behind the line that starts at pos. */
  function LineEnd(log: string, pos: nat): (end: nat)
    requires pos < |log|
    ensures pos < end <= |log|
    decreases |log| - pos
  {
    if log[pos] == '\n' || pos + 1 == |log| then pos + 1 else LineEnd(log, pos + 1)
  }

  /** `readline` at a position: the line with its line feed, or "" at the end. */
  function LineAt(log: string, pos: nat): string
  {
    if pos < |log| then log[pos..LineEnd(log, pos)] else ""
  }

  function FirstLine(log: string): string
  {
    LineAt(log, 0)
  }

  /** The lines from a position to the end. */
  function LinesFrom(log: string, pos: nat): seq<string>
    decreases |log| - pos
  {
    if pos < |log| then [LineAt(log, pos)] + LinesFrom(log, LineEnd(log, pos)) else []
  }

  /** Everything but the first line: what a scan from scratch examines. */
  function Rest(log: string): seq<string>
  {
    if log == "" then [] else LinesFrom(log, LineEnd(log, 0))
  }

  function Concat(lines: seq<string>): string
  {
    if lines == [] then "" else lines[0] + Concat(lines[1..])
  }

  /** A line is not empty, and a line feed can only be its last character. */
  predicate IsLine(line: string)
  {
    line != "" && forall i | 0 <= i < |line| - 1 :: line[i] != '\n'
  }

  predicate Ends(line: string)
  {
    line != "" && line[|line| - 1] == '\n'
  }

  lemma {:induction false} LineEndIs(log: string, pos: nat)
    requires pos < |log|
    ensures forall i | pos <= i < LineEnd(log, pos) - 1 :: log[i] != '\n'
    ensures LineEnd(log, pos) < |log| ==> log[LineEnd(log, pos) - 1] == '\n'
    decreases |log| - pos
  {
    if log[pos] != '\n' && pos + 1 < |log| {
      LineEndIs(log, pos + 1);
    }
  }

  /** The lines from a position make up the text from there; each ends at a line feed, but for the last. */
  lemma {:induction false} LinesAre(log: string, pos: nat)
    requires pos <= |log|
    ensures var lines := LinesFrom(log, pos);
            && Concat(lines) == log[pos..]
            && (forall i | 0 <= i < |lines| :: IsLine(lines[i]))
            && (forall i | 0 <= i < |lines| - 1 :: Ends(lines[i]))
    decreases |log| - pos
  {
    if pos < |log| {
      var end := LineEnd(log, pos);
      LineEndIs(log, pos);
      LinesAre(log, end);
      assert log[pos..] == log[pos..end] + log[end..];
      assert ([LineAt(log, pos)] + LinesFrom(log, end))[1..] == LinesFrom(log, end);
    }
  }

  /** A log is its first line and the rest. */
  lemma FirstLineAndRest(log: string)
    ensures log == FirstLine(log) + Concat(Rest(log))
    ensures log != "" ==> IsLine(FirstLine(log)) && (Rest(log) != [] ==> Ends(FirstLine(log)))
    ensures forall i | 0 <= i < |Rest(log)| :: IsLine(Rest(log)[i]) && (i < |Rest(log)| - 1 ==> Ends(Rest(log)[i]))
  {
    if log != "" {
      LineEndIs(log, 0);
      LinesAre(log, LineEnd(log, 0));
      assert log == log[..LineEnd(log, 0)] + log[LineEnd(log, 0)..];
    }
  }

  predicate WholeLines(log: string)
  {
    log == "" || log[|log| - 1] == '\n'
  }

  lemma {:induction false} LineEndPrefix(log: string, more: string, pos: nat)
    requires WholeLines(log) && pos < |log|
    ensures LineEnd(log + more, pos) == LineEnd(log, pos)
    ensures LineAt(log + more, pos) == LineAt(log, pos)
    decreases |log| - pos
  {
    if log[pos] != '\n' {
      LineEndPrefix(log, more, pos + 1);
    }
    assert (log + more)[pos..LineEnd(log, pos)] == log[pos..LineEnd(log, pos)];
  }

  lemma {:induction false} LinesAppend(log: string, more: string, pos: nat)
    requires WholeLines(log) && pos <= |log|
    ensures LinesFrom(log + more, pos) == LinesFrom(log, pos) + LinesFrom(log + more, |log|)
    decreases |log| - pos
  {
    if pos < |log| {
      LineEndPrefix(log, more, pos);
      LinesAppend(log, more, LineEnd(log, pos));
      Regroup([LineAt(log, pos)], LinesFrom(log, LineEnd(log, pos)), LinesFrom(log + more, |log|));
    }
  }

  // ---------- One call ----------

  datatype Marker = Marker(pos: nat, crc: string)

  datatype Checked = Checked(marker: Marker, fatal: bool, examined: seq<string>)

  const FRESH: Marker := Marker(0, "")

  /** Where reading resumes behind the first line. */
  function Resume(m: Marker, log: string): nat
  {
    if log == "" then 0
    else if m.crc == FirstLine(log) && m.pos > 0 then m.pos
    else LineEnd(log, 0)
  }

  /** Lines up to and including the first fatal one. */
  function UpToFatal(lines: seq<string>, isFatal: string -> bool): seq<string>
  {
    if lines == [] then []
    else if isFatal(lines[0]) then [lines[0]]
    else [lines[0]] + UpToFatal(lines[1..], isFatal)
  }

  predicate AnyFatal(lines: seq<string>, isFatal: string -> bool)
  {
    lines != [] && (isFatal(lines[0]) || AnyFatal(lines[1..], isFatal))
  }

  lemma {:induction false} AnyFatalIs(lines: seq<string>, isFatal: string -> bool)
    ensures AnyFatal(lines, isFatal) <==> exists i | 0 <= i < |lines| :: isFatal(lines[i])
  {
    if lines != [] {
      AnyFatalIs(lines[1..], isFatal);
      assert forall i | 0 <= i < |lines| - 1 :: lines[1..][i] == lines[i + 1];
    }
  }

  /** Reading stops at the first fatal line. */
  lemma {:induction false} StopsAtFatal(lines: seq<string>, isFatal: string -> bool)
    requires AnyFatal(lines, isFatal)
    ensures var read := UpToFatal(lines, isFatal);
            && read != [] && read <= lines && isFatal(read[|read| - 1])
            && forall i | 0 <= i < |read| - 1 :: !isFatal(read[i])
  {
    if !isFatal(lines[0]) {
      StopsAtFatal(lines[1..], isFatal);
    }
  }

  /** `check_for_fatal_oms_logs` on an existing log; `isFatal` is the test of one line at this call's time. */
  ghost function Check(m: Marker, log: string, isFatal: string -> bool): Checked
  {
    var start := Resume(m, log);
    var lines := LinesFrom(log, start);
    var crc := if log == "" then m.crc else FirstLine(log);
    if AnyFatal(lines, isFatal) then Checked(Marker(m.pos, crc), true, UpToFatal(lines, isFatal))
    else Checked(Marker(if start < |log| then |log| else start, crc), false, lines)
  }

  ghost function CheckFile(m: Marker, log: Option<string>, isFatal: string -> bool): Checked
  {
    if log.Some? then Check(m, log.value, isFatal) else Checked(m, false, [])
  }

  class LogFileMarker {
    var lastPos: nat
    var lastCrc: string

    function State(): Marker
      reads this
    {
      Marker(lastPos, lastCrc)
    }

    constructor ()
      ensures State() == FRESH
    {
      lastPos, lastCrc := 0, "";
    }
  }

  method CheckForFatalOmsLogs(marker: LogFileMarker, log: Option<string>, isFatal: string -> bool)
    returns (fatal: bool)
    modifies marker
    ensures (marker.State(), fatal) == (var c := CheckFile(old(marker.State()), log, isFatal); (c.marker, c.fatal))
    ensures log.None? ==> !fatal && marker.State() == old(marker.State())
  {
    if log.None? {
      return false;
    }
    var f := log.value;
    ghost var m := marker.State();
    ghost var crc := if f == "" then m.crc else FirstLine(f);
    ghost var start := Resume(m, f);
    var lastCrc, lastPos := marker.lastCrc, marker.lastPos;
    var text := LineAt(f, 0);
    var pos := |text|;
    if text != "" {
      if lastCrc == text {
        if lastPos > 0 {
          pos := lastPos;
        }
      }
      marker.lastCrc := text;
    }
    assert pos == start && marker.State() == Marker(m.pos, crc);
    ghost var ahead := AnyFatal(LinesFrom(f, start), isFatal);
    while true
      invariant start <= pos && (pos == start || pos <= |f|)
      invariant ahead == AnyFatal(LinesFrom(f, pos), isFatal)
      invariant marker.State() == Marker(m.pos, crc)
      decreases |f| - pos
    {
      text := LineAt(f, pos);
      if text == "" {
        NoLine(f, pos, isFatal);
        marker.lastPos := pos;
        break;
      }
      NextLine(f, pos, isFatal);
      pos := pos + |text|;
      if isFatal(text) {
        CheckEnds(m, f, isFatal, start, crc);
        return true;
      }
    }
    CheckEnds(m, f, isFatal, start, crc);
    return false;
  }

  lemma CheckEnds(m: Marker, f: string, isFatal: string -> bool, start: nat, crc: string)
    requires start == Resume(m, f) && crc == if f == "" then m.crc else FirstLine(f)
    ensures var c := Check(m, f, isFatal);
            && (c.fatal <==> AnyFatal(LinesFrom(f, start), isFatal))
            && c.marker == Marker(if c.fatal then m.pos else if start < |f| then |f| else start, crc)
  {
  }

  lemma NoLine(f: string, pos: nat, isFatal: string -> bool)
    requires LineAt(f, pos) == ""
    ensures pos >= |f| && !AnyFatal(LinesFrom(f, pos), isFatal)
  {
  }

  lemma NextLine(f: string, pos: nat, isFatal: string -> bool)
    requires pos < |f|
    ensures var text := LineAt(f, pos);
            && pos < pos + |text| <= |f|
            && (AnyFatal(LinesFrom(f, pos), isFatal) <==> isFatal(text) || AnyFatal(LinesFrom(f, pos + |text|), isFatal))
  {
    AnyFatalCons(LineAt(f, pos), LinesFrom(f, LineEnd(f, pos)), isFatal);
  }

  lemma AnyFatalCons(line: string, lines: seq<string>, isFatal: string -> bool)
    ensures AnyFatal([line] + lines, isFatal) <==> isFatal(line) || AnyFatal(lines, isFatal)
  {
    assert ([line] + lines)[1..] == lines;
  }

  lemma {:induction false} AnyFatalAppend(a: seq<string>, b: seq<string>, isFatal: string -> bool)
    ensures AnyFatal(a + b, isFatal) <==> AnyFatal(a, isFatal) || AnyFatal(b, isFatal)
  {
    if a == [] {
      assert a + b == b;
    } else {
      TailOfSum(a, b);
      AnyFatalAppend(a[1..], b, isFatal);
    }
  }

  // ---------- Runs ----------

  /** A call sees the log as it is and judges lines by the time of the call. */
  datatype Call = Call(log: string, isFatal: string -> bool)

  ghost function MarkerAfter(run: seq<Call>): Marker
    decreases |run|, 1
  {
    if run == [] then FRESH else Outcome(run).marker
  }

  /** The outcome of the last call of a run that starts with a fresh marker. */
  ghost function Outcome(run: seq<Call>): Checked
    requires run != []
    decreases |run|, 0
  {
    var last := run[|run| - 1];
    Check(MarkerAfter(run[..|run| - 1]), last.log, last.isFatal)
  }

  ghost predicate NoneFatal(run: seq<Call>)
  {
    run != [] ==> !Outcome(run).fatal && NoneFatal(run[..|run| - 1])
  }

  /** The log after the last call: empty before the first. */
  function LastLog(run: seq<Call>): string
  {
    if run == [] then "" else run[|run| - 1].log
  }

  /** Between two calls the log grows at its end, or is replaced by one with another first line. */
  predicate Follows(before: string, after: string)
  {
    WholeLines(after) && (before <= after || FirstLine(before) != FirstLine(after))
  }

  predicate Evolves(run: seq<Call>)
  {
    run != [] ==> Follows(LastLog(run[..|run| - 1]), LastLog(run)) && Evolves(run[..|run| - 1])
  }

  /** The marker stands at the end of the log it last saw. */
  predicate Synced(m: Marker, log: string)
  {
    if log == "" then m.pos == 0 else m.pos == |log| && m.crc == FirstLine(log)
  }

  lemma FirstLineOfGrown(before: string, after: string)
    requires WholeLines(before) && before != "" && before <= after
    ensures FirstLine(after) == FirstLine(before) && Rest(after) == Rest(before) + LinesFrom(after, |before|)
  {
    var more := after[|before|..];
    assert after == before + more;
    LineEndPrefix(before, more, 0);
    LinesAppend(before, more, LineEnd(before, 0));
  }

  /** One non-fatal call reads exactly the part of the rest that is new. */
  lemma CheckKeepsSync(m: Marker, before: string, after: string, isFatal: string -> bool)
    requires WholeLines(before) && Synced(m, before) && Follows(before, after)
    ensures var c := Check(m, after, isFatal);
            && (!c.fatal ==> Synced(c.marker, after))
            && (if FirstLine(before) == FirstLine(after)
                then Rest(after) == Rest(before) + LinesFrom(after, Resume(m, after))
                else Rest(after) == LinesFrom(after, Resume(m, after)))
  {
    if before == "" {
      assert FirstLine(before) == "";
    } else if before <= after {
      FirstLineOfGrown(before, after);
    }
  }

  lemma {:induction false} RunKeepsSync(run: seq<Call>)
    requires Evolves(run) && NoneFatal(run)
    ensures WholeLines(LastLog(run)) && Synced(MarkerAfter(run), LastLog(run))
  {
    if run != [] {
      var init, last := run[..|run| - 1], run[|run| - 1];
      RunKeepsSync(init);
      CheckKeepsSync(MarkerAfter(init), LastLog(init), last.log, last.isFatal);
    }
  }

  /** All lines examined since the log last got a new first line, in the order of the calls. */
  ghost function ExaminedSince(run: seq<Call>): seq<string>
  {
    if run == [] then []
    else
      var init := run[..|run| - 1];
      (if FirstLine(LastLog(init)) == FirstLine(LastLog(run)) then ExaminedSince(init) else []) + Outcome(run).examined
  }

  /** The calls on one log together examine every line but its first, once, in order. */
  lemma {:induction false} ExaminesEveryLineOnce(run: seq<Call>)
    requires Evolves(run) && NoneFatal(run)
    ensures ExaminedSince(run) == Rest(LastLog(run))
  {
    if run != [] {
      var init, last := run[..|run| - 1], run[|run| - 1];
      ExaminesEveryLineOnce(init);
      RunKeepsSync(init);
      CheckKeepsSync(MarkerAfter(init), LastLog(init), last.log, last.isFatal);
    }
  }

  // ---------- Agreement with rescanning ----------

  /** Nothing fatal stands between the first line and a position at which a line begins. */
  ghost predicate CleanBefore(log: string, pos: nat, isFatal: string -> bool)
  {
    exists pre :: Rest(log) == pre + LinesFrom(log, pos) && !AnyFatal(pre, isFatal)
  }

  /** Reading on from a position answers as reading everything: nothing is missed, or enough is left. */
  ghost predicate Sound(log: string, pos: nat, isFatal: string -> bool)
  {
    || (pos <= |log| && CleanBefore(log, pos, isFatal))
    || (AnyFatal(LinesFrom(log, pos), isFatal) && AnyFatal(Rest(log), isFatal))
  }

  /** The marker belongs to the log, and where it resumes is sound. */
  ghost predicate Tracks(m: Marker, log: string, isFatal: string -> bool)
  {
    if log == "" then m.pos == 0 else m.crc == FirstLine(log) && Sound(log, Resume(m, log), isFatal)
  }

  lemma CleanGrows(log: string, grown: string, pos: nat, isFatal: string -> bool)
    requires WholeLines(log) && log != "" && log <= grown && pos <= |log| && CleanBefore(log, pos, isFatal)
    ensures CleanBefore(grown, pos, isFatal)
  {
    var pre :| Rest(log) == pre + LinesFrom(log, pos) && !AnyFatal(pre, isFatal);
    var more := grown[|log|..];
    assert grown == log + more;
    FirstLineOfGrown(log, grown);
    LinesAppend(log, more, pos);
    Regroup(pre, LinesFrom(log, pos), LinesFrom(grown, |log|));
    assert Rest(grown) == pre + LinesFrom(grown, pos);
  }

  lemma FatalStays(log: string, grown: string, isFatal: string -> bool)
    requires WholeLines(log) && log != "" && log <= grown && AnyFatal(Rest(log), isFatal)
    ensures AnyFatal(Rest(grown), isFatal)
  {
    FirstLineOfGrown(log, grown);
    AnyFatalAppend(Rest(log), LinesFrom(grown, |log|), isFatal);
  }

  lemma StillBehind(log: string, grown: string, pos: nat, isFatal: string -> bool)
    requires WholeLines(log) && log <= grown && AnyFatal(LinesFrom(log, pos), isFatal)
    ensures AnyFatal(LinesFrom(grown, pos), isFatal)
  {
    assert grown == log + grown[|log|..];
    LinesAppend(log, grown[|log|..], pos);
    AnyFatalAppend(LinesFrom(log, pos), LinesFrom(grown, |log|), isFatal);
  }

  lemma SoundGrows(log: string, grown: string, pos: nat, isFatal: string -> bool)
    requires WholeLines(log) && log != "" && log <= grown && Sound(log, pos, isFatal)
    ensures Sound(grown, pos, isFatal)
  {
    if pos <= |log| && CleanBefore(log, pos, isFatal) {
      CleanGrows(log, grown, pos, isFatal);
    } else {
      FatalStays(log, grown, isFatal);
      StillBehind(log, grown, pos, isFatal);
    }
  }

  lemma SoundAnswer(log: string, pos: nat, isFatal: string -> bool)
    requires Sound(log, pos, isFatal)
    ensures AnyFatal(LinesFrom(log, pos), isFatal) <==> AnyFatal(Rest(log), isFatal)
  {
    if CleanBefore(log, pos, isFatal) {
      var pre :| Rest(log) == pre + LinesFrom(log, pos) && !AnyFatal(pre, isFatal);
      AnyFatalAppend(pre, LinesFrom(log, pos), isFatal);
    }
  }

  lemma CleanAtEnd(log: string, isFatal: string -> bool)
    requires !AnyFatal(Rest(log), isFatal)
    ensures CleanBefore(log, |log|, isFatal)
  {
    assert Rest(log) == Rest(log) + LinesFrom(log, |log|);
  }

  lemma CleanAtStart(log: string, isFatal: string -> bool)
    requires log != ""
    ensures CleanBefore(log, LineEnd(log, 0), isFatal)
  {
    assert Rest(log) == [] + LinesFrom(log, LineEnd(log, 0));
  }

  /**
   The call finds something fatal on a log with a new first line, and keeps a position in the old
   one behind which there is nothing fatal in the new.
   */
  ghost predicate LosesTrack(m: Marker, log: string, isFatal: string -> bool)
  {
    Check(m, log, isFatal).fatal && FirstLine(log) != m.crc && m.pos != 0 && !AnyFatal(LinesFrom(log, m.pos), isFatal)
  }

  /** Where reading resumes on the next log is sound. */
  lemma ResumesSound(m: Marker, before: string, after: string, isFatal: string -> bool)
    requires WholeLines(before) && Tracks(m, before, isFatal) && Follows(before, after) && after != ""
    ensures Sound(after, Resume(m, after), isFatal)
  {
    if before != "" && before <= after {
      FirstLineOfGrown(before, after);
      LineEndPrefix(before, after[|before|..], 0);
      assert after == before + after[|before|..];
      SoundGrows(before, after, Resume(m, before), isFatal);
    } else {
      CleanAtStart(after, isFatal);
    }
  }

  /** One call answers as a rescan does, and keeps track unless it is of the one kind that loses it. */
  lemma CheckTracks(m: Marker, before: string, after: string, isFatal: string -> bool)
    requires WholeLines(before) && Tracks(m, before, isFatal) && Follows(before, after)
    ensures var c := Check(m, after, isFatal);
            && (c.fatal <==> AnyFatal(Rest(after), isFatal))
            && (!LosesTrack(m, after, isFatal) ==> Tracks(c.marker, after, isFatal))
  {
    if after != "" {
      ResumesSound(m, before, after, isFatal);
      SoundAnswer(after, Resume(m, after), isFatal);
      if !Check(m, after, isFatal).fatal {
        CleanAtEnd(after, isFatal);
      } else if m.crc != FirstLine(after) {
        CleanAtStart(after, isFatal);
      }
    }
  }

  ghost predicate SameTest(run: seq<Call>, isFatal: string -> bool)
  {
    forall i | 0 <= i < |run| :: run[i].isFatal == isFatal
  }

  ghost predicate KeepsTrack(run: seq<Call>)
  {
    run != [] ==>
      && !LosesTrack(MarkerAfter(run[..|run| - 1]), LastLog(run), run[|run| - 1].isFatal)
      && KeepsTrack(run[..|run| - 1])
  }

  lemma {:induction false} RunTracks(run: seq<Call>, isFatal: string -> bool)
    requires Evolves(run) && KeepsTrack(run) && SameTest(run, isFatal)
    ensures WholeLines(LastLog(run)) && Tracks(MarkerAfter(run), LastLog(run), isFatal)
  {
    if run != [] {
      var init := run[..|run| - 1];
      RunTracks(init, isFatal);
      CheckTracks(MarkerAfter(init), LastLog(init), LastLog(run), isFatal);
    }
  }

  /**
   Every answer of a run, fatal or not, is the answer of rescanning the whole log, as long as no
   earlier call has lost track.
   */
  lemma AgreesWithRescan(run: seq<Call>, isFatal: string -> bool)
    requires run != [] && Evolves(run) && KeepsTrack(run[..|run| - 1]) && SameTest(run, isFatal)
    ensures Outcome(run).fatal <==> Check(FRESH, LastLog(run), isFatal).fatal
    ensures Outcome(run).fatal <==> AnyFatal(Rest(LastLog(run)), isFatal)
  {
    var init := run[..|run| - 1];
    RunTracks(init, isFatal);
    CheckTracks(MarkerAfter(init), LastLog(init), LastLog(run), isFatal);
    CheckTracks(FRESH, "", LastLog(run), isFatal);
  }

  /** Every call of the run but perhaps the last keeps track. */
  ghost predicate TracksSoFar(run: seq<Call>, isFatal: string -> bool)
  {
    run != [] && Evolves(run) && KeepsTrack(run[..|run| - 1]) && SameTest(run, isFatal)
  }

  lemma {:induction false} EarlierTracks(run: seq<Call>, earlier: seq<Call>, isFatal: string -> bool)
    requires earlier != [] && earlier <= run && TracksSoFar(run, isFatal)
    ensures TracksSoFar(earlier, isFatal)
  {
    if earlier != run {
      var init := run[..|run| - 1];
      assert earlier <= init;
      assert forall i | 0 <= i < |init| :: init[i] == run[i];
      EarlierTracks(init, earlier, isFatal);
    }
  }

  lemma LastFatal(run: seq<Call>, isFatal: string -> bool)
    requires TracksSoFar(run, isFatal) && Outcome(run).fatal
    ensures WholeLines(LastLog(run)) && AnyFatal(Rest(LastLog(run)), isFatal)
  {
    AgreesWithRescan(run, isFatal);
  }

  /** Once reported, a fatal line is reported by every later call, while its log is still there. */
  lemma FatalReportedAgain(run: seq<Call>, earlier: seq<Call>, isFatal: string -> bool)
    requires TracksSoFar(run, isFatal) && earlier != [] && earlier <= run
    requires Outcome(earlier).fatal && LastLog(earlier) <= LastLog(run)
    ensures Outcome(run).fatal
  {
    EarlierTracks(run, earlier, isFatal);
    LastFatal(earlier, isFatal);
    FatalStays(LastLog(earlier), LastLog(run), isFatal);
    AgreesWithRescan(run, isFatal);
  }

  /** However the log grows, the next call answers as a rescan does. */
  ghost predicate Reliable(m: Marker, log: string, isFatal: string -> bool)
  {
    forall grown | log <= grown && WholeLines(grown) :: Check(m, grown, isFatal).fatal == Check(FRESH, grown, isFatal).fatal
  }

  ghost predicate AlwaysReliable(run: seq<Call>, isFatal: string -> bool)
  {
    run != [] ==> Reliable(MarkerAfter(run), LastLog(run), isFatal) && AlwaysReliable(run[..|run| - 1], isFatal)
  }

  lemma TracksReliable(m: Marker, log: string, isFatal: string -> bool)
    requires WholeLines(log) && Tracks(m, log, isFatal)
    ensures Reliable(m, log, isFatal)
  {
    forall grown | log <= grown && WholeLines(grown)
      ensures Check(m, grown, isFatal).fatal == Check(FRESH, grown, isFatal).fatal
    {
      CheckTracks(m, log, grown, isFatal);
      CheckTracks(FRESH, "", grown, isFatal);
    }
  }

  lemma LossUnreliable(m: Marker, log: string, isFatal: string -> bool)
    requires WholeLines(log) && LosesTrack(m, log, isFatal)
    ensures !Reliable(Check(m, log, isFatal).marker, log, isFatal)
  {
    assert Check(FRESH, log, isFatal).fatal;
    assert !Check(Check(m, log, isFatal).marker, log, isFatal).fatal;
  }

  lemma CheckReliable(m: Marker, before: string, after: string, isFatal: string -> bool)
    requires WholeLines(before) && Tracks(m, before, isFatal) && Follows(before, after)
    ensures Reliable(Check(m, after, isFatal).marker, after, isFatal) <==> !LosesTrack(m, after, isFatal)
  {
    CheckTracks(m, before, after, isFatal);
    if LosesTrack(m, after, isFatal) {
      LossUnreliable(m, after, isFatal);
    } else {
      TracksReliable(Check(m, after, isFatal).marker, after, isFatal);
    }
  }

  lemma LastReliable(run: seq<Call>, isFatal: string -> bool)
    requires TracksSoFar(run, isFatal)
    ensures Reliable(MarkerAfter(run), LastLog(run), isFatal) <==> !LosesTrack(MarkerAfter(run[..|run| - 1]), LastLog(run), isFatal)
  {
    var init := run[..|run| - 1];
    RunTracks(init, isFatal);
    CheckReliable(MarkerAfter(init), LastLog(init), LastLog(run), isFatal);
  }

  /** After every call of a run the next answer can be relied on, exactly if no call loses track. */
  lemma {:induction false} ReliableExactly(run: seq<Call>, isFatal: string -> bool)
    requires Evolves(run) && SameTest(run, isFatal)
    ensures AlwaysReliable(run, isFatal) <==> KeepsTrack(run)
  {
    if run != [] {
      ReliableExactly(run[..|run| - 1], isFatal);
      if KeepsTrack(run[..|run| - 1]) {
        LastReliable(run, isFatal);
      }
    }
  }

  /** After a fatal call on a replaced log the next one starts at the position in the old log, if there was one. */
  lemma NextAfterReplacement(m: Marker, log: string, grown: string, isFatal: string -> bool)
    requires log != "" && WholeLines(log) && FirstLine(log) != m.crc && Check(m, log, isFatal).fatal && log <= grown
    ensures Check(FRESH, grown, isFatal).fatal
    ensures Check(Check(m, log, isFatal).marker, grown, isFatal).fatal <==>
            m.pos == 0 || AnyFatal(LinesFrom(grown, m.pos), isFatal)
  {
    FatalStays(log, grown, isFatal);
    FirstLineOfGrown(log, grown);
  }

  /** Until the new log has outgrown the position in the old one, the fatal line is not seen again. */
  lemma DeafAfterReplacement(m: Marker, log: string, grown: string, isFatal: string -> bool)
    requires log != "" && WholeLines(log) && FirstLine(log) != m.crc && Check(m, log, isFatal).fatal
    requires log <= grown && |grown| <= m.pos
    ensures !Check(Check(m, log, isFatal).marker, grown, isFatal).fatal
    ensures Check(FRESH, grown, isFatal).fatal
  {
    NextAfterReplacement(m, log, grown, isFatal);
  }
}
