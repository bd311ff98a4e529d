/**
 Aggregation intervals: the hours, minutes and seconds fragment of the durations of section 4.4.3.2
 of ISO 8601:2004, read by scanning for a number followed by a unit letter.
 */
module Durations {
  import opened Text

  /** Python's exceptions for a bad interval. */
  datatype DurationError = IndexError | ValueError

  datatype Segment = Segment(quantity: string, unit: char)

  function UpperChar(c: char): char
  {
    if 'a' <= c <= 'z' then (c as int - 32) as char else c
  }

  function Upper(s: string): (u: string)
    ensures |u| == |s| && forall i | 0 <= i < |s| :: u[i] == UpperChar(s[i])
  {
    seq(|s|, i requires 0 <= i < |s| => UpperChar(s[i]))
  }

  predicate IsUnit(c: char)
  {
    c == 'S' || c == 'M' || c == 'H'
  }

  /** The end of the run of digits at pos. */
  function DigitEnd(s: string, pos: nat): (end: nat)
    requires pos <= |s|
    ensures pos <= end <= |s|
    decreases |s| - pos
  {
    if pos < |s| && IsDigit(s[pos]) then DigitEnd(s, pos + 1) else pos
  }

  predicate IsRun(s: string, pos: nat, end: nat)
  {
    pos <= end <= |s| && (forall k | pos <= k < end :: IsDigit(s[k])) && (end < |s| ==> !IsDigit(s[end]))
  }

  lemma {:induction false} DigitEndIs(s: string, pos: nat, end: nat)
    requires pos <= |s|
    ensures IsRun(s, pos, end) <==> end == DigitEnd(s, pos)
    decreases |s| - pos
  {
    if pos < |s| && IsDigit(s[pos]) {
      DigitEndIs(s, pos + 1, end);
    }
  }

  /** A match at pos, if there is one. */
  function Found(s: string, pos: nat): seq<Segment>
    requires pos <= |s|
  {
    var end := DigitEnd(s, pos);
    if pos < end < |s| && IsUnit(s[end]) then [Segment(s[pos..end], s[end])] else []
  }

  /** Where to look on after looking for a match at pos: no other can begin before that. */
  function Next(s: string, pos: nat): (next: nat)
    requires pos < |s|
    ensures pos < next <= |s|
  {
    var end := DigitEnd(s, pos);
    if end == pos then pos + 1 else if end < |s| && IsUnit(s[end]) then end + 1 else end
  }

  function FindFrom(s: string, pos: nat): seq<Segment>
    requires pos <= |s|
    decreases |s| - pos
  {
    if pos == |s| then [] else Found(s, pos) + FindFrom(s, Next(s, pos))
  }

  /** `re.findall(r'(\d+)(S|M|H)', s)`. */
  function FindAll(s: string): seq<Segment>
  {
    FindFrom(s, 0)
  }

  // ---------- The scanner is the regular expression ----------

  /** The expression matches s at i, with n digits. */
  predicate MatchesAt(s: string, i: nat, n: nat)
  {
    n >= 1 && i + n < |s| && (forall k | i <= k < i + n :: '0' <= s[k] <= '9')
    && (s[i + n] == 'S' || s[i + n] == 'M' || s[i + n] == 'H')
  }

  /** Of the matches from pos on, none begins before i, and none of another length at i. */
  ghost predicate Leftmost(s: string, pos: nat, i: nat, n: nat)
  {
    && pos <= i && MatchesAt(s, i, n)
    && forall j: nat, m: nat | j >= pos && MatchesAt(s, j, m) :: j > i || (j == i && m == n)
  }

  ghost predicate NoMatch(s: string, pos: nat)
  {
    forall j: nat, m: nat | j >= pos :: !MatchesAt(s, j, m)
  }

  /** Matches begin at pos, and then are the one found, or behind what is passed over. */
  lemma MatchesBeyond(s: string, pos: nat, j: nat, m: nat)
    requires pos < |s| && pos <= j && MatchesAt(s, j, m)
    ensures Found(s, pos) != [] ==> j > pos || m == DigitEnd(s, pos) - pos
    ensures Found(s, pos) == [] ==> j >= Next(s, pos)
  {
    DigitEndIs(s, pos, DigitEnd(s, pos));
  }

  lemma FoundIsLeftmost(s: string, pos: nat)
    requires pos < |s|
    ensures Found(s, pos) != [] ==> Leftmost(s, pos, pos, DigitEnd(s, pos) - pos)
    ensures Found(s, pos) == [] && NoMatch(s, Next(s, pos)) ==> NoMatch(s, pos)
    ensures forall i: nat, n: nat | Found(s, pos) == [] && Leftmost(s, Next(s, pos), i, n) :: Leftmost(s, pos, i, n)
  {
    DigitEndIs(s, pos, DigitEnd(s, pos));
    forall j: nat, m: nat | j >= pos && MatchesAt(s, j, m)
      ensures Found(s, pos) != [] ==> j > pos || m == DigitEnd(s, pos) - pos
      ensures Found(s, pos) == [] ==> j >= Next(s, pos)
    {
      MatchesBeyond(s, pos, j, m);
    }
  }

  /** The first result is the leftmost match, the others come from what follows it. */
  lemma {:induction false} FindsLeftmost(s: string, pos: nat) returns (i: nat, n: nat)
    requires pos <= |s|
    ensures FindFrom(s, pos) == [] ==> NoMatch(s, pos)
    ensures FindFrom(s, pos) != [] ==>
      Leftmost(s, pos, i, n) && FindFrom(s, pos) == [Segment(s[i..i + n], s[i + n])] + FindFrom(s, i + n + 1)
    decreases |s| - pos
  {
    i, n := pos, 0;
    if pos < |s| {
      FoundIsLeftmost(s, pos);
      if Found(s, pos) != [] {
        n := DigitEnd(s, pos) - pos;
      } else {
        i, n := FindsLeftmost(s, Next(s, pos));
      }
    }
  }

  // ---------- Seconds ----------

  function UnitSeconds(unit: char): nat
  {
    if unit == 'S' then 1 else if unit == 'M' then 60 else if unit == 'H' then 3600 else 0
  }

  function SegmentSeconds(g: Segment): nat
  {
    if AllDigits(g.quantity) then Value(g.quantity) * UnitSeconds(g.unit) else 0
  }

  function TotalSeconds(segments: seq<Segment>): nat
  {
    if segments == [] then 0
    else TotalSeconds(segments[..|segments| - 1]) + SegmentSeconds(segments[|segments| - 1])
  }

  function IntervalSeconds(specified: string): Result<nat, DurationError>
  {
    var interval := Upper(specified);
    if interval == "" then Err(IndexError)
    else if interval[0] != 'P' then Err(ValueError)
    else if |interval| == 1 then Err(IndexError)
    else if interval[1] != 'T' then Err(ValueError)
    else
      var seconds := TotalSeconds(FindAll(interval[2..]));
      if seconds == 0 then Err(ValueError) else Ok(seconds)
  }

  lemma {:induction false} Quantities(s: string, pos: nat)
    requires pos <= |s|
    ensures forall g | g in FindFrom(s, pos) :: g.quantity != "" && AllDigits(g.quantity) && IsUnit(g.unit)
    decreases |s| - pos
  {
    if pos < |s| {
      DigitEndIs(s, pos, DigitEnd(s, pos));
      Quantities(s, Next(s, pos));
    }
  }

  lemma TotalStep(segments: seq<Segment>, i: nat)
    requires i < |segments|
    ensures TotalSeconds(segments[..i + 1]) == TotalSeconds(segments[..i]) + SegmentSeconds(segments[i])
  {
    assert segments[..i + 1][..i] == segments[..i];
  }

  predicate WellFormed(segments: seq<Segment>)
  {
    forall g | g in segments :: g.quantity != "" && AllDigits(g.quantity) && (g.unit == 'S' || g.unit == 'M' || g.unit == 'H')
  }

  /** The loop over the matches. */
  method AddUp(matches: seq<Segment>) returns (seconds: nat)
    requires WellFormed(matches)
    ensures seconds == TotalSeconds(matches)
  {
    seconds := 0;
    for i := 0 to |matches|
      invariant seconds == TotalSeconds(matches[..i])
    {
      TotalStep(matches, i);
      assert matches[i] in matches;
      var quantity := Value(matches[i].quantity);
      if matches[i].unit == 'S' {
        seconds := seconds + quantity;
      } else if matches[i].unit == 'M' {
        seconds := seconds + quantity * 60;
      } else if matches[i].unit == 'H' {
        seconds := seconds + quantity * 3600;
      }
    }
    assert matches[..|matches|] == matches;
  }

  method IntervalToSeconds(specified: string) returns (r: Result<nat, DurationError>)
    ensures r == IntervalSeconds(specified)
  {
    var interval := Upper(specified);
    if |interval| < 1 {
      return Err(IndexError);
    }
    if interval[0] != 'P' {
      return Err(ValueError);
    }
    if |interval| < 2 {
      return Err(IndexError);
    }
    if interval[1] != 'T' {
      return Err(ValueError);
    }
    var matches := FindAll(interval[2..]);
    Quantities(interval[2..], 0);
    var seconds := AddUp(matches);
    if seconds == 0 {
      return Err(ValueError);
    }
    return Ok(seconds);
  }

  // ---------- What the scanner promises ----------

  predicate EndsInDigit(s: string)
  {
    s != "" && IsDigit(s[|s| - 1])
  }

  /** Inside a, what follows a does not matter. */
  lemma {:induction false} FindInPrefix(a: string, b: string, pos: nat)
    requires pos <= |a| && !EndsInDigit(a)
    ensures FindFrom(a + b, pos) == FindFrom(a, pos) + FindFrom(a + b, |a|)
    decreases |a| - pos
  {
    if pos < |a| {
      StepInPrefix(a, b, pos);
      FindInPrefix(a, b, Next(a, pos));
      Regroup(Found(a, pos), FindFrom(a, Next(a, pos)), FindFrom(a + b, |a|));
    }
  }

  lemma StepInPrefix(a: string, b: string, pos: nat)
    requires pos < |a| && !EndsInDigit(a)
    ensures Found(a + b, pos) == Found(a, pos) && Next(a + b, pos) == Next(a, pos)
  {
    var end := DigitEnd(a, pos);
    DigitEndIs(a, pos, end);
    assert end < |a|;
    DigitEndIs(a + b, pos, end);
    assert (a + b)[pos..end] == a[pos..end];
  }

  /** Behind a, what precedes does not matter. */
  lemma {:induction false} FindInSuffix(a: string, b: string, j: nat)
    requires j <= |b|
    ensures FindFrom(a + b, |a| + j) == FindFrom(b, j)
    decreases |b| - j
  {
    if j < |b| {
      StepInSuffix(a, b, j);
      assert FindFrom(a + b, |a| + j) == Found(b, j) + FindFrom(a + b, |a| + Next(b, j));
      FindInSuffix(a, b, Next(b, j));
    }
  }

  lemma StepInSuffix(a: string, b: string, j: nat)
    requires j < |b|
    ensures Found(a + b, |a| + j) == Found(b, j) && Next(a + b, |a| + j) == |a| + Next(b, j)
  {
    var end := DigitEnd(b, j);
    DigitEndIs(b, j, end);
    assert forall k | |a| + j <= k < |a| + end :: (a + b)[k] == b[k - |a|];
    DigitEndIs(a + b, |a| + j, |a| + end);
    assert (a + b)[|a| + j..|a| + end] == b[j..end];
  }

  lemma FindAllAppend(a: string, b: string)
    requires !EndsInDigit(a)
    ensures FindAll(a + b) == FindAll(a) + FindAll(b)
  {
    FindInPrefix(a, b, 0);
    FindInSuffix(a, b, 0);
  }

  lemma {:induction false} TotalAppend(a: seq<Segment>, b: seq<Segment>)
    ensures TotalSeconds(a + b) == TotalSeconds(a) + TotalSeconds(b)
  {
    if b == [] {
      assert a + b == a;
    } else {
      TotalAppend(a, b[..|b| - 1]);
      assert (a + b)[..|a + b| - 1] == a + b[..|b| - 1];
    }
  }

  /** Seconds add up over a cut behind a unit letter, or behind anything but a digit. */
  lemma SecondsAdd(a: string, b: string)
    requires !EndsInDigit(a)
    ensures TotalSeconds(FindAll(a + b)) == TotalSeconds(FindAll(a)) + TotalSeconds(FindAll(b))
  {
    FindAllAppend(a, b);
    TotalAppend(FindAll(a), FindAll(b));
  }

  /** Cutting a text in two loses no match, whatever follows, exactly when the cut is not behind a digit. */
  lemma AdditiveExactly(a: string)
    ensures (forall b :: FindAll(a + b) == FindAll(a) + FindAll(b)) <==> !EndsInDigit(a)
  {
    if !EndsInDigit(a) {
      forall b ensures FindAll(a + b) == FindAll(a) + FindAll(b) {
        FindAllAppend(a, b);
      }
    } else {
      CutBehindDigit(a);
      assert FindAll(a + "S") != FindAll(a) + FindAll("S");
    }
  }

  lemma CutBehindDigit(a: string)
    requires EndsInDigit(a)
    ensures FindAll("S") == [] && |FindAll(a + "S")| == |FindAll(a)| + 1
  {
    var k := LastRun(a);
    var head, run := a[..k], a[k..];
    assert a == head + run && a + "S" == head + (run + ['S']);
    FindAllAppend(head, run);
    FindAllAppend(head, run + ['S']);
    DigitsOnly(run);
    DigitsAndUnit(run, 'S');
  }

  lemma {:induction false} LastRun(a: string) returns (k: nat)
    requires EndsInDigit(a)
    ensures k < |a| && !EndsInDigit(a[..k]) && AllDigits(a[k..])
  {
    var n := |a| - 1;
    if EndsInDigit(a[..n]) {
      k := LastRun(a[..n]);
      assert a[..n][..k] == a[..k];
      assert a[k..] == a[..n][k..] + [a[n]];
    } else {
      k := n;
    }
  }

  lemma DigitsOnly(run: string)
    requires run != "" && AllDigits(run)
    ensures FindAll(run) == []
  {
    DigitEndIs(run, 0, |run|);
    assert Found(run, 0) == [] && Next(run, 0) == |run|;
    assert FindFrom(run, 0) == Found(run, 0) + FindFrom(run, |run|);
  }

  lemma DigitsAndUnit(run: string, u: char)
    requires run != "" && AllDigits(run) && IsUnit(u)
    ensures FindAll(run + [u]) == [Segment(run, u)]
  {
    var s := run + [u];
    DigitEndIs(s, 0, |run|);
    assert s[0..|run|] == run;
    assert Found(s, 0) == [Segment(run, u)] && Next(s, 0) == |s|;
    assert FindFrom(s, 0) == Found(s, 0) + FindFrom(s, |s|);
  }

  // ---------- Written intervals ----------

  function Render(segments: seq<Segment>): string
  {
    if segments == [] then "" else segments[0].quantity + [segments[0].unit] + Render(segments[1..])
  }

  lemma {:induction false} FindAllRendered(segments: seq<Segment>)
    requires WellFormed(segments)
    ensures FindAll(Render(segments)) == segments
  {
    if segments != [] {
      var g, rest := segments[0], segments[1..];
      assert g in segments;
      FindAllRendered(rest);
      FindAllSegment(g, Render(rest));
      assert segments == [g] + rest;
    }
  }

  lemma FindAllSegment(g: Segment, s: string)
    requires g.quantity != "" && AllDigits(g.quantity) && IsUnit(g.unit)
    ensures FindAll(g.quantity + [g.unit] + s) == [g] + FindAll(s)
  {
    DigitsAndUnit(g.quantity, g.unit);
    FindAllAppend(g.quantity + [g.unit], s);
  }

  lemma {:induction false} UpperRendered(segments: seq<Segment>)
    requires WellFormed(segments)
    ensures forall i | 0 <= i < |Render(segments)| :: UpperChar(Render(segments)[i]) == Render(segments)[i]
  {
    if segments != [] {
      assert segments[0] in segments;
      UpperRendered(segments[1..]);
    }
  }

  /** `PT` and any list of segments reads as their weighted sum, and fails exactly when that is zero. */
  lemma RenderedInterval(segments: seq<Segment>)
    requires WellFormed(segments)
    ensures var total := TotalSeconds(segments);
            IntervalSeconds("PT" + Render(segments)) == if total == 0 then Err(ValueError) else Ok(total)
  {
    FindAllRendered(segments);
    UpperRendered(segments);
    var u := Upper("PT" + Render(segments));
    assert u == "PT" + Render(segments);
    assert u[2..] == Render(segments);
  }

  /** Text that is no duration is not rejected but skipped, digits or not, unless digits run on behind it. */
  lemma JunkSkipped(a: string, junk: string, c: string)
    requires !EndsInDigit(a) && !EndsInDigit(junk) && NoMatch(junk, 0)
    ensures FindAll(a + junk + c) == FindAll(a) + FindAll(c)
  {
    NothingAdded(a, junk);
    FindAllAppend(a + junk, c);
  }

  lemma NothingAdded(a: string, junk: string)
    requires !EndsInDigit(a) && !EndsInDigit(junk) && NoMatch(junk, 0)
    ensures !EndsInDigit(a + junk) && FindAll(a + junk) == FindAll(a)
  {
    NothingFound(junk);
    FindAllAppend(a, junk);
    EndOfSum(a, junk);
  }

  lemma EndOfSum(a: string, b: string)
    requires !EndsInDigit(a) && !EndsInDigit(b)
    ensures !EndsInDigit(a + b)
  {
    if b == "" {
      assert a + b == a;
    } else {
      assert (a + b)[|a + b| - 1] == b[|b| - 1];
    }
  }

  lemma NothingFound(s: string)
    requires NoMatch(s, 0)
    ensures FindAll(s) == []
  {
    var i, n := FindsLeftmost(s, 0);
  }

  /** A letter keeps its place in the alphabet, and nothing else changes. */
  lemma UpperLetters(c: char)
    ensures 'a' <= c <= 'z' ==> 'A' <= UpperChar(c) <= 'Z' && UpperChar(c) - 'A' == c - 'a'
    ensures !('a' <= c <= 'z') ==> UpperChar(c) == c
  {
  }

  /** Letter case makes no difference. */
  lemma CaseIgnored(s: string)
    ensures IntervalSeconds(Upper(s)) == IntervalSeconds(s)
  {
    assert Upper(Upper(s)) == Upper(s);
  }

  /** An hour counts 3600, a minute 60 and a second 1, wherever in the interval it stands. */
  lemma UnitsCount(a: seq<Segment>, n: string, unit: char, b: seq<Segment>)
    requires n != "" && AllDigits(n)
    ensures TotalSeconds(a + [Segment(n, unit)] + b)
            == TotalSeconds(a) + TotalSeconds([Segment(n, unit)]) + TotalSeconds(b)
    ensures TotalSeconds([Segment(n, 'H')]) == 3600 * Value(n)
    ensures TotalSeconds([Segment(n, 'M')]) == 60 * Value(n)
    ensures TotalSeconds([Segment(n, 'S')]) == Value(n)
  {
    TotalAppend(a + [Segment(n, unit)], b);
    TotalAppend(a, [Segment(n, unit)]);
    OneTotal(n, 'H');
    OneTotal(n, 'M');
    OneTotal(n, 'S');
  }

  lemma OneTotal(n: string, unit: char)
    requires n != "" && AllDigits(n)
    ensures TotalSeconds([Segment(n, unit)]) == Value(n) * UnitSeconds(unit)
  {
    assert [Segment(n, unit)][..0] == [];
  }

  /** The index error is that of a text too short to look at, and of no other. */
  lemma TooShortExactly(specified: string)
    ensures IntervalSeconds(specified) == Err(IndexError) <==> specified == "" || specified == "P" || specified == "p"
  {
    if specified != "" {
      assert Upper(specified)[0] == UpperChar(specified[0]);
      assert UpperChar(specified[0]) == 'P' <==> specified[0] == 'P' || specified[0] == 'p';
      assert |specified| == 1 ==> specified == [specified[0]];
    }
  }

  // ---------- Which texts are accepted ----------

  lemma {:induction false} ValuePositive(s: string)
    requires AllDigits(s)
    ensures Value(s) > 0 <==> exists k | 0 <= k < |s| :: s[k] != '0'
  {
    if s != "" {
      var n := |s| - 1;
      ValuePositive(s[..n]);
      assert forall k | 0 <= k < n :: s[..n][k] == s[k];
    }
  }

  /** A match of the expression whose number begins with a digit other than zero. */
  ghost predicate NonZeroMatch(s: string, i: nat, n: nat)
  {
    MatchesAt(s, i, n) && s[i] != '0'
  }

  ghost predicate NonZeroFrom(s: string, pos: nat)
  {
    exists i: nat, n: nat | i >= pos :: NonZeroMatch(s, i, n)
  }

  lemma SegmentPositive(g: Segment)
    requires AllDigits(g.quantity) && IsUnit(g.unit)
    ensures SegmentSeconds(g) > 0 <==> exists k | 0 <= k < |g.quantity| :: g.quantity[k] != '0'
  {
    ValuePositive(g.quantity);
  }

  /** What is found at pos counts exactly if some match that begins in it is not zero. */
  lemma FoundPositive(s: string, pos: nat)
    requires pos < |s|
    ensures TotalSeconds(Found(s, pos)) > 0 <==> exists i: nat, n: nat | pos <= i < Next(s, pos) :: NonZeroMatch(s, i, n)
  {
    var end := DigitEnd(s, pos);
    DigitEndIs(s, pos, end);
    if Found(s, pos) != [] {
      var g := Segment(s[pos..end], s[end]);
      assert Found(s, pos)[..0] == [];
      assert TotalSeconds(Found(s, pos)) == SegmentSeconds(g);
      SegmentPositive(g);
      if SegmentSeconds(g) > 0 {
        var k :| 0 <= k < |g.quantity| && g.quantity[k] != '0';
        assert NonZeroMatch(s, pos + k, end - (pos + k));
      }
      if i: nat, n: nat :| pos <= i < Next(s, pos) && NonZeroMatch(s, i, n) {
        assert i < end;
        assert g.quantity[i - pos] == s[i];
      }
    } else {
      forall i: nat, n: nat | pos <= i && MatchesAt(s, i, n) ensures i >= Next(s, pos) {
        MatchesBeyond(s, pos, i, n);
      }
    }
  }

  lemma {:induction false} FindPositive(s: string, pos: nat)
    requires pos <= |s|
    ensures TotalSeconds(FindFrom(s, pos)) > 0 <==> NonZeroFrom(s, pos)
    decreases |s| - pos
  {
    if pos < |s| {
      var next := Next(s, pos);
      FindPositive(s, next);
      FoundPositive(s, pos);
      TotalAppend(Found(s, pos), FindFrom(s, next));
      if TotalSeconds(Found(s, pos)) > 0 {
        var i: nat, n: nat :| pos <= i < next && NonZeroMatch(s, i, n);
      }
      if NonZeroFrom(s, pos) {
        var i: nat, n: nat :| i >= pos && NonZeroMatch(s, i, n);
      }
    }
  }

  /**
   An interval is accepted exactly if it begins with `PT`, in any letter case, and somewhere behind
   that a number other than zero stands before a unit letter.  Nothing is asked of the rest.
   */
  lemma AcceptedExactly(specified: string)
    ensures var interval := Upper(specified);
            IntervalSeconds(specified).Ok? <==>
            && |interval| >= 2 && interval[..2] == "PT"
            && exists i: nat, n: nat :: MatchesAt(interval[2..], i, n) && interval[2..][i] != '0'
  {
    var interval := Upper(specified);
    if |interval| >= 2 && interval[..2] == "PT" {
      assert interval[0] == interval[..2][0] && interval[1] == interval[..2][1];
      var s := interval[2..];
      FindPositive(s, 0);
      if NonZeroFrom(s, 0) {
        var i: nat, n: nat :| i >= 0 && NonZeroMatch(s, i, n);
        assert MatchesAt(s, i, n) && s[i] != '0';
      }
      if i: nat, n: nat :| MatchesAt(s, i, n) && s[i] != '0' {
        assert NonZeroMatch(s, i, n);
      }
    }
  }

  /** `PT` and a list of segments: what an interval should look like. */
  ghost predicate Written(interval: string)
  {
    exists segments :: WellFormed(segments) && interval == "PT" + Render(segments)
  }

  lemma {:induction false} RenderedChars(segments: seq<Segment>)
    requires WellFormed(segments)
    ensures forall i | 0 <= i < |Render(segments)| :: IsDigit(Render(segments)[i]) || IsUnit(Render(segments)[i])
  {
    if segments != [] {
      assert segments[0] in segments;
      RenderedChars(segments[1..]);
    }
  }

  lemma NotWritten(interval: string, i: nat)
    requires 2 <= i < |interval| && !IsDigit(interval[i]) && !IsUnit(interval[i])
    ensures !Written(interval)
  {
    forall segments | WellFormed(segments) ensures interval != "PT" + Render(segments) {
      RenderedChars(segments);
      var r := "PT" + Render(segments);
      if i < |r| {
        assert r[i] == Render(segments)[i - 2];
      }
    }
  }

  /** A malformed interval that is accepted, as five minutes. */
  lemma MalformedAccepted()
    ensures Upper("PT1X5M") == "PT1X5M" && !Written("PT1X5M")
    ensures IntervalSeconds("PT1X5M") == Ok(300)
  {
    var text := "PT1X5M";
    assert Upper(text) == text;
    assert text[2..] == "1X5M";
    ScansMalformed();
    NotWritten(text, 3);
  }

  lemma ScansMalformed()
    ensures TotalSeconds(FindAll("1X5M")) == 300
  {
    assert "1X" + "5M" == "1X5M" && "5" + ['M'] == "5M";
    NoMatchInJunk();
    JunkSkipped("", "1X", "5M");
    assert "" + "1X" + "5M" == "1X5M";
    DigitsAndUnit("5", 'M');
    FiveMinutes();
  }

  lemma NoMatchInJunk()
    ensures NoMatch("1X", 0)
  {
  }

  lemma FiveMinutes()
    ensures TotalSeconds([Segment("5", 'M')]) == 300
  {
    assert "5"[..0] == "" && Value("5") == 5;
    assert [Segment("5", 'M')][..0] == [];
  }
}
