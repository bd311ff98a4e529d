/**
 The PerfCounters event file: one `;`-terminated record a line.  `Decode` reads it back.
 */
module PerfCounters {
  import opened Text

  /** A counter; its value is None when it could not be measured. */
  datatype PerfCounter = PerfCounter(
    counterType: nat, category: string, name: string, instance: string, value: Option<string>,
    unit: string, refreshInterval: nat, timestamp: nat, machine: string)

  function Fields(c: PerfCounter): seq<string>
  {
    [Decimal(c.counterType), c.category, c.name, c.instance,
     if c.value.Some? then "0" else "1",
     if c.value.Some? then c.value.value else "",
     c.unit, Decimal(c.refreshInterval), Decimal(c.timestamp), c.machine]
  }

  /** `PerfCounter.__str__`: every field is followed by a semicolon. */
  function Terminated(fields: seq<string>): string
  {
    if fields == [] then "" else fields[0] + ";" + Terminated(fields[1..])
  }

  function Print(c: PerfCounter): string
  {
    Terminated(Fields(c)) + "\n"
  }

  /** The ten fields of a record, in order; the fifth tells a missing value from an empty one. */
  lemma PrintedRecord(c: PerfCounter)
    ensures Print(c) == Decimal(c.counterType) + ";" + (c.category + ";" + (c.name + ";" + (c.instance + ";" +
                        FromValue(if c.value.Some? then "0" else "1", if c.value.Some? then c.value.value else "", c)))) + "\n"
  {
    var f := Fields(c);
    assert f[0..] == f;
    TerminatedFrom(f, 0);
    TerminatedFrom(f, 1);
    TerminatedFrom(f, 2);
    TerminatedFrom(f, 3);
    LastFields(f, c);
  }

  /** The flag, the value and the four fields behind them. */
  function FromValue(flag: string, val: string, c: PerfCounter): string
  {
    flag + ";" + (val + ";" + (c.unit + ";" + (Decimal(c.refreshInterval) + ";" + (Decimal(c.timestamp) + ";" + (c.machine + ";")))))
  }

  lemma LastFields(f: seq<string>, c: PerfCounter)
    requires f == Fields(c)
    ensures Terminated(f[4..]) == FromValue(f[4], f[5], c)
  {
    TerminatedFrom(f, 4);
    TerminatedFrom(f, 5);
    TerminatedFrom(f, 6);
    TerminatedFrom(f, 7);
    TerminatedFrom(f, 8);
    TerminatedFrom(f, 9);
    assert f[10..] == [] && c.machine + ";" + "" == c.machine + ";";
  }

  lemma TerminatedFrom(fields: seq<string>, i: nat)
    requires i < |fields|
    ensures Terminated(fields[i..]) == fields[i] + ";" + Terminated(fields[i + 1..])
  {
    assert fields[i..][1..] == fields[i + 1..];
  }

  /** `PerfCounterWriter._write`. */
  function FileText(cs: seq<PerfCounter>): string
  {
    if cs == [] then "" else Print(cs[0]) + FileText(cs[1..])
  }

  /** No text field holds one of the two separators. */
  predicate Clean(c: PerfCounter)
  {
    forall f | f in Fields(c) :: Free(f, ';') && Free(f, '\n')
  }

  predicate AllClean(cs: seq<PerfCounter>)
  {
    forall c | c in cs :: Clean(c)
  }

  // ---------- Reading back ----------

  function DecodeLine(line: string): Option<PerfCounter>
  {
    var p := Split(line, ';');
    if |p| == 11 && p[10] == "" && (p[4] == "0" || (p[4] == "1" && p[5] == "")) &&
       ParseNat(p[0]).Some? && ParseNat(p[7]).Some? && ParseNat(p[8]).Some?
    then
      Some(PerfCounter(ParseNat(p[0]).value, p[1], p[2], p[3], if p[4] == "0" then Some(p[5]) else None,
                       p[6], ParseNat(p[7]).value, ParseNat(p[8]).value, p[9]))
    else None
  }

  /** The lines must end with an empty one: the text after the last line feed. */
  function DecodeLines(lines: seq<string>): Option<seq<PerfCounter>>
  {
    if lines == [""] then Some([])
    else if lines == [] then None
    else
      match (DecodeLine(lines[0]), DecodeLines(lines[1..]))
      case (Some(c), Some(cs)) => Some([c] + cs)
      case _ => None
  }

  function Decode(text: string): Option<seq<PerfCounter>>
  {
    DecodeLines(Split(text, '\n'))
  }

  lemma {:induction false} SplitTerminated(fields: seq<string>)
    requires AllFree(fields, ';')
    ensures Split(Terminated(fields), ';') == fields + [""]
  {
    if fields != [] {
      assert fields[0] in fields;
      SplitTerminated(fields[1..]);
      SplitAtFirst(fields[0], Terminated(fields[1..]), ';');
      assert fields[0] + ";" + Terminated(fields[1..]) == fields[0] + [';'] + Terminated(fields[1..]);
      assert fields + [""] == [fields[0]] + (fields[1..] + [""]);
    }
  }

  lemma {:induction false} TerminatedFree(fields: seq<string>, c: char)
    requires AllFree(fields, c) && c != ';'
    ensures Free(Terminated(fields), c)
  {
    if fields != [] {
      assert fields[0] in fields;
      TerminatedFree(fields[1..], c);
    }
  }

  lemma DecodePrinted(c: PerfCounter)
    requires Clean(c)
    ensures DecodeLine(Terminated(Fields(c))) == Some(c)
  {
    SplitTerminated(Fields(c));
    ValueOfDecimal(c.counterType);
    ValueOfDecimal(c.refreshInterval);
    ValueOfDecimal(c.timestamp);
  }

  lemma {:induction false} DecodeFile(cs: seq<PerfCounter>)
    requires AllClean(cs)
    ensures Decode(FileText(cs)) == Some(cs)
  {
    if cs != [] {
      assert cs[0] in cs;
      DecodeFile(cs[1..]);
      var line := Terminated(Fields(cs[0]));
      TerminatedFree(Fields(cs[0]), '\n');
      SplitAtFirst(line, FileText(cs[1..]), '\n');
      assert FileText(cs) == line + ['\n'] + FileText(cs[1..]);
      DecodePrinted(cs[0]);
      assert Split(FileText(cs), '\n')[1..] == Split(FileText(cs[1..]), '\n');
      assert cs == [cs[0]] + cs[1..];
    }
  }

  lemma DecimalFree(n: nat)
    ensures Free(Decimal(n), ';') && Free(Decimal(n), '\n')
  {
  }

  /** A field of a split line holds neither separator. */
  lemma DecodedLineClean(line: string)
    requires Free(line, '\n') && DecodeLine(line).Some?
    ensures Clean(DecodeLine(line).value)
  {
    var p := Split(line, ';');
    var c := DecodeLine(line).value;
    SplitPartsFree(line, ';');
    JoinSplit(line, ';');
    PartsFree(p, ';', '\n');
    DecimalFree(c.counterType);
    DecimalFree(c.refreshInterval);
    DecimalFree(c.timestamp);
    forall f | f in Fields(c) ensures Free(f, ';') && Free(f, '\n') {
      assert p[1] in p && p[2] in p && p[3] in p && p[5] in p && p[6] in p && p[9] in p;
    }
  }

  lemma {:induction false} PartsFree(parts: seq<string>, sep: char, c: char)
    requires Free(Join(parts, sep), c)
    ensures AllFree(parts, c)
  {
    if |parts| > 1 {
      PartsFree(parts[1..], sep, c);
      var j := parts[0] + [sep] + Join(parts[1..], sep);
      forall p | p in parts ensures Free(p, c) {
        if p == parts[0] {
          forall k | 0 <= k < |p| ensures p[k] != c { assert j[k] == p[k]; }
        } else {
          assert p in parts[1..];
        }
      }
      forall k | 0 <= k < |Join(parts[1..], sep)| ensures Join(parts[1..], sep)[k] != c {
        assert j[|parts[0]| + 1 + k] == Join(parts[1..], sep)[k];
      }
    }
  }

  lemma {:induction false} DecodedLinesClean(lines: seq<string>)
    requires AllFree(lines, '\n') && DecodeLines(lines).Some?
    ensures AllClean(DecodeLines(lines).value)
  {
    if lines != [""] {
      assert lines[0] in lines;
      DecodedLineClean(lines[0]);
      DecodedLinesClean(lines[1..]);
    }
  }

  /** The file gives its counters back exactly when no field holds a separator. */
  lemma DecodeExactly(cs: seq<PerfCounter>)
    ensures Decode(FileText(cs)) == Some(cs) <==> AllClean(cs)
  {
    if AllClean(cs) {
      DecodeFile(cs);
    } else if Decode(FileText(cs)) == Some(cs) {
      SplitPartsFree(FileText(cs), '\n');
      DecodedLinesClean(Split(FileText(cs), '\n'));
    }
  }

  /** So the file determines the whole list, missing values told apart from empty ones. */
  lemma FileDeterminesCounters(cs: seq<PerfCounter>, ds: seq<PerfCounter>)
    requires AllClean(cs) && AllClean(ds) && FileText(cs) == FileText(ds)
    ensures cs == ds
  {
    DecodeFile(cs);
    DecodeFile(ds);
  }
}
