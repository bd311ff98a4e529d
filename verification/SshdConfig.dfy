/**
 Rewriting sshd_config line by line, and what it then says for each keyword: first as the rewrite
 itself compares keywords and finds Match lines, letter case included, then as the daemon does.
 */
module SshdConfig {
  import opened Text

  predicate IsMatch(line: string)
  {
    StartsWith(line, "Match")
  }

  function Entry(name: string, val: string): string
  {
    name + " " + val
  }

  // ---------- The rewrite ----------

  /** Lines before the first Match line. */
  function SectionLength(config: seq<string>): (k: nat)
    ensures k <= |config|
    ensures forall i | 0 <= i < k :: !IsMatch(config[i])
    ensures k < |config| ==> IsMatch(config[k])
  {
    if config == [] || IsMatch(config[0]) then 0 else 1 + SectionLength(config[1..])
  }

  function Section(config: seq<string>): seq<string>
  {
    config[..SectionLength(config)]
  }

  /** From the first Match line on. */
  function MatchBlocks(config: seq<string>): seq<string>
  {
    config[SectionLength(config)..]
  }

  predicate Mentions(lines: seq<string>, name: string)
  {
    exists i | 0 <= i < |lines| :: StartsWith(lines[i], name)
  }

  function Replaced(lines: seq<string>, name: string, val: string): (r: seq<string>)
    ensures |r| == |lines|
  {
    seq(|lines|, i requires 0 <= i < |lines| => if StartsWith(lines[i], name) then Entry(name, val) else lines[i])
  }

  /** The line a new entry is put before: the first Match line, or else the last line of the file. */
  function InsertAt(config: seq<string>): (at: nat)
    ensures at <= SectionLength(config)
  {
    var k := SectionLength(config);
    if k < |config| || k == 0 then k else k - 1
  }

  function SectionUpdated(section: seq<string>, at: nat, name: string, val: string): seq<string>
    requires at <= |section|
  {
    if Mentions(section, name) then Replaced(section, name, val)
    else section[..at] + [Entry(name, val)] + section[at..]
  }

  /** The effect of `_set_sshd_config`: replace in the section, or insert near its end. */
  function Updated(config: seq<string>, name: string, val: string): seq<string>
  {
    SectionUpdated(Section(config), InsertAt(config), name, val) + MatchBlocks(config)
  }

  predicate Word(s: string)
  {
    forall i | 0 <= i < |s| :: !IsSpace(s[i])
  }

  /** A single word that cannot be confused with Match. */
  predicate ProperName(name: string)
  {
    name != "" && Word(name) && !("Match" <= name) && !(name <= "Match")
  }

  lemma PrefixesCompare(a: string, b: string, s: string)
    requires a <= s && b <= s
    ensures a <= b || b <= a
  {
    assert forall i | 0 <= i < |a| :: a[i] == s[i];
    assert forall i | 0 <= i < |b| :: b[i] == s[i];
  }

  lemma NotBoth(line: string, name: string)
    requires ProperName(name) && StartsWith(line, name)
    ensures !IsMatch(line)
  {
    if IsMatch(line) {
      PrefixesCompare("Match", name, line);
    }
  }

  /** The loop of the rewrite before line i, with the variables it has by then. */
  ghost predicate Scanned(config: seq<string>, name: string, val: string, i: nat, result: seq<string>, notfound: bool, at: nat)
  {
    && i <= |config|
    && result == Replaced(config[..i], name, val) + config[i..]
    && (forall j | 0 <= j < i :: !IsMatch(config[j]))
    && (notfound <==> !Mentions(config[..i], name))
    && at == if i == 0 then 0 else i - 1
  }

  method SetSshdConfig(config: seq<string>, name: string, val: string) returns (result: seq<string>)
    requires ProperName(name)
    ensures result == Updated(config, name, val)
  {
    result := config;
    var notfound := true;
    var at := 0;
    var i := 0;
    while i < |result|
      invariant |result| == |config|
      invariant Scanned(config, name, val, i, result, notfound, at)
    {
      ScanStep(config, name, val, i, result, notfound, at);
      at := i;
      if StartsWith(result[i], name) {
        result := result[i := name + " " + val];
        notfound := false;
      } else if IsMatch(result[i]) {
        ScanEnds(config, name, val, i, result, notfound, i);
        break;
      }
      i := i + 1;
    }
    if i == |config| {
      ScanEnds(config, name, val, i, result, notfound, at);
    }
    if notfound {
      result := result[..at] + [name + " " + val] + result[at..];
    }
  }

  lemma ScanStep(config: seq<string>, name: string, val: string, i: nat, result: seq<string>, notfound: bool, at: nat)
    requires ProperName(name) && Scanned(config, name, val, i, result, notfound, at) && i < |config|
    ensures |result| == |config| && result[i] == config[i]
    ensures StartsWith(result[i], name) ==> Scanned(config, name, val, i + 1, result[i := name + " " + val], false, i)
    ensures !StartsWith(result[i], name) && !IsMatch(result[i]) ==> Scanned(config, name, val, i + 1, result, notfound, i)
  {
    ReplaceStep(config, i, name, val);
    if StartsWith(config[i], name) {
      NotBoth(config[i], name);
    }
  }

  lemma ReplaceStep(config: seq<string>, i: nat, name: string, val: string)
    requires i < |config|
    ensures var r := Replaced(config[..i], name, val) + config[i..];
            && r[i] == config[i]
            && (if StartsWith(r[i], name) then r[i := Entry(name, val)] else r) == Replaced(config[..i + 1], name, val) + config[i + 1..]
    ensures Mentions(config[..i + 1], name) <==> Mentions(config[..i], name) || StartsWith(config[i], name)
  {
    assert config[..i + 1] == config[..i] + [config[i]];
    MentionsAppend(config[..i], [config[i]], name);
    assert [config[i]][0] == config[i];
  }

  lemma MentionsAppend(a: seq<string>, b: seq<string>, name: string)
    ensures Mentions(a + b, name) <==> Mentions(a, name) || Mentions(b, name)
  {
    if Mentions(a, name) {
      var i :| 0 <= i < |a| && StartsWith(a[i], name);
      assert (a + b)[i] == a[i];
    }
    if Mentions(b, name) {
      var i :| 0 <= i < |b| && StartsWith(b[i], name);
      assert (a + b)[|a| + i] == b[i];
    }
  }

  lemma ScanEnds(config: seq<string>, name: string, val: string, i: nat, result: seq<string>, notfound: bool, at: nat)
    requires Scanned(config, name, val, i, result, notfound, if i == 0 then 0 else i - 1)
    requires i < |config| ==> IsMatch(config[i])
    requires at == if i < |config| then i else if i == 0 then 0 else i - 1
    ensures |result| == |config|
    ensures (if notfound then result[..at] + [Entry(name, val)] + result[at..] else result) == Updated(config, name, val)
  {
    SectionEnds(config, i);
    if notfound {
      NothingReplaced(config[..i], name, val);
      assert config[..i] + config[i..] == config;
      InsertInWhole(config, i, at, Entry(name, val));
    }
  }

  lemma InsertInWhole(config: seq<string>, i: nat, at: nat, line: string)
    requires at <= i <= |config|
    ensures config[..at] + [line] + config[at..] == config[..i][..at] + [line] + config[..i][at..] + config[i..]
  {
  }

  lemma SectionEnds(config: seq<string>, i: nat)
    requires i <= |config| && (forall j | 0 <= j < i :: !IsMatch(config[j])) && (i < |config| ==> IsMatch(config[i]))
    ensures SectionLength(config) == i
  {
  }

  lemma NothingReplaced(lines: seq<string>, name: string, val: string)
    requires !Mentions(lines, name)
    ensures Replaced(lines, name, val) == lines
  {
  }

  // ---------- Where the entry comes to stand ----------

  /** No line of the section begins with the name or is a Match line. */
  predicate Foreign(lines: seq<string>, name: string)
  {
    forall i | 0 <= i < |lines| :: !StartsWith(lines[i], name) && !StartsWith(lines[i], "Match")
  }

  /** A new entry goes right above the first Match line ... */
  lemma InsertedAboveMatch(lines: seq<string>, matchLine: string, rest: seq<string>, name: string, val: string)
    requires Foreign(lines, name) && StartsWith(matchLine, "Match")
    ensures Updated(lines + [matchLine] + rest, name, val) == lines + [name + " " + val] + [matchLine] + rest
  {
    var config := lines + [matchLine] + rest;
    assert forall i | 0 <= i < |lines| :: config[i] == lines[i];
    assert config[|lines|] == matchLine;
    SectionEnds(config, |lines|);
    assert config[..|lines|] == lines && config[|lines|..] == [matchLine] + rest;
    assert !Mentions(lines, name);
    assert lines[..|lines|] == lines && lines[|lines|..] == [];
    Regroup(lines + [Entry(name, val)], [matchLine], rest);
  }

  /** ... or above the last line of a file without one, so that a final line feed stays final ... */
  lemma InsertedAboveLast(lines: seq<string>, last: string, name: string, val: string)
    requires Foreign(lines + [last], name)
    ensures Updated(lines + [last], name, val) == lines + [name + " " + val, last]
  {
    var config := lines + [last];
    SectionEnds(config, |config|);
    assert config[..|config|] == config && config[|config|..] == [];
    assert config[..|lines|] == lines && config[|lines|..] == [last];
    assert !Mentions(config, name);
  }

  /** ... and if a line k before the first Match line begins with the name, every such line becomes the entry in place. */
  lemma ReplacedInPlace(config: seq<string>, name: string, val: string, k: nat, i: nat)
    requires k < SectionLength(config) && StartsWith(config[k], name) && i < |config|
    ensures |Updated(config, name, val)| == |config|
    ensures Updated(config, name, val)[i] ==
            if i < SectionLength(config) && StartsWith(config[i], name) then name + " " + val else config[i]
  {
    var section := Section(config);
    assert section[k] == config[k] && Mentions(section, name);
    var r := Replaced(section, name, val);
    assert Updated(config, name, val) == r + MatchBlocks(config);
    if i < |section| {
      assert (r + MatchBlocks(config))[i] == r[i] && section[i] == config[i];
    } else {
      assert (r + MatchBlocks(config))[i] == MatchBlocks(config)[i - |section|] == config[i];
    }
  }

  // ---------- Keywords as the rewrite compares them ----------

  /** The first word of a line. */
  function Keyword(line: string): (w: string)
    ensures w <= line && Word(w)
    ensures |w| < |line| ==> IsSpace(line[|w|])
  {
    if line == "" || IsSpace(line[0]) then "" else [line[0]] + Keyword(line[1..])
  }

  function Argument(line: string): string
  {
    Strip(line[|Keyword(line)|..])
  }

  /** The argument of the first line with a keyword. */
  function Lookup(lines: seq<string>, keyword: string): Option<string>
  {
    if lines == [] then None
    else if Keyword(lines[0]) == keyword then Some(Argument(lines[0]))
    else Lookup(lines[1..], keyword)
  }

  lemma StartsWithKeyword(line: string, name: string)
    requires Word(name)
    ensures StartsWith(line, name) <==> name <= Keyword(line)
  {
    var w := Keyword(line);
    if StartsWith(line, name) {
      PrefixesCompare(name, w, line);
    }
  }

  lemma StripTrimmed(val: string)
    requires Trimmed(val)
    ensures Strip(" " + val) == val
  {
    assert (" " + val)[1..] == val;
    assert LStrip(" " + val) == LStrip(val);
    assert LStrip(val) == val && RStrip(val) == val;
  }

  lemma KeywordIs(line: string, name: string)
    requires Word(name) && name <= line && (|name| < |line| ==> IsSpace(line[|name|]))
    ensures Keyword(line) == name
  {
    PrefixesCompare(Keyword(line), name, line);
  }

  lemma EntryReads(name: string, val: string)
    requires ProperName(name) && Trimmed(val)
    ensures Keyword(Entry(name, val)) == name && Argument(Entry(name, val)) == val
    ensures StartsWith(Entry(name, val), name) && !IsMatch(Entry(name, val))
  {
    var e := Entry(name, val);
    assert e[|name|] == ' ' && name <= e;
    KeywordIs(e, name);
    assert e[|name|..] == " " + val;
    StripTrimmed(val);
    NotBoth(e, name);
  }

  /** Looking a keyword up after the rewrite. */
  function LookupAfter(lines: seq<string>, name: string, val: string, keyword: string): Option<string>
  {
    if keyword == name then Some(val) else if name <= keyword then None else Lookup(lines, keyword)
  }

  lemma {:induction false} LookupAppend(a: seq<string>, b: seq<string>, keyword: string)
    ensures Lookup(a + b, keyword) == if Lookup(a, keyword).Some? then Lookup(a, keyword) else Lookup(b, keyword)
  {
    if a == [] {
      assert a + b == b;
    } else {
      TailOfSum(a, b);
      LookupAppend(a[1..], b, keyword);
    }
  }

  lemma ReplacedTail(lines: seq<string>, name: string, val: string)
    requires lines != []
    ensures Replaced(lines, name, val)[0] == if StartsWith(lines[0], name) then Entry(name, val) else lines[0]
    ensures Replaced(lines, name, val)[1..] == Replaced(lines[1..], name, val)
  {
  }

  lemma MentionsTail(lines: seq<string>, name: string)
    requires lines != []
    ensures Mentions(lines, name) <==> StartsWith(lines[0], name) || Mentions(lines[1..], name)
  {
    if Mentions(lines[1..], name) {
      var i :| 0 <= i < |lines| - 1 && StartsWith(lines[1..][i], name);
      assert lines[i + 1] == lines[1..][i];
    }
    if Mentions(lines, name) {
      var i :| 0 <= i < |lines| && StartsWith(lines[i], name);
      assert i > 0 ==> lines[1..][i - 1] == lines[i];
    }
  }

  lemma {:induction false} LookupReplaced(lines: seq<string>, name: string, val: string, keyword: string)
    requires ProperName(name) && Trimmed(val)
    ensures Lookup(Replaced(lines, name, val), keyword) ==
            if keyword == name && !Mentions(lines, name) then None else LookupAfter(lines, name, val, keyword)
  {
    if lines != [] {
      LookupReplaced(lines[1..], name, val, keyword);
      EntryReads(name, val);
      StartsWithKeyword(lines[0], name);
      ReplacedTail(lines, name, val);
      MentionsTail(lines, name);
    }
  }

  lemma LookupEntry(name: string, val: string, keyword: string)
    requires ProperName(name) && Trimmed(val)
    ensures Lookup([Entry(name, val)], keyword) == if keyword == name then Some(val) else None
    ensures Others([Entry(name, val)], name) == []
  {
    EntryReads(name, val);
    assert [Entry(name, val)][1..] == [];
  }

  lemma LookupInserted(a: seq<string>, b: seq<string>, name: string, val: string, keyword: string)
    requires ProperName(name) && Trimmed(val) && !Mentions(a, name) && !Mentions(b, name)
    ensures Lookup(a + [Entry(name, val)] + b, keyword) == LookupAfter(a + b, name, val, keyword)
  {
    var e := [Entry(name, val)];
    LookupEntry(name, val, keyword);
    LookupAppend(a + e, b, keyword);
    LookupAppend(a, e, keyword);
    LookupAppend(a, b, keyword);
    NotMentioned(a, name, keyword);
    NotMentioned(b, name, keyword);
  }

  lemma {:induction false} NotMentioned(lines: seq<string>, name: string, keyword: string)
    requires ProperName(name) && !Mentions(lines, name)
    ensures name <= keyword ==> Lookup(lines, keyword) == None
  {
    if lines != [] {
      MentionsTail(lines, name);
      StartsWithKeyword(lines[0], name);
      NotMentioned(lines[1..], name, keyword);
    }
  }

  /** The rewrite keeps the section before the Match lines, which stay untouched. */
  lemma UpdatedParts(config: seq<string>, name: string, val: string)
    requires ProperName(name) && Trimmed(val)
    ensures MatchBlocks(Updated(config, name, val)) == MatchBlocks(config)
    ensures Section(Updated(config, name, val)) == SectionUpdated(Section(config), InsertAt(config), name, val)
  {
    var s := SectionUpdated(Section(config), InsertAt(config), name, val);
    var u := s + MatchBlocks(config);
    NoMatchInSection(Section(config), InsertAt(config), name, val);
    assert forall j | 0 <= j < |s| :: u[j] == s[j];
    assert MatchBlocks(config) != [] ==> u[|s|] == MatchBlocks(config)[0];
    SectionEnds(u, |s|);
  }

  lemma NoMatchInSection(section: seq<string>, at: nat, name: string, val: string)
    requires ProperName(name) && Trimmed(val) && at <= |section|
    requires forall i | 0 <= i < |section| :: !IsMatch(section[i])
    ensures var s := SectionUpdated(section, at, name, val); forall j | 0 <= j < |s| :: !IsMatch(s[j])
  {
    EntryReads(name, val);
  }

  lemma MentionsParts(s: seq<string>, at: nat, name: string)
    requires at <= |s|
    ensures s[..at] + s[at..] == s
    ensures Mentions(s, name) <==> Mentions(s[..at], name) || Mentions(s[at..], name)
  {
    assert s[..at] + s[at..] == s;
    MentionsAppend(s[..at], s[at..], name);
  }

  /**
   Every keyword after the rewrite, in the section before the first Match line: `name` reads `val`,
   keywords that merely begin with `name` are gone, all others read as before.
   */
  lemma UpdateSetsLookup(config: seq<string>, name: string, val: string, keyword: string)
    requires ProperName(name) && Trimmed(val)
    ensures Lookup(Section(Updated(config, name, val)), keyword) == LookupAfter(Section(config), name, val, keyword)
    ensures MatchBlocks(Updated(config, name, val)) == MatchBlocks(config)
  {
    var s, at := Section(config), InsertAt(config);
    UpdatedParts(config, name, val);
    if Mentions(s, name) {
      LookupReplaced(s, name, val, keyword);
    } else {
      MentionsParts(s, at, name);
      LookupInserted(s[..at], s[at..], name, val, keyword);
    }
  }

  /** The lines that do not begin with the name. */
  function Others(lines: seq<string>, name: string): seq<string>
  {
    if lines == [] then []
    else (if StartsWith(lines[0], name) then [] else [lines[0]]) + Others(lines[1..], name)
  }

  lemma {:induction false} OthersAppend(a: seq<string>, b: seq<string>, name: string)
    ensures Others(a + b, name) == Others(a, name) + Others(b, name)
  {
    if a == [] {
      assert a + b == b;
    } else {
      TailOfSum(a, b);
      OthersAppend(a[1..], b, name);
      Regroup(if StartsWith(a[0], name) then [] else [a[0]], Others(a[1..], name), Others(b, name));
    }
  }

  lemma {:induction false} OthersReplaced(lines: seq<string>, name: string, val: string)
    requires ProperName(name) && Trimmed(val)
    ensures Others(Replaced(lines, name, val), name) == Others(lines, name)
  {
    if lines != [] {
      EntryReads(name, val);
      OthersReplaced(lines[1..], name, val);
      assert Replaced(lines, name, val)[1..] == Replaced(lines[1..], name, val);
    }
  }

  lemma OthersInserted(a: seq<string>, b: seq<string>, name: string, val: string)
    requires ProperName(name) && Trimmed(val)
    ensures Others(a + [Entry(name, val)] + b, name) == Others(a + b, name)
  {
    var e := [Entry(name, val)];
    LookupEntry(name, val, name);
    OthersAppend(a + e, b, name);
    OthersAppend(a, e, name);
    OthersAppend(a, b, name);
    assert Others(a, name) + [] == Others(a, name);
  }

  /** All other lines are kept, in order. */
  lemma UpdateKeepsOthers(config: seq<string>, name: string, val: string)
    requires ProperName(name) && Trimmed(val)
    ensures Others(Section(Updated(config, name, val)), name) == Others(Section(config), name)
  {
    var s, at := Section(config), InsertAt(config);
    UpdatedParts(config, name, val);
    if Mentions(s, name) {
      OthersReplaced(s, name, val);
    } else {
      MentionsParts(s, at, name);
      OthersInserted(s[..at], s[at..], name, val);
    }
  }

  /** All lines that begin with the name are the entry itself, and there is one. */
  predicate Settled(lines: seq<string>, name: string, val: string)
  {
    Mentions(lines, name) && forall i | 0 <= i < |lines| && StartsWith(lines[i], name) :: lines[i] == Entry(name, val)
  }

  lemma SectionSettled(section: seq<string>, at: nat, name: string, val: string)
    requires ProperName(name) && Trimmed(val) && at <= |section|
    ensures Settled(SectionUpdated(section, at, name, val), name, val)
  {
    var s := SectionUpdated(section, at, name, val);
    EntryReads(name, val);
    if Mentions(section, name) {
      var i :| 0 <= i < |section| && StartsWith(section[i], name);
      assert s[i] == Entry(name, val);
    } else {
      assert s[at] == Entry(name, val);
    }
  }

  lemma SettledFixed(section: seq<string>, at: nat, name: string, val: string)
    requires at <= |section| && Settled(section, name, val)
    ensures SectionUpdated(section, at, name, val) == section
  {
  }

  lemma UpdateIdempotent(config: seq<string>, name: string, val: string)
    requires ProperName(name) && Trimmed(val)
    ensures Updated(Updated(config, name, val), name, val) == Updated(config, name, val)
  {
    var u := Updated(config, name, val);
    UpdatedParts(config, name, val);
    SectionSettled(Section(config), InsertAt(config), name, val);
    SettledFixed(Section(u), InsertAt(u), name, val);
  }

  // ---------- Keywords as the daemon compares them ----------

  /** The daemon skips leading blanks and ignores the letter case of keywords. */
  function DaemonKeyword(line: string): string
  {
    Lower(Keyword(LStrip(line)))
  }

  /** The argument of the first line with a keyword. */
  function DaemonLookup(lines: seq<string>, keyword: string): Option<string>
  {
    if lines == [] then None
    else if DaemonKeyword(lines[0]) == Lower(keyword) then Some(Argument(LStrip(lines[0])))
    else DaemonLookup(lines[1..], keyword)
  }

  /** `Match` is a keyword as any other. */
  predicate DaemonMatch(line: string)
  {
    DaemonKeyword(line) == "match"
  }

  predicate HoldsMatch(lines: seq<string>)
  {
    exists i | 0 <= i < |lines| :: DaemonMatch(lines[i])
  }

  /** The lines that hold for all users: those before the first Match line. */
  function DaemonSection(lines: seq<string>): seq<string>
  {
    if lines == [] || DaemonMatch(lines[0]) then [] else [lines[0]] + DaemonSection(lines[1..])
  }

  /** What the daemon reads for a keyword, for all users. */
  function DaemonReads(config: seq<string>, keyword: string): Option<string>
  {
    DaemonLookup(DaemonSection(config), keyword)
  }

  lemma {:induction false} DaemonSectionOfSum(a: seq<string>, b: seq<string>)
    ensures DaemonSection(a + b) == if HoldsMatch(a) then DaemonSection(a) else a + DaemonSection(b)
  {
    if a == [] {
      assert a + b == b;
    } else {
      TailOfSum(a, b);
      DaemonSectionOfSum(a[1..], b);
      HoldsMatchTail(a);
      if !HoldsMatch(a) {
        assert !DaemonMatch(a[0]);
        Regroup([a[0]], a[1..], DaemonSection(b));
        assert [a[0]] + a[1..] == a;
      }
    }
  }

  lemma HoldsMatchTail(a: seq<string>)
    requires a != []
    ensures HoldsMatch(a) <==> DaemonMatch(a[0]) || HoldsMatch(a[1..])
  {
    assert forall i | 0 <= i < |a| - 1 :: a[1..][i] == a[i + 1];
    if i :| 0 <= i < |a| && DaemonMatch(a[i]) {
      assert i > 0 ==> DaemonMatch(a[1..][i - 1]);
    }
    if i :| 0 <= i < |a| - 1 && DaemonMatch(a[1..][i]) {
      assert DaemonMatch(a[i + 1]);
    }
  }

  /** Where the entry comes to stand: at the first line that begins with the name, or where it is inserted. */
  function EntryAt(config: seq<string>, name: string): (at: nat)
    ensures at <= SectionLength(config)
  {
    if Mentions(Section(config), name) then FirstMention(Section(config), name) else InsertAt(config)
  }

  function FirstMention(lines: seq<string>, name: string): (i: nat)
    requires Mentions(lines, name)
    ensures i < |lines| && StartsWith(lines[i], name) && !Mentions(lines[..i], name)
  {
    if StartsWith(lines[0], name) then 0
    else
      MentionsTail(lines, name);
      var i := FirstMention(lines[1..], name);
      assert forall j | 1 <= j < i + 1 :: lines[j] == lines[1..][j - 1];
      assert forall j | 0 <= j < i :: lines[1..][..i][j] == lines[1..][j];
      i + 1
  }

  lemma {:induction false} DaemonLookupAppend(a: seq<string>, b: seq<string>, keyword: string)
    ensures DaemonLookup(a + b, keyword) == if DaemonLookup(a, keyword).Some? then DaemonLookup(a, keyword) else DaemonLookup(b, keyword)
  {
    if a == [] {
      assert a + b == b;
    } else {
      TailOfSum(a, b);
      DaemonLookupAppend(a[1..], b, keyword);
    }
  }

  lemma UpdatedAroundEntry(config: seq<string>, name: string, val: string) returns (rest: seq<string>)
    requires ProperName(name) && Trimmed(val)
    ensures Section(Updated(config, name, val)) == Section(config)[..EntryAt(config, name)] + ([Entry(name, val)] + rest)
  {
    var s, at := Section(config), EntryAt(config, name);
    UpdatedParts(config, name, val);
    if Mentions(s, name) {
      var r := Replaced(s, name, val);
      NothingReplaced(s[..at], name, val);
      assert r[..at] == Replaced(s[..at], name, val);
      rest := r[at + 1..];
      assert r == r[..at] + ([r[at]] + rest);
    } else {
      rest := s[at..];
      assert s[..at] + [Entry(name, val)] + rest == s[..at] + ([Entry(name, val)] + rest);
    }
  }

  /** The lines above the entry. */
  function Above(config: seq<string>, name: string): seq<string>
  {
    Section(config)[..EntryAt(config, name)]
  }

  lemma EntryForDaemon(name: string, val: string, rest: seq<string>)
    requires ProperName(name) && Trimmed(val)
    ensures DaemonReads([Entry(name, val)] + rest, name) == if Lower(name) == "match" then None else Some(val)
  {
    var e := Entry(name, val);
    EntryReads(name, val);
    assert e[0] == name[0];
    assert LStrip(e) == e;
    assert ([e] + rest)[0] == e && ([e] + rest)[1..] == rest;
    if Lower(name) != "match" {
      assert DaemonSection([e] + rest) == [e] + DaemonSection(rest);
      assert ([e] + DaemonSection(rest))[0] == e;
    }
  }

  lemma DaemonReadsSum(above: seq<string>, below: seq<string>, name: string)
    ensures DaemonReads(above + below, name) ==
            if HoldsMatch(above) || DaemonReads(above, name).Some? then DaemonReads(above, name) else DaemonReads(below, name)
  {
    DaemonSectionOfSum(above, below);
    if !HoldsMatch(above) {
      DaemonSectionOfSum(above, []);
      assert above + [] == above;
      DaemonLookupAppend(above, DaemonSection(below), name);
    }
  }

  /**
   What the daemon itself reads for the name after the rewrite, for all users.  A line above the entry
   that writes the keyword in other letter case or behind blanks decides as before; a Match line above
   it that the rewrite does not take for one makes the entry hold for some users only.
   */
  lemma UpdateSetsDaemonLookup(config: seq<string>, name: string, val: string)
    requires ProperName(name) && Trimmed(val)
    ensures var above := Above(config, name);
            DaemonReads(Updated(config, name, val), name) ==
            if DaemonReads(above, name).Some? then DaemonReads(above, name)
            else if HoldsMatch(above) || Lower(name) == "match" then None
            else Some(val)
    ensures !Mentions(Above(config, name), name)
  {
    var above, u := Above(config, name), Updated(config, name, val);
    var rest := UpdatedAroundEntry(config, name, val);
    var below := [Entry(name, val)] + (rest + MatchBlocks(u));
    SectionAndBlocks(u);
    assert u == above + below;
    DaemonReadsSum(above, below, name);
    EntryForDaemon(name, val, rest + MatchBlocks(u));
    MentionsParts(Section(config), EntryAt(config, name), name);
  }

  lemma SectionAndBlocks(config: seq<string>)
    ensures Section(config) + MatchBlocks(config) == config
  {
  }

  /** The rewrite does for the daemon what it is meant to do exactly if no Match line and no other value stands above. */
  lemma DaemonObeysExactly(config: seq<string>, name: string, val: string)
    requires ProperName(name) && Trimmed(val)
    ensures var above := Above(config, name);
            DaemonReads(Updated(config, name, val), name) == Some(val) <==>
            || DaemonReads(above, name) == Some(val)
            || (DaemonReads(above, name).None? && !HoldsMatch(above) && Lower(name) != "match")
  {
    UpdateSetsDaemonLookup(config, name, val);
  }

  /** A blank before the keyword hides a line from the rewrite, and it keeps deciding. */
  lemma AliasDecides(name: string, val: string, other: string)
    requires ProperName(name) && Trimmed(val) && Trimmed(other) && Lower(name) != "match"
    ensures var u := Updated([" " + Entry(name, other), ""], name, val);
            DaemonReads(u, name) == Some(other) && Lookup(Section(u), name) == Some(val)
  {
    var line := " " + Entry(name, other);
    var config := [line, ""];
    assert line[0] == ' ' && line[1..] == Entry(name, other);
    assert !IsMatch(line) && !IsMatch("") && !StartsWith(line, name) && !StartsWith("", name);
    SectionEnds(config, 2);
    assert EntryAt(config, name) == 1 && Above(config, name) == [line];
    AliasReads(line, name, other);
    UpdateSetsDaemonLookup(config, name, val);
    UpdateSetsLookup(config, name, val, name);
  }

  /** So does a line in other letter case. */
  lemma LowerCaseDecides(val: string)
    requires Trimmed(val)
    ensures var u := Updated(["port 22", ""], "Port", val);
            DaemonReads(u, "Port") == Some("22") && Lookup(Section(u), "Port") == Some(val)
  {
    PortAbove();
    LowerPort("port 22");
    UpdateSetsDaemonLookup(["port 22", ""], "Port", val);
    UpdateSetsLookup(["port 22", ""], "Port", val, "Port");
  }

  lemma PortAbove()
    ensures ProperName("Port") && Above(["port 22", ""], "Port") == ["port 22"]
  {
    var config := ["port 22", ""];
    assert config[0][0] == 'p' && "Port"[0] == 'P' && "Match"[0] == 'M';
    SectionEnds(config, 2);
    assert !Mentions(config, "Port");
  }

  lemma LowerPort(line: string)
    requires line == "port" + " 22"
    ensures DaemonReads([line], "Port") == Some("22")
  {
    assert line[0] == 'p' && line[4] == ' ';
    KeywordIs(line, "port");
    LowerPorts();
    assert line[4..] == " " + "22";
    StripTrimmed("22");
    assert DaemonSection([line]) == [line];
  }

  lemma LowerPorts()
    ensures Lower("port") == Lower("Port") == "port" != "match"
  {
    assert Lower("Port") == "port" && Lower("port") == "port" && "port"[0] != "match"[0];
  }

  lemma AliasReads(line: string, name: string, other: string)
    requires ProperName(name) && Trimmed(other) && Lower(name) != "match" && line == " " + Entry(name, other)
    ensures DaemonReads([line], name) == Some(other)
  {
    var e := Entry(name, other);
    assert line[1..] == e && line[0] == ' ';
    assert e[0] == name[0];
    assert LStrip(line) == LStrip(e) == e;
    EntryReads(name, other);
    assert DaemonSection([line]) == [line];
  }

  /** A Match line in lower case is none for the rewrite: the entry ends up inside its block, and all other users lack it. */
  lemma EntryInsideBlock(name: string, val: string, matchLine: string, line: string)
    requires ProperName(name) && Trimmed(val)
    requires "match " <= matchLine && !StartsWith(matchLine, name) && !StartsWith(line, name) && !IsMatch(line)
    ensures var u := Updated([matchLine, line, ""], name, val);
            DaemonReads(u, name) == None && Lookup(Section(u), name) == Some(val)
  {
    var config := [matchLine, line, ""];
    LowerMatch(matchLine);
    assert matchLine[0] == 'm' && !IsMatch(matchLine);
    SectionEnds(config, 3);
    assert !Mentions(config, name);
    assert Above(config, name) == [matchLine, line];
    BlockReads(matchLine, line, name);
    UpdateSetsDaemonLookup(config, name, val);
    UpdateSetsLookup(config, name, val, name);
  }

  lemma BlockReads(matchLine: string, line: string, name: string)
    requires DaemonMatch(matchLine)
    ensures HoldsMatch([matchLine, line]) && DaemonReads([matchLine, line], name) == None
  {
    assert [matchLine, line][0] == matchLine;
    assert DaemonSection([matchLine, line]) == [];
  }

  lemma EntryInsideBobsBlock()
    ensures var u := Updated(["match user bob", "x11forwarding no", ""], "PasswordAuthentication", "yes");
            DaemonReads(u, "PasswordAuthentication") == None && Lookup(Section(u), "PasswordAuthentication") == Some("yes")
  {
    var name := "PasswordAuthentication";
    assert name[0] == 'P' && "Match"[0] == 'M' && "x11forwarding no"[0] == 'x' && "match user bob"[0] == 'm';
    EntryInsideBlock(name, "yes", "match user bob", "x11forwarding no");
  }

  lemma LowerMatch(line: string)
    requires "match " <= line
    ensures DaemonMatch(line)
  {
    assert line[0] == 'm' && line[5] == ' ';
    KeywordIs(line, "match");
    assert Lower("match") == "match";
  }
}
