/**
 The waagent sudoers file under set-user and remove-user operations: a text file that should behave
 as a map from user to entry.
 */
module Sudoers {
  import opened Text

  // ---------- Users and lines ----------

  predicate NameChar(c: char)
  {
    'a' <= c <= 'z' || 'A' <= c <= 'Z' || IsDigit(c) || c == '_' || c == '-' || c == '.' || c == '$'
  }

  /** Account names: letters, digits, underscores, hyphens, dots and dollar signs. */
  predicate IsUser(u: string)
  {
    u != "" && forall i | 0 <= i < |u| :: NameChar(u[i])
  }

  /** The line grants something to the user: its first word is the name. */
  predicate Owns(u: string, line: string)
  {
    u <= line && |u| < |line| && IsSpace(line[|u|])
  }

  /**
   `re.match('^u\s', line)` for a name u put into the pattern as it is: a dot stands for any
   character, and a dollar sign asks for the end of the line and so never matches.
   */
  predicate PatternMatches(u: string, line: string)
  {
    && '$' !in u && |u| < |line| && IsSpace(line[|u|])
    && forall i | 0 <= i < |u| :: u[i] == '.' || u[i] == line[i]
  }

  predicate PatternSafe(u: string)
  {
    '.' !in u && '$' !in u
  }

  /** The pattern of a name finds just that user's lines exactly when the name has no dot and no dollar sign. */
  lemma PatternExact(u: string)
    requires IsUser(u)
    ensures (forall line: string | Free(line, '\n') :: PatternMatches(u, line) <==> Owns(u, line)) <==> PatternSafe(u)
  {
    if PatternSafe(u) {
      forall line: string ensures PatternMatches(u, line) <==> Owns(u, line) {
        SafePattern(u, line);
      }
    } else if '$' in u {
      var line := u + " ";
      assert Free(line, '\n') && Owns(u, line) && !PatternMatches(u, line);
    } else {
      var i :| 0 <= i < |u| && u[i] == '.';
      var line := u[i := 'x'] + " ";
      assert line[i] == 'x' && line[|u|] == ' ';
      assert Free(line, '\n') && PatternMatches(u, line) && !Owns(u, line);
    }
  }

  lemma SafePattern(u: string, line: string)
    requires PatternSafe(u)
    ensures PatternMatches(u, line) <==> Owns(u, line)
  {
    if PatternMatches(u, line) {
      forall i | 0 <= i < |u| ensures u[i] == line[i] {
        assert u[i] in u;
      }
    }
  }

  lemma OneOwner(u: string, v: string, line: string)
    requires IsUser(u) && IsUser(v) && Owns(u, line) && Owns(v, line)
    ensures u == v
  {
    if |u| == |v| {
      assert u == line[..|u|] && v == line[..|v|];
    }
  }

  // ---------- The file ----------

  /** The absent file has no lines. */
  function Lines(file: Option<string>): seq<string>
  {
    if file.Some? then Split(file.value, '\n') else []
  }

  /** The lines the pattern of a name does not match. */
  function Others(lines: seq<string>, u: string): seq<string>
  {
    if lines == [] then []
    else (if PatternMatches(u, lines[0]) then [] else [lines[0]]) + Others(lines[1..], u)
  }

  function EntryLine(u: string, nopasswd: bool): string
  {
    if nopasswd then u + " ALL = (ALL) NOPASSWD: ALL" else u + " ALL = (ALL) ALL"
  }

  datatype Op = SetUser(user: string, nopasswd: bool) | RemoveUser(user: string)

  /** An operation that goes through. */
  function Step(file: Option<string>, op: Op): Option<string>
  {
    var others := if file.Some? then Some(Join(Others(Lines(file), op.user), '\n')) else None;
    match op
    case SetUser(u, nopasswd) => Some(EntryLine(u, nopasswd) + "\n" + (if others.Some? then others.value else ""))
    case RemoveUser(_) => others
  }

  /** How an account command ends: done, with an error before it writes the file, or with one after it. */
  datatype AccountOutcome = Done | Refused | LateError

  /** An operation whose account command gives up before it touches the file. */
  function FailedStep(file: Option<string>, u: string): Option<string>
  {
    if file.Some? then Some(file.value + Join(Others(Lines(file), u), '\n')) else None
  }

  class SudoersFile {
    var content: Option<string>

    constructor (content: Option<string>)
      ensures this.content == content
    {
      this.content := content;
    }

    method GetOtherSudoers(userName: string) returns (sudoers: Option<seq<string>>)
      ensures sudoers == if content.Some? then Some(Others(Lines(content), userName)) else None
    {
      if content.None? {
        return None;
      }
      return Some(Others(Split(content.value, '\n'), userName));
    }

    method SaveOtherSudoers(sudoers: Option<seq<string>>)
      modifies this
      ensures content == if sudoers.Some? then Some((if old(content).Some? then old(content).value else "") + Join(sudoers.value, '\n'))
                         else old(content)
    {
      if sudoers.None? {
        return;
      }
      content := Some((if content.Some? then content.value else "") + Join(sudoers.value, '\n'));
    }

    method CreateAccount(user: string, hasPassword: bool, enableNopasswd: bool, outcome: AccountOutcome) returns (ok: bool)
      modifies this
      ensures ok == outcome.Done?
      ensures content == if outcome.Refused? then old(content)
                         else if !hasPassword || enableNopasswd then Some(user + " ALL = (ALL) NOPASSWD: ALL" + "\n")
                         else Some(user + " ALL = (ALL) ALL" + "\n")
    {
      if outcome.Refused? {
        return false;
      }
      if !hasPassword || enableNopasswd {
        content := Some(user + " ALL = (ALL) NOPASSWD: ALL\n");
      } else {
        content := Some(user + " ALL = (ALL) ALL\n");
      }
      assert user + " ALL = (ALL) NOPASSWD: ALL" + "\n" == user + " ALL = (ALL) NOPASSWD: ALL\n";
      assert user + " ALL = (ALL) ALL" + "\n" == user + " ALL = (ALL) ALL\n";
      return outcome.Done?;
    }

    /** `accountReady` is false where the source returns early, or cannot remove the file. */
    method DeleteAccount(user: string, accountReady: bool)
      modifies this
      ensures content == if accountReady then None else old(content)
    {
      if !accountReady {
        return;
      }
      content := None;
    }

    method SetUserAccount(user: string, hasPassword: bool, enableNopasswd: bool, outcome: AccountOutcome) returns (ok: bool)
      modifies this
      ensures ok == outcome.Done?
      ensures content == if outcome.Refused? then FailedStep(old(content), user)
                         else Step(old(content), SetUser(user, !hasPassword || enableNopasswd))
    {
      var sudoers := GetOtherSudoers(user);
      ok := CreateAccount(user, hasPassword, enableNopasswd, outcome);
      SaveOtherSudoers(sudoers);
      ghost var entry := EntryLine(user, !hasPassword || enableNopasswd) + "\n";
      assert entry + "" == entry;
    }

    method RemoveUserAccount(user: string, accountReady: bool)
      modifies this
      ensures content == if accountReady then Step(old(content), RemoveUser(user)) else FailedStep(old(content), user)
    {
      var sudoers := GetOtherSudoers(user);
      DeleteAccount(user, accountReady);
      SaveOtherSudoers(sudoers);
      assert sudoers.Some? ==> "" + Join(sudoers.value, '\n') == Join(sudoers.value, '\n');
    }
  }

  // ---------- One step ----------

  /** The lines of a user, in order. */
  function Owned(lines: seq<string>, v: string): seq<string>
  {
    if lines == [] then []
    else (if Owns(v, lines[0]) then [lines[0]] else []) + Owned(lines[1..], v)
  }

  lemma {:induction false} OwnedAppend(a: seq<string>, b: seq<string>, v: string)
    ensures Owned(a + b, v) == Owned(a, v) + Owned(b, v)
  {
    if a == [] {
      assert a + b == b;
    } else {
      OwnedAppend(a[1..], b, v);
      TailOfSum(a, b);
      Regroup(if Owns(v, a[0]) then [a[0]] else [], Owned(a[1..], v), Owned(b, v));
    }
  }

  lemma {:induction false} OwnedOthers(lines: seq<string>, u: string, v: string)
    requires IsUser(u) && IsUser(v) && PatternSafe(u)
    ensures Owned(Others(lines, u), v) == if v == u then [] else Owned(lines, v)
  {
    if lines != [] {
      var head := lines[0];
      OwnedOthers(lines[1..], u, v);
      SafePattern(u, head);
      OwnedAppend(if PatternMatches(u, head) then [] else [head], Others(lines[1..], u), v);
      assert [head][1..] == [];
      if Owns(u, head) && Owns(v, head) {
        OneOwner(u, v, head);
      }
    }
  }

  lemma {:induction false} OthersIn(lines: seq<string>, u: string)
    ensures forall l | l in Others(lines, u) :: l in lines
  {
    if lines != [] {
      OthersIn(lines[1..], u);
    }
  }

  /** Joining a filtered list and splitting it again leaves the filtered list, or one blank line if it is empty. */
  lemma OthersRoundTrip(file: string, u: string)
    ensures var others := Others(Split(file, '\n'), u);
            Split(Join(others, '\n'), '\n') == if others == [] then [""] else others
  {
    var lines := Split(file, '\n');
    SplitPartsFree(file, '\n');
    OthersIn(lines, u);
    if Others(lines, u) != [] {
      SplitJoin(Others(lines, u), '\n');
    }
  }

  lemma EntryOwned(u: string, nopasswd: bool)
    requires IsUser(u)
    ensures Owns(u, EntryLine(u, nopasswd)) && Free(EntryLine(u, nopasswd), '\n')
  {
    var e := EntryLine(u, nopasswd);
    assert e[|u|] == ' ';
    forall i | 0 <= i < |e| ensures e[i] != '\n' {
      if i < |u| {
        assert e[i] == u[i] && NameChar(u[i]);
      } else {
        assert e[i] == (if nopasswd then " ALL = (ALL) NOPASSWD: ALL" else " ALL = (ALL) ALL")[i - |u|];
      }
    }
  }

  /** Blank lines at the end of a list that has lost all others. */
  function OrBlank(lines: seq<string>): seq<string>
  {
    if lines == [] then [""] else lines
  }

  /** The lines after a step: the new entry, if any, then all lines the pattern spared, in order. */
  lemma StepLines(file: Option<string>, op: Op)
    requires IsUser(op.user)
    ensures Lines(Step(file, op)) ==
            (if op.SetUser? then [EntryLine(op.user, op.nopasswd)] else []) +
            (if file.Some? then OrBlank(Others(Lines(file), op.user)) else if op.SetUser? then [""] else [])
  {
    var others := if file.Some? then Join(Others(Lines(file), op.user), '\n') else "";
    if file.Some? {
      OthersRoundTrip(file.value, op.user);
    }
    if op.SetUser? {
      var e := EntryLine(op.user, op.nopasswd);
      EntryOwned(op.user, op.nopasswd);
      SplitAtFirst(e, others, '\n');
      assert e + "\n" + others == e + ['\n'] + others;
    }
  }

  /** What a user's lines become. */
  function OwnedAfter(op: Op, v: string, before: seq<string>): seq<string>
  {
    if op.user != v then before else if op.SetUser? then [EntryLine(v, op.nopasswd)] else []
  }

  /** One step acts on the user's lines as on a map, and on nobody else's. */
  lemma StepRefinesMap(file: Option<string>, op: Op, v: string)
    requires IsUser(op.user) && PatternSafe(op.user) && IsUser(v)
    ensures Owned(Lines(Step(file, op)), v) == OwnedAfter(op, v, Owned(Lines(file), v))
  {
    var u := op.user;
    var entry := if op.SetUser? then [EntryLine(u, op.nopasswd)] else [];
    var rest := if file.Some? then OrBlank(Others(Lines(file), u)) else if op.SetUser? then [""] else [];
    StepLines(file, op);
    OwnedAppend(entry, rest, v);
    OwnedOthers(Lines(file), u, v);
    BlankOwned(v);
    if op.SetUser? {
      EntryOwned(u, op.nopasswd);
      if Owns(v, entry[0]) {
        OneOwner(u, v, entry[0]);
      }
      assert entry[1..] == [];
    }
  }

  lemma BlankOwned(v: string)
    ensures Owned([""], v) == []
  {
    assert [""][1..] == [];
  }

  // ---------- Runs ----------

  function FileAfter(file: Option<string>, ops: seq<Op>): Option<string>
  {
    if ops == [] then file else Step(FileAfter(file, ops[..|ops| - 1]), ops[|ops| - 1])
  }

  /** What the last operation on a user says. */
  function LastWord(ops: seq<Op>, v: string, before: seq<string>): seq<string>
  {
    if ops == [] then before
    else OwnedAfter(ops[|ops| - 1], v, LastWord(ops[..|ops| - 1], v, before))
  }

  predicate AllSafe(ops: seq<Op>)
  {
    forall op | op in ops :: IsUser(op.user) && PatternSafe(op.user)
  }

  /** Over any run the file is a map: a user's lines are what the last operation on that user made them. */
  lemma {:induction false} RunRefinesMap(file: Option<string>, ops: seq<Op>, v: string)
    requires AllSafe(ops) && IsUser(v)
    ensures Owned(Lines(FileAfter(file, ops)), v) == LastWord(ops, v, Owned(Lines(file), v))
    ensures |Owned(Lines(file), v)| <= 1 ==> |Owned(Lines(FileAfter(file, ops)), v)| <= 1
  {
    if ops != [] {
      assert ops[|ops| - 1] in ops;
      RunRefinesMap(file, ops[..|ops| - 1], v);
      StepRefinesMap(FileAfter(file, ops[..|ops| - 1]), ops[|ops| - 1], v);
    }
  }

  /** The line is blank or belongs to a user of the run. */
  predicate Concerns(users: set<string>, line: string)
  {
    line == "" || exists u | u in users :: Owns(u, line)
  }

  /** The written lines that belong to no user of the run. */
  function Untouched(lines: seq<string>, users: set<string>): seq<string>
  {
    if lines == [] then []
    else (if Concerns(users, lines[0]) then [] else [lines[0]]) + Untouched(lines[1..], users)
  }

  lemma {:induction false} UntouchedAppend(a: seq<string>, b: seq<string>, users: set<string>)
    ensures Untouched(a + b, users) == Untouched(a, users) + Untouched(b, users)
  {
    if a == [] {
      assert a + b == b;
    } else {
      UntouchedAppend(a[1..], b, users);
      TailOfSum(a, b);
      Regroup(if Concerns(users, a[0]) then [] else [a[0]], Untouched(a[1..], users), Untouched(b, users));
    }
  }

  lemma UntouchedOne(line: string, users: set<string>)
    ensures Untouched([line], users) == if Concerns(users, line) then [] else [line]
  {
    assert [line][1..] == [];
  }

  lemma {:induction false} UntouchedOthers(lines: seq<string>, users: set<string>, u: string)
    requires u in users && PatternSafe(u)
    ensures Untouched(Others(lines, u), users) == Untouched(lines, users)
  {
    if lines != [] {
      var head, tail := lines[0], Others(lines[1..], u);
      SafePattern(u, head);
      UntouchedOthers(lines[1..], users, u);
      UntouchedAppend(if PatternMatches(u, head) then [] else [head], tail, users);
      UntouchedOne(head, users);
    }
  }

  lemma UntouchedStep(file: Option<string>, op: Op, users: set<string>)
    requires IsUser(op.user) && PatternSafe(op.user) && op.user in users
    ensures Untouched(Lines(Step(file, op)), users) == Untouched(Lines(file), users)
  {
    var entry := if op.SetUser? then [EntryLine(op.user, op.nopasswd)] else [];
    var rest := if file.Some? then OrBlank(Others(Lines(file), op.user)) else if op.SetUser? then [""] else [];
    StepLines(file, op);
    UntouchedAppend(entry, rest, users);
    UntouchedOthers(Lines(file), users, op.user);
    UntouchedOne("", users);
    if op.SetUser? {
      EntryOwned(op.user, op.nopasswd);
      UntouchedOne(entry[0], users);
    }
  }

  /** All other users' lines are kept, and kept in order. */
  lemma {:induction false} RunKeepsOrder(file: Option<string>, ops: seq<Op>, users: set<string>)
    requires AllSafe(ops) && forall op | op in ops :: op.user in users
    ensures Untouched(Lines(FileAfter(file, ops)), users) == Untouched(Lines(file), users)
  {
    if ops != [] {
      assert ops[|ops| - 1] in ops;
      RunKeepsOrder(file, ops[..|ops| - 1], users);
      UntouchedStep(FileAfter(file, ops[..|ops| - 1]), ops[|ops| - 1], users);
    }
  }

  // ---------- The final newline ----------

  predicate Terminated(file: Option<string>)
  {
    file.Some? && file.value != "" ==> file.value[|file.value| - 1] == '\n'
  }

  lemma {:induction false} LastPart(s: string)
    ensures var parts := Split(s, '\n'); parts[|parts| - 1] == "" <==> Terminated(Some(s))
  {
    if s != "" {
      LastPart(s[1..]);
    }
  }

  lemma {:induction false} LastOther(lines: seq<string>, u: string)
    requires lines != [] && lines[|lines| - 1] == ""
    ensures var others := Others(lines, u); others != [] && others[|others| - 1] == ""
  {
    if |lines| > 1 {
      LastOther(lines[1..], u);
    }
  }

  /** A file that ends in a newline, is empty or absent stays so. */
  lemma StepTerminated(file: Option<string>, op: Op)
    requires IsUser(op.user) && Terminated(file)
    ensures Terminated(Step(file, op))
  {
    if file.Some? {
      var others := Others(Lines(file), op.user);
      LastPart(file.value);
      LastOther(Lines(file), op.user);
      OthersRoundTrip(file.value, op.user);
      LastPart(Join(others, '\n'));
    }
  }

  lemma {:induction false} RunTerminated(file: Option<string>, ops: seq<Op>)
    requires AllSafe(ops) && Terminated(file)
    ensures Terminated(FileAfter(file, ops))
  {
    if ops != [] {
      assert ops[|ops| - 1] in ops;
      RunTerminated(file, ops[..|ops| - 1]);
      StepTerminated(FileAfter(file, ops[..|ops| - 1]), ops[|ops| - 1]);
    }
  }

  // ---------- Names that are patterns ----------

  /** A dot stands for any character: an operation takes along the entry of every user whose name differs only there. */
  lemma DotTakesOthers(u: string, i: nat, c: char, nopasswd: bool)
    requires IsUser(u) && '$' !in u && i < |u| && u[i] == '.' && NameChar(c)
    ensures Others([EntryLine(u[i := c], nopasswd)], u) == []
  {
    var v, e := u[i := c], EntryLine(u[i := c], nopasswd);
    assert |v| == |u| && e[|u|] == ' ' && v <= e;
    assert forall k | 0 <= k < |u| :: e[k] == v[k];
    assert [e][1..] == [];
  }

  /** A name with a dollar sign finds no line, so old entries of its user stay. */
  lemma {:induction false} DollarTakesNone(lines: seq<string>, u: string)
    requires '$' in u
    ensures Others(lines, u) == lines
  {
    if lines != [] {
      DollarTakesNone(lines[1..], u);
      assert [lines[0]] + lines[1..] == lines;
    }
  }

  // ---------- Operations that fail ----------

  /** A failed operation leaves the file alone exactly when there is nothing of other users to save. */
  lemma FailureHarmlessExactly(file: Option<string>, u: string)
    ensures FailedStep(file, u) == file <==> file.None? || Join(Others(Lines(file), u), '\n') == ""
  {
    if file.Some? {
      var j := Join(Others(Lines(file), u), '\n');
      assert j != "" ==> |file.value + j| > |file.value|;
      assert file.value + "" == file.value;
    }
  }

  lemma {:induction false} SplitTerminatedAppend(a: string, b: string)
    requires Terminated(Some(a))
    ensures var parts := Split(a, '\n'); Split(a + b, '\n') == parts[..|parts| - 1] + Split(b, '\n')
  {
    if a == "" {
      assert a + b == b;
    } else {
      var rest := Split(a[1..], '\n');
      SplitTerminatedAppend(a[1..], b);
      TailOfSum(a, b);
      if a[0] == '\n' {
        Regroup([""], rest[..|rest| - 1], Split(b, '\n'));
        assert ([""] + rest)[..|rest|] == [""] + rest[..|rest| - 1];
      } else {
        ManyParts(a[1..]);
        SplitStep(rest, Split(b, '\n'), a[0]);
      }
    }
  }

  lemma ManyParts(s: string)
    requires s != "" && Terminated(Some(s))
    ensures |Split(s, '\n')| > 1
  {
    LastPart(s);
    JoinSplit(s, '\n');
  }

  lemma SplitStep(rest: seq<string>, more: seq<string>, c: char)
    requires |rest| > 1
    ensures var all, parts := rest[..|rest| - 1] + more, [[c] + rest[0]] + rest[1..];
            [[c] + all[0]] + all[1..] == parts[..|parts| - 1] + more
  {
  }

  lemma FailedLines(file: string, u: string)
    requires Terminated(Some(file))
    ensures var lines := Split(file, '\n');
            && lines[|lines| - 1] == ""
            && Lines(FailedStep(Some(file), u)) == lines[..|lines| - 1] + OrBlank(Others(lines, u))
  {
    LastPart(file);
    SplitTerminatedAppend(file, Join(Others(Split(file, '\n'), u), '\n'));
    OthersRoundTrip(file, u);
  }

  /** On a newline-terminated file it doubles the lines of every other user. */
  lemma FailureDoublesOthers(file: string, u: string, v: string)
    requires IsUser(u) && IsUser(v) && u != v && PatternSafe(u) && Terminated(Some(file))
    ensures Owned(Lines(FailedStep(Some(file), u)), v) == Owned(Lines(Some(file)), v) + Owned(Lines(Some(file)), v)
  {
    var lines := Split(file, '\n');
    var n := |lines| - 1;
    FailedLines(file, u);
    OwnedOthers(lines, u, v);
    BlankOwned(v);
    OwnedAppend(lines[..n], OrBlank(Others(lines, u)), v);
    OwnedAppend(lines[..n], [""], v);
    assert lines == lines[..n] + [""];
  }
}
