/**
 The sshd_config file and its backup under attribute updates, resets and restores.
 */
module SshdBackup {
  import opened Text
  import opened SshdConfig

  predicate AlreadySet(line: string, name: string, val: string)
  {
    StartsWith(line, name) && Contains(Lower(line), val)
  }

  /** The guard that skips an update: the pair occurs in some line, Match blocks included. */
  predicate Skips(text: string, name: string, val: string)
  {
    exists l | l in Split(text, '\n') :: AlreadySet(l, name, val)
  }

  function UpdatedText(text: string, name: string, val: string): string
  {
    Join(Updated(Split(text, '\n'), name, val), '\n')
  }

  // ---------- The operations ----------

  /** Both files; None is an absent one. */
  datatype Files = Files(config: Option<string>, backup: Option<string>)

  /** A reset copies the distribution's default, and so does a restore that finds no backup. */
  datatype Op = Update(name: string, val: string) | Reset(default: string) | Restore(default: string)

  /** The update gets as far as writing. */
  predicate Writes(s: Files, op: Op)
  {
    op.Update? && s.config.Some? && !Skips(s.config.value, op.name, op.val)
  }

  function Step(s: Files, op: Op): Files
  {
    match op
    case Update(name, val) =>
      if Writes(s, op) then
        Files(Some(UpdatedText(s.config.value, name, val)), if s.backup.Some? then s.backup else s.config)
      else s
    case Reset(default) => s.(config := Some(default))
    case Restore(default) => Files(Some(if s.backup.Some? then s.backup.value else default), None)
  }

  class SshdFiles {
    var config: Option<string>
    var backup: Option<string>

    constructor (config: Option<string>)
      ensures Current() == Files(config, None)
    {
      this.config, backup := config, None;
    }

    function Current(): Files
      reads this
    {
      Files(config, backup)
    }

    method BackupSshdConfig()
      modifies this`backup
      ensures backup == if old(backup).Some? then old(backup) else config
    {
      if config.Some? && backup.None? {
        backup := Some("");
        backup := config;
      }
    }

    method BackupAndUpdateSshdConfig(name: string, val: string)
      requires ProperName(name)
      modifies this
      ensures Current() == Step(old(Current()), Update(name, val))
    {
      if config.None? {
        return;
      }
      var lines := Split(config.value, '\n');
      for i := 0 to |lines|
        invariant forall j | 0 <= j < i :: !AlreadySet(lines[j], name, val)
      {
        if StartsWith(lines[i], name) && Contains(Lower(lines[i]), val) {
          assert lines[i] in lines;
          return;
        }
      }
      BackupSshdConfig();
      lines := SetSshdConfig(lines, name, val);
      config := Some(Join(lines, '\n'));
    }

    method ResetSshdConfig(default: string, restoreBackupSsh: bool)
      modifies this
      ensures Current() == Step(old(Current()), if restoreBackupSsh then Restore(default) else Reset(default))
      ensures config == if restoreBackupSsh && old(backup).Some? then old(backup) else Some(default)
      ensures backup == if restoreBackupSsh then None else old(backup)
    {
      if restoreBackupSsh && backup.Some? {
        config := backup;
        backup := None;
      } else {
        config := Some(default);
      }
    }
  }

  // ---------- One update ----------

  /** Line i begins with the name and holds the value, in lower case, at some place j. */
  predicate SetAt(lines: seq<string>, name: string, val: string, i: nat, j: nat)
  {
    i < |lines| && name <= lines[i] && OccursAt(Lower(lines[i]), val, j)
  }

  /** An update is skipped exactly if some line, in a Match block or not, has it already; else it backs up once and rewrites. */
  lemma UpdateExactly(s: Files, name: string, val: string)
    requires s.config.Some?
    ensures var lines, after := Split(s.config.value, '\n'), Step(s, Update(name, val));
            after == if exists i: nat, j: nat :: SetAt(lines, name, val, i, j) then s
                     else Files(Some(Join(Updated(lines, name, val), '\n')), if s.backup.Some? then s.backup else s.config)
  {
    var lines := Split(s.config.value, '\n');
    if i: nat, j: nat :| SetAt(lines, name, val, i, j) {
      ContainsExactly(Lower(lines[i]), val);
      assert lines[i] in lines && AlreadySet(lines[i], name, val);
    }
    if Skips(s.config.value, name, val) {
      var i :| 0 <= i < |lines| && AlreadySet(lines[i], name, val);
      ContainsExactly(Lower(lines[i]), val);
      var j: nat :| OccursAt(Lower(lines[i]), val, j);
      assert SetAt(lines, name, val, i, j);
    }
  }

  /** What stands for a keyword before the first Match line, both as the rewrite tells them. */
  function GlobalLookup(text: string, keyword: string): Option<string>
  {
    Lookup(Section(Split(text, '\n')), keyword)
  }

  lemma EntryFree(name: string, val: string)
    requires Free(name, '\n') && Free(val, '\n')
    ensures Free(Entry(name, val), '\n')
  {
  }

  lemma UpdatedTextLines(text: string, name: string, val: string)
    requires Free(name, '\n') && Free(val, '\n')
    ensures Split(UpdatedText(text, name, val), '\n') == Updated(Split(text, '\n'), name, val)
  {
    var lines := Split(text, '\n');
    var u := Updated(lines, name, val);
    SplitPartsFree(text, '\n');
    EntryFree(name, val);
    UpdatedFree(lines, name, val);
    SplitJoin(u, '\n');
  }

  lemma UpdatedFree(lines: seq<string>, name: string, val: string)
    requires AllFree(lines, '\n') && Free(Entry(name, val), '\n')
    ensures AllFree(Updated(lines, name, val), '\n') && Updated(lines, name, val) != []
  {
    var s, u := SectionUpdated(Section(lines), InsertAt(lines), name, val), Updated(lines, name, val);
    SectionUpdatedFree(lines, name, val);
    forall i | 0 <= i < |u| ensures Free(u[i], '\n') {
      if i < |s| {
        assert u[i] == s[i];
      } else {
        assert u[i] == MatchBlocks(lines)[i - |s|] && u[i] in lines;
      }
    }
  }

  lemma SectionUpdatedFree(lines: seq<string>, name: string, val: string)
    requires AllFree(lines, '\n') && Free(Entry(name, val), '\n')
    ensures var s := SectionUpdated(Section(lines), InsertAt(lines), name, val);
            s != [] && forall i | 0 <= i < |s| :: Free(s[i], '\n')
  {
    assert forall i | 0 <= i < SectionLength(lines) :: lines[i] in lines;
  }

  /** A written update sets its keyword and disturbs only keywords that begin with it. */
  lemma WrittenUpdateSets(text: string, name: string, val: string, keyword: string)
    requires ProperName(name) && Trimmed(val) && Free(name, '\n') && Free(val, '\n')
    ensures GlobalLookup(UpdatedText(text, name, val), keyword) == LookupAfter(Section(Split(text, '\n')), name, val, keyword)
  {
    UpdatedTextLines(text, name, val);
    UpdateSetsLookup(Split(text, '\n'), name, val, keyword);
  }

  /** An update leaves its keyword set exactly when it was not skipped, or set before. */
  lemma UpdateTakesEffect(s: Files, name: string, val: string)
    requires ProperName(name) && Trimmed(val) && Free(name, '\n') && Free(val, '\n') && s.config.Some?
    ensures GlobalLookup(Step(s, Update(name, val)).config.value, name) == Some(val)
            <==> Writes(s, Update(name, val)) || GlobalLookup(s.config.value, name) == Some(val)
  {
    WrittenUpdateSets(s.config.value, name, val, name);
  }

  /**
   What an update does for the daemon, which tells keywords and Match lines in its own way: a written
   one is obeyed exactly if nothing above the entry stands against it, a skipped one if it was before.
   */
  lemma UpdateObeyedExactly(s: Files, name: string, val: string)
    requires ProperName(name) && Trimmed(val) && Free(name, '\n') && Free(val, '\n') && s.config.Some?
    ensures var before, after := Split(s.config.value, '\n'), Split(Step(s, Update(name, val)).config.value, '\n');
            var above := Above(before, name);
            DaemonReads(after, name) == Some(val) <==>
            if Writes(s, Update(name, val))
            then DaemonReads(above, name) == Some(val)
                 || (DaemonReads(above, name).None? && !HoldsMatch(above) && Lower(name) != "match")
            else DaemonReads(before, name) == Some(val)
  {
    if Writes(s, Update(name, val)) {
      UpdatedTextLines(s.config.value, name, val);
      DaemonObeysExactly(Split(s.config.value, '\n'), name, val);
    }
  }

  /** A Match block that sets the pair for some users keeps an update from setting it for all. */
  lemma MatchBlockHidesUpdate(name: string, val: string, other: string, matchLine: string)
    requires ProperName(name) && Trimmed(val) && Trimmed(other) && Lower(val) == val && IsMatch(matchLine)
    requires AllFree([Entry(name, other), matchLine, Entry(name, val)], '\n')
    ensures var s := Files(Some(Join([Entry(name, other), matchLine, Entry(name, val)], '\n')), None);
            && Step(s, Update(name, val)) == s
            && GlobalLookup(s.config.value, name) == Some(other)
  {
    var lines := [Entry(name, other), matchLine, Entry(name, val)];
    SplitJoin(lines, '\n');
    EntryReads(name, other);
    SectionEnds(lines, 1);
    EntryAlreadySet(name, val);
    assert lines[2] in lines;
    assert lines[..1] == [Entry(name, other)];
  }

  lemma EntryAlreadySet(name: string, val: string)
    requires ProperName(name) && Trimmed(val) && Lower(val) == val
    ensures AlreadySet(Entry(name, val), name, val)
  {
    EntryReads(name, val);
    assert Entry(name, val)[|name| + 1..|name| + 1 + |val|] == val;
    LowerContains(Entry(name, val), val, |name| + 1);
  }

  lemma LowerContains(line: string, val: string, i: nat)
    requires i + |val| <= |line| && line[i..i + |val|] == val && Lower(val) == val
    ensures Contains(Lower(line), val)
  {
    forall k | 0 <= k < |val| ensures Lower(line)[i..i + |val|][k] == val[k] {
      assert line[i..i + |val|][k] == val[k];
      assert Lower(val)[k] == LowerChar(val[k]);
    }
    assert Lower(line)[i..i + |val|] == val;
    assert OccursAt(Lower(line), val, i);
    ContainsExactly(Lower(line), val);
  }

  /** For a lower-case value every written update changes the text, and repeating it writes nothing. */
  lemma WritesOnce(s: Files, name: string, val: string)
    requires ProperName(name) && Trimmed(val) && Lower(val) == val && Free(name, '\n') && Free(val, '\n')
    requires Writes(s, Update(name, val))
    ensures Step(s, Update(name, val)).config != s.config
    ensures !Writes(Step(s, Update(name, val)), Update(name, val))
  {
    var lines := Split(s.config.value, '\n');
    UpdatedTextLines(s.config.value, name, val);
    EntryInUpdated(lines, name, val);
    EntryAlreadySet(name, val);
  }

  lemma EntryInUpdated(lines: seq<string>, name: string, val: string)
    requires ProperName(name) && Trimmed(val)
    ensures Entry(name, val) in Updated(lines, name, val)
  {
    var s := SectionUpdated(Section(lines), InsertAt(lines), name, val);
    SectionSettled(Section(lines), InsertAt(lines), name, val);
    var i :| 0 <= i < |s| && StartsWith(s[i], name);
    assert Updated(lines, name, val)[i] == s[i];
  }

  // ---------- Runs ----------

  /** The files before operation n of a run, and after n operations. */
  function FilesAt(s: Files, ops: seq<Op>, n: nat): Files
    requires n <= |ops|
  {
    if n == 0 then s else Step(FilesAt(s, ops, n - 1), ops[n - 1])
  }

  /** Operation i of a run is an update that writes. */
  predicate WritesAt(s: Files, ops: seq<Op>, i: nat)
    requires i < |ops|
  {
    Writes(FilesAt(s, ops, i), ops[i])
  }

  /** Of the first n operations none since `since` was a restore; that one is the start or follows a restore. */
  ghost predicate LastRestore(ops: seq<Op>, n: nat, since: nat)
    requires n <= |ops|
  {
    && since <= n && (since > 0 ==> ops[since - 1].Restore?)
    && forall i | since <= i < n :: !ops[i].Restore?
  }

  /** The first writing update since then, if there was one. */
  ghost predicate FirstWrite(s: Files, ops: seq<Op>, n: nat, since: nat, first: Option<nat>)
    requires n <= |ops|
  {
    match first
    case None => forall i | since <= i < n :: !WritesAt(s, ops, i)
    case Some(k) =>
      since <= k < n && WritesAt(s, ops, k) && forall i | since <= i < k :: !WritesAt(s, ops, i)
  }

  lemma BackupStep(s: Files, ops: seq<Op>, n: nat)
    requires n < |ops|
    ensures var before, after := FilesAt(s, ops, n), FilesAt(s, ops, n + 1);
            after.backup == if ops[n].Restore? then None
                            else if before.backup.None? && WritesAt(s, ops, n) then before.config
                            else before.backup
    ensures WritesAt(s, ops, n) ==> FilesAt(s, ops, n).config.Some?
  {
  }

  /** The backup is the configuration just before the first write since the last restore. */
  ghost predicate BackupExplained(s: Files, ops: seq<Op>, n: nat, since: nat, first: Option<nat>)
    requires n <= |ops|
  {
    && LastRestore(ops, n, since) && FirstWrite(s, ops, n, since, first)
    && FilesAt(s, ops, n).backup == if first.Some? then FilesAt(s, ops, first.value).config else None
  }

  lemma StartExplains(s: Files, ops: seq<Op>)
    requires s.backup.None?
    ensures BackupExplained(s, ops, 0, 0, None)
  {
  }

  lemma RestoreExplains(s: Files, ops: seq<Op>, n: nat)
    requires n < |ops| && ops[n].Restore?
    ensures BackupExplained(s, ops, n + 1, n + 1, None)
  {
    BackupStep(s, ops, n);
  }

  lemma FirstWriteExplains(s: Files, ops: seq<Op>, n: nat, since: nat)
    requires n < |ops| && !ops[n].Restore? && BackupExplained(s, ops, n, since, None) && WritesAt(s, ops, n)
    ensures BackupExplained(s, ops, n + 1, since, Some(n))
  {
    BackupStep(s, ops, n);
  }

  lemma OtherExplains(s: Files, ops: seq<Op>, n: nat, since: nat, first: Option<nat>)
    requires n < |ops| && !ops[n].Restore? && BackupExplained(s, ops, n, since, first) && (first.Some? || !WritesAt(s, ops, n))
    ensures BackupExplained(s, ops, n + 1, since, first)
  {
    BackupStep(s, ops, n);
    if first.Some? {
      WriterHasConfig(s, ops, first.value);
    }
  }

  lemma WriterHasConfig(s: Files, ops: seq<Op>, k: nat)
    requires k < |ops| && WritesAt(s, ops, k)
    ensures FilesAt(s, ops, k).config.Some?
  {
  }

  /**
   At every point of a run the backup is the configuration just before the first writing update since
   the last restore, and is there only if there was such an update.
   */
  lemma {:induction false} BackupIsFirstWrite(config: Option<string>, ops: seq<Op>, n: nat) returns (since: nat, first: Option<nat>)
    requires n <= |ops|
    ensures BackupExplained(Files(config, None), ops, n, since, first)
  {
    var s := Files(config, None);
    if n == 0 {
      since, first := 0, None;
      StartExplains(s, ops);
    } else {
      since, first := BackupIsFirstWrite(config, ops, n - 1);
      if ops[n - 1].Restore? {
        RestoreExplains(s, ops, n - 1);
        since, first := n, None;
      } else if first.None? && WritesAt(s, ops, n - 1) {
        FirstWriteExplains(s, ops, n - 1, since);
        first := Some(n - 1);
      } else {
        OtherExplains(s, ops, n - 1, since, first);
      }
    }
  }

  lemma {:induction false} NothingWritten(s: Files, ops: seq<Op>, n: nat)
    requires n <= |ops| && forall i | 0 <= i < n :: ops[i].Update? && !WritesAt(s, ops, i)
    ensures FilesAt(s, ops, n) == s
  {
    if n > 0 {
      NothingWritten(s, ops, n - 1);
      assert !WritesAt(s, ops, n - 1);
    }
  }

  /** Updates followed by a restore give back the exact original, and no backup, iff an update wrote or the default is the original. */
  lemma RestoreReturnsOriginal(text: string, updates: seq<Op>, default: string)
    requires forall i | 0 <= i < |updates| :: updates[i].Update?
    ensures var start := Files(Some(text), None);
            var end := Step(FilesAt(start, updates, |updates|), Restore(default));
            && end.backup == None
            && (end.config == Some(text) <==> default == text || exists i: nat | i < |updates| :: WritesAt(start, updates, i))
  {
    var start := Files(Some(text), None);
    var since, first := BackupIsFirstWrite(Some(text), updates, |updates|);
    assert since == 0;
    NothingWritten(start, updates, if first.Some? then first.value else |updates|);
  }

  // ---------- What the configuration is ----------

  /** What an update makes of the configuration alone. */
  function Rewritten(config: Option<string>, name: string, val: string): Option<string>
  {
    if config.Some? && !Skips(config.value, name, val) then Some(UpdatedText(config.value, name, val)) else config
  }

  /** A configuration after the updates from operation `from` to n. */
  function Replayed(config: Option<string>, ops: seq<Op>, from: nat, n: nat): Option<string>
    requires from <= n <= |ops| && forall i | from <= i < n :: ops[i].Update?
  {
    if n == from then config else Rewritten(Replayed(config, ops, from, n - 1), ops[n - 1].name, ops[n - 1].val)
  }

  /** What operation k, a reset or a restore, puts in place: its default, or the backup if a restore finds one. */
  function Placed(s: Files, ops: seq<Op>, k: nat): Option<string>
    requires k < |ops| && !ops[k].Update?
  {
    if ops[k].Restore? && FilesAt(s, ops, k).backup.Some? then FilesAt(s, ops, k).backup else Some(ops[k].default)
  }

  lemma ConfigStep(s: Files, ops: seq<Op>, n: nat)
    requires n < |ops|
    ensures FilesAt(s, ops, n + 1).config ==
            if ops[n].Update? then Rewritten(FilesAt(s, ops, n).config, ops[n].name, ops[n].val) else Placed(s, ops, n)
  {
  }

  /** The configuration that the updates from operation `since` on start from: that of the start, or what was last put in place. */
  function Base(s: Files, ops: seq<Op>, since: nat): Option<string>
    requires since <= |ops| && (since > 0 ==> !ops[since - 1].Update?)
  {
    if since == 0 then s.config else Placed(s, ops, since - 1)
  }

  /** The operation after which only updates follow, up to n. */
  function LastPlaced(ops: seq<Op>, n: nat): (since: nat)
    requires n <= |ops|
    ensures since <= n && (since > 0 ==> !ops[since - 1].Update?)
    ensures forall i | since <= i < n :: ops[i].Update?
  {
    if n == 0 || !ops[n - 1].Update? then n else LastPlaced(ops, n - 1)
  }

  /**
   At every point of a run the configuration is the one of the start, or what the last reset or restore
   put in place, rewritten by the updates since then.
   */
  lemma {:induction false} ConfigIsReplayed(s: Files, ops: seq<Op>, n: nat)
    requires n <= |ops|
    ensures var since := LastPlaced(ops, n); FilesAt(s, ops, n).config == Replayed(Base(s, ops, since), ops, since, n)
  {
    if n > 0 {
      ConfigStep(s, ops, n - 1);
      if ops[n - 1].Update? {
        ConfigIsReplayed(s, ops, n - 1);
        ReplayStep(Base(s, ops, LastPlaced(ops, n - 1)), ops, LastPlaced(ops, n - 1), n - 1);
      }
    }
  }

  lemma ReplayStep(config: Option<string>, ops: seq<Op>, from: nat, n: nat)
    requires from <= n < |ops| && forall i | from <= i <= n :: ops[i].Update?
    ensures Replayed(config, ops, from, n + 1) == Rewritten(Replayed(config, ops, from, n), ops[n].name, ops[n].val)
  {
  }

  /** A reset replaces the configuration by its default and leaves the backup, at any point of any run. */
  lemma ResetAnywhere(s: Files, ops: seq<Op>, n: nat)
    requires n < |ops| && ops[n].Reset?
    ensures FilesAt(s, ops, n + 1) == Files(Some(ops[n].default), FilesAt(s, ops, n).backup)
  {
  }

  /** A restore puts back the text before the first write since the last restore, or else the default, and uses the backup up. */
  lemma RestoreAnywhere(config: Option<string>, ops: seq<Op>, n: nat) returns (since: nat, first: Option<nat>)
    requires n < |ops| && ops[n].Restore?
    ensures LastRestore(ops, n, since) && FirstWrite(Files(config, None), ops, n, since, first)
    ensures FilesAt(Files(config, None), ops, n + 1) ==
            Files(if first.Some? then FilesAt(Files(config, None), ops, first.value).config else Some(ops[n].default), None)
  {
    var s := Files(config, None);
    since, first := BackupIsFirstWrite(config, ops, n);
    if first.Some? {
      WriterHasConfig(s, ops, first.value);
    }
    assert FilesAt(s, ops, n + 1) == Step(FilesAt(s, ops, n), ops[n]);
  }
}
