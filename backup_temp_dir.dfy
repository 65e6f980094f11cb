/**
 * The backup temp root as backup_helper's clear_backup_dir, delete_backup_dir
 * and delete_old_backup_dirs change it: one entry per name, most of them
 * directories named after a backup id.
 */
module BackupTempDirs {
  import opened Results
  import opened TempJanitor

  /** backup_helper_exception codes raised by these operations. */
  datatype JanitorError = CannotEmptyBackupTempDir | ProblemDeletingOldBackupTempDirs

  /** The entry make_backup_temp_directory yields: the existing one, or a new empty directory. */
  function Made(entries: map<string, Node>, backupid: string, now: int): Node {
    if backupid in entries then entries[backupid] else Dir(backupid, now, [])
  }

  /** The backup's entry once clear_backup_dir has run delete_dir_contents on it. */
  function Cleared(entries: map<string, Node>, backupid: string, now: int, faults: Faults): Node {
    AfterDelete([backupid], Made(entries, backupid, now), "", faults)
  }

  /** PHP rmdir: only an empty directory goes, and only where removal is not refused. */
  predicate RmdirSucceeds(path: Path, node: Node, faults: Faults) {
    node.Dir? && node.children == [] && path !in faults.rmdirFails
  }

  /** Every name from position p of the listing still maps to the entry it had before. */
  predicate UnchangedFrom(before: map<string, Node>, after: map<string, Node>, listing: seq<string>, p: nat) {
    forall k :: p <= k < |listing| ==>
      listing[k] in before && listing[k] in after && after[listing[k]] == before[listing[k]]
  }

  /**
   * A listing of the root as get_directory_list gives it: names of entries,
   * each at most once. It may leave entries out (hidden names, for one).
   */
  predicate ListsEntries(listing: seq<string>, entries: map<string, Node>) {
    && (forall k :: 0 <= k < |listing| ==> listing[k] in entries)
    && (forall a, b :: 0 <= a < b < |listing| ==> listing[a] != listing[b])
  }

  /**
   * How the sweep leaves an entry it dealt with: a directory is gone, a file
   * is gone unless its unlink failed (and then it is untouched).
   */
  predicate Dealt(before: map<string, Node>, after: map<string, Node>, n: string, faults: Faults)
    requires n in before
  {
    if before[n].Dir? then n !in after
    else (n in after <==> [n] in faults.unlinkFails) && (n in after ==> after[n] == before[n])
  }

  /** delete_backup_dir on the existing directory n fails: the clear throws, or rmdir refuses the cleared directory. */
  predicate RemovalFails(before: map<string, Node>, n: string, now: int, faults: Faults)
    requires n in before
  {
    Fails([n], before[n], "", faults) || !RmdirSucceeds([n], Cleared(before, n, now, faults), faults)
  }

  /**
   * The exception a failed removal of n ends the sweep with: the clear's own,
   * passed through, or the sweep's when only rmdir failed.
   */
  function RemovalError(before: map<string, Node>, n: string, now: int, faults: Faults): JanitorError
    requires n in before
  {
    if Fails([n], before[n], "", faults) then CannotEmptyBackupTempDir else ProblemDeletingOldBackupTempDirs
  }

  /**
   * One step of the sweep on an existing entry, while the status is true:
   * only that entry may change; a young entry is untouched; an old file is
   * unlinked (unless that fails) and the status stays true; an old directory
   * goes through delete_backup_dir, which either removes it (status true),
   * or leaves it cleared as far as the clear got, throwing the clear's
   * exception or returning false when only rmdir failed.
   */
  ghost predicate SweptOne(before: map<string, Node>, after: map<string, Node>, file: string,
                     deletefrom: int, now: int, faults: Faults, r: Result<bool, JanitorError>)
    requires file in before
  {
    && (forall n :: n != file ==> (n in after <==> n in before))
    && (forall n :: n != file && n in after ==> after[n] == before[n])
    && (before[file].mtime >= deletefrom ==> r == Success(true) && after == before)
    && (before[file].mtime < deletefrom && !before[file].Dir? ==> r == Success(true) && Dealt(before, after, file, faults))
    && (before[file].mtime < deletefrom && before[file].Dir? ==>
          if RemovalFails(before, file, now, faults) then
            && file in after && after[file] == Cleared(before, file, now, faults)
            && r == (if Fails([file], before[file], "", faults) then Failure(CannotEmptyBackupTempDir) else Success(false))
          else r == Success(true) && file !in after)
  }

  /**
   * What the sweep never does: add an entry, touch an entry at least as new
   * as deletefrom, or touch an entry the listing left out.
   */
  predicate Spared(before: map<string, Node>, after: map<string, Node>, listing: seq<string>, deletefrom: int) {
    && (forall n :: n in after ==> n in before)
    && (forall n :: n in before && before[n].mtime >= deletefrom ==> n in after && after[n] == before[n])
    && (forall n :: n in before && n !in listing ==> n in after && after[n] == before[n])
  }

  /** Every old entry listed before position d has been dealt with. */
  predicate DealtBefore(before: map<string, Node>, after: map<string, Node>, listing: seq<string>,
                        deletefrom: int, faults: Faults, d: nat)
  {
    forall k :: 0 <= k < d && k < |listing| && listing[k] in before && before[listing[k]].mtime < deletefrom ==>
      Dealt(before, after, listing[k], faults)
  }

  /**
   * The sweep stopped at listing position p - 1, an old directory whose
   * removal failed and which is left cleared as far as the clear got; every
   * old entry listed before it was dealt with, and every entry listed after
   * it is untouched.
   */
  predicate StoppedAt(before: map<string, Node>, after: map<string, Node>, listing: seq<string>,
                      deletefrom: int, now: int, faults: Faults, p: nat)
  {
    && 0 < p <= |listing|
    && listing[p - 1] in before
    && before[listing[p - 1]].Dir?
    && before[listing[p - 1]].mtime < deletefrom
    && RemovalFails(before, listing[p - 1], now, faults)
    && listing[p - 1] in after
    && after[listing[p - 1]] == Cleared(before, listing[p - 1], now, faults)
    && DealtBefore(before, after, listing, deletefrom, faults, p - 1)
    && UnchangedFrom(before, after, listing, p)
  }

  /**
   * A backup directory whose entries all have proper names is empty once
   * clearing succeeds, so rmdir then fails only where removal is refused.
   */
  lemma ClearedDirectoryRemovable(entries: map<string, Node>, backupid: string, now: int, faults: Faults)
    requires Made(entries, backupid, now).Dir?
    requires !Fails([backupid], Made(entries, backupid, now), "", faults)
    requires var d := Made(entries, backupid, now);
      forall j :: 0 <= j < |d.children| ==> ProperName(d.children[j].name)
    ensures RmdirSucceeds([backupid], Cleared(entries, backupid, now, faults), faults) <==> [backupid] !in faults.rmdirFails
  {
    SubdirectoryEmptiedCompletely([backupid], Made(entries, backupid, now), faults);
  }

  /**
   * One sweep step that changes at most listing[i] keeps what the earlier
   * steps established for the other listed names.
   */
  lemma Untouched(orig: map<string, Node>, before: map<string, Node>, after: map<string, Node>,
                  listing: seq<string>, i: nat, deletefrom: int, faults: Faults)
    requires ListsEntries(listing, orig) && i < |listing|
    requires forall n :: n != listing[i] ==> (n in after <==> n in before)
    requires forall n :: n != listing[i] && n in after ==> after[n] == before[n]
    requires UnchangedFrom(orig, before, listing, i)
    ensures UnchangedFrom(orig, after, listing, i + 1)
    ensures forall k :: 0 <= k < i && Dealt(orig, before, listing[k], faults) ==> Dealt(orig, after, listing[k], faults)
  {
  }

  /**
   * Where the sweep stands before listing position i: nothing it must spare
   * has changed, and either the status is true, every old entry so far is
   * dealt with and the rest is untouched, or the sweep stopped at position
   * failedAt - 1, where rmdir refused the cleared directory.
   */
  predicate Progress(orig: map<string, Node>, after: map<string, Node>, listing: seq<string>,
                     deletefrom: int, now: int, faults: Faults, i: nat, status: bool, failedAt: nat)
  {
    && i <= |listing|
    && Spared(orig, after, listing, deletefrom)
    && (status ==> UnchangedFrom(orig, after, listing, i) && DealtBefore(orig, after, listing, deletefrom, faults, i))
    && (!status ==>
          && failedAt <= i
          && StoppedAt(orig, after, listing, deletefrom, now, faults, failedAt)
          && RemovalError(orig, listing[failedAt - 1], now, faults) == ProblemDeletingOldBackupTempDirs)
  }

  /**
   * A sweep step on listing[i], made as SweptOne says, moves the sweep on to
   * position i + 1: with every old entry so far dealt with when the step
   * reports true, and otherwise stopped at that old directory.
   */
  lemma SweepStep(orig: map<string, Node>, before: map<string, Node>, after: map<string, Node>,
                  listing: seq<string>, deletefrom: int, now: int, faults: Faults, i: nat,
                  r: Result<bool, JanitorError>)
    requires ListsEntries(listing, orig) && i < |listing|
    requires Spared(orig, before, listing, deletefrom)
    requires UnchangedFrom(orig, before, listing, i) && DealtBefore(orig, before, listing, deletefrom, faults, i)
    requires SweptOne(before, after, listing[i], deletefrom, now, faults, r)
    ensures Spared(orig, after, listing, deletefrom)
    ensures UnchangedFrom(orig, after, listing, i + 1)
    ensures r == Success(true) ==> DealtBefore(orig, after, listing, deletefrom, faults, i + 1)
    ensures r != Success(true) ==>
      && StoppedAt(orig, after, listing, deletefrom, now, faults, i + 1)
      && r == if r.Failure? then Failure(RemovalError(orig, listing[i], now, faults)) else Success(false)
  {
    var file := listing[i];
    assert before[file] == orig[file];
    Untouched(orig, before, after, listing, i, deletefrom, faults);
    assert Cleared(before, file, now, faults) == Cleared(orig, file, now, faults);
    if r == Success(true) {
      forall k | 0 <= k < i + 1 && listing[k] in orig && orig[listing[k]].mtime < deletefrom
        ensures Dealt(orig, after, listing[k], faults)
      {
        if k == i {
          assert Dealt(before, after, file, faults);
        }
      }
    }
  }

  class BackupTempDir {
    /** The entries directly under the backup temp root, by name. */
    var entries: map<string, Node>
    /** Directory handles opened and never closed. */
    var openHandles: set<Path>

    /** Each entry is stored under its own name. */
    predicate Valid()
      reads this
    {
      forall n :: n in entries ==> entries[n].name == n
    }

    constructor (entries: map<string, Node>)
      requires forall n :: n in entries ==> entries[n].name == n
      ensures Valid() && this.entries == entries && openHandles == {}
    {
      this.entries := entries;
      openHandles := {};
    }

    /** make_backup_temp_directory($backupid): the backup's directory, created empty if missing. */
    method MakeBackupTempDirectory(backupid: string, now: int)
      requires Valid()
      modifies this`entries
      ensures Valid()
      ensures entries == old(entries)[backupid := Made(old(entries), backupid, now)]
    {
      if backupid !in entries {
        entries := entries[backupid := Dir(backupid, now, [])];
      }
    }

    /**
     * clear_backup_dir: empty the backup's directory with delete_dir_contents
     * and throw if that reports failure.
     */
    method ClearBackupDir(backupid: string, now: int, faults: Faults) returns (r: Result<bool, JanitorError>)
      requires Valid()
      modifies this
      ensures Valid()
      ensures entries == old(entries)[backupid := Cleared(old(entries), backupid, now, faults)]
      ensures r.Success? <==> !Fails([backupid], Made(old(entries), backupid, now), "", faults)
      ensures r == if r.Success? then Success(true) else Failure(CannotEmptyBackupTempDir)
      ensures r.Success? ==> openHandles == old(openHandles)
      ensures old(openHandles) <= openHandles
      ensures r.Failure? && [backupid] !in faults.openFails ==> [backupid] in openHandles
    {
      MakeBackupTempDirectory(backupid, now);
      var ok, after, unclosed := DeleteDirContents([backupid], entries[backupid], "", faults);
      entries := entries[backupid := after];
      openHandles := openHandles + unclosed;
      if !ok {
        return Failure(CannotEmptyBackupTempDir);
      }
      return Success(true);
    }

    /**
     * delete_backup_dir: clear the backup's directory (its exception passes
     * through), then rmdir it and report whether that worked.
     */
    method DeleteBackupDir(backupid: string, now: int, faults: Faults) returns (r: Result<bool, JanitorError>)
      requires Valid()
      modifies this
      ensures Valid()
      ensures r.Failure? <==> Fails([backupid], Made(old(entries), backupid, now), "", faults)
      ensures r.Failure? ==>
        && r.error == CannotEmptyBackupTempDir
        && entries == old(entries)[backupid := Cleared(old(entries), backupid, now, faults)]
      ensures r.Success? ==>
        && r.value == RmdirSucceeds([backupid], Cleared(old(entries), backupid, now, faults), faults)
        && entries == if r.value then old(entries) - {backupid}
                      else old(entries)[backupid := Cleared(old(entries), backupid, now, faults)]
      ensures old(openHandles) <= openHandles
      ensures r.Success? ==> openHandles == old(openHandles)
      ensures r.Failure? && [backupid] !in faults.openFails ==> [backupid] in openHandles
    {
      MakeBackupTempDirectory(backupid, now);
      ghost var made := entries;
      ghost var cleared := Cleared(old(entries), backupid, now, faults);
      assert Made(made, backupid, now) == Made(old(entries), backupid, now);
      assert Cleared(made, backupid, now, faults) == cleared;
      r := ClearBackupDir(backupid, now, faults);
      assert entries == old(entries)[backupid := cleared];
      if r.Failure? {
        return r;
      }
      if RmdirSucceeds([backupid], entries[backupid], faults) {
        entries := entries - {backupid};
        return Success(true);
      }
      return Success(false);
    }
 
    /**
     * One step of delete_old_backup_dirs while the status is still true: an
     * entry older than deletefrom goes, a directory through delete_backup_dir,
     * a file by an unlink whose failure is ignored. The result is the new
     * status, or the exception delete_backup_dir threw.
     */
    method SweepEntry(file: string, deletefrom: int, now: int, faults: Faults) returns (r: Result<bool, JanitorError>)
      requires Valid() && file in entries
      modifies this
      ensures Valid()
      ensures SweptOne(old(entries), entries, file, deletefrom, now, faults, r)
      ensures old(openHandles) <= openHandles
      ensures r.Success? ==> openHandles == old(openHandles)
      ensures r.Failure? && [file] !in faults.openFails ==> [file] in openHandles
    {
      var moddate := entries[file].mtime;
      if moddate < deletefrom {
        if entries[file].Dir? {
          r := DeleteBackupDir(file, now, faults);
          return;
        } else if [file] !in faults.unlinkFails {
          entries := entries - {file};
        }
      }
      return Success(true);
    }

    /**
     * delete_old_backup_dirs: go through the listing; while no removal has
     * failed, an entry older than deletefrom is removed, a directory through
     * delete_backup_dir (whose exception passes through), a file by unlink
     * (whose failure is ignored). A directory that rmdir refused makes the
     * rest of the sweep skip everything, and the sweep then throws.
     */
    method DeleteOldBackupDirs(deletefrom: int, listing: seq<string>, now: int, faults: Faults)
      returns (r: Result<(), JanitorError>)
      requires Valid() && ListsEntries(listing, entries)
      modifies this
      ensures Valid()
      ensures forall n :: n in entries ==> n in old(entries)
      ensures forall n :: n in old(entries) && old(entries)[n].mtime >= deletefrom ==>
        n in entries && entries[n] == old(entries)[n]
      ensures forall n :: n in old(entries) && n !in listing ==> n in entries && entries[n] == old(entries)[n]
      ensures r.Success? ==> forall n :: n in old(entries) && n in listing && old(entries)[n].mtime < deletefrom ==>
        Dealt(old(entries), entries, n, faults)
      ensures r.Failure? ==> exists p ::
        && StoppedAt(old(entries), entries, listing, deletefrom, now, faults, p)
        && r.error == RemovalError(old(entries), listing[p - 1], now, faults)
        && (r.error == CannotEmptyBackupTempDir && [listing[p - 1]] !in faults.openFails ==>
              [listing[p - 1]] in openHandles)
      ensures old(openHandles) <= openHandles
      ensures r.Success? ==> openHandles == old(openHandles)
    {
      var status := true;
      ghost var failedAt: nat := 0;
      var i := 0;
      while i < |listing|
        invariant Valid()
        invariant Progress(old(entries), entries, listing, deletefrom, now, faults, i, status, failedAt)
        invariant old(openHandles) <= openHandles
        invariant status ==> openHandles == old(openHandles)
      {
        if status {
          ghost var before := entries;
          var res := SweepEntry(listing[i], deletefrom, now, faults);
          SweepStep(old(entries), before, entries, listing, deletefrom, now, faults, i, res);
          if res.Failure? {
            assert StoppedAt(old(entries), entries, listing, deletefrom, now, faults, i + 1);
            assert [listing[i]] !in faults.openFails ==> [listing[i]] in openHandles;
            return Failure(res.error);
          }
          status := res.value;
          if !status {
            failedAt := i + 1;
          }
        }
        i := i + 1;
      }
      if !status {
        return Failure(ProblemDeletingOldBackupTempDirs);
      }
      forall n | n in old(entries) && n in listing && old(entries)[n].mtime < deletefrom
        ensures Dealt(old(entries), entries, n, faults)
      {
        var k :| 0 <= k < |listing| && listing[k] == n;
      }
      return Success(());
    }
  }
}
