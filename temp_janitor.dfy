/**
 * The backup temp-directory janitor of backup_helper: delete_dir_contents
 * empties a directory tree (except one excluded top-level name), and the
 * clear / delete / sweep operations built on it.
 */
module TempJanitor {
  import opened Results

  /** A path below the backup temp root, one name per level. */
  type Path = seq<string>

  /** A directory entry: a plain file, or a directory listing its entries in readdir order. */
  datatype Node = File(name: string, mtime: int) | Dir(name: string, mtime: int, children: seq<Node>)

  /** The paths where opendir, unlink and remove_dir/rmdir fail. */
  datatype Faults = Faults(openFails: set<Path>, unlinkFails: set<Path>, rmdirFails: set<Path>)

  function Child(path: Path, c: Node): Path {
    path + [c.name]
  }

  /** readdir entries the code passes over: ".", ".." and the excluded name. */
  predicate Skipped(c: Node, excluded: string) {
    c.name == "." || c.name == ".." || c.name == excluded
  }

  /** An entry the readdir loop puts on the subdirectory list (dirs) or on the file list. */
  predicate Listed(c: Node, excluded: string, dirs: bool) {
    !Skipped(c, excluded) && c.Dir? == dirs
  }

  /** The positions among the first n entries that the readdir loop lists, in readdir order. */
  function Positions(cs: seq<Node>, excluded: string, dirs: bool, n: nat): (r: seq<nat>)
    requires n <= |cs|
    ensures |r| <= n
    ensures forall k :: 0 <= k < |r| ==> r[k] < n && Listed(cs[r[k]], excluded, dirs)
    ensures forall j :: 0 <= j < n && Listed(cs[j], excluded, dirs) ==> j in r
    ensures forall a, b :: 0 <= a < b < |r| ==> r[a] < r[b]
  {
    if n == 0 then []
    else
      var prev := Positions(cs, excluded, dirs, n - 1);
      assert forall k :: 0 <= k < |prev| ==> prev[k] < n - 1;
      prev + (if Listed(cs[n - 1], excluded, dirs) then [n - 1] else [])
  }

  /** The file list the readdir loop builds ($dir_files). */
  function FileList(node: Node, excluded: string): seq<nat>
    requires node.Dir?
  {
    Positions(node.children, excluded, false, |node.children|)
  }

  /** The subdirectory list the readdir loop builds ($dir_subdirs). */
  function SubdirList(node: Node, excluded: string): seq<nat>
    requires node.Dir?
  {
    Positions(node.children, excluded, true, |node.children|)
  }

  /** The index, from m on, of the first listed file whose unlink fails. */
  function FirstUnlinkFault(path: Path, cs: seq<Node>, fs: seq<nat>, faults: Faults, m: nat): (r: Option<nat>)
    requires forall k :: 0 <= k < |fs| ==> fs[k] < |cs|
    requires m <= |fs|
    ensures r.Some? ==> m <= r.value < |fs| && Child(path, cs[fs[r.value]]) in faults.unlinkFails
    ensures forall k :: m <= k < (if r.Some? then r.value else |fs|) ==> Child(path, cs[fs[k]]) !in faults.unlinkFails
    decreases |fs| - m
  {
    if m == |fs| then None
    else if Child(path, cs[fs[m]]) in faults.unlinkFails then Some(m)
    else FirstUnlinkFault(path, cs, fs, faults, m + 1)
  }

  /** Where the file loop stops: the index in the file list of the first failed unlink. */
  function FileStop(path: Path, node: Node, excluded: string, faults: Faults): (r: Option<nat>)
    requires node.Dir?
    ensures r.Some? ==> r.value < |FileList(node, excluded)|
  {
    FirstUnlinkFault(path, node.children, FileList(node, excluded), faults, 0)
  }

  /** delete_dir_contents returns false for this directory: opendir, an unlink or a subdirectory fails. */
  predicate Fails(path: Path, node: Node, excluded: string, faults: Faults)
    decreases node, 1, 0
  {
    && node.Dir?
    && (|| path in faults.openFails
        || FileStop(path, node, excluded, faults).Some?
        || SubdirStop(path, node, excluded, faults, 0).Some?)
  }

  /**
   * The index, from m on, of the first listed subdirectory that cannot be
   * emptied (the recursive call fails) or removed (remove_dir fails).
   */
  function SubdirStop(path: Path, node: Node, excluded: string, faults: Faults, m: nat): (r: Option<nat>)
    requires node.Dir? && m <= |SubdirList(node, excluded)|
    ensures r.Some? ==> m <= r.value < |SubdirList(node, excluded)|
    decreases node, 0, |node.children| - m
  {
    var ds := SubdirList(node, excluded);
    if m == |ds| then None
    else
      var c := node.children[ds[m]];
      if Fails(Child(path, c), c, "", faults) || Child(path, c) in faults.rmdirFails then Some(m)
      else SubdirStop(path, node, excluded, faults, m + 1)
  }

  /** The entries of a list a loop has dealt with: all of them, or those before the stop. */
  function Processed(ps: seq<nat>, stop: Option<nat>): seq<nat>
    requires stop.Some? ==> stop.value <= |ps|
  {
    if stop.None? then ps else ps[..stop.value]
  }

  /**
   * What becomes of entry j: None once it is removed, otherwise what is left
   * of it. Files go in file-list order until an unlink fails; subdirectories
   * are only reached when every file went, and go in list order until one
   * fails, which is then left as its own recursive call left it.
   */
  function Fate(path: Path, node: Node, excluded: string, faults: Faults, j: nat): Option<Node>
    requires node.Dir? && j < |node.children|
    decreases node, 2, 0
  {
    var c := node.children[j];
    var fstop := FileStop(path, node, excluded, faults);
    if Skipped(c, excluded) then Some(c)
    else if c.File? then
      if j in Processed(FileList(node, excluded), fstop) then None else Some(c)
    else if fstop.Some? then Some(c)
    else
      var ds := SubdirList(node, excluded);
      var dstop := SubdirStop(path, node, excluded, faults, 0);
      if j in Processed(ds, dstop) then None
      else if dstop.Some? && j == ds[dstop.value] then Some(AfterDelete(Child(path, c), c, "", faults))
      else Some(c)
  }

  /** The fates of entries j and after. */
  function Fates(path: Path, node: Node, excluded: string, faults: Faults, j: nat): (r: seq<Option<Node>>)
    requires node.Dir? && j <= |node.children|
    ensures |r| == |node.children| - j
    decreases node, 3, |node.children| - j
  {
    seq(|node.children| - j, k requires 0 <= k < |node.children| - j => Fate(path, node, excluded, faults, j + k))
  }

  /** The entries that are still there, in order. */
  function Present(fates: seq<Option<Node>>): (r: seq<Node>)
    ensures |r| <= |fates|
  {
    if fates == [] then []
    else (if fates[0].Some? then [fates[0].value] else []) + Present(fates[1..])
  }

  /** The directory as delete_dir_contents leaves it (a non-directory, or one opendir refuses, as it was). */
  function AfterDelete(path: Path, node: Node, excluded: string, faults: Faults): Node
    decreases node, 4, 0
  {
    if !node.Dir? || path in faults.openFails then node
    else Dir(node.name, node.mtime, Present(Fates(path, node, excluded, faults, 0)))
  }

  /** The entries the code passes over, in order. */
  function Kept(cs: seq<Node>, excluded: string): (r: seq<Node>)
  {
    if cs == [] then []
    else (if Skipped(cs[0], excluded) then [cs[0]] else []) + Kept(cs[1..], excluded)
  }

  /** A list of outcomes that agrees with Fate everywhere is the whole list of fates. */
  lemma FatesMatch(path: Path, node: Node, excluded: string, faults: Faults, fates: seq<Option<Node>>)
    requires node.Dir? && |fates| == |node.children|
    requires forall j :: 0 <= j < |fates| ==> fates[j] == Fate(path, node, excluded, faults, j)
    ensures fates == Fates(path, node, excluded, faults, 0)
  {
  }

  /** The readdir loop: sort the listed entries into files and subdirectories. */
  method ListEntries(children: seq<Node>, excluded: string) returns (dirFiles: seq<nat>, dirSubdirs: seq<nat>)
    ensures dirFiles == Positions(children, excluded, false, |children|)
    ensures dirSubdirs == Positions(children, excluded, true, |children|)
  {
    dirFiles := [];
    dirSubdirs := [];
    var i := 0;
    while i < |children|
      invariant i <= |children|
      invariant dirFiles == Positions(children, excluded, false, i)
      invariant dirSubdirs == Positions(children, excluded, true, i)
    {
      var entry := children[i];
      if entry.Dir? && !Skipped(entry, excluded) {
        dirSubdirs := dirSubdirs + [i];
      } else if !Skipped(entry, excluded) {
        dirFiles := dirFiles + [i];
      }
      i := i + 1;
    }
  }

  /** Every entry still there, as the loops start. */
  function AllPresent(cs: seq<Node>): (r: seq<Option<Node>>)
    ensures |r| == |cs|
    ensures forall j :: 0 <= j < |cs| ==> r[j] == Some(cs[j])
  {
    if cs == [] then [] else [Some(cs[0])] + AllPresent(cs[1..])
  }

  /**
   * The file loop: unlink the listed files in order and stop at the first
   * failure; fates records which entries are gone.
   */
  method UnlinkFiles(path: Path, children: seq<Node>, dirFiles: seq<nat>, faults: Faults)
    returns (stop: Option<nat>, fates: seq<Option<Node>>)
    requires forall k :: 0 <= k < |dirFiles| ==> dirFiles[k] < |children|
    ensures stop == FirstUnlinkFault(path, children, dirFiles, faults, 0)
    ensures |fates| == |children|
    ensures forall j :: 0 <= j < |fates| ==>
      fates[j] == if j in Processed(dirFiles, stop) then None else Some(children[j])
  {
    fates := AllPresent(children);
    var k := 0;
    while k < |dirFiles|
      invariant k <= |dirFiles| && |fates| == |children|
      invariant forall j :: 0 <= j < |children| ==> fates[j] == if j in dirFiles[..k] then None else Some(children[j])
      invariant FirstUnlinkFault(path, children, dirFiles, faults, 0) == FirstUnlinkFault(path, children, dirFiles, faults, k)
    {
      if Child(path, children[dirFiles[k]]) in faults.unlinkFails {
        return Some(k), fates;
      }
      assert dirFiles[..k + 1] == dirFiles[..k] + [dirFiles[k]];
      fates := fates[dirFiles[k] := None];
      k := k + 1;
    }
    assert dirFiles[..k] == dirFiles;
    stop := None;
  }

  /** The outcome of the subdirectory loop: the failed subdirectory keeps what its own call left. */
  function SubdirOutcome(path: Path, node: Node, excluded: string, faults: Faults, j: nat): Option<Node>
    requires node.Dir? && j < |node.children|
  {
    var ds := SubdirList(node, excluded);
    var dstop := SubdirStop(path, node, excluded, faults, 0);
    var c := node.children[j];
    if j in FileList(node, excluded) || j in Processed(ds, dstop) then None
    else if dstop.Some? && j == ds[dstop.value] then Some(AfterDelete(Child(path, c), c, "", faults))
    else Some(c)
  }

  /** With every file gone, the fates are those of the subdirectory loop. */
  lemma SubdirOutcomeIsFate(path: Path, node: Node, excluded: string, faults: Faults, j: nat)
    requires node.Dir? && j < |node.children|
    requires FileStop(path, node, excluded, faults).None?
    ensures SubdirOutcome(path, node, excluded, faults, j) == Fate(path, node, excluded, faults, j)
  {
  }

  /** The subdirectory loop has produced its outcome for every entry. */
  predicate SubdirOutcomes(path: Path, node: Node, excluded: string, faults: Faults, fates: seq<Option<Node>>)
    requires node.Dir?
  {
    |fates| == |node.children| &&
    forall j :: 0 <= j < |fates| ==> fates[j] == SubdirOutcome(path, node, excluded, faults, j)
  }

  /** Entries in the file list or in done are gone, every other entry is as it was. */
  predicate RemovedSoFar(node: Node, dirFiles: seq<nat>, done: seq<nat>, fates: seq<Option<Node>>)
    requires node.Dir?
  {
    |fates| == |node.children| &&
    forall j :: 0 <= j < |fates| ==> fates[j] == if j in dirFiles || j in done then None else Some(node.children[j])
  }

  /** One more listed entry removed: it joins the removed ones. */
  lemma OneMoreRemoved(node: Node, dirFiles: seq<nat>, ds: seq<nat>, m: nat, fates: seq<Option<Node>>)
    requires node.Dir? && m < |ds| && ds[m] < |node.children|
    requires RemovedSoFar(node, dirFiles, ds[..m], fates)
    ensures RemovedSoFar(node, dirFiles, ds[..m + 1], fates[ds[m] := None])
  {
    assert ds[..m + 1] == ds[..m] + [ds[m]];
  }

  /** A subdirectory emptied and removed does not stop the loop: the stop lies further on. */
  lemma SubdirPassed(path: Path, node: Node, excluded: string, faults: Faults, m: nat)
    requires node.Dir? && m < |SubdirList(node, excluded)|
    requires var c := node.children[SubdirList(node, excluded)[m]];
      !Fails(Child(path, c), c, "", faults) && Child(path, c) !in faults.rmdirFails
    ensures SubdirStop(path, node, excluded, faults, m) == SubdirStop(path, node, excluded, faults, m + 1)
  {
  }

  /** When subdirectory m is the first to fail, the loop's fates are the subdirectory outcomes. */
  lemma StoppedAtSubdir(path: Path, node: Node, excluded: string, faults: Faults, m: nat,
                        fates: seq<Option<Node>>, subAfter: Node)
    requires node.Dir? && m < |SubdirList(node, excluded)|
    requires SubdirStop(path, node, excluded, faults, 0) == Some(m)
    requires var c := node.children[SubdirList(node, excluded)[m]]; subAfter == AfterDelete(Child(path, c), c, "", faults)
    requires RemovedSoFar(node, FileList(node, excluded), SubdirList(node, excluded)[..m], fates)
    ensures SubdirOutcomes(path, node, excluded, faults, fates[SubdirList(node, excluded)[m] := Some(subAfter)])
  {
    var ds := SubdirList(node, excluded);
    forall j | 0 <= j < |fates|
      ensures fates[ds[m] := Some(subAfter)][j] == SubdirOutcome(path, node, excluded, faults, j)
    {
      if j == ds[m] {
        assert j !in FileList(node, excluded);
        assert j !in ds[..m];
      }
    }
  }

  /** When every subdirectory went, the loop's fates are the subdirectory outcomes. */
  lemma AllSubdirsRemoved(path: Path, node: Node, excluded: string, faults: Faults, fates: seq<Option<Node>>)
    requires node.Dir?
    requires SubdirStop(path, node, excluded, faults, 0).None?
    requires RemovedSoFar(node, FileList(node, excluded), SubdirList(node, excluded), fates)
    ensures SubdirOutcomes(path, node, excluded, faults, fates)
  {
  }

  /**
   * delete_dir_contents: list the entries, unlink the files, then empty and
   * remove each subdirectory, returning false at the first failure. The
   * directory handle is closed only on the way out of a full success, so a
   * failure leaves this directory's handle (and those of the failed
   * recursive calls) in unclosed.
   */
  method DeleteDirContents(path: Path, node: Node, excluded: string, faults: Faults)
    returns (ok: bool, after: Node, unclosed: set<Path>)
    decreases node, 1
    ensures ok <==> !Fails(path, node, excluded, faults)
    ensures after == AfterDelete(path, node, excluded, faults)
    ensures !node.Dir? ==> ok && after == node
    ensures after.name == node.name && after.mtime == node.mtime && after.Dir? == node.Dir?
    ensures ok ==> unclosed == {}
    ensures !ok && path !in faults.openFails ==> path in unclosed
  {
    if !node.Dir? {
      return true, node, {};
    }
    if path in faults.openFails {
      return false, node, {};
    }
    var dirFiles, dirSubdirs := ListEntries(node.children, excluded);
    var stop, fates := UnlinkFiles(path, node.children, dirFiles, faults);
    if stop.Some? {
      FatesMatch(path, node, excluded, faults, fates);
      return false, Dir(node.name, node.mtime, Present(fates)), {path};
    }
    assert RemovedSoFar(node, dirFiles, [], fates);
    var subUnclosed;
    ok, fates, subUnclosed := RemoveSubdirs(path, node, excluded, faults, dirFiles, dirSubdirs, fates);
    forall j | 0 <= j < |fates|
      ensures fates[j] == Fate(path, node, excluded, faults, j)
    {
      SubdirOutcomeIsFate(path, node, excluded, faults, j);
    }
    FatesMatch(path, node, excluded, faults, fates);
    after := Dir(node.name, node.mtime, Present(fates));
    unclosed := if ok then {} else {path} + subUnclosed;
  }

  /**
   * delete_dir_contents on a path that may not exist (None): is_dir fails for
   * a missing path as it does for a file, so the call returns true and
   * creates nothing; an existing entry is handled as above.
   */
  method DeleteDirContentsAt(path: Path, entry: Option<Node>, excluded: string, faults: Faults)
    returns (ok: bool, after: Option<Node>, unclosed: set<Path>)
    ensures entry.None? ==> ok && after == None && unclosed == {}
    ensures entry.Some? ==> (ok <==> !Fails(path, entry.value, excluded, faults))
    ensures entry.Some? ==> after == Some(AfterDelete(path, entry.value, excluded, faults))
    ensures ok ==> unclosed == {}
  {
    if entry.None? {
      return true, None, {};
    }
    var node;
    ok, node, unclosed := DeleteDirContents(path, entry.value, excluded, faults);
    after := Some(node);
  }

  /**
   * The subdirectory loop: empty each listed subdirectory with a recursive
   * call and remove it, stopping at the first that fails either way.
   */
  method RemoveSubdirs(path: Path, node: Node, excluded: string, faults: Faults,
                       dirFiles: seq<nat>, dirSubdirs: seq<nat>, fates0: seq<Option<Node>>)
    returns (ok: bool, fates: seq<Option<Node>>, unclosed: set<Path>)
    requires node.Dir? && dirFiles == FileList(node, excluded) && dirSubdirs == SubdirList(node, excluded)
    requires RemovedSoFar(node, dirFiles, [], fates0)
    decreases node, 0
    ensures ok <==> SubdirStop(path, node, excluded, faults, 0).None?
    ensures SubdirOutcomes(path, node, excluded, faults, fates)
    ensures ok ==> unclosed == {}
  {
    var children := node.children;
    fates := fates0;
    var m := 0;
    while m < |dirSubdirs|
      invariant m <= |dirSubdirs|
      invariant RemovedSoFar(node, dirFiles, dirSubdirs[..m], fates)
      invariant SubdirStop(path, node, excluded, faults, 0) == SubdirStop(path, node, excluded, faults, m)
    {
      var sub := children[dirSubdirs[m]];
      var subOk, subAfter, subUnclosed := DeleteDirContents(Child(path, sub), sub, "", faults);
      if !subOk || Child(path, sub) in faults.rmdirFails {
        StoppedAtSubdir(path, node, excluded, faults, m, fates, subAfter);
        fates := fates[dirSubdirs[m] := Some(subAfter)];
        return false, fates, if subOk then {} else subUnclosed;
      }
      SubdirPassed(path, node, excluded, faults, m);
      OneMoreRemoved(node, dirFiles, dirSubdirs, m, fates);
      fates := fates[dirSubdirs[m] := None];
      m := m + 1;
    }
    assert dirSubdirs[..m] == dirSubdirs;
    AllSubdirsRemoved(path, node, excluded, faults, fates);
    return true, fates, {};
  }

  /** The order the code deletes in: the file list, then the subdirectory list. */
  function DeletionOrder(node: Node, excluded: string): seq<nat>
    requires node.Dir?
  {
    FileList(node, excluded) + SubdirList(node, excluded)
  }

  /** The position in the deletion order of the first entry that could not be dealt with. */
  function FailurePoint(path: Path, node: Node, excluded: string, faults: Faults): Option<nat>
    requires node.Dir?
  {
    var fstop := FileStop(path, node, excluded, faults);
    if fstop.Some? then fstop
    else match SubdirStop(path, node, excluded, faults, 0)
      case None => None
      case Some(m) => Some(|FileList(node, excluded)| + m)
  }

  lemma {:induction false} PresentHas(fates: seq<Option<Node>>, i: nat)
    requires i < |fates| && fates[i].Some?
    ensures fates[i].value in Present(fates)
  {
    if i > 0 {
      PresentHas(fates[1..], i - 1);
    }
  }

  lemma {:induction false} PresentIsKept(fates: seq<Option<Node>>, cs: seq<Node>, excluded: string)
    requires |fates| == |cs|
    requires forall j :: 0 <= j < |cs| ==> fates[j] == if Skipped(cs[j], excluded) then Some(cs[j]) else None
    ensures Present(fates) == Kept(cs, excluded)
  {
    if cs != [] {
      PresentIsKept(fates[1..], cs[1..], excluded);
    }
  }

  /** Entry j of a directory, read through the fates list. */
  lemma FateOfEntry(path: Path, node: Node, excluded: string, faults: Faults, j: nat)
    requires node.Dir? && path !in faults.openFails && j < |node.children|
    requires Fate(path, node, excluded, faults, j) == Some(node.children[j])
    ensures node.children[j] in AfterDelete(path, node, excluded, faults).children
  {
    PresentHas(Fates(path, node, excluded, faults, 0), j);
  }

  /**
   * When delete_dir_contents succeeds, the directory is still there and holds
   * exactly the entries it passed over: those named ".", ".." or the excluded name.
   */
  lemma EmptiedExceptExcluded(path: Path, node: Node, excluded: string, faults: Faults)
    requires node.Dir? && !Fails(path, node, excluded, faults)
    ensures AfterDelete(path, node, excluded, faults) == Dir(node.name, node.mtime, Kept(node.children, excluded))
  {
    var cs := node.children;
    var fates := Fates(path, node, excluded, faults, 0);
    forall j | 0 <= j < |cs|
      ensures fates[j] == if Skipped(cs[j], excluded) then Some(cs[j]) else None
    {
      assert fates[j] == Fate(path, node, excluded, faults, j);
      if !Skipped(cs[j], excluded) {
        if cs[j].File? {
          assert Listed(cs[j], excluded, false);
        } else {
          assert Listed(cs[j], excluded, true);
        }
      }
    }
    PresentIsKept(fates, cs, excluded);
  }

  /**
   * The exclusion is top-level only: a subdirectory (entered with no excluded
   * name) that is successfully emptied holds nothing, as long as none of its
   * entries has an empty name or is literally named "." or "..".
   */
  lemma SubdirectoryEmptiedCompletely(path: Path, node: Node, faults: Faults)
    requires node.Dir? && !Fails(path, node, "", faults)
    requires forall j :: 0 <= j < |node.children| ==> ProperName(node.children[j].name)
    ensures AfterDelete(path, node, "", faults).children == []
  {
    EmptiedExceptExcluded(path, node, "", faults);
    NothingKept(node.children);
  }

  /** A name a real directory entry can have: not empty, ".", or "..". */
  predicate ProperName(name: string) {
    name != "" && name != "." && name != ".."
  }

  lemma {:induction false} NothingKept(cs: seq<Node>)
    requires forall j :: 0 <= j < |cs| ==> ProperName(cs[j].name)
    ensures Kept(cs, "") == []
  {
    if cs != [] {
      NothingKept(cs[1..]);
    }
  }

  /** Entries named ".", ".." or the excluded name survive whatever fails. */
  lemma SkippedEntriesSurvive(path: Path, node: Node, excluded: string, faults: Faults, j: nat)
    requires node.Dir? && j < |node.children| && Skipped(node.children[j], excluded)
    ensures node.children[j] in AfterDelete(path, node, excluded, faults).children
  {
    if path !in faults.openFails {
      FateOfEntry(path, node, excluded, faults, j);
    }
  }

  /**
   * After the first failure (a file that would not unlink, or a subdirectory
   * that could not be emptied or removed), every entry later in the deletion
   * order is left exactly as it was.
   */
  lemma LaterEntriesLeftAlone(path: Path, node: Node, excluded: string, faults: Faults, q: nat)
    requires node.Dir? && path !in faults.openFails
    requires FailurePoint(path, node, excluded, faults).Some?
    requires FailurePoint(path, node, excluded, faults).value < q < |DeletionOrder(node, excluded)|
    ensures node.children[DeletionOrder(node, excluded)[q]] in AfterDelete(path, node, excluded, faults).children
  {
    var fs := FileList(node, excluded);
    var ds := SubdirList(node, excluded);
    var j := DeletionOrder(node, excluded)[q];
    var fstop := FileStop(path, node, excluded, faults);
    if q < |fs| {
      assert j == fs[q];
      assert j !in fs[..fstop.value];
    } else {
      assert j == ds[q - |fs|];
      if fstop.None? {
        var m := SubdirStop(path, node, excluded, faults, 0).value;
        assert j !in ds[..m];
        assert j != ds[m];
      }
    }
    FateOfEntry(path, node, excluded, faults, j);
  }
}
