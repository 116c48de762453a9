// The manifest transaction: guard, back up and stage everything, apply in
// order, and put everything back when an error strikes.

module ManifestApply {
  import opened Options
  import opened RepoPaths
  import opened Disks
  import opened AtomicWrite

  // ---- what a manifest asks for -----------------------------------------

  type Tree = map<string, Content>

  datatype Change = Change(path: string, deleted: bool)

  function Effect(tree: Tree, work: Tree, c: Change): Tree {
    if c.deleted then tree - {c.path}
    else if c.path in work then tree[c.path := work[c.path]]
    else tree
  }

  /** The tree overridden by the changes, left to right. */
  function Overridden(tree: Tree, work: Tree, changes: seq<Change>): Tree {
    if changes == [] then tree
    else Effect(Overridden(tree, work, changes[..|changes| - 1]), work, changes[|changes| - 1])
  }

  function At(tree: Tree, p: string): Option<Content> {
    if p in tree then Some(tree[p]) else None
  }

  ghost predicate Touches(changes: seq<Change>, p: string) {
    exists k :: 0 <= k < |changes| && changes[k].path == p
  }

  ghost predicate IsLastFor(changes: seq<Change>, k: nat)
    requires k < |changes|
  {
    forall j :: k < j < |changes| ==> changes[j].path != changes[k].path
  }

  ghost predicate AllPresent(work: Tree, changes: seq<Change>) {
    forall k :: 0 <= k < |changes| && !changes[k].deleted ==> changes[k].path in work
  }

  /** What one manifest entry promises of the final tree. */
  predicate Satisfied(tree: Tree, work: Tree, c: Change) {
    At(tree, c.path) == if c.deleted then None else At(work, c.path)
  }

  /** The last entry for a path decides it, and no other path changes. */
  lemma {:induction false} LastEntryWins(tree: Tree, work: Tree, changes: seq<Change>)
    requires AllPresent(work, changes)
    ensures forall k :: 0 <= k < |changes| && IsLastFor(changes, k) ==>
              Satisfied(Overridden(tree, work, changes), work, changes[k])
    ensures forall p :: !Touches(changes, p) ==>
              At(Overridden(tree, work, changes), p) == At(tree, p)
  {
    if changes != [] {
      var n := |changes| - 1;
      var init := changes[..n];
      LastEntryWins(tree, work, init);
      forall k | 0 <= k < |changes| && IsLastFor(changes, k)
        ensures Satisfied(Overridden(tree, work, changes), work, changes[k])
      {
        if k < n {
          assert changes[n].path != changes[k].path;
          assert IsLastFor(init, k);
        }
      }
      forall p | !Touches(changes, p)
        ensures At(Overridden(tree, work, changes), p) == At(tree, p)
      {
        assert changes[n].path != p;
        assert forall k :: 0 <= k < n ==> init[k] == changes[k];
      }
    }
  }

  /** No path is both deleted and written. */
  predicate Consistent(changes: seq<Change>) {
    forall i, j :: 0 <= i < j < |changes| && changes[i].path == changes[j].path
      ==> changes[i].deleted == changes[j].deleted
  }

  lemma LastIndexFor(changes: seq<Change>, k: nat) returns (last: nat)
    requires k < |changes|
    ensures k <= last < |changes| && changes[last].path == changes[k].path && IsLastFor(changes, last)
    decreases |changes| - k
  {
    if j :| k < j < |changes| && changes[j].path == changes[k].path {
      last := LastIndexFor(changes, j);
    } else {
      last := k;
    }
  }

  /** Applying the manifest satisfies every single entry exactly when no path
      is both deleted and written by it. */
  lemma {:induction false} EveryEntryHoldsIffConsistent(tree: Tree, work: Tree, changes: seq<Change>)
    requires AllPresent(work, changes)
    ensures (forall k :: 0 <= k < |changes| ==> Satisfied(Overridden(tree, work, changes), work, changes[k]))
            <==> Consistent(changes)
  {
    LastEntryWins(tree, work, changes);
    if Consistent(changes) {
      forall k | 0 <= k < |changes|
        ensures Satisfied(Overridden(tree, work, changes), work, changes[k])
      {
        var last := LastIndexFor(changes, k);
        assert Satisfied(Overridden(tree, work, changes), work, changes[last]);
      }
    } else {
      var i, j :| 0 <= i < j < |changes| && changes[i].path == changes[j].path
                  && changes[i].deleted != changes[j].deleted;
      assert !Satisfied(Overridden(tree, work, changes), work, changes[i])
          || !Satisfied(Overridden(tree, work, changes), work, changes[j]);
    }
  }

  function Restrict(tree: Tree, paths: set<string>): Tree {
    tree - (tree.Keys - paths)
  }

  /** Applying commutes with looking only at the manifest's paths. */
  lemma {:induction false} ApplyCommutesWithRestriction(tree: Tree, work: Tree, changes: seq<Change>,
                                                        paths: set<string>)
    requires forall k :: 0 <= k < |changes| ==> changes[k].path in paths
    ensures Overridden(Restrict(tree, paths), work, changes) == Restrict(Overridden(tree, work, changes), paths)
  {
    if changes != [] {
      ApplyCommutesWithRestriction(tree, work, changes[..|changes| - 1], paths);
    }
  }

  // ---- manifests as read ------------------------------------------------

  predicate Readable(entry: Entry) {
    EntryPath(entry).Some? && entry.change != Unsupported
  }

  function AsChange(entry: Entry): Change
    requires Readable(entry)
  {
    Change(EntryPath(entry).value, entry.change.Deleted?)
  }

  predicate Preparable(entry: Entry, work: Tree) {
    Readable(entry) && (AsChange(entry).deleted || AsChange(entry).path in work)
  }

  /** The entries can all be prepared against workspace `work`. */
  predicate Applicable(files: seq<Entry>, work: Tree) {
    forall k :: 0 <= k < |files| ==> Preparable(files[k], work)
  }

  function Changes(files: seq<Entry>): seq<Change>
    requires forall k :: 0 <= k < |files| ==> Readable(files[k])
  {
    seq(|files|, k requires 0 <= k < |files| => AsChange(files[k]))
  }

  /** A usable entry: it has a path inside the tree, a known change type, and a
      workspace file unless it deletes. */
  ghost predicate Usable(e: Entry, was: Files) {
    && e.Entry? && EntryPath(e).Some?
    && match e.change
       case Deleted => true
       case Added => File(WorkspaceRoot, EntryPath(e).value) in was
       case Modified => File(WorkspaceRoot, EntryPath(e).value) in was
       case Unsupported => false
  }

  /** A manifest is applicable exactly when each of its entries is usable. */
  lemma ApplicableMeans(files: seq<Entry>, was: Files)
    ensures Applicable(files, View(was, WorkspaceRoot)) <==> forall k :: 0 <= k < |files| ==> Usable(files[k], was)
  {
    hide NormalizeManifestPath, View;
    forall k | 0 <= k < |files|
      ensures Preparable(files[k], View(was, WorkspaceRoot)) <==> Usable(files[k], was)
    {
    }
  }

  /** What an entry asks for has happened: its path is gone from the live tree,
      or holds what its workspace file held before. */
  ghost predicate Done(e: Entry, was: Files, now: Files)
    requires e.Entry? && EntryPath(e).Some?
  {
    var p := EntryPath(e).value;
    match e.change
    case Deleted => File(LiveRoot, p) !in now
    case Added => File(LiveRoot, p) in now && Look(now, File(LiveRoot, p)) == Look(was, File(WorkspaceRoot, p))
    case Modified => File(LiveRoot, p) in now && Look(now, File(LiveRoot, p)) == Look(was, File(WorkspaceRoot, p))
    case Unsupported => false
  }

  ghost predicate LastForItsPath(files: seq<Entry>, k: nat)
    requires k < |files|
  {
    forall j :: k < j < |files| ==> EntryPath(files[j]) != EntryPath(files[k])
  }

  /** Every entry was usable, and the last one for each path has been done. */
  ghost predicate EntriesDone(files: seq<Entry>, was: Files, now: Files) {
    && (forall k :: 0 <= k < |files| ==> Usable(files[k], was))
    && (forall k :: 0 <= k < |files| && LastForItsPath(files, k) ==> Done(files[k], was, now))
  }

  datatype Item = Item(
    path: string,
    deleted: bool,
    live: Loc,
    workspace: Option<Loc>,
    backup: Option<Loc>,
    staged: Option<Loc>)

  /** The item prepared for one entry when the tree held `base`. */
  function MakeItem(c: Change, index: nat, root: Root, dir: nat, existed: bool): Item {
    Item(c.path, c.deleted, File(root, c.path),
         if c.deleted then None else Some(File(WorkspaceRoot, c.path)),
         if existed then Some(Backup(dir, index)) else None,
         if c.deleted then None else Some(Staged(dir, index)))
  }

  ghost predicate ItemsFor(items: seq<Item>, changes: seq<Change>, root: Root, dir: nat, base: Files) {
    && |items| <= |changes|
    && forall k {:trigger items[k]} :: 0 <= k < |items| ==>
         items[k] == MakeItem(changes[k], k, root, dir, File(root, changes[k].path) in base)
  }

  /** Every existing file of the first n items has an untouched copy of what `base` held. */
  ghost predicate BackedUp(items: seq<Item>, n: nat, base: Files, files: Files)
    requires n <= |items|
  {
    forall k {:trigger items[k]} :: 0 <= k < n && items[k].backup.Some? ==>
      Look(files, items[k].backup.value) == Look(base, items[k].live)
  }

  /** Every item from n on that writes has a copy of the workspace file. */
  ghost predicate StagedFrom(items: seq<Item>, n: nat, base: Files, files: Files) {
    forall k {:trigger items[k]} :: n <= k < |items| && items[k].staged.Some? ==>
      items[k].workspace.Some? && items[k].workspace.value in base
      && Look(files, items[k].staged.value) == Look(base, items[k].workspace.value)
  }

  /** Outside the scratch copies of directory d nothing differs. */
  ghost predicate SameExceptWork(a: Files, b: Files, d: nat) {
    forall l: Loc :: !Workfile(l, d) ==> Look(a, l) == Look(b, l)
  }

  datatype Failure =
    | GuardRejected
    | NoDirectory
    | InvalidEntry
    | WorkspaceMissing
    | MissingTimestamp
    | IoError

  /** What a failure says of the manifest, the workspace and the report. */
  ghost predicate Explains(reason: Failure, files: seq<Entry>, was: Files, report: Option<Report>) {
    match reason
    case InvalidEntry =>
      exists k :: 0 <= k < |files| && !(files[k].Entry? && EntryPath(files[k]).Some? && files[k].change != Unsupported)
    case WorkspaceMissing =>
      exists k :: 0 <= k < |files| && files[k].Entry? && EntryPath(files[k]).Some? && !Usable(files[k], was)
    case MissingTimestamp => report.Some? && report.value.generatedAt == ""
    case _ => true
  }

  /** `changes` is what the first entries of the manifest ask for. */
  ghost predicate Decodes(files: seq<Entry>, changes: seq<Change>) {
    && |changes| <= |files|
    && forall k :: 0 <= k < |changes| ==> Readable(files[k]) && AsChange(files[k]) == changes[k]
  }

  lemma DecodedIsApplicable(files: seq<Entry>, changes: seq<Change>, work: Tree)
    requires Decodes(files, changes) && AllPresent(work, changes)
    requires |changes| == |files| || !Preparable(files[|changes|], work)
    ensures Applicable(files, work) <==> |changes| == |files|
    ensures |changes| == |files| ==> Changes(files) == changes
  {
    if |changes| == |files| {
      forall k | 0 <= k < |files| ensures Preparable(files[k], work) {
        assert AsChange(files[k]) == changes[k];
      }
    }
  }

  method PrepareItems(disk: Disk, root: Root, dir: nat, files: seq<Entry>)
    returns (items: seq<Item>, failure: Option<Failure>, ghost changes: seq<Change>)
    requires disk.Valid() && dir < disk.serial && root != WorkspaceRoot
    modifies disk`files, disk`faults
    ensures disk.Valid() && old(disk.faults) <= disk.faults
    ensures SameExceptWork(old(disk.files), disk.files, dir)
    ensures failure.None? ==> Prepared(items, changes, root, dir, old(disk.files), disk.files)
    ensures failure.None? ==> Applicable(files, View(old(disk.files), WorkspaceRoot)) && Changes(files) == changes
    ensures Decodes(files, changes)
    ensures failure == Some(IoError) <==> disk.faults != old(disk.faults)
    ensures failure.Some? && failure != Some(IoError) ==> !Applicable(files, View(old(disk.files), WorkspaceRoot))
    ensures failure.Some? ==> failure.value in {InvalidEntry, WorkspaceMissing, IoError}
    ensures failure.Some? ==> Explains(failure.value, files, old(disk.files), None)
  {
    hide EntryPath, View, Prepared, SameExceptWork, CopiesMade, MakeItem, Explains;
    ghost var base := disk.files;
    items, changes := [], [];
    NothingPrepared(root, dir, base);
    for index := 0 to |files|
      invariant disk.Valid() && disk.faults == old(disk.faults)
      invariant |changes| == index && Decodes(files, changes)
      invariant Prepared(items, changes, root, dir, base, disk.files)
    {
      ghost var before := disk.files;
      PreparedElsewhere(items, changes, root, dir, base, before);
      var result := PrepareEntry(disk, root, dir, index, files[index]);
      OnlyWorkChanged(base, before, disk.files, dir, index);
      if result.Refused? {
        if result.reason != IoError {
          RefusalIsExplained(files, changes, base, before, dir, result.reason);
          RefusalIsFinal(files, changes, base, before, dir);
        }
        ErrorsNeedNoReason(files, base, None);
        return items, Some(result.reason), changes;
      }
      var c := AsChange(files[index]);
      ViewLooks(before, WorkspaceRoot, c.path);
      PrepareStep(items, changes, root, dir, base, before, disk.files, c);
      items := items + [result.item];
      changes := changes + [c];
    }
    PreparedElsewhere(items, changes, root, dir, base, disk.files);
    DecodedIsApplicable(files, changes, View(base, WorkspaceRoot));
    failure := None;
  }

  lemma NothingPrepared(root: Root, dir: nat, base: Files)
    ensures Prepared([], [], root, dir, base, base)
  {
  }

  lemma PreparedElsewhere(items: seq<Item>, changes: seq<Change>, root: Root, dir: nat, base: Files, now: Files)
    requires Prepared(items, changes, root, dir, base, now)
    ensures |items| == |changes| && SameExceptWork(base, now, dir) && AllPresent(View(base, WorkspaceRoot), changes)
  {
  }

  lemma OnlyWorkChanged(base: Files, before: Files, after: Files, dir: nat, index: nat)
    requires SameExceptWork(base, before, dir)
    requires forall l: Loc :: l != Backup(dir, index) && l != Staged(dir, index) ==> Look(after, l) == Look(before, l)
    ensures SameExceptWork(base, after, dir)
  {
    forall l: Loc | !Workfile(l, dir) ensures Look(base, l) == Look(after, l) {
      assert Look(after, l) == Look(before, l);
    }
  }

  lemma ErrorsNeedNoReason(files: seq<Entry>, was: Files, report: Option<Report>)
    ensures Explains(IoError, files, was, report)
    ensures report.Some? && report.value.generatedAt == "" ==> Explains(MissingTimestamp, files, was, report)
    ensures forall reason :: Explains(reason, files, was, None) ==> Explains(reason, files, was, report)
  {
  }

  lemma RefusalIsExplained(files: seq<Entry>, changes: seq<Change>, base: Files, before: Files, dir: nat,
                           reason: Failure)
    requires Decodes(files, changes) && |changes| < |files| && SameExceptWork(base, before, dir)
    requires !Preparable(files[|changes|], View(before, WorkspaceRoot))
    requires reason == InvalidEntry || reason == WorkspaceMissing
    requires reason == InvalidEntry <==> !Readable(files[|changes|])
    ensures Explains(reason, files, base, None)
  {
    hide NormalizeManifestPath, View;
    var k := |changes|;
    if reason == WorkspaceMissing {
      var source := File(WorkspaceRoot, EntryPath(files[k]).value);
      assert Look(before, source) == Look(base, source);
      ViewLooks(before, WorkspaceRoot, EntryPath(files[k]).value);
      assert !Usable(files[k], base);
    }
  }

  lemma RefusalIsFinal(files: seq<Entry>, changes: seq<Change>, base: Files, before: Files, dir: nat)
    requires Decodes(files, changes) && |changes| < |files|
    requires SameExceptWork(base, before, dir)
    requires !Preparable(files[|changes|], View(before, WorkspaceRoot))
    ensures !Applicable(files, View(base, WorkspaceRoot))
  {
    SameView(base, before, WorkspaceRoot);
  }

  datatype ItemResult = Ready(item: Item) | Refused(reason: Failure)

  method PrepareEntry(disk: Disk, root: Root, dir: nat, index: nat, entry: Entry) returns (result: ItemResult)
    requires disk.Valid() && dir < disk.serial && root != WorkspaceRoot
    modifies disk`files, disk`faults
    ensures disk.Valid() && old(disk.faults) <= disk.faults
    ensures forall l: Loc :: l != Backup(dir, index) && l != Staged(dir, index) ==>
              Look(disk.files, l) == old(Look(disk.files, l))
    ensures result == Refused(IoError) <==> disk.faults != old(disk.faults)
    ensures result.Refused? && result.reason != IoError ==> !Preparable(entry, View(old(disk.files), WorkspaceRoot))
    ensures result.Refused? ==> result.reason in {InvalidEntry, WorkspaceMissing, IoError}
    ensures result == Refused(InvalidEntry) <==> !Readable(entry)
    ensures result.Ready? ==>
              && entry.Entry? && EntryPath(entry) == Some(result.item.path)
              && (entry.change == Deleted <==> result.item.deleted)
              && (entry.change == Added || entry.change == Modified <==> result.item.staged.Some?)
    ensures result.Ready? ==>
              && Preparable(entry, View(old(disk.files), WorkspaceRoot))
              && result.item == MakeItem(AsChange(entry), index, root, dir,
                File(root, AsChange(entry).path) in old(disk.files))
              && CopiesMade(result.item, old(disk.files), disk.files)
  {
    if !Readable(entry) { return Refused(InvalidEntry); }
    result := PrepareItem(disk, root, dir, index, AsChange(entry));
  }

  /** Backs up and stages one entry. */
  method PrepareItem(disk: Disk, root: Root, dir: nat, index: nat, c: Change) returns (result: ItemResult)
    requires disk.Valid() && dir < disk.serial && root != WorkspaceRoot
    modifies disk`files, disk`faults
    ensures disk.Valid() && old(disk.faults) <= disk.faults
    ensures forall l: Loc :: l != Backup(dir, index) && l != Staged(dir, index) ==>
              Look(disk.files, l) == old(Look(disk.files, l))
    ensures result.Refused? ==> result.reason == IoError || result.reason == WorkspaceMissing
    ensures result == Refused(IoError) <==> disk.faults != old(disk.faults)
    ensures result == Refused(WorkspaceMissing) ==> !c.deleted && File(WorkspaceRoot, c.path) !in old(disk.files)
    ensures result.Ready? && !c.deleted ==> File(WorkspaceRoot, c.path) in old(disk.files)
    ensures result.Ready? ==>
              && result.item == MakeItem(c, index, root, dir, File(root, c.path) in old(disk.files))
              && CopiesMade(result.item, old(disk.files), disk.files)
  {
    var live, source := File(root, c.path), File(WorkspaceRoot, c.path);
    ghost var before := disk.files;
    var existed := live in disk.files;
    if existed {
      var copied := disk.Copy(live, Backup(dir, index));
      if !copied { return Refused(IoError); }
    }
    assert Look(disk.files, source) == Look(before, source);
    if !c.deleted {
      if source !in disk.files { return Refused(WorkspaceMissing); }
      var copied := disk.Copy(source, Staged(dir, index));
      if !copied { return Refused(IoError); }
    }
    return Ready(MakeItem(c, index, root, dir, existed));
  }

  ghost predicate CopiesMade(item: Item, base: Files, now: Files) {
    && (item.backup.Some? ==> Look(now, item.backup.value) == Look(base, item.live))
    && (item.staged.Some? ==> item.workspace.Some? && item.workspace.value in base
                              && Look(now, item.staged.value) == Look(base, item.workspace.value))
  }

  /** The state of the preparing loop once `changes` have been prepared. */
  ghost predicate Prepared(items: seq<Item>, changes: seq<Change>, root: Root, dir: nat, base: Files, now: Files) {
    && |items| == |changes|
    && SameExceptWork(base, now, dir)
    && AllPresent(View(base, WorkspaceRoot), changes)
    && ItemsFor(items, changes, root, dir, base)
    && BackedUp(items, |items|, base, now)
    && StagedFrom(items, 0, base, now)
  }

  lemma PrepareStep(items: seq<Item>, changes: seq<Change>, root: Root, dir: nat,
                    base: Files, before: Files, after: Files, c: Change)
    requires Prepared(items, changes, root, dir, base, before) && root != WorkspaceRoot
    requires !c.deleted ==> File(WorkspaceRoot, c.path) in before
    requires forall l: Loc :: l != Backup(dir, |items|) && l != Staged(dir, |items|) ==>
               Look(after, l) == Look(before, l)
    requires CopiesMade(MakeItem(c, |items|, root, dir, File(root, c.path) in before), before, after)
    ensures Prepared(items + [MakeItem(c, |items|, root, dir, File(root, c.path) in before)], changes + [c], root, dir,
            base, after)
  {
    var item := MakeItem(c, |items|, root, dir, File(root, c.path) in before);
    var next := items + [item];
    assert Look(before, item.live) == Look(base, item.live);
    assert Look(before, File(WorkspaceRoot, c.path)) == Look(base, File(WorkspaceRoot, c.path));
    forall k | 0 <= k < |next| ensures CopiesMade(next[k], base, after) {
      if k < |items| { assert next[k] == items[k]; }
    }
  }

  lemma SameTree(a: Tree, b: Tree)
    requires forall p :: At(a, p) == At(b, p)
    ensures a == b
  {
    forall p
      ensures p in a <==> p in b
      ensures p in a ==> a[p] == b[p]
    {
      assert At(a, p) == At(b, p);
    }
  }

  lemma ViewAfterWrite(before: Files, after: Files, root: Root, p: string)
    requires forall q :: q != p ==> Look(after, File(root, q)) == Look(before, File(root, q))
    ensures View(after, root) ==
            if File(root, p) in after then View(before, root)[p := after[File(root, p)]] else View(before, root) - {p}
  {
    var expected := if File(root, p) in after then View(before, root)[p := after[File(root, p)]]
      else View(before, root) - {p};
    forall q ensures At(View(after, root), q) == At(expected, q) {
      ViewLooks(after, root, q);
      ViewLooks(before, root, q);
    }
    SameTree(View(after, root), expected);
  }

  lemma ViewLooks(files: Files, root: Root, p: string)
    ensures At(View(files, root), p) == Look(files, File(root, p))
  {
  }

  function AppliedChanges(applied: seq<Item>): seq<Change> {
    seq(|applied|, k requires 0 <= k < |applied| => Change(applied[k].path, applied[k].deleted))
  }

  /** The apply loop. It stops at the first error with the items done so far. */
  method ApplyItems(disk: Disk, items: seq<Item>, ghost changes: seq<Change>, ghost root: Root, ghost dir: nat,
                    ghost base: Files)
    returns (applied: seq<Item>, ok: bool)
    requires disk.Valid() && dir < disk.serial && root != WorkspaceRoot && (root.CopyRoot? ==> root.dir < disk.serial)
    requires ItemsFor(items, changes, root, dir, base) && BackedUp(items, |items|, base, disk.files)
    requires StagedFrom(items, 0, base, disk.files)
    modifies disk`files, disk`faults, disk`stuck
    ensures disk.Valid() && old(disk.faults) <= disk.faults
    ensures ok <==> disk.faults == old(disk.faults)
    ensures |applied| <= |items| && applied == items[..|applied|]
    ensures ok ==> applied == items
    ensures AppliedTo(items, |applied|, root, dir, base, old(disk.files), disk.files)
  {
    hide BackedUp, StagedFrom, ItemsFor, AppliedTo;
    ghost var was := disk.files;
    applied, ok := [], true;
    NothingAppliedYet(items, root, dir, base, was);
    for n := 0 to |items|
      invariant disk.Valid() && disk.faults == old(disk.faults)
      invariant applied == items[..n]
      invariant AppliedTo(items, n, root, dir, base, was, disk.files)
    {
      var done := ApplyNext(disk, items, n, changes, root, dir, base, was);
      if !done { return applied, false; }
      applied := applied + [items[n]];
      assert items[..n + 1] == items[..n] + [items[n]];
    }
    assert items[..|items|] == items;
  }

  lemma NothingAppliedYet(items: seq<Item>, root: Root, dir: nat, base: Files, was: Files)
    requires BackedUp(items, |items|, base, was) && StagedFrom(items, 0, base, was)
    ensures AppliedTo(items, 0, root, dir, base, was, was)
  {
    hide BackedUp, StagedFrom;
    assert AppliedChanges(items[..0]) == [];
  }

  /** One turn of the apply loop. */
  method ApplyNext(disk: Disk, items: seq<Item>, n: nat, ghost changes: seq<Change>, ghost root: Root, ghost dir: nat,
                   ghost base: Files, ghost was: Files)
    returns (done: bool)
    requires disk.Valid() && root != WorkspaceRoot && (root.CopyRoot? ==> root.dir < disk.serial)
    requires ItemsFor(items, changes, root, dir, base) && n < |items|
    requires AppliedTo(items, n, root, dir, base, was, disk.files)
    modifies disk`files, disk`faults, disk`stuck
    ensures disk.Valid() && old(disk.faults) <= disk.faults
    ensures done <==> disk.faults == old(disk.faults)
    ensures AppliedTo(items, if done then n + 1 else n, root, dir, base, was, disk.files)
  {
    ghost var before := disk.files;
    StagedIsThere(items, n, base, before);
    done := ApplyItem(disk, items[n], changes, n, root, dir, base);
    if done {
      ApplyStep(items, n, changes, root, dir, base, was, before, disk.files);
    }
  }

  lemma StagedIsThere(items: seq<Item>, n: nat, base: Files, now: Files)
    requires n < |items| && StagedFrom(items, n, base, now)
    ensures items[n].staged.Some? ==> items[n].staged.value in now
  {
    assert items[n].staged.Some? ==> Look(now, items[n].staged.value) == Look(base, items[n].workspace.value);
  }

  method ApplyItem(disk: Disk, item: Item, ghost changes: seq<Change>, ghost n: nat, ghost root: Root, ghost dir: nat,
                   ghost base: Files)
    returns (done: bool)
    requires disk.Valid() && root != WorkspaceRoot && (root.CopyRoot? ==> root.dir < disk.serial)
    requires n < |changes| && item == MakeItem(changes[n], n, root, dir, File(root, changes[n].path) in base)
    requires item.staged.Some? ==> item.staged.value in disk.files
    modifies disk`files, disk`faults, disk`stuck
    ensures disk.Valid() && old(disk.faults) <= disk.faults
    ensures done <==> disk.faults == old(disk.faults)
    ensures done ==> Stepped(item, old(disk.files), disk.files)
    ensures !done ==> disk.files == old(disk.files)
  {
    if item.deleted {
      if item.live in disk.files {
        var io := disk.Unlink(item.live);
        return !io.Fault?;
      }
      return true;
    }
    var io := disk.Replace(item.staged.value, item.live);
    return io.Done?;
  }

  /** The state of the apply loop after n items. */
  ghost predicate AppliedTo(items: seq<Item>, n: nat, root: Root, dir: nat, base: Files, was: Files, now: Files) {
    && n <= |items|
    && BackedUp(items, |items|, base, now)
    && StagedFrom(items, n, base, now)
    && View(now, root) == Overridden(View(was, root), View(base, WorkspaceRoot), AppliedChanges(items[..n]))
    && SameExceptItems(items[..n], dir, was, now)
  }

  ghost predicate IsLive(items: seq<Item>, l: Loc) {
    exists k :: 0 <= k < |items| && items[k].live == l
  }

  /** Outside the items' places and the scratch copies nothing differs. */
  ghost predicate SameExceptItems(items: seq<Item>, dir: nat, was: Files, now: Files) {
    forall l: Loc :: !Workfile(l, dir) && !IsLive(items, l) ==> Look(now, l) == Look(was, l)
  }

  lemma ApplyStep(items: seq<Item>, n: nat, changes: seq<Change>, root: Root, dir: nat,
                  base: Files, was: Files, before: Files, after: Files)
    requires root != WorkspaceRoot
    requires ItemsFor(items, changes, root, dir, base) && n < |items|
    requires AppliedTo(items, n, root, dir, base, was, before)
    requires Stepped(items[n], before, after)
    ensures AppliedTo(items, n + 1, root, dir, base, was, after)
  {
    hide Overridden, BackedUp, StagedFrom, ItemsFor, SameExceptItems, Stepped;
    MadeItem(items, n, changes, root, dir, base);
    ApplyStepTree(items, n, root, dir, base, was, before, after);
    ApplyStepCopies(items, n, changes, root, dir, base, before, after);
    ApplyStepElsewhere(items, n, dir, was, before, after);
  }

  lemma MadeItem(items: seq<Item>, n: nat, changes: seq<Change>, root: Root, dir: nat, base: Files)
    requires ItemsFor(items, changes, root, dir, base) && n < |items|
    ensures items[n] == MakeItem(changes[n], n, root, dir, File(root, changes[n].path) in base)
  {
  }

  lemma ApplyStepElsewhere(items: seq<Item>, n: nat, dir: nat, was: Files, before: Files, after: Files)
    requires n < |items| && SameExceptItems(items[..n], dir, was, before) && Stepped(items[n], before, after)
    requires items[n].staged.Some? ==> Workfile(items[n].staged.value, dir)
    ensures SameExceptItems(items[..n + 1], dir, was, after)
  {
    var more := items[..n + 1];
    assert more[n] == items[n] && forall k :: 0 <= k < n ==> more[k] == items[..n][k];
    forall l: Loc | !Workfile(l, dir) && !IsLive(more, l) ensures Look(after, l) == Look(was, l) {
      assert more[n].live != l && !IsLive(items[..n], l);
      assert Look(after, l) == Look(before, l);
    }
  }

  /** The effect of one successful apply step on the disk. */
  ghost predicate Stepped(item: Item, before: Files, after: Files) {
    && (forall l: Loc :: l != item.live && Some(l) != item.staged ==> Look(after, l) == Look(before, l))
    && (item.deleted ==> item.live !in after)
    && (!item.deleted ==> item.staged.Some? && Look(after, item.live) == Look(before, item.staged.value))
  }

  lemma ApplyStepTree(items: seq<Item>, n: nat, root: Root, dir: nat, base: Files, was: Files, before: Files,
                      after: Files)
    requires n < |items| && items[n].live == File(root, items[n].path)
    requires items[n].deleted <==> items[n].staged.None?
    requires !items[n].deleted ==>
               items[n].staged.value.Staged? && items[n].workspace == Some(File(WorkspaceRoot, items[n].path))
    requires StagedFrom(items, n, base, before) && Stepped(items[n], before, after)
    requires View(before, root) == Overridden(View(was, root), View(base, WorkspaceRoot), AppliedChanges(items[..n]))
    ensures View(after, root) == Overridden(View(was, root), View(base, WorkspaceRoot), AppliedChanges(items[..n + 1]))
  {
    hide View;
    var item := items[n];
    ViewAfterWrite(before, after, root, item.path);
    var done := AppliedChanges(items[..n + 1]);
    assert done[..n] == AppliedChanges(items[..n]);
    assert done[n] == Change(item.path, item.deleted);
  }

  lemma ApplyStepCopies(items: seq<Item>, n: nat, changes: seq<Change>, root: Root, dir: nat, base: Files,
                        before: Files, after: Files)
    requires ItemsFor(items, changes, root, dir, base) && n < |items|
    requires BackedUp(items, |items|, base, before) && StagedFrom(items, n, base, before)
    requires Stepped(items[n], before, after)
    ensures BackedUp(items, |items|, base, after) && StagedFrom(items, n + 1, base, after)
  {
    forall k | 0 <= k < |items|
      ensures items[k].backup.Some? ==> Look(after, items[k].backup.value) == Look(before, items[k].backup.value)
      ensures k != n && items[k].staged.Some?
              ==> Look(after, items[k].staged.value) == Look(before, items[k].staged.value)
    {
      assert items[k] == MakeItem(changes[k], k, root, dir, File(root, changes[k].path) in base);
    }
  }

  /** The rollback loop: last applied item first; errors are collected. */
  method RollBackItems(disk: Disk, applied: seq<Item>, ghost changes: seq<Change>, ghost root: Root, ghost dir: nat,
                       ghost base: Files)
    returns (errors: seq<string>)
    requires disk.Valid() && dir < disk.serial && root != WorkspaceRoot && (root.CopyRoot? ==> root.dir < disk.serial)
    requires ItemsFor(applied, changes, root, dir, base) && BackedUp(applied, |applied|, base, disk.files)
    modifies disk`files, disk`faults, disk`stuck
    ensures disk.Valid() && old(disk.faults) <= disk.faults
    ensures forall k {:trigger applied[k]} :: 0 <= k < |applied| ==>
              Look(disk.files, applied[k].live) == Look(base, applied[k].live) || applied[k].path in errors
    ensures SameExceptItems(applied, dir, old(disk.files), disk.files)
    ensures forall p :: p in errors ==> Touches(AppliedChanges(applied), p)
    ensures errors == [] <==> disk.faults == old(disk.faults)
    ensures |errors| <= disk.faults - old(disk.faults)
  {
    ghost var was := disk.files;
    errors := [];
    var n := |applied|;
    while n > 0
      invariant 0 <= n <= |applied| && disk.Valid() && old(disk.faults) <= disk.faults
      invariant RolledTo(applied, n, dir, base, was, disk.files, errors)
      invariant errors == [] <==> disk.faults == old(disk.faults)
      invariant |errors| <= disk.faults - old(disk.faults)
    {
      n := n - 1;
      var item := applied[n];
      ghost var before, errorsBefore := disk.files, errors;
      var failed;
      if item.backup.None? {
        var io := disk.Unlink(item.live);
        failed := io.Fault?;
      } else {
        assert Look(before, item.backup.value) == Look(base, item.live) && item.live in base;
        var io := disk.Replace(item.backup.value, item.live);
        failed := !io.Done?;
      }
      if failed {
        errors := errors + [item.path];
      }
      RollBackStep(applied, n, changes, root, dir, base, was, before, disk.files, errorsBefore, failed);
    }
  }

  /** The state of the rollback loop when the items from n on are done. */
  ghost predicate RolledTo(applied: seq<Item>, n: nat, dir: nat, base: Files, was: Files, now: Files,
                           errors: seq<string>) {
    && n <= |applied|
    && BackedUp(applied, n, base, now)
    && (forall k {:trigger applied[k]} :: n <= k < |applied| ==>
         Look(now, applied[k].live) == Look(base, applied[k].live) || applied[k].path in errors)
    && SameExceptItems(applied, dir, was, now)
    && (forall p :: p in errors ==> Touches(AppliedChanges(applied), p))
  }

  lemma RollBackStep(applied: seq<Item>, n: nat, changes: seq<Change>, root: Root, dir: nat, base: Files, was: Files,
                     before: Files, after: Files, errors: seq<string>, failed: bool)
    requires ItemsFor(applied, changes, root, dir, base) && n < |applied|
    requires RolledTo(applied, n + 1, dir, base, was, before, errors)
    requires failed ==> after == before
    requires !failed ==> Look(after, applied[n].live) == Look(base, applied[n].live)
    requires forall l: Loc :: l != applied[n].live && Some(l) != applied[n].backup ==> Look(after, l) == Look(before, l)
    ensures RolledTo(applied, n, dir, base, was, after, if failed then errors + [applied[n].path] else errors)
  {
    hide View;
    var item := applied[n];
    var errors' := if failed then errors + [item.path] else errors;
    assert item == MakeItem(changes[n], n, root, dir, File(root, changes[n].path) in base);
    assert IsLive(applied, item.live);
    assert AppliedChanges(applied)[n].path == item.path;
    forall k | n <= k < |applied|
      ensures Look(after, applied[k].live) == Look(base, applied[k].live) || applied[k].path in errors'
    {
      assert applied[k] == MakeItem(changes[k], k, root, dir, File(root, changes[k].path) in base);
      if n < k && applied[k].live != item.live {
        assert Look(after, applied[k].live) == Look(before, applied[k].live);
      }
    }
    forall k | 0 <= k < n && applied[k].backup.Some?
      ensures Look(after, applied[k].backup.value) == Look(base, applied[k].live)
    {
      assert applied[k] == MakeItem(changes[k], k, root, dir, File(root, changes[k].path) in base);
    }
  }

  // ---- the transaction --------------------------------------------------

  datatype Report = Report(place: Loc, text: Content, generatedAt: string)

  datatype ApplyResult =
    | Applied(changedPaths: seq<string>)
    | Failed(reason: Failure, rollbackErrors: seq<string>)

  /** What the live tree holds once the shadow report is written. */
  function Reported(tree: Tree, report: Option<Report>): Tree {
    if report.Some? && report.value.place.File? && report.value.place.root == LiveRoot
    then tree[report.value.place.path := report.value.text] else tree
  }

  predicate IsReport(report: Option<Report>, l: Loc) {
    report.Some? && report.value.place == l
  }

  function ParseRoots(values: seq<string>): Option<seq<AllowedApplyRoot>> {
    if values == [] then Some([])
    else
      var init := ParseRoots(values[..|values| - 1]);
      var last := ParseAllowedApplyRoot(values[|values| - 1]);
      if init.Some? && last.Some? then Some(init.value + [last.value]) else None
  }

  /** The roots are one for each value, in order, when all values are usable. */
  lemma {:induction false} RootsMean(values: seq<string>)
    ensures ParseRoots(values).Some? <==> forall k :: 0 <= k < |values| ==> ParseAllowedApplyRoot(values[k]).Some?
    ensures ParseRoots(values).Some? ==>
              && |ParseRoots(values).value| == |values|
              && forall k :: 0 <= k < |values| ==> ParseAllowedApplyRoot(values[k]) == Some(ParseRoots(values).value[k])
  {
    hide ParseAllowedApplyRoot;
    if values != [] {
      RootsMean(values[..|values| - 1]);
      assert forall k :: 0 <= k < |values| - 1 ==> values[..|values| - 1][k] == values[k];
    }
  }

  ghost predicate Guarded(files: seq<Entry>, allowedRoots: seq<string>) {
    ParseRoots(allowedRoots).Some? && GuardAccepts(files, ParseRoots(allowedRoots).value)
  }

  predicate Timestamped(report: Option<Report>) {
    report.Some? ==> report.value.generatedAt != ""
  }

  method ValidateGuard(files: seq<Entry>, allowedRoots: seq<string>) returns (changed: Option<seq<string>>)
    ensures changed.Some? <==> Guarded(files, allowedRoots)
    ensures changed.Some? ==> changed.value == ChangedPaths(files)
  {
    var roots := ParseRoots(allowedRoots);
    if roots.None? { return None; }
    var state := ManifestApplyGuardState(files, roots.value);
    if state.invalidEntries != {} || state.disallowedPaths != {} { return None; }
    return Some(state.changedPaths);
  }

  /** Every lasting place holds what it held before, or holds the report that
      was written there, or is named as not rolled back. */
  ghost predicate RolledBack(was: Files, now: Files, report: Option<Report>, errors: seq<string>) {
    forall l: Loc :: Lasting(l) ==>
      || Look(now, l) == Look(was, l)
      || (IsReport(report, l) && Look(now, l) == Some(report.value.text))
      || (l.root == LiveRoot && l.path in errors)
  }

  ghost predicate NothingChanged(was: Files, now: Files) {
    forall l: Loc :: Lasting(l) ==> Look(now, l) == Look(was, l)
  }

  /** All of the manifest or nothing of it: a failed run leaves every lasting
      file as it was, but for the report and for the paths named as not rolled
      back. A path is named only when its rollback step raised an error of its
      own, after the error that made the run fail. */
  method ApplyManifestTransaction(disk: Disk, files: seq<Entry>, allowedRoots: seq<string>, report: Option<Report>)
    returns (r: ApplyResult)
    requires disk.Valid() && (report.Some? ==> Lasting(report.value.place))
    modifies disk
    ensures disk.Valid() && old(disk.faults) <= disk.faults
    ensures r.Applied? ==> Guarded(files, allowedRoots) && r.changedPaths == ChangedPaths(files)
    ensures r.Applied? ==> Transformed(old(disk.files), disk.files, files, report)
    ensures r.Applied? ==> EntriesDone(files, old(disk.files), disk.files)
    ensures r.Applied? ==> ReportStands(report, disk.files, files)
    ensures r.Failed? && r.reason == GuardRejected <==> !Guarded(files, allowedRoots)
    ensures r.Failed? && (r.reason == GuardRejected || r.reason == NoDirectory) ==> disk.files == old(disk.files)
    ensures r.Failed? ==> Explains(r.reason, files, old(disk.files), report)
    ensures r.Failed? && r.reason in {InvalidEntry, WorkspaceMissing, MissingTimestamp} ==>
              NothingChanged(old(disk.files), disk.files) && r.rollbackErrors == []
    ensures r.Failed? && r.reason == MissingTimestamp ==> Applicable(files, View(old(disk.files), WorkspaceRoot))
    ensures r.Failed? && r.reason in {IoError, NoDirectory} ==> disk.faults != old(disk.faults)
    ensures r.Failed? ==> RolledBack(old(disk.files), disk.files, report, r.rollbackErrors)
    ensures r.Failed? ==> forall p :: p in r.rollbackErrors ==> p in ChangedPaths(files)
    ensures r.Failed? && r.rollbackErrors != [] ==> |r.rollbackErrors| < disk.faults - old(disk.faults)
    ensures disk.faults == old(disk.faults) ==>
              (r.Applied? <==> Guarded(files, allowedRoots)
                               && Applicable(files, old(View(disk.files, WorkspaceRoot))) && Timestamped(report))
    ensures disk.faults == old(disk.faults) ==>
              forall l: Loc :: !Lasting(l) && l in disk.files ==> l in old(disk.files)
  {
    var changed := ValidateGuard(files, allowedRoots);
    if changed.None? { return Failed(GuardRejected, []); }
    var dir, made := disk.MakeDirectory();
    if !made { return Failed(NoDirectory, []); }
    r := ApplyInDirectory(disk, files, report, dir, changed.value);
    ghost var done := disk.files;
    disk.RemoveTree(dir);
    assert forall l: Loc :: Lasting(l) ==> Look(disk.files, l) == Look(done, l);
    SameView(done, disk.files, LiveRoot);
    if r.Applied? { TransformedEntriesAreDone(old(disk.files), disk.files, files, report); }
  }

  /** The report is in its place, unless the manifest names that place. */
  ghost predicate ReportStands(report: Option<Report>, now: Files, files: seq<Entry>) {
    report.Some? ==>
      || Look(now, report.value.place) == Some(report.value.text)
      || (report.value.place.File? && report.value.place.root == LiveRoot
        && report.value.place.path in ChangedPaths(files))
  }

  /** A completed transaction has done what the last entry for each path asks. */
  lemma {:induction false} TransformedEntriesAreDone(was: Files, now: Files, files: seq<Entry>, report: Option<Report>)
    requires Transformed(was, now, files, report)
    ensures EntriesDone(files, was, now)
  {
    hide NormalizeManifestPath, Overridden, View;
    ApplicableMeans(files, was);
    var changes, work := Changes(files), View(was, WorkspaceRoot);
    ChangesAreReadable(files, work);
    LastEntryWins(Reported(View(was, LiveRoot), report), work, changes);
    forall k | 0 <= k < |files| && LastForItsPath(files, k) ensures Done(files[k], was, now) {
      assert Usable(files[k], was);
      assert forall j :: 0 <= j < |files| ==> changes[j] == AsChange(files[j]) && Readable(files[j]);
      assert IsLastFor(changes, k);
      ViewLooks(now, LiveRoot, changes[k].path);
      ViewLooks(was, WorkspaceRoot, changes[k].path);
    }
  }

  /** The live tree is the old one (with the report) overridden by the
      manifest; every other lasting place is untouched. */
  ghost predicate Transformed(was: Files, now: Files, files: seq<Entry>, report: Option<Report>) {
    && Applicable(files, View(was, WorkspaceRoot))
    && View(now, LiveRoot) == Overridden(Reported(View(was, LiveRoot), report), View(was, WorkspaceRoot),
      Changes(files))
    && (forall l: Loc :: Lasting(l) && l.root != LiveRoot && !IsReport(report, l) ==> Look(now, l) == Look(was, l))
  }

  /** A completed transaction changes only live files, and each of those lies
      below an allowed root and inside the tree, the report apart. */
  lemma ChangesAreConfined(was: Files, now: Files, files: seq<Entry>, allowedRoots: seq<string>,
                           report: Option<Report>, l: Loc)
    requires Guarded(files, allowedRoots) && Transformed(was, now, files, report)
    requires Lasting(l) && !IsReport(report, l) && Look(now, l) != Look(was, l)
    ensures l.root == LiveRoot && l.path in ChangedPaths(files)
    ensures Confined(l.path, ParseRoots(allowedRoots).value)
  {
    hide GuardAccepts, Confined, Preparable, Overridden, EntryPath;
    var work := View(was, WorkspaceRoot);
    ChangesAreReadable(files, work);
    var changes := Changes(files);
    LastEntryWins(Reported(View(was, LiveRoot), report), work, changes);
    ViewLooks(was, LiveRoot, l.path);
    ViewLooks(now, LiveRoot, l.path);
    assert l.root == LiveRoot ==> l == File(LiveRoot, l.path);
    assert Touches(changes, l.path);
    var k :| 0 <= k < |changes| && changes[k].path == l.path;
    TouchedPathsAreChanged(files, changes);
    AcceptedPathsAreConfined(files, ParseRoots(allowedRoots).value, k);
    PathsAreChanges(files, k);
  }

  lemma ChangesAreReadable(files: seq<Entry>, work: Tree)
    requires Applicable(files, work)
    ensures forall k :: 0 <= k < |files| ==> Readable(files[k])
    ensures AllPresent(work, Changes(files)) && Decodes(files, Changes(files))
  {
    assert forall k :: 0 <= k < |files| ==> Preparable(files[k], work);
  }

  lemma PathsAreChanges(files: seq<Entry>, k: nat)
    requires k < |files| && forall j :: 0 <= j < |files| ==> Readable(files[j])
    ensures Paths(files)[k] == Some(Changes(files)[k].path)
  {
  }

  /** The part that runs between creating and removing the temporary directory. */
  method ApplyInDirectory(disk: Disk, files: seq<Entry>, report: Option<Report>, dir: nat, changed: seq<string>)
    returns (r: ApplyResult)
    requires disk.Valid() && dir < disk.serial && (report.Some? ==> Lasting(report.value.place))
    modifies disk
    ensures disk.Valid() && old(disk.faults) <= disk.faults
    ensures r.Applied? ==> r.changedPaths == changed && Transformed(old(disk.files), disk.files, files, report)
    ensures r.Applied? ==> ReportStands(report, disk.files, files)
    ensures r.Failed? ==> r.reason in {InvalidEntry, WorkspaceMissing, MissingTimestamp, IoError}
    ensures r.Failed? ==> Explains(r.reason, files, old(disk.files), report)
    ensures r.Failed? && r.reason in {InvalidEntry, WorkspaceMissing, MissingTimestamp} ==>
              NothingChanged(old(disk.files), disk.files) && r.rollbackErrors == []
    ensures r.Failed? && r.reason == MissingTimestamp ==> Applicable(files, View(old(disk.files), WorkspaceRoot))
    ensures r.Failed? && r.reason in {IoError, NoDirectory} ==> disk.faults != old(disk.faults)
    ensures r.Failed? ==> RolledBack(old(disk.files), disk.files, report, r.rollbackErrors)
    ensures r.Failed? ==> forall p :: p in r.rollbackErrors ==> p in ChangedPaths(files)
    ensures r.Failed? && r.rollbackErrors != [] ==> |r.rollbackErrors| < disk.faults - old(disk.faults)
    ensures disk.faults == old(disk.faults) ==>
              (r.Applied? <==> Applicable(files, View(old(disk.files), WorkspaceRoot)) && Timestamped(report))
    ensures disk.faults == old(disk.faults) ==> OnlyNewIn(old(disk.files), disk.files, dir)
  {
    hide NothingChanged, Explains, EntryPath, Overridden, BackedUp, StagedFrom, ItemsFor, AllPresent, RolledBack,
         Transformed,
         ReportStands, WithReport, Reported, Decodes, Touches, Usable;
    ghost var was := disk.files;
    ErrorsNeedNoReason(files, was, report);
    var items, failure;
    ghost var changes;
    items, failure, changes := PrepareItems(disk, LiveRoot, dir, files);
    ghost var prepared := disk.files;
    OnlyWorkIsNew(was, prepared, report, dir);
    OnlyCopies(was, prepared, dir);
    if failure.Some? { return Failed(failure.value, []); }
    PreparedElsewhere(items, changes, LiveRoot, dir, was, prepared);
    PreparedCopies(items, changes, LiveRoot, dir, was, prepared);
    var reported := WriteReport(disk, report);
    ghost var staged := disk.files;
    if reported.Some? {
      NotReported(was, prepared, staged, report, dir);
      return Failed(reported.value, []);
    }
    ReportIsElsewhere(prepared, report);
    CopiesSurviveReport(prepared, staged, report, items, changes, dir, was);
    var ok, errors := ApplyOrRollBack(disk, items, changes, dir, was);
    if ok {
      Finished(was, prepared, staged, disk.files, report, changes, dir);
      FinishedIsTransformed(was, staged, disk.files, files, report, changes, dir);
      return Applied(changed);
    }
    Unwound(was, prepared, staged, disk.files, report, dir, errors);
    TouchedPathsAreChanged(files, changes);
    ReportIsNew(was, prepared, staged, disk.files, report, dir);
    return Failed(IoError, errors);
  }

  lemma PreparedCopies(items: seq<Item>, changes: seq<Change>, root: Root, dir: nat, base: Files, now: Files)
    requires Prepared(items, changes, root, dir, base, now)
    ensures ItemsFor(items, changes, root, dir, base)
    ensures BackedUp(items, |items|, base, now) && StagedFrom(items, 0, base, now)
  {
  }

  lemma OnlyCopies(was: Files, now: Files, dir: nat)
    requires SameExceptWork(was, now, dir)
    ensures NothingChanged(was, now)
  {
  }

  lemma OnlyWorkIsNew(was: Files, now: Files, report: Option<Report>, dir: nat)
    requires SameExceptWork(was, now, dir)
    ensures RolledBack(was, now, report, []) && OnlyNewIn(was, now, dir)
  {
    assert forall l: Loc :: Lasting(l) ==> Look(now, l) == Look(was, l);
    forall l: Loc | !Lasting(l) && l in now ensures l in was || InDirectory(l, dir) {
      if !Workfile(l, dir) { assert Look(now, l) == Look(was, l); }
    }
  }

  lemma NotReported(was: Files, prepared: Files, now: Files, report: Option<Report>, dir: nat)
    requires SameExceptWork(was, prepared, dir) && (report.Some? ==> Lasting(report.value.place))
    requires forall l: Loc :: !l.Temp? && !IsReport(report, l) ==> Look(now, l) == Look(prepared, l)
    requires report.Some? ==>
               || Look(now, report.value.place) == Look(prepared, report.value.place)
               || Look(now, report.value.place) == Some(report.value.text)
    ensures RolledBack(was, now, report, [])
    ensures (forall l: Loc :: l.Temp? && l in now ==> l in prepared) ==> OnlyNewIn(was, now, dir)
  {
    assert forall l: Loc :: Lasting(l) ==> Look(prepared, l) == Look(was, l);
    forall l: Loc | !Lasting(l) && !l.Temp? && l in now ensures l in was || InDirectory(l, dir) {
      assert Look(now, l) == Look(prepared, l);
      if !Workfile(l, dir) { assert Look(prepared, l) == Look(was, l); }
    }
    forall l: Loc | l.Temp? && l in prepared ensures l in was {
      assert Look(prepared, l) == Look(was, l);
    }
  }

  lemma ReportIsNew(was: Files, prepared: Files, staged: Files, now: Files, report: Option<Report>, dir: nat)
    requires SameExceptWork(was, prepared, dir) && (report.Some? ==> Lasting(report.value.place))
    requires staged == WithReport(prepared, report)
    requires forall l: Loc :: !Workfile(l, dir) && !(l.File? && l.root == LiveRoot) ==> Look(now, l) == Look(staged, l)
    ensures OnlyNewIn(was, now, dir)
  {
    ReportIsElsewhere(prepared, report);
    forall l: Loc | !Lasting(l) && l in now ensures l in was || InDirectory(l, dir) {
      if !Workfile(l, dir) {
        assert Look(now, l) == Look(staged, l) == Look(prepared, l) == Look(was, l);
      }
    }
  }

  lemma {:induction false} FinishedIsTransformed(was: Files, staged: Files, now: Files, files: seq<Entry>,
                                                 report: Option<Report>, changes: seq<Change>, dir: nat)
    requires Applicable(files, View(was, WorkspaceRoot)) && Changes(files) == changes && Decodes(files, changes)
    requires View(now, LiveRoot) == Overridden(Reported(View(was, LiveRoot), report), View(was, WorkspaceRoot), changes)
    requires forall l: Loc ::
               Lasting(l) && l.root != LiveRoot && !IsReport(report, l) ==> Look(now, l) == Look(was, l)
    requires forall l: Loc :: !Lasting(l) && !Workfile(l, dir) ==> Look(now, l) == Look(was, l)
    requires report.Some? ==> Lasting(report.value.place) && Look(staged, report.value.place) == Some(report.value.text)
    requires forall l: Loc :: !Workfile(l, dir) && !(l.File? && l.root == LiveRoot) ==> Look(now, l) == Look(staged, l)
    ensures Transformed(was, now, files, report) && ReportStands(report, now, files) && OnlyNewIn(was, now, dir)
  {
    hide Overridden, EntryPath, View, Reported;
    forall l: Loc | !Lasting(l) && l in now ensures l in was || InDirectory(l, dir) {
      if !Workfile(l, dir) { assert Look(now, l) == Look(was, l); }
    }
    if report.Some? && report.value.place.root == LiveRoot && report.value.place.path !in ChangedPaths(files) {
      var place := report.value.place;
      ChangesAreReadable(files, View(was, WorkspaceRoot));
      TouchedPathsAreChanged(files, changes);
      assert !Touches(changes, place.path);
      LastEntryWins(Reported(View(was, LiveRoot), report), View(was, WorkspaceRoot), changes);
      ReportIsSeen(View(was, LiveRoot), report);
      ViewLooks(now, LiveRoot, place.path);
      assert place == File(LiveRoot, place.path);
    }
  }

  lemma ReportIsSeen(tree: Tree, report: Option<Report>)
    requires report.Some? && report.value.place.File? && report.value.place.root == LiveRoot
    ensures At(Reported(tree, report), report.value.place.path) == Some(report.value.text)
  {
  }

  ghost predicate OnlyNewIn(was: Files, now: Files, dir: nat) {
    forall l: Loc :: !Lasting(l) && l in now ==> l in was || InDirectory(l, dir)
  }

  function WithReport(files: Files, report: Option<Report>): Files {
    if report.Some? then files[report.value.place := report.value.text] else files
  }

  method WriteReport(disk: Disk, report: Option<Report>) returns (failure: Option<Failure>)
    requires disk.Valid() && (report.Some? ==> Lasting(report.value.place))
    modifies disk
    ensures disk.Valid() && old(disk.faults) <= disk.faults && old(disk.serial) <= disk.serial
    ensures failure.None? ==> disk.faults == old(disk.faults) && Timestamped(report)
    ensures failure.None? ==> disk.files == WithReport(old(disk.files), report)
    ensures failure.Some? ==> disk.faults != old(disk.faults) || !Timestamped(report)
    ensures failure.Some? ==> failure.value == IoError || (failure.value == MissingTimestamp && !Timestamped(report))
    ensures failure == Some(MissingTimestamp) ==> disk.files == old(disk.files)
    ensures failure == Some(IoError) ==> disk.faults != old(disk.faults)
    ensures forall l: Loc :: !l.Temp? && !IsReport(report, l) ==> Look(disk.files, l) == old(Look(disk.files, l))
    ensures report.Some? ==>
              || Look(disk.files, report.value.place) == old(Look(disk.files, report.value.place))
              || Look(disk.files, report.value.place) == Some(report.value.text)
    ensures disk.faults == old(disk.faults) ==> forall l: Loc :: l.Temp? && l in disk.files ==> l in old(disk.files)
  {
    if report.None? { return None; }
    if report.value.generatedAt == "" { return Some(MissingTimestamp); }
    var written := AtomicWriteText(disk, report.value.place, report.value.text);
    return if written then None else Some(IoError);
  }

  lemma CopiesSurviveReport(prepared: Files, staged: Files, report: Option<Report>, items: seq<Item>,
                            changes: seq<Change>,
                            dir: nat, base: Files)
    requires report.Some? ==> Lasting(report.value.place)
    requires forall l: Loc :: !IsReport(report, l) ==> Look(staged, l) == Look(prepared, l)
    requires ItemsFor(items, changes, LiveRoot, dir, base)
    requires BackedUp(items, |items|, base, prepared) && StagedFrom(items, 0, base, prepared)
    ensures BackedUp(items, |items|, base, staged) && StagedFrom(items, 0, base, staged)
  {
    forall k | 0 <= k < |items|
      ensures items[k].backup.Some? ==> Look(staged, items[k].backup.value) == Look(prepared, items[k].backup.value)
      ensures items[k].staged.Some? ==> Look(staged, items[k].staged.value) == Look(prepared, items[k].staged.value)
    {
      assert items[k] == MakeItem(changes[k], k, LiveRoot, dir, File(LiveRoot, changes[k].path) in base);
    }
  }

  /** Applies everything, or rolls back what was applied. */
  method ApplyOrRollBack(disk: Disk, items: seq<Item>, ghost changes: seq<Change>, ghost dir: nat, ghost base: Files)
    returns (ok: bool, errors: seq<string>)
    requires disk.Valid() && dir < disk.serial && |items| == |changes|
    requires ItemsFor(items, changes, LiveRoot, dir, base) && BackedUp(items, |items|, base, disk.files)
    requires StagedFrom(items, 0, base, disk.files)
    modifies disk`files, disk`faults, disk`stuck
    ensures disk.Valid() && old(disk.faults) <= disk.faults
    ensures ok <==> disk.faults == old(disk.faults)
    ensures ok ==> View(disk.files, LiveRoot) ==
                   Overridden(old(View(disk.files, LiveRoot)), View(base, WorkspaceRoot), changes)
    ensures forall l: Loc :: !Workfile(l, dir) && !(l.File? && l.root == LiveRoot) ==>
              Look(disk.files, l) == old(Look(disk.files, l))
    ensures !ok ==> forall p ::
              || Look(disk.files, File(LiveRoot, p)) == Look(base, File(LiveRoot, p))
              || Look(disk.files, File(LiveRoot, p)) == old(Look(disk.files, File(LiveRoot, p)))
              || p in errors
    ensures forall p :: p in errors ==> Touches(changes, p)
    ensures !ok ==> |errors| < disk.faults - old(disk.faults)
  {
    hide Overridden, ItemsFor, StagedFrom, BackedUp, SameExceptItems, Touches, Workfile, View;
    ghost var was := disk.files;
    var applied, done := ApplyItems(disk, items, changes, LiveRoot, dir, base);
    ItemsAreLive(items, changes, dir, base);
    ghost var partly := disk.files;
    if done {
      assert items[..|items|] == items && AppliedChanges(items) == changes;
      OnlyLiveChanged(items, dir, was, partly);
      return true, [];
    }
    AppliedAreBackedUp(items, applied, changes, LiveRoot, dir, base, partly);
    errors := RollBackItems(disk, applied, changes, LiveRoot, dir, base);
    ok := false;
    RestoredOrUntouched(applied, dir, base, was, partly, disk.files, errors);
    AppliedTouch(items, applied, changes);
  }

  lemma AppliedTouch(items: seq<Item>, applied: seq<Item>, changes: seq<Change>)
    requires |items| == |changes| && |applied| <= |items| && applied == items[..|applied|]
    requires forall k {:trigger items[k]} :: 0 <= k < |items| ==> items[k].path == changes[k].path
    ensures forall p :: Touches(AppliedChanges(applied), p) ==> Touches(changes, p)
  {
    forall p | Touches(AppliedChanges(applied), p) ensures Touches(changes, p) {
      var k :| 0 <= k < |applied| && AppliedChanges(applied)[k].path == p;
      assert items[k].path == changes[k].path;
    }
  }

  /** What holds of all items holds of those applied so far. */
  lemma AppliedAreBackedUp(items: seq<Item>, applied: seq<Item>, changes: seq<Change>, root: Root, dir: nat,
                           base: Files, now: Files)
    requires ItemsFor(items, changes, root, dir, base) && BackedUp(items, |items|, base, now)
    requires |applied| <= |items| && applied == items[..|applied|]
    ensures ItemsFor(applied, changes, root, dir, base) && BackedUp(applied, |applied|, base, now)
  {
    assert forall k {:trigger applied[k]} :: 0 <= k < |applied| ==> applied[k] == items[k];
  }

  lemma OnlyLiveChanged(items: seq<Item>, dir: nat, was: Files, now: Files)
    requires forall k {:trigger items[k]} :: 0 <= k < |items| ==> items[k].live == File(LiveRoot, items[k].path)
    requires SameExceptItems(items, dir, was, now)
    ensures forall l: Loc :: !Workfile(l, dir) && !(l.File? && l.root == LiveRoot) ==> Look(now, l) == Look(was, l)
  {
  }

  lemma RestoredOrUntouched(applied: seq<Item>, dir: nat, base: Files, was: Files, partly: Files, now: Files,
                            errors: seq<string>)
    requires forall k {:trigger applied[k]} :: 0 <= k < |applied| ==> applied[k].live == File(LiveRoot, applied[k].path)
    requires SameExceptItems(applied, dir, was, partly) && SameExceptItems(applied, dir, partly, now)
    requires forall k {:trigger applied[k]} :: 0 <= k < |applied| ==>
               Look(now, applied[k].live) == Look(base, applied[k].live) || applied[k].path in errors
    ensures forall p ::
              || Look(now, File(LiveRoot, p)) == Look(base, File(LiveRoot, p))
              || Look(now, File(LiveRoot, p)) == Look(was, File(LiveRoot, p))
              || p in errors
    ensures forall l: Loc :: !Workfile(l, dir) && !(l.File? && l.root == LiveRoot) ==> Look(now, l) == Look(was, l)
  {
    forall l: Loc | !Workfile(l, dir) && !IsLive(applied, l) ensures Look(now, l) == Look(was, l) {
      assert Look(partly, l) == Look(was, l);
    }
    forall p
      ensures || Look(now, File(LiveRoot, p)) == Look(base, File(LiveRoot, p))
              || Look(now, File(LiveRoot, p)) == Look(was, File(LiveRoot, p))
              || p in errors
    {
      var l := File(LiveRoot, p);
      if IsLive(applied, l) {
        var k :| 0 <= k < |applied| && applied[k].live == l;
      }
    }
  }

  lemma ItemsAreLive(items: seq<Item>, changes: seq<Change>, dir: nat, base: Files)
    requires |items| == |changes| && ItemsFor(items, changes, LiveRoot, dir, base)
    ensures forall k {:trigger items[k]} :: 0 <= k < |items| ==>
              items[k].live == File(LiveRoot, items[k].path) && items[k].path == changes[k].path
              && items[k].deleted == changes[k].deleted
  {
    forall k {:trigger items[k]} | 0 <= k < |items|
      ensures items[k] == MakeItem(changes[k], k, LiveRoot, dir, File(LiveRoot, changes[k].path) in base)
    {
    }
  }

  lemma ReportIsElsewhere(files: Files, report: Option<Report>)
    ensures forall l: Loc :: !IsReport(report, l) ==> Look(WithReport(files, report), l) == Look(files, l)
    ensures report.Some? ==> Look(WithReport(files, report), report.value.place) == Some(report.value.text)
  {
  }

  lemma Finished(was: Files, prepared: Files, staged: Files, now: Files, report: Option<Report>, changes: seq<Change>,
                 dir: nat)
    requires SameExceptWork(was, prepared, dir) && (report.Some? ==> Lasting(report.value.place))
    requires staged == WithReport(prepared, report)
    requires View(now, LiveRoot) == Overridden(View(staged, LiveRoot), View(was, WorkspaceRoot), changes)
    requires forall l: Loc :: !Workfile(l, dir) && !(l.File? && l.root == LiveRoot) ==> Look(now, l) == Look(staged, l)
    ensures View(now, LiveRoot) == Overridden(Reported(View(was, LiveRoot), report), View(was, WorkspaceRoot), changes)
    ensures forall l: Loc :: Lasting(l) && l.root != LiveRoot && !IsReport(report, l) ==> Look(now, l) == Look(was, l)
    ensures forall l: Loc :: !Lasting(l) && !Workfile(l, dir) ==> Look(now, l) == Look(was, l)
  {
    hide Overridden, Reported, WithReport;
    ReportIsElsewhere(prepared, report);
    SameView(was, prepared, LiveRoot);
    ReportedView(prepared, report);
    forall l: Loc | !Workfile(l, dir) && !IsReport(report, l)
      ensures Look(staged, l) == Look(was, l)
    {
      assert Look(staged, l) == Look(prepared, l);
    }
  }

  lemma ReportedView(files: Files, report: Option<Report>)
    requires report.Some? ==> Lasting(report.value.place)
    ensures View(WithReport(files, report), LiveRoot) == Reported(View(files, LiveRoot), report)
  {
    if report.Some? {
      var place := report.value.place;
      if place.root == LiveRoot {
        ViewAfterWrite(files, WithReport(files, report), LiveRoot, place.path);
      } else {
        SameView(files, WithReport(files, report), LiveRoot);
      }
    }
  }

  lemma Unwound(was: Files, prepared: Files, staged: Files, now: Files, report: Option<Report>, dir: nat,
                errors: seq<string>)
    requires SameExceptWork(was, prepared, dir)
    requires staged == WithReport(prepared, report)
    requires forall l: Loc :: !Workfile(l, dir) && !(l.File? && l.root == LiveRoot) ==> Look(now, l) == Look(staged, l)
    requires forall p ::
               || Look(now, File(LiveRoot, p)) == Look(was, File(LiveRoot, p))
               || Look(now, File(LiveRoot, p)) == Look(staged, File(LiveRoot, p))
               || p in errors
    ensures RolledBack(was, now, report, errors)
  {
    forall l: Loc | Lasting(l)
      ensures || Look(now, l) == Look(was, l)
              || (IsReport(report, l) && Look(now, l) == Some(report.value.text))
              || (l.root == LiveRoot && l.path in errors)
    {
      assert Look(prepared, l) == Look(was, l);
      if l.root == LiveRoot { assert l == File(LiveRoot, l.path); }
    }
  }

  lemma TouchedPathsAreChanged(files: seq<Entry>, changes: seq<Change>)
    requires Decodes(files, changes)
    ensures forall p :: Touches(changes, p) ==> p in ChangedPaths(files)
  {
    forall p | Touches(changes, p) ensures p in ChangedPaths(files) {
      var k :| 0 <= k < |changes| && changes[k].path == p;
      SomesMembers(Paths(files), p);
      assert Paths(files)[k] == Some(p);
    }
  }
}
