// Rehearsing a manifest's apply and rollback on a copy of the files it names.

module Rehearsal {
  import opened Options
  import opened RepoPaths
  import opened Disks
  import opened AtomicWrite
  import opened ManifestApply

  datatype FileResult = FileResult(path: string, applyVerified: bool, rollbackVerified: bool)

  datatype RehearsalResult =
    | Raised(reason: Failure)
    | Rehearsed(pass: bool, results: seq<FileResult>, diagnostics: nat)

  function PathSet(files: seq<Entry>): set<string> {
    set k | 0 <= k < |files| && Paths(files)[k].Some? :: Paths(files)[k].value
  }

  /** What each named path held before: nothing, or a content. */
  type Baseline = map<string, Option<Content>>

  /** The copy of the first entries' files. */
  ghost predicate Seeded(paths: seq<Option<string>>, n: nat, dir: nat, was: Files, now: Files, baseline: Baseline)
    requires n <= |paths|
  {
    && (forall l: Loc :: !(l.File? && l.root == CopyRoot(dir)) ==> Look(now, l) == Look(was, l))
    && (forall p :: p in baseline <==> Some(p) in paths[..n])
    && (forall p :: p in baseline ==>
         && baseline[p] == Look(was, File(LiveRoot, p))
         && Look(now, File(CopyRoot(dir), p)) == Look(was, File(LiveRoot, p)))
    && (forall p :: p !in baseline ==> File(CopyRoot(dir), p) !in now)
  }

  lemma SeedStep(paths: seq<Option<string>>, n: nat, dir: nat, was: Files, before: Files, now: Files,
                 earlier: Baseline, baseline: Baseline)
    requires n < |paths| && Seeded(paths, n, dir, was, before, earlier)
    requires paths[n].None? ==> now == before && baseline == earlier
    requires paths[n].Some? ==>
               && baseline == earlier[paths[n].value := Look(was, File(LiveRoot, paths[n].value))]
               && (forall l: Loc :: l != File(CopyRoot(dir), paths[n].value) ==> Look(now, l) == Look(before, l))
               && (File(LiveRoot, paths[n].value) in was ==>
                    Look(now, File(CopyRoot(dir), paths[n].value)) == Look(was, File(LiveRoot, paths[n].value)))
               && (File(LiveRoot, paths[n].value) !in was ==> now == before)
    ensures Seeded(paths, n + 1, dir, was, now, baseline)
  {
    assert paths[..n + 1] == paths[..n] + [paths[n]];
    if paths[n].Some? {
      forall p | p in baseline
        ensures Look(now, File(CopyRoot(dir), p)) == Look(was, File(LiveRoot, p))
      {
        if p != paths[n].value {
          assert p in earlier && Look(now, File(CopyRoot(dir), p)) == Look(before, File(CopyRoot(dir), p));
        }
      }
      forall p | p !in baseline ensures File(CopyRoot(dir), p) !in now {
        assert Look(now, File(CopyRoot(dir), p)) == Look(before, File(CopyRoot(dir), p));
      }
    }
  }

  method SeedCopy(disk: Disk, paths: seq<Option<string>>, dir: nat) returns (baseline: Baseline, ok: bool)
    requires disk.Valid() && dir < disk.serial
    requires forall l: Loc :: l in disk.files ==> !(l.File? && l.root == CopyRoot(dir))
    modifies disk`files, disk`faults
    ensures disk.Valid() && old(disk.faults) <= disk.faults
    ensures ok <==> disk.faults == old(disk.faults)
    ensures ok ==> Seeded(paths, |paths|, dir, old(disk.files), disk.files, baseline)
    ensures forall l: Loc :: !(l.File? && l.root == CopyRoot(dir)) ==> Look(disk.files, l) == old(Look(disk.files, l))
  {
    ghost var was := disk.files;
    baseline, ok := map[], true;
    for n := 0 to |paths|
      invariant disk.Valid() && disk.faults == old(disk.faults)
      invariant Seeded(paths, n, dir, was, disk.files, baseline)
    {
      ghost var before, earlier := disk.files, baseline;
      if paths[n].Some? {
        var p := paths[n].value;
        var source, target := File(LiveRoot, p), File(CopyRoot(dir), p);
        assert Look(before, source) == Look(was, source);
        if source !in disk.files {
          baseline := baseline[p := None];
        } else {
          var copied := disk.Copy(source, target);
          if !copied { return baseline, false; }
          if * {
            disk.faults := disk.faults + 1;
            return baseline, false;
          }
          baseline := baseline[p := Some(disk.files[source])];
        }
      }
      SeedStep(paths, n, dir, was, before, disk.files, earlier, baseline);
    }
    assert paths[..|paths|] == paths;
  }

  /** Compares what one item was to do with what the copy holds; a read error counts as a mismatch. */
  method VerifyApply(disk: Disk, item: Item) returns (verified: bool)
    requires disk.Valid()
    modifies disk`faults
    ensures old(disk.faults) <= disk.faults <= old(disk.faults) + 1
    ensures verified ==> ApplyHolds(item, disk.files)
    ensures disk.faults == old(disk.faults) ==> (verified <==> ApplyHolds(item, disk.files))
  {
    if * {
      disk.faults := disk.faults + 1;
      return false;
    }
    if item.deleted { return item.live !in disk.files; }
    if item.workspace.None? || item.workspace.value !in disk.files { return false; }
    return item.live in disk.files && disk.files[item.live] == disk.files[item.workspace.value];
  }

  ghost predicate ApplyHolds(item: Item, files: Files) {
    if item.deleted then item.live !in files
    else
      && item.workspace.Some? && item.workspace.value in files
      && Look(files, item.live) == Look(files, item.workspace.value)
  }

  method VerifyRollback(disk: Disk, item: Item, baseline: Option<Content>) returns (verified: bool)
    requires disk.Valid()
    modifies disk`faults
    ensures old(disk.faults) <= disk.faults <= old(disk.faults) + 1
    ensures verified ==> Look(disk.files, item.live) == baseline
    ensures disk.faults == old(disk.faults) ==> (verified <==> Look(disk.files, item.live) == baseline)
  {
    if * {
      disk.faults := disk.faults + 1;
      return false;
    }
    return Look(disk.files, item.live) == baseline;
  }

  ghost predicate LastItem(items: seq<Item>, n: nat, k: nat)
    requires k < n <= |items|
  {
    forall j :: k < j < n ==> items[j].path != items[k].path
  }

  /** The verdict kept for a path: a positive one is right, and without read
      errors so is a negative one. */
  ghost predicate KeptVerdict(verdicts: map<string, bool>, path: string, holds: bool, errorFree: bool) {
    path in verdicts && (verdicts[path] ==> holds) && (errorFree && holds ==> verdicts[path])
  }

  /** The verdicts on the first n items: the one kept for a path is that of its last item. */
  ghost predicate VerdictsSoFar(items: seq<Item>, n: nat, verdicts: map<string, bool>, files: Files, errorFree: bool)
    requires n <= |items|
  {
    && (forall k :: 0 <= k < n ==> items[k].path in verdicts)
    && (forall k :: 0 <= k < n && LastItem(items, n, k) ==>
         KeptVerdict(verdicts, items[k].path, ApplyHolds(items[k], files), errorFree))
  }

  lemma NextVerdict(items: seq<Item>, n: nat, verdicts: map<string, bool>, files: Files, before: bool, now: bool,
                    verified: bool)
    requires n < |items| && VerdictsSoFar(items, n, verdicts, files, before) && (now ==> before)
    requires (verified ==> ApplyHolds(items[n], files)) && (now && ApplyHolds(items[n], files) ==> verified)
    ensures VerdictsSoFar(items, n + 1, verdicts[items[n].path := verified], files, now)
  {
    hide ApplyHolds;
    forall k | 0 <= k < n && LastItem(items, n + 1, k)
      ensures LastItem(items, n, k) && items[n].path != items[k].path
    {
    }
  }

  /** Records one verdict per path; a later item for the same path replaces the earlier verdict. */
  method VerifyAllApplied(disk: Disk, items: seq<Item>) returns (verdicts: map<string, bool>)
    requires disk.Valid()
    modifies disk`faults
    ensures disk.Valid() && old(disk.faults) <= disk.faults
    ensures VerdictsSoFar(items, |items|, verdicts, disk.files, disk.faults == old(disk.faults))
  {
    hide VerdictsSoFar, ApplyHolds;
    verdicts := map[];
    NoVerdicts(items, disk.files);
    for n := 0 to |items|
      invariant disk.Valid() && old(disk.faults) <= disk.faults
      invariant VerdictsSoFar(items, n, verdicts, disk.files, disk.faults == old(disk.faults))
    {
      ghost var before := disk.faults == old(disk.faults);
      var verified := VerifyApply(disk, items[n]);
      NextVerdict(items, n, verdicts, disk.files, before, disk.faults == old(disk.faults), verified);
      verdicts := verdicts[items[n].path := verified];
    }
  }

  lemma NoVerdicts(items: seq<Item>, files: Files)
    ensures VerdictsSoFar(items, 0, map[], files, true)
  {
  }

  method VerifyAllRolledBack(disk: Disk, items: seq<Item>, baseline: Baseline) returns (verdicts: map<string, bool>)
    requires disk.Valid()
    requires forall j, k :: 0 <= j < k < |items| && items[j].path == items[k].path ==> items[j].live == items[k].live
    requires forall k :: 0 <= k < |items| ==> items[k].path in baseline
    modifies disk`faults
    ensures disk.Valid() && old(disk.faults) <= disk.faults
    ensures forall k :: 0 <= k < |items| ==> items[k].path in verdicts
    ensures forall k :: 0 <= k < |items| ==>
              KeptVerdict(verdicts, items[k].path, Look(disk.files, items[k].live) == baseline[items[k].path],
                          disk.faults == old(disk.faults))
  {
    verdicts := map[];
    for n := 0 to |items|
      invariant disk.Valid() && old(disk.faults) <= disk.faults
      invariant forall k :: 0 <= k < n ==> items[k].path in verdicts
      invariant forall k :: 0 <= k < n ==>
                  KeptVerdict(verdicts, items[k].path, Look(disk.files, items[k].live) == baseline[items[k].path],
                              disk.faults == old(disk.faults))
    {
      var verified := VerifyRollback(disk, items[n], baseline[items[n].path]);
      verdicts := verdicts[items[n].path := verified];
    }
  }

  function FileResults(items: seq<Item>, applied: map<string, bool>, rolledBack: map<string, bool>): seq<FileResult>
    requires forall k :: 0 <= k < |items| ==> items[k].path in applied && items[k].path in rolledBack
  {
    seq(|items|, k requires 0 <= k < |items| =>
      FileResult(items[k].path, applied[items[k].path], rolledBack[items[k].path]))
  }

  predicate AllVerified(results: seq<FileResult>) {
    forall k :: 0 <= k < |results| ==> results[k].applyVerified && results[k].rollbackVerified
  }

  /** What applying the manifest to the copy gives. */
  function RehearsedTree(was: Files, files: seq<Entry>): Tree
    requires Applicable(files, View(was, WorkspaceRoot))
  {
    Overridden(Restrict(View(was, LiveRoot), PathSet(files)), View(was, WorkspaceRoot), Changes(files))
  }

  /** The rehearsal proper, between creating and removing its directory. */
  method RehearseInDirectory(disk: Disk, files: seq<Entry>, dir: nat)
    returns (results: seq<FileResult>, diagnostics: nat, ghost copy: Tree)
    requires disk.Valid() && dir < disk.serial
    requires forall l: Loc :: l in disk.files ==> !InDirectory(l, dir)
    modifies disk`files, disk`faults, disk`stuck
    ensures disk.Valid() && old(disk.faults) <= disk.faults
    ensures forall l: Loc :: !InDirectory(l, dir) ==> Look(disk.files, l) == old(Look(disk.files, l))
    ensures diagnostics == 0 ==> Applicable(files, View(old(disk.files), WorkspaceRoot))
    ensures diagnostics == 0 ==> copy == RehearsedTree(old(disk.files), files)
    ensures diagnostics == 0 ==> |results| == |files|
    ensures diagnostics == 0 && AllVerified(results) ==>
              BaselineIsBack(View(disk.files, CopyRoot(dir)), old(disk.files), files)
    ensures results == [] || ResultsAreHonest(results, files, copy, View(disk.files, CopyRoot(dir)), old(disk.files))
    ensures disk.faults == old(disk.faults) ==>
              forall l: Loc :: !Lasting(l) && l in disk.files ==> l in old(disk.files) || InDirectory(l, dir)
    ensures disk.faults == old(disk.faults) ==>
              (diagnostics == 0 && AllVerified(results) <==> Applicable(files, View(old(disk.files), WorkspaceRoot)))
  {
    ghost var was, root := disk.files, CopyRoot(dir);
    copy := map[];
    var baseline, seeded := SeedCopy(disk, Paths(files), dir);
    if !seeded { return [], 1, copy; }
    ghost var seed := disk.files;
    var items, failure;
    ghost var changes;
    items, failure, changes := PrepareItems(disk, CopyRoot(dir), dir, files);
    ghost var prepared := disk.files;
    SameView(was, seed, WorkspaceRoot);
    if failure.Some? { return [], 1, copy; }
    SeededView(files, dir, was, seed, baseline);
    WorkfilesAreNotSeen(seed, prepared, dir, CopyRoot(dir));
    CopyItems(items, changes, dir, seed);
    BaselineOfItems(files, items, changes, dir, was, seed, baseline);
    results, diagnostics, copy := RunRehearsal(disk, items, changes, dir, seed, baseline);
    ToldResultsAreHonest(results, files, items, changes, dir, was, seed, disk.files, baseline, copy);
    if AllVerified(results) { AllVerifiedIsBack(results, files, copy, View(disk.files, CopyRoot(dir)), was); }
    forall l: Loc | !InDirectory(l, dir) ensures Look(disk.files, l) == Look(was, l) {
      assert Look(prepared, l) == Look(seed, l);
    }
  }

  lemma WorkfilesAreNotSeen(a: Files, b: Files, dir: nat, root: Root)
    requires SameExceptWork(a, b, dir)
    ensures View(a, root) == View(b, root)
  {
    forall p ensures Look(a, File(root, p)) == Look(b, File(root, p)) {
      assert !Workfile(File(root, p), dir);
    }
    SameView(a, b, root);
  }

  /** Applies, verifies, rolls back and verifies again. */
  method RunRehearsal(disk: Disk, items: seq<Item>, ghost changes: seq<Change>, dir: nat, ghost seed: Files,
                      baseline: Baseline)
    returns (results: seq<FileResult>, diagnostics: nat, ghost copy: Tree)
    requires disk.Valid() && dir < disk.serial
    requires Prepared(items, changes, CopyRoot(dir), dir, seed, disk.files) && ActsOnCopy(items, changes, dir)
    requires forall k {:trigger items[k]} :: 0 <= k < |items| ==>
               items[k].path in baseline && baseline[items[k].path] == Look(seed, items[k].live)
    modifies disk`files, disk`faults, disk`stuck
    ensures disk.Valid() && old(disk.faults) <= disk.faults
    ensures forall l: Loc :: !InDirectory(l, dir) ==> Look(disk.files, l) == old(Look(disk.files, l))
    ensures diagnostics == 0 ==>
              copy == Overridden(old(View(disk.files, CopyRoot(dir))), View(seed, WorkspaceRoot), changes)
    ensures diagnostics == 0 ==>
              forall k {:trigger items[k]} :: 0 <= k < |items| ==>
                Look(disk.files, items[k].live) == baseline[items[k].path]
    ensures ResultsTell(results, items, changes, copy, View(seed, WorkspaceRoot), disk.files, baseline)
    ensures disk.faults == old(disk.faults) ==> diagnostics == 0 && AllVerified(results)
  {
    hide Overridden, VerdictsSoFar, IsLastFor, ApplyHolds, AllPresent, Touches, ItemsFor, StagedFrom, BackedUp, View;
    ghost var prepared := disk.files;
    var applied, ok := ApplyItems(disk, items, changes, CopyRoot(dir), dir, seed);
    ghost var after := disk.files;
    copy := View(after, CopyRoot(dir));
    if ok { assert items[..|items|] == items && AppliedChanges(items) == changes; }
    diagnostics := if ok then 0 else 1;
    ghost var faults := disk.faults;
    var applyVerdicts := VerifyAllApplied(disk, items);
    AppliedAreBackedUp(items, applied, changes, CopyRoot(dir), dir, seed, disk.files);
    ghost var exact := disk.faults == faults;
    VerdictsAreGiven(items, applyVerdicts, after, exact);
    var errors := RollBackItems(disk, applied, changes, CopyRoot(dir), dir, seed);
    diagnostics := diagnostics + |errors|;
    var rollbackVerdicts := VerifyAllRolledBack(disk, items, baseline);
    results := FileResults(items, applyVerdicts, rollbackVerdicts);
    VerdictsTell(items, applied, changes, dir, seed, prepared, after, disk.files, applyVerdicts, rollbackVerdicts,
      baseline, exact);
    OnlyInside(prepared, after, disk.files, items, applied, changes, dir);
    if disk.faults == old(disk.faults) {
      ApplyVerdictsHold(items, changes, dir, seed, prepared, after);
      VerdictsOfLast(items, changes, dir, after, applyVerdicts);
    }
  }

  /** What the per-file results say: a verified apply of a path's last entry
      held on the copy, and a verified rollback put the path's baseline back. */
  ghost predicate ResultsTell(results: seq<FileResult>, items: seq<Item>, changes: seq<Change>, copy: Tree, work: Tree,
                              now: Files, baseline: Baseline)
  {
    && |results| == |items| == |changes|
    && forall k {:trigger results[k]} :: 0 <= k < |results| ==>
         && results[k].path == items[k].path && items[k].path in baseline
         && (results[k].applyVerified && IsLastFor(changes, k) ==> Held(copy, work, changes[k]))
         && (results[k].rollbackVerified ==> Look(now, items[k].live) == baseline[items[k].path])
  }

  ghost predicate Held(copy: Tree, work: Tree, c: Change) {
    Satisfied(copy, work, c) && (!c.deleted ==> c.path in work)
  }

  lemma VerdictsTell(items: seq<Item>, applied: seq<Item>, changes: seq<Change>, dir: nat, seed: Files, prepared: Files,
                     after: Files, now: Files, applyVerdicts: map<string, bool>, rollbackVerdicts: map<string, bool>,
                     baseline: Baseline, exact: bool)
    requires ActsOnCopy(items, changes, dir) && |applied| <= |items| && applied == items[..|applied|]
    requires VerdictsSoFar(items, |items|, applyVerdicts, after, exact)
    requires SameExceptWork(seed, prepared, dir) && SameExceptItems(applied, dir, prepared, after)
    requires forall k :: 0 <= k < |items| ==>
               items[k].path in applyVerdicts && items[k].path in rollbackVerdicts && items[k].path in baseline
    requires forall k :: 0 <= k < |items| && rollbackVerdicts[items[k].path] ==>
               Look(now, items[k].live) == baseline[items[k].path]
    ensures ResultsTell(FileResults(items, applyVerdicts, rollbackVerdicts), items, changes, View(after, CopyRoot(dir)),
                        View(seed, WorkspaceRoot), now, baseline)
  {
    hide View;
    forall k | 0 <= k < |items| && applyVerdicts[items[k].path] && IsLastFor(changes, k)
      ensures Held(View(after, CopyRoot(dir)), View(seed, WorkspaceRoot), changes[k])
    {
      assert LastItem(items, |items|, k) by {
        forall j | k < j < |items| ensures items[j].path != items[k].path {
          assert items[j].path == changes[j].path;
        }
      }
      assert ApplyHolds(items[k], after);
      var source := File(WorkspaceRoot, changes[k].path);
      assert !IsLive(applied, source) by {
        assert forall i :: 0 <= i < |applied| ==> applied[i] == items[i];
      }
      assert Look(after, source) == Look(prepared, source) == Look(seed, source);
      ViewLooks(after, CopyRoot(dir), changes[k].path);
      ViewLooks(seed, WorkspaceRoot, changes[k].path);
    }
  }

  /** The tree holds at every manifest path what the live tree held before. */
  ghost predicate BaselineIsBack(tree: Tree, was: Files, files: seq<Entry>) {
    forall p :: p in PathSet(files) ==> At(tree, p) == Look(was, File(LiveRoot, p))
  }

  /** What the results say, in terms of the manifest's own entries. */
  ghost predicate ResultsAreHonest(results: seq<FileResult>, files: seq<Entry>, copy: Tree, restored: Tree,
                                   was: Files) {
    && |results| == |files|
    && forall k {:trigger results[k]} :: 0 <= k < |results| ==>
         && Usable(files[k], was) && EntryPath(files[k]) == Some(results[k].path)
         && (results[k].applyVerified && LastForItsPath(files, k) ==>
              At(copy, results[k].path)
              == if files[k].change == Deleted then None else Look(was, File(WorkspaceRoot, results[k].path)))
         && (results[k].rollbackVerified ==>
               At(restored, results[k].path) == Look(was, File(LiveRoot, results[k].path)))
  }

  lemma {:induction false} ToldResultsAreHonest(results: seq<FileResult>, files: seq<Entry>, items: seq<Item>,
                                                changes: seq<Change>, dir: nat, was: Files, seed: Files, now: Files,
                                                baseline: Baseline, copy: Tree)
    requires Decodes(files, changes) && |changes| == |files| && ActsOnCopy(items, changes, dir)
    requires Applicable(files, View(was, WorkspaceRoot)) && View(seed, WorkspaceRoot) == View(was, WorkspaceRoot)
    requires Seeded(Paths(files), |files|, dir, was, seed, baseline)
    requires ResultsTell(results, items, changes, copy, View(seed, WorkspaceRoot), now, baseline)
    ensures ResultsAreHonest(results, files, copy, View(now, CopyRoot(dir)), was)
  {
    hide View, EntryPath, Applicable;
    ApplicableMeans(files, was);
    forall k {:trigger results[k]} | 0 <= k < |results|
      ensures Usable(files[k], was) && EntryPath(files[k]) == Some(results[k].path)
      ensures results[k].applyVerified && LastForItsPath(files, k) ==>
                At(copy, results[k].path)
                == if files[k].change == Deleted then None else Look(was, File(WorkspaceRoot, results[k].path))
      ensures results[k].rollbackVerified ==>
                At(View(now, CopyRoot(dir)), results[k].path) == Look(was, File(LiveRoot, results[k].path))
    {
      assert AsChange(files[k]) == changes[k] && items[k].path == changes[k].path;
      ViewLooks(now, CopyRoot(dir), results[k].path);
      ViewLooks(was, WorkspaceRoot, results[k].path);
      if LastForItsPath(files, k) {
        forall j | k < j < |changes| ensures changes[j].path != changes[k].path {
          assert AsChange(files[j]) == changes[j];
        }
        assert IsLastFor(changes, k);
      }
    }
  }

  lemma AllVerifiedIsBack(results: seq<FileResult>, files: seq<Entry>, copy: Tree, restored: Tree, was: Files)
    requires ResultsAreHonest(results, files, copy, restored, was) && AllVerified(results)
    ensures BaselineIsBack(restored, was, files)
  {
    hide EntryPath;
    forall p | p in PathSet(files) ensures At(restored, p) == Look(was, File(LiveRoot, p)) {
      var k :| 0 <= k < |files| && Paths(files)[k].Some? && Paths(files)[k].value == p;
      assert results[k].path == p;
    }
  }

  lemma VerdictsAreGiven(items: seq<Item>, verdicts: map<string, bool>, files: Files, errorFree: bool)
    requires VerdictsSoFar(items, |items|, verdicts, files, errorFree)
    ensures forall k :: 0 <= k < |items| ==> items[k].path in verdicts
  {
  }

  lemma VerdictsOfLast(items: seq<Item>, changes: seq<Change>, dir: nat, after: Files, verdicts: map<string, bool>)
    requires ActsOnCopy(items, changes, dir)
    requires VerdictsSoFar(items, |items|, verdicts, after, true)
    requires forall k {:trigger items[k]} :: 0 <= k < |items| && IsLastFor(changes, k) ==> ApplyHolds(items[k], after)
    ensures forall k :: 0 <= k < |items| ==> items[k].path in verdicts && verdicts[items[k].path]
  {
    forall k | 0 <= k < |items| ensures verdicts[items[k].path] {
      var last := LastIndexFor(changes, k);
      assert items[last].path == items[k].path;
      assert LastItem(items, |items|, last) by {
        forall j | last < j < |items| ensures items[j].path != items[last].path {
          assert items[j].path == changes[j].path;
        }
      }
    }
  }

  /** Each item acts on the copy as its change says. */
  ghost predicate ActsOnCopy(items: seq<Item>, changes: seq<Change>, dir: nat) {
    && |items| == |changes|
    && forall k {:trigger items[k]} :: 0 <= k < |items| ==>
         && items[k].live == File(CopyRoot(dir), changes[k].path)
         && items[k].path == changes[k].path && items[k].deleted == changes[k].deleted
         && items[k].workspace == (if changes[k].deleted then None else Some(File(WorkspaceRoot, changes[k].path)))
  }

  lemma CopyItems(items: seq<Item>, changes: seq<Change>, dir: nat, base: Files)
    requires |items| == |changes| && ItemsFor(items, changes, CopyRoot(dir), dir, base)
    ensures ActsOnCopy(items, changes, dir)
  {
    forall k {:trigger items[k]} | 0 <= k < |items|
      ensures items[k] == MakeItem(changes[k], k, CopyRoot(dir), dir, File(CopyRoot(dir), changes[k].path) in base)
    {
    }
  }

  lemma BaselineOfItems(files: seq<Entry>, items: seq<Item>, changes: seq<Change>, dir: nat, was: Files, seed: Files,
                        baseline: Baseline)
    requires Decodes(files, changes) && |changes| == |files| && ActsOnCopy(items, changes, dir)
    requires Seeded(Paths(files), |files|, dir, was, seed, baseline)
    ensures forall k {:trigger items[k]} :: 0 <= k < |items| ==>
              items[k].path in baseline && baseline[items[k].path] == Look(seed, items[k].live)
  {
    var paths := Paths(files);
    assert paths[..|files|] == paths;
    forall k {:trigger items[k]} | 0 <= k < |items|
      ensures items[k].path in baseline && baseline[items[k].path] == Look(seed, items[k].live)
    {
      assert AsChange(files[k]) == changes[k];
      assert paths[k] == Some(items[k].path);
    }
  }

  lemma SeededView(files: seq<Entry>, dir: nat, was: Files, seed: Files, baseline: Baseline)
    requires Seeded(Paths(files), |files|, dir, was, seed, baseline)
    ensures View(seed, CopyRoot(dir)) == Restrict(View(was, LiveRoot), PathSet(files))
  {
    var paths := Paths(files);
    assert paths[..|files|] == paths;
    forall p ensures p in baseline <==> p in PathSet(files) {
      if p in baseline {
        var k :| 0 <= k < |paths| && paths[k] == Some(p);
      }
    }
    forall p ensures At(View(seed, CopyRoot(dir)), p) == At(Restrict(View(was, LiveRoot), PathSet(files)), p) {
      ViewLooks(seed, CopyRoot(dir), p);
      ViewLooks(was, LiveRoot, p);
    }
    SameTree(View(seed, CopyRoot(dir)), Restrict(View(was, LiveRoot), PathSet(files)));
  }

  lemma OnlyInside(prepared: Files, after: Files, now: Files, items: seq<Item>, applied: seq<Item>,
                   changes: seq<Change>, dir: nat)
    requires ActsOnCopy(items, changes, dir)
    requires |applied| <= |items| && applied == items[..|applied|]
    requires SameExceptItems(applied, dir, prepared, after) && SameExceptItems(applied, dir, after, now)
    ensures forall l: Loc :: !InDirectory(l, dir) ==> Look(now, l) == Look(prepared, l)
  {
    forall l: Loc | !InDirectory(l, dir) ensures Look(now, l) == Look(prepared, l) {
      assert !IsLive(applied, l);
      assert Look(after, l) == Look(prepared, l);
    }
  }

  /** On an error-free run the last item of every path finds the copy as it wants it. */
  lemma {:induction false} ApplyVerdictsHold(items: seq<Item>, changes: seq<Change>, dir: nat, seed: Files,
                                             prepared: Files, after: Files)
    requires ActsOnCopy(items, changes, dir)
    requires AllPresent(View(seed, WorkspaceRoot), changes)
    requires SameExceptWork(seed, prepared, dir) && SameExceptItems(items, dir, prepared, after)
    requires View(after, CopyRoot(dir)) ==
             Overridden(View(prepared, CopyRoot(dir)), View(seed, WorkspaceRoot), changes)
    ensures forall k {:trigger items[k]} :: 0 <= k < |items| && IsLastFor(changes, k) ==> ApplyHolds(items[k], after)
  {
    hide View;
    LastEntryWins(View(prepared, CopyRoot(dir)), View(seed, WorkspaceRoot), changes);
    forall k | 0 <= k < |items| && IsLastFor(changes, k) ensures ApplyHolds(items[k], after) {
      var source := File(WorkspaceRoot, changes[k].path);
      assert !IsLive(items, source);
      assert Look(after, source) == Look(prepared, source) == Look(seed, source);
      SatisfiedOnDisk(after, seed, CopyRoot(dir), changes[k]);
    }
  }

  lemma SatisfiedOnDisk(after: Files, seed: Files, root: Root, c: Change)
    requires Satisfied(View(after, root), View(seed, WorkspaceRoot), c)
    ensures Look(after, File(root, c.path)) == if c.deleted then None else Look(seed, File(WorkspaceRoot, c.path))
  {
    ViewLooks(after, root, c.path);
    ViewLooks(seed, WorkspaceRoot, c.path);
  }

  /** Rehearses the whole transaction. `copy` is the copy's tree after applying,
      `restored` its tree after rolling back. */
  method RehearseManifestApplyRollback(disk: Disk, files: seq<Entry>, allowedRoots: seq<string>, report: Report)
    returns (r: RehearsalResult, ghost copy: Tree, ghost restored: Tree)
    requires disk.Valid() && Lasting(report.place)
    modifies disk
    ensures disk.Valid() && old(disk.faults) <= disk.faults
    ensures r.Rehearsed? && r.pass ==>
              && Guarded(files, allowedRoots) && Applicable(files, View(old(disk.files), WorkspaceRoot))
              && copy == RehearsedTree(old(disk.files), files)
              && BaselineIsBack(restored, old(disk.files), files)
    ensures r.Rehearsed? ==> Look(disk.files, report.place) == Some(report.text)
    ensures Look(disk.files, report.place) in {old(Look(disk.files, report.place)), Some(report.text)}
    ensures r.Raised? ==> r.reason in {MissingTimestamp, GuardRejected, NoDirectory, IoError}
    ensures r.Raised? && r.reason != IoError ==> disk.files == old(disk.files)
    ensures r.Raised? && r.reason == MissingTimestamp <==> report.generatedAt == ""
    ensures report.generatedAt != "" ==> (r.Raised? && r.reason == GuardRejected <==> !Guarded(files, allowedRoots))
    ensures r.Rehearsed? ==> (r.pass <==> r.diagnostics == 0 && AllVerified(r.results))
    ensures r.Rehearsed? && r.results != [] ==> ResultsAreHonest(r.results, files, copy, restored, old(disk.files))
    ensures disk.faults == old(disk.faults) ==>
              forall l: Loc :: !Lasting(l) && l in disk.files ==> l in old(disk.files)
    ensures disk.faults == old(disk.faults) ==>
              (r.Rehearsed? <==> Guarded(files, allowedRoots) && report.generatedAt != "")
    ensures disk.faults == old(disk.faults) && r.Rehearsed? ==>
              (r.pass <==> Applicable(files, View(old(disk.files), WorkspaceRoot)))
    ensures forall l: Loc :: Lasting(l) && l != report.place ==> Look(disk.files, l) == old(Look(disk.files, l))
  {
    hide Guarded, Applicable, BaselineIsBack, RehearsedTree, View, TempsKept, ResultsAreHonest;
    copy, restored := map[], map[];
    if report.generatedAt == "" { return Raised(MissingTimestamp), copy, restored; }
    var changed := ValidateGuard(files, allowedRoots);
    if changed.None? { return Raised(GuardRejected), copy, restored; }
    var dir, made := disk.MakeDirectory();
    if !made { return Raised(NoDirectory), copy, restored; }
    var results, diagnostics;
    results, diagnostics, copy := RehearseInDirectory(disk, files, dir);
    ghost var rehearsed := disk.files;
    restored := View(rehearsed, CopyRoot(dir));
    disk.RemoveTree(dir);
    assert forall l: Loc :: Lasting(l) ==> Look(disk.files, l) == Look(rehearsed, l);
    ghost var removed := disk.files;
    var written := AtomicWriteText(disk, report.place, report.text);
    if !written { return Raised(IoError), copy, restored; }
    return Rehearsed(diagnostics == 0 && AllVerified(results), results, diagnostics), copy, restored;
  }

  /** The manifest's own workspace files are the same on both disks. */
  ghost predicate SameCandidates(before: Files, was: Files, files: seq<Entry>) {
    forall p :: p in PathSet(files) ==> Look(was, File(WorkspaceRoot, p)) == Look(before, File(WorkspaceRoot, p))
  }

  /** A rehearsed manifest stays applicable while its candidates stay as they were. */
  lemma {:induction false} RehearsedStaysApplicable(before: Files, was: Files, files: seq<Entry>)
    requires Applicable(files, View(before, WorkspaceRoot)) && SameCandidates(before, was, files)
    ensures Applicable(files, View(was, WorkspaceRoot))
  {
    forall k | 0 <= k < |files| ensures Preparable(files[k], View(was, WorkspaceRoot)) {
      assert Preparable(files[k], View(before, WorkspaceRoot));
      assert Paths(files)[k].value in PathSet(files);
      ViewLooks(was, WorkspaceRoot, AsChange(files[k]).path);
      ViewLooks(before, WorkspaceRoot, AsChange(files[k]).path);
    }
  }

  /** A passing rehearsal predicts the real run: while the manifest's own
      candidates stay as they were, a completed transaction leaves at every
      manifest path exactly what the rehearsed copy held. */
  lemma {:induction false} RehearsalPredicts(before: Files, was: Files, now: Files, files: seq<Entry>,
                                             report: Option<Report>)
    requires Applicable(files, View(before, WorkspaceRoot)) && SameCandidates(before, was, files)
    requires Transformed(was, now, files, report)
    ensures Restrict(View(now, LiveRoot), PathSet(files)) == RehearsedTree(before, files)
  {
    hide View;
    var changes, paths := Changes(files), PathSet(files);
    var work0, work1 := View(before, WorkspaceRoot), View(was, WorkspaceRoot);
    forall k | 0 <= k < |changes|
      ensures changes[k].path in paths && (!changes[k].deleted ==> changes[k].path in work0 && changes[k].path in work1)
    {
      assert Preparable(files[k], work0) && Preparable(files[k], work1);
      assert Paths(files)[k] == Some(changes[k].path);
    }
    forall p | p in paths ensures Touches(changes, p) && At(work0, p) == At(work1, p) {
      var k :| 0 <= k < |files| && Paths(files)[k].Some? && Paths(files)[k].value == p;
      assert changes[k].path == p;
      ViewLooks(was, WorkspaceRoot, p);
      ViewLooks(before, WorkspaceRoot, p);
    }
    BaseDoesNotMatter(Restrict(View(before, LiveRoot), paths), Reported(View(was, LiveRoot), report), work0, work1,
      changes, paths);
  }

  /** At the manifest's own paths the outcome depends on the workspace files
      only, and there is nothing else in the copy. */
  lemma {:induction false} BaseDoesNotMatter(base0: Tree, base1: Tree, work0: Tree, work1: Tree, changes: seq<Change>,
                                             paths: set<string>)
    requires AllPresent(work0, changes) && AllPresent(work1, changes)
    requires forall p :: p in paths <==> Touches(changes, p)
    requires forall p :: p in paths ==> At(work0, p) == At(work1, p)
    requires forall p :: p in base0 ==> p in paths
    ensures Restrict(Overridden(base1, work1, changes), paths) == Overridden(base0, work0, changes)
  {
    LastEntryWins(base0, work0, changes);
    LastEntryWins(base1, work1, changes);
    var a, b := Overridden(base0, work0, changes), Restrict(Overridden(base1, work1, changes), paths);
    forall p ensures At(a, p) == At(b, p) {
      if p in paths {
        var k :| 0 <= k < |changes| && changes[k].path == p;
        var last := LastIndexFor(changes, k);
        assert Satisfied(a, work0, changes[last]);
        assert Satisfied(Overridden(base1, work1, changes), work1, changes[last]);
      } else {
        assert !Touches(changes, p);
      }
    }
    SameTree(a, b);
  }

  /** A passing rehearsal promises every single entry exactly when no path is
      both deleted and written: the verdicts are kept per path, and the last
      entry's verdict replaces the earlier ones. */
  lemma {:induction false} PassPromisesEveryEntryIffConsistent(was: Files, files: seq<Entry>)
    requires Applicable(files, View(was, WorkspaceRoot))
    ensures (forall k :: 0 <= k < |files| ==>
               Satisfied(RehearsedTree(was, files), View(was, WorkspaceRoot), AsChange(files[k])))
            <==> Consistent(Changes(files))
  {
    hide Overridden, NormalizeManifestPath, Satisfied, Consistent, Restrict, View;
    var work, changes := View(was, WorkspaceRoot), Changes(files);
    assert forall k :: 0 <= k < |changes| ==> Preparable(files[k], work);
    EveryEntryHoldsIffConsistent(Restrict(View(was, LiveRoot), PathSet(files)), work, changes);
    assert forall k :: 0 <= k < |files| ==> changes[k] == AsChange(files[k]);
  }

  /** A manifest that writes and then deletes "a" passes its rehearsal (it is
      guarded and applicable) although its first entry is not satisfied. */
  lemma ContradictoryManifestPasses(was: Files)
    requires File(WorkspaceRoot, "a") in was
    ensures var files := [Entry(Some("a"), Modified), Entry(Some("a"), Deleted)];
            && Guarded(files, ["a"])
            && Applicable(files, View(was, WorkspaceRoot))
            && !Satisfied(RehearsedTree(was, files), View(was, WorkspaceRoot), AsChange(files[0]))
  {
    hide ParseRoots, Covered, NormalizeManifestPath;
    PlainName();
    var files := [Entry(Some("a"), Modified), Entry(Some("a"), Deleted)];
    assert Paths(files) == [Some("a"), Some("a")];
    OneRoot();
    var changes := Changes(files);
    var work := View(was, WorkspaceRoot);
    assert changes == [Change("a", false), Change("a", true)];
    LastEntryWins(Restrict(View(was, LiveRoot), PathSet(files)), work, changes);
    assert IsLastFor(changes, 1);
    assert Satisfied(RehearsedTree(was, files), work, changes[1]);
  }

  lemma OneRoot()
    ensures ParseRoots(["a"]).Some? && Covered("a", ParseRoots(["a"]).value)
  {
    PlainName();
    var root := AllowedApplyRoot("a", false);
    assert ParseAllowedApplyRoot("a") == Some(root);
    var values := ["a"];
    assert values[..0] == [];
    assert ParseRoots([]) == Some([]);
    assert ParseRoots(values) == Some([] + [root]);
    assert [] + [root] == [root];
    assert PathMatches("a", [root][0]);
    assert Covered("a", [root]);
  }

  lemma PlainName()
    ensures NormalizeManifestPath(Some("a")) == Some("a")
  {
    var name := "a";
    assert StripLeft(name) == name;
    assert StripRight(name) == name;
    assert Strip(name) == name;
    assert ForwardSlashes(name) == name;
    assert Split(name[1..]) == [""];
    SplitOfPart(name);
    assert Collapse(["a"][1..], [] + ["a"]) == ["a"];
    assert Collapse(["a"], []) == ["a"];
    assert NormPath(name) == "a";
  }
}
