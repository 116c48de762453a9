// Atomic text writes: one file, or several files as a unit.

module AtomicWrite {
  import opened Options
  import opened Disks

  /** Reading in text mode folds "\r\n" and "\r" into "\n". */
  function ReadText(bytes: Content): (text: Content)
    ensures '\r' !in text
  {
    if bytes == "" then ""
    else if bytes[0] != '\r' then [bytes[0]] + ReadText(bytes[1..])
    else if |bytes| > 1 && bytes[1] == '\n' then "\n" + ReadText(bytes[2..])
    else "\n" + ReadText(bytes[1..])
  }

  /** A text survives being read and written back exactly when it holds no carriage return. */
  lemma {:induction false} ReadTextIsExact(bytes: Content)
    ensures ReadText(bytes) == bytes <==> '\r' !in bytes
  {
    if '\r' !in bytes && bytes != "" {
      assert bytes[0] in bytes;
      assert forall c :: c in bytes[1..] ==> c in bytes;
      ReadTextIsExact(bytes[1..]);
      assert bytes == [bytes[0]] + bytes[1..];
    }
  }

  /** Either line end with a carriage return is read as a new line, and what
      follows it is read by itself. */
  lemma {:induction false} LineEndsFold(line: Content, rest: Content)
    requires '\r' !in line
    ensures ReadText(line + "\r\n" + rest) == line + "\n" + ReadText(rest)
    ensures rest == "" || rest[0] != '\n' ==> ReadText(line + "\r" + rest) == line + "\n" + ReadText(rest)
  {
    var lf, cr := line + "\r\n" + rest, line + "\r" + rest;
    if line == "" {
      assert lf[2..] == rest && cr[1..] == rest;
    } else {
      assert line[0] in line;
      assert forall c :: c in line[1..] ==> c in line;
      LineEndsFold(line[1..], rest);
      assert lf[1..] == line[1..] + "\r\n" + rest && cr[1..] == line[1..] + "\r" + rest;
      assert [line[0]] + (line[1..] + "\n" + ReadText(rest)) == line + "\n" + ReadText(rest);
    }
  }

  function Rewritten(old': Option<Content>): Option<Content> {
    if old'.None? then None else Some(ReadText(old'.value))
  }

  ghost predicate SameExceptTemps(a: Files, b: Files) {
    forall l: Loc :: !l.Temp? ==> Look(a, l) == Look(b, l)
  }

  /** Every temporary file of `now` was there before or could not be removed. */
  ghost predicate NoNewTemps(was: Files, now: Files, newlyStuck: set<Loc>) {
    forall l: Loc :: l.Temp? && l in now && l !in was ==> l in newlyStuck
  }

  ghost predicate TempsKept(was: Files, now: Files) {
    forall l: Loc :: l.Temp? && l in was ==> Look(now, l) == Look(was, l)
  }

  method StageText(disk: Disk, text: Content) returns (staged: Option<Loc>)
    requires disk.Valid()
    modifies disk
    ensures disk.Valid() && disk.serial == old(disk.serial) + 1
    ensures old(disk.faults) <= disk.faults && old(disk.stuck) <= disk.stuck
    ensures staged.Some? <==> disk.faults == old(disk.faults)
    ensures staged.Some? ==> staged.value == Temp(old(disk.serial))
                             && disk.files == old(disk.files)[staged.value := text]
                             && disk.stuck == old(disk.stuck)
    ensures staged.None? ==> SameExceptTemps(old(disk.files), disk.files)
                             && TempsKept(old(disk.files), disk.files)
                             && NoNewTemps(old(disk.files), disk.files, disk.stuck - old(disk.stuck))
  {
    var l, made := disk.MakeTemp();
    if !made { return None; }
    assert !Lasting(l) && l !in old(disk.stuck) && l !in old(disk.files);
    var written := disk.Write(l, text);
    if written { return Some(l); }
    ghost var was := old(disk.files);
    assert forall k: Loc :: k != l ==> Look(disk.files, k) == Look(was, k);
    var io := disk.Unlink(l);
    assert forall k: Loc :: k != l ==> Look(disk.files, k) == Look(was, k);
    forall k: Loc | k.Temp? && k in disk.files && k !in was ensures k in disk.stuck - old(disk.stuck) {
      assert k != l ==> Look(disk.files, k) == Look(was, k);
    }
    return None;
  }

  method CleanupStaged(disk: Disk, staged: Option<Loc>) returns (ok: bool)
    requires disk.Valid()
    requires staged.Some? ==> staged.value.Temp? && staged.value.serial < disk.serial
    modifies disk`files, disk`faults, disk`stuck
    ensures disk.Valid()
    ensures ok <==> disk.faults == old(disk.faults)
    ensures old(disk.faults) <= disk.faults
    ensures disk.stuck == if ok || staged.None? then old(disk.stuck) else old(disk.stuck) + {staged.value}
    ensures disk.files == if ok && staged.Some? then old(disk.files) - {staged.value} else old(disk.files)
    ensures staged.None? ==> ok
  {
    if staged.None? { return true; }
    var io := disk.Unlink(staged.value);
    return !io.Fault?;
  }

  /** Replaces one file's text. The target holds its old text or the new one,
      never a mixture; a reported success means the new one. */
  method AtomicWriteText(disk: Disk, target: Loc, text: Content) returns (ok: bool)
    requires disk.Valid() && Lasting(target)
    modifies disk
    ensures disk.Valid() && old(disk.serial) <= disk.serial
    ensures ok <==> disk.faults == old(disk.faults)
    ensures old(disk.faults) <= disk.faults
    ensures ok ==> disk.files == old(disk.files)[target := text]
    ensures forall l: Loc :: !l.Temp? && l != target ==> Look(disk.files, l) == old(Look(disk.files, l))
    ensures Look(disk.files, target) in {old(Look(disk.files, target)), Some(text)}
    ensures TempsKept(old(disk.files), disk.files)
    ensures NoNewTemps(old(disk.files), disk.files, disk.stuck - old(disk.stuck))
  {
    ghost var was := disk.files;
    var staged := StageText(disk, text);
    if staged.None? { return false; }
    assert staged.value !in was;
    var io := disk.Replace(staged.value, target);
    assert io.Done? ==> disk.files == was[target := text];
    var clean := CleanupStaged(disk, staged);
    assert io.Done? && clean ==> disk.files == was[target := text];
    return io.Done? && clean;
  }

  // ---- several files ----------------------------------------------------

  datatype TextUpdate = TextUpdate(target: Loc, text: Content)

  datatype MultiWriteResult =
    | Written
    | DuplicateTargets
    | Unreadable
    | RolledBack(unrestored: seq<Loc>)
    | CleanupFailed

  predicate Distinct(updates: seq<TextUpdate>) {
    forall i, j :: 0 <= i < j < |updates| ==> updates[i].target != updates[j].target
  }

  /** The simultaneous update. */
  function AllWritten(files: Files, updates: seq<TextUpdate>): Files {
    if updates == [] then files
    else
      var last := updates[|updates| - 1];
      AllWritten(files, updates[..|updates| - 1])[last.target := last.text]
  }

  ghost predicate IsTarget(l: Loc, updates: seq<TextUpdate>, n: nat)
    requires n <= |updates|
  {
    exists i :: 0 <= i < n && updates[i].target == l
  }

  /** All targets hold their own new text and nothing else differs. */
  lemma {:induction false} AllWrittenMeans(files: Files, updates: seq<TextUpdate>)
    requires Distinct(updates)
    ensures forall i :: 0 <= i < |updates| ==>
              Look(AllWritten(files, updates), updates[i].target) == Some(updates[i].text)
    ensures forall l: Loc :: !IsTarget(l, updates, |updates|) ==>
              Look(AllWritten(files, updates), l) == Look(files, l)
  {
    if updates != [] {
      var init := updates[..|updates| - 1];
      AllWrittenMeans(files, init);
      forall l: Loc | !IsTarget(l, updates, |updates|)
        ensures Look(AllWritten(files, updates), l) == Look(files, l)
      {
        assert updates[|updates| - 1].target != l;
        assert forall i :: 0 <= i < |init| ==> init[i] == updates[i];
      }
    }
  }

  /** Targets already replaced have been put back (through text mode) or are
      named as unrestored; every other place is as it was. */
  ghost predicate Undone(was: Files, now: Files, updates: seq<TextUpdate>, committed: nat, unrestored: seq<Loc>)
    requires committed <= |updates|
  {
    && (forall i :: 0 <= i < committed ==>
         Look(now, updates[i].target) == Rewritten(Look(was, updates[i].target))
         || updates[i].target in unrestored)
    && (forall l: Loc :: !l.Temp? && !IsTarget(l, updates, committed) ==> Look(now, l) == Look(was, l))
  }

  /** After a complete rollback the disk is exactly as before if and only if
      no replaced target held a carriage return. */
  lemma UndoneIsExact(was: Files, now: Files, updates: seq<TextUpdate>, committed: nat)
    requires committed <= |updates| && Undone(was, now, updates, committed, [])
    ensures SameExceptTemps(was, now) <==>
              forall i {:trigger updates[i]} :: 0 <= i < committed && !updates[i].target.Temp?
                && updates[i].target in was
                ==> '\r' !in was[updates[i].target]
  {
    forall i | 0 <= i < committed && updates[i].target in was
      ensures Look(now, updates[i].target) == Look(was, updates[i].target) <==> '\r' !in was[updates[i].target]
    {
      ReadTextIsExact(was[updates[i].target]);
    }
    if forall i {:trigger updates[i]} :: 0 <= i < committed && !updates[i].target.Temp? && updates[i].target in was
         ==> '\r' !in was[updates[i].target] {
      forall l: Loc | !l.Temp? ensures Look(was, l) == Look(now, l) {
        if IsTarget(l, updates, committed) {
          var i :| 0 <= i < committed && updates[i].target == l;
        }
      }
    } else {
      var i :| 0 <= i < committed && !updates[i].target.Temp? && updates[i].target in was
        && '\r' in was[updates[i].target];
      assert Look(now, updates[i].target) != Look(was, updates[i].target);
    }
  }

  /** Writing over "a\r\n" and rolling back leaves "a\n", with nothing to report. */
  lemma LineEndsAreNotRestored(target: Loc, text: Content)
    requires Lasting(target)
    ensures var was: Files := map[target := "a\r\n"];
            var now: Files := map[target := "a\n"];
            Undone(was, now, [TextUpdate(target, text)], 1, []) && !SameExceptTemps(was, now)
  {
    var old', new' := "a\r\n", "a\n";
    assert old'[1..] == "\r\n" && "\r\n"[2..] == "";
    assert ReadText("\r\n") == "\n" + ReadText("");
    assert ReadText(old') == ['a'] + ReadText("\r\n") == new';
    var was: Files := map[target := old'];
    var now: Files := map[target := new'];
    var updates := [TextUpdate(target, text)];
    assert Look(was, target) == Some(old') && Look(now, target) == Some(new');
    assert updates[0].target == target && IsTarget(target, updates, 1);
    assert Rewritten(Look(was, target)) == Look(now, target);
    assert |"a\r\n"| == 3 && |"a\n"| == 2;
  }

  method HasDuplicateTargets(updates: seq<TextUpdate>) returns (duplicate: bool)
    ensures duplicate <==> !Distinct(updates)
  {
    var targets: set<Loc> := {};
    for i := 0 to |updates|
      invariant Distinct(updates[..i])
      invariant forall l: Loc :: l in targets <==> IsTarget(l, updates, i)
    {
      if updates[i].target in targets {
        var j :| 0 <= j < i && updates[j].target == updates[i].target;
        return true;
      }
      targets := targets + {updates[i].target};
    }
    assert updates[..|updates|] == updates;
    return false;
  }

  method RestoreTextUpdate(disk: Disk, target: Loc, original: Option<Content>) returns (ok: bool)
    requires disk.Valid() && Lasting(target)
    modifies disk
    ensures disk.Valid() && old(disk.serial) <= disk.serial
    ensures old(disk.faults) <= disk.faults && old(disk.stuck) <= disk.stuck
    ensures ok <==> disk.faults == old(disk.faults)
    ensures ok ==> Look(disk.files, target) == original
    ensures forall l: Loc :: !l.Temp? && l != target ==> Look(disk.files, l) == old(Look(disk.files, l))
    ensures TempsKept(old(disk.files), disk.files)
    ensures NoNewTemps(old(disk.files), disk.files, disk.stuck - old(disk.stuck))
  {
    if original.None? {
      var io := disk.Unlink(target);
      return !io.Fault?;
    }
    ghost var was := disk.files;
    var staged := StageText(disk, original.value);
    if staged.None? { return false; }
    assert staged.value !in was;
    var io := disk.Replace(staged.value, target);
    var clean := CleanupStaged(disk, staged);
    return io.Done? && clean;
  }

  /** Targets from `from` on have their text staged under a name of their own. */
  ghost predicate StagedOk(files: Files, was: Files, taken: set<Loc>, updates: seq<TextUpdate>,
                           staged: seq<Option<Loc>>, from: nat) {
    && from <= |staged| <= |updates|
    && (forall i :: 0 <= i < from ==> staged[i] == None)
    && (forall i :: from <= i < |staged| ==>
         staged[i].Some? && staged[i].value.Temp? && staged[i].value !in taken
         && Look(files, staged[i].value) == Some(updates[i].text))
    && (forall i, j :: from <= i < j < |staged| ==> staged[i] != staged[j])
    && TempsKept(was, files) && was.Keys <= taken
  }

  /** Every temporary file is an old one, one that could not be removed, or a staged one. */
  ghost predicate NoStray(files: Files, was: Files, staged: seq<Option<Loc>>, stuck: set<Loc>) {
    forall l: Loc :: l.Temp? && l in files && l !in was && l !in stuck ==> Some(l) in staged
  }

  /** Removes the staged files left over; stops at the first removal error. */
  method CleanupAll(disk: Disk, staged: seq<Option<Loc>>, ghost was: Files, ghost stuck0: set<Loc>) returns (ok: bool)
    requires disk.Valid()
    requires OwnTemps(staged, was.Keys + stuck0, disk.serial)
    modifies disk`files, disk`faults, disk`stuck
    ensures disk.Valid() && old(disk.faults) <= disk.faults && old(disk.stuck) <= disk.stuck
    ensures SameExceptTemps(old(disk.files), disk.files)
    ensures ok <==> disk.faults == old(disk.faults)
    ensures ok <==> disk.stuck == old(disk.stuck) && disk.faults == old(disk.faults)
    ensures forall l: Loc :: l in disk.files ==> l in old(disk.files)
    ensures forall l: Loc :: l in was ==> Look(disk.files, l) == old(Look(disk.files, l))
    ensures ok ==> forall l :: Some(l) in staged ==> l !in disk.files
    ensures !ok ==> exists l: Loc :: l.Temp? && l in disk.stuck && l !in was && l !in stuck0
  {
    for i := 0 to |staged|
      invariant disk.Valid() && old(disk.faults) == disk.faults && old(disk.stuck) == disk.stuck
      invariant SameExceptTemps(old(disk.files), disk.files)
      invariant forall l: Loc :: l in disk.files ==> l in old(disk.files)
      invariant forall l: Loc :: l in was ==> Look(disk.files, l) == old(Look(disk.files, l))
      invariant forall k :: 0 <= k < i && staged[k].Some? ==> staged[k].value !in disk.files
    {
      var clean := CleanupStaged(disk, staged[i]);
      if !clean {
        assert staged[i].value in disk.stuck;
        return false;
      }
    }
    return true;
  }

  method RollBackCommitted(disk: Disk, updates: seq<TextUpdate>, originals: seq<Option<Content>>, committed: nat,
                           ghost was: Files)
    returns (unrestored: seq<Loc>)
    requires disk.Valid() && committed <= |updates| == |originals| && Distinct(updates)
    requires forall i :: 0 <= i < |updates| ==> Lasting(updates[i].target)
    requires forall i :: 0 <= i < |updates| ==> originals[i] == Rewritten(Look(was, updates[i].target))
    requires forall l: Loc :: !l.Temp? && !IsTarget(l, updates, committed) ==> Look(disk.files, l) == Look(was, l)
    modifies disk
    ensures disk.Valid() && old(disk.faults) <= disk.faults && old(disk.stuck) <= disk.stuck
    ensures old(disk.serial) <= disk.serial
    ensures Undone(was, disk.files, updates, committed, unrestored)
    ensures |unrestored| <= disk.faults - old(disk.faults)
    ensures forall l: Loc :: l in unrestored ==> IsTarget(l, updates, committed)
    ensures TempsKept(old(disk.files), disk.files)
    ensures NoNewTemps(old(disk.files), disk.files, disk.stuck - old(disk.stuck))
  {
    unrestored := [];
    var i := committed;
    while i > 0
      invariant 0 <= i <= committed && disk.Valid()
      invariant old(disk.faults) <= disk.faults && old(disk.stuck) <= disk.stuck && old(disk.serial) <= disk.serial
      invariant |unrestored| <= disk.faults - old(disk.faults)
      invariant forall k :: i <= k < committed ==>
                  Look(disk.files, updates[k].target) == originals[k] || updates[k].target in unrestored
      invariant forall l: Loc :: !l.Temp? && !IsTarget(l, updates, committed) ==> Look(disk.files, l) == Look(was, l)
      invariant forall l: Loc :: l in unrestored ==> IsTarget(l, updates, committed)
      invariant TempsKept(old(disk.files), disk.files)
      invariant NoNewTemps(old(disk.files), disk.files, disk.stuck - old(disk.stuck))
    {
      i := i - 1;
      label Before:
      var ok := RestoreTextUpdate(disk, updates[i].target, originals[i]);
      if !ok {
        unrestored := unrestored + [updates[i].target];
      }
      assert IsTarget(updates[i].target, updates, committed);
    }
  }

  /** Writes all targets or none of them. `committed` counts the targets that
      had been replaced when an error struck, `unrestored` those rollback
      could not put back: none after a single I/O error, and never more than
      there were further errors. */
  method AtomicMultiWrite(disk: Disk, updates: seq<TextUpdate>)
    returns (r: MultiWriteResult, ghost committed: nat, ghost unrestored: seq<Loc>)
    requires disk.Valid() && forall i :: 0 <= i < |updates| ==> Lasting(updates[i].target)
    modifies disk
    ensures disk.Valid() && old(disk.faults) <= disk.faults && committed <= |updates|
    ensures r.DuplicateTargets? <==> !Distinct(updates)
    ensures r.Written? ==> disk.files == AllWritten(old(disk.files), updates)
    ensures !r.Written? ==> Undone(old(disk.files), disk.files, updates, committed, unrestored)
    ensures r.DuplicateTargets? || r.Unreadable? ==> disk.files == old(disk.files)
    ensures r.RolledBack? ==> r.unrestored == unrestored
    ensures r.RolledBack? || r.CleanupFailed? ==> |unrestored| < disk.faults - old(disk.faults)
    ensures r.CleanupFailed? ==> exists l: Loc :: l.Temp? && l in disk.stuck - old(disk.stuck)
    ensures Distinct(updates) && disk.faults == old(disk.faults) ==> r.Written?
    ensures disk.stuck == old(disk.stuck) ==> forall l: Loc :: l.Temp? && l in disk.files ==> l in old(disk.files)
  {
    ghost var was := disk.files;
    committed, unrestored := 0, [];
    var duplicate := HasDuplicateTargets(updates);
    if duplicate { return DuplicateTargets, 0, []; }

    var originals: seq<Option<Content>> := [];
    for i := 0 to |updates|
      invariant disk.Valid() && disk.files == was && disk.stuck == old(disk.stuck) && disk.faults == old(disk.faults)
      invariant |originals| == i && disk.serial == old(disk.serial)
      invariant forall k :: 0 <= k < i ==> originals[k] == Rewritten(Look(was, updates[k].target))
    {
      if * {
        disk.faults := disk.faults + 1;
        return Unreadable, 0, [];
      }
      originals := originals + [Rewritten(Look(disk.files, updates[i].target))];
    }

    var staged, failed := StageAll(disk, updates);
    r, committed, unrestored, staged := CommitStaged(disk, updates, originals, staged, failed, was, old(disk.stuck));
    if r.Written? {
      AllWrittenTemps(was, updates);
      forall l: Loc ensures Look(disk.files, l) == Look(AllWritten(was, updates), l) {
        if l.Temp? {
          assert Some(l) !in staged && l !in disk.stuck - old(disk.stuck);
          assert l in disk.files <==> l in was;
        } else {
          assert Look(AllWritten(was, updates), l) == Look(disk.files, l);
        }
      }
      SameLooks(disk.files, AllWritten(was, updates));
    } else {
      ghost var left := disk.files;
      var first := CleanupAll(disk, staged, was, old(disk.stuck));
      if !first { r := CleanupFailed; }
      var again := CleanupAll(disk, staged, was, old(disk.stuck));
      if !again { r := CleanupFailed; }
      if disk.stuck == old(disk.stuck) {
        forall l: Loc | l.Temp? && l in disk.files ensures l in was {
          assert l in left;
        }
      }
    }
  }

  method StageAll(disk: Disk, updates: seq<TextUpdate>) returns (staged: seq<Option<Loc>>, failed: bool)
    requires disk.Valid()
    modifies disk
    ensures disk.Valid() && old(disk.faults) <= disk.faults && old(disk.stuck) <= disk.stuck
    ensures failed <==> disk.faults != old(disk.faults)
    ensures !failed ==> |staged| == |updates| && disk.stuck == old(disk.stuck)
    ensures SameExceptTemps(old(disk.files), disk.files)
    ensures StagedOk(disk.files, old(disk.files), old(disk.files).Keys + old(disk.stuck), updates, staged, 0)
    ensures NoStray(disk.files, old(disk.files), staged, disk.stuck - old(disk.stuck))
  {
    hide StagedOk, NoStray, SameExceptTemps, TempsKept, NoNewTemps;
    ghost var was, stuck0 := disk.files, disk.stuck;
    staged, failed := [], false;
    NothingStaged(was, was.Keys + stuck0, updates, disk.stuck - stuck0);
    while |staged| < |updates| && !failed
      invariant |staged| <= |updates|
      invariant disk.Valid() && old(disk.faults) <= disk.faults && old(disk.stuck) <= disk.stuck
      invariant failed <==> disk.faults != old(disk.faults)
      invariant !failed ==> disk.stuck == old(disk.stuck)
      invariant SameExceptTemps(was, disk.files)
      invariant StagedOk(disk.files, was, was.Keys + stuck0, updates, staged, 0)
      invariant NoStray(disk.files, was, staged, disk.stuck - stuck0)
      decreases |updates| - |staged|, !failed
    {
      ghost var before, stuck := disk.files, disk.stuck;
      assert Temp(disk.serial) !in before && Temp(disk.serial) !in stuck by { UnusedTemp(disk); }
      var l := StageText(disk, updates[|staged|].text);
      if l.None? {
        failed := true;
        StagingFailed(was, was.Keys + stuck0, before, disk.files, updates, staged, stuck0, stuck, disk.stuck);
      } else {
        StagedOne(was, stuck0, before, disk.files, updates, staged, l.value, disk.stuck);
        staged := staged + [l];
      }
    }
  }

  lemma UnusedTemp(disk: Disk)
    requires disk.Valid()
    ensures Temp(disk.serial) !in disk.files && Temp(disk.serial) !in disk.stuck
  {
    assert !Lasting(Temp(disk.serial)) && SerialOf(Temp(disk.serial)) == disk.serial;
  }

  lemma NothingStaged(was: Files, taken: set<Loc>, updates: seq<TextUpdate>, newlyStuck: set<Loc>)
    requires was.Keys <= taken
    ensures StagedOk(was, was, taken, updates, [], 0) && NoStray(was, was, [], newlyStuck) && SameExceptTemps(was, was)
  {
  }

  lemma StagedOne(was: Files, stuck0: set<Loc>, before: Files, now: Files, updates: seq<TextUpdate>,
                  staged: seq<Option<Loc>>,
                  l: Loc, stuck: set<Loc>)
    requires |staged| < |updates| && StagedOk(before, was, was.Keys + stuck0, updates, staged, 0)
    requires SameExceptTemps(was, before) && NoStray(before, was, staged, stuck - stuck0)
    requires l.Temp? && l !in before && l !in stuck && stuck0 <= stuck && now == before[l := updates[|staged|].text]
    ensures StagedOk(now, was, was.Keys + stuck0, updates, staged + [Some(l)], 0)
    ensures SameExceptTemps(was, now) && NoStray(now, was, staged + [Some(l)], stuck - stuck0)
  {
    var more := staged + [Some(l)];
    assert l !in was by {
      assert l in was ==> Look(before, l) == Look(was, l);
    }
    assert forall k :: 0 <= k < |staged| ==> more[k] == staged[k];
    assert more[|staged|] == Some(l);
    assert forall k :: k in staged ==> k in more;
    assert Some(l) in more;
    forall i | 0 <= i < |staged| ensures staged[i] != Some(l)
      && Look(now, staged[i].value) == Look(before, staged[i].value) {
      assert Look(before, staged[i].value) == Some(updates[i].text);
    }
  }

  lemma StagingFailed(was: Files, taken: set<Loc>, before: Files, now: Files, updates: seq<TextUpdate>,
                      staged: seq<Option<Loc>>,
                      stuck0: set<Loc>, stuckBefore: set<Loc>, stuck: set<Loc>)
    requires StagedOk(before, was, taken, updates, staged, 0) && NoStray(before, was, staged, stuckBefore - stuck0)
    requires SameExceptTemps(was, before) && SameExceptTemps(before, now) && TempsKept(before, now)
    requires NoNewTemps(before, now, stuck - stuckBefore) && stuck0 <= stuckBefore <= stuck
    ensures StagedOk(now, was, taken, updates, staged, 0) && NoStray(now, was, staged, stuck - stuck0)
    ensures SameExceptTemps(was, now)
  {
    forall l: Loc | l.Temp? && l in before ensures Look(now, l) == Look(before, l) {
    }
    forall l: Loc | l.Temp? && l in was ensures Look(now, l) == Look(was, l) {
      assert Look(before, l) == Look(was, l);
    }
    forall l: Loc | !l.Temp? ensures Look(now, l) == Look(was, l) {
      assert Look(before, l) == Look(was, l);
    }
  }

  lemma NothingWritten(was: Files, updates: seq<TextUpdate>)
    ensures AllWritten(was, updates[..0]) == was
  {
  }

  /** The commit loop: renames the staged texts over their targets in order. */
  method CommitAll(disk: Disk, updates: seq<TextUpdate>, staged0: seq<Option<Loc>>, ghost was: Files,
                   ghost taken: set<Loc>,
                   ghost newlyStuck: set<Loc>)
    returns (committed: nat, staged: seq<Option<Loc>>)
    requires disk.Valid() && |staged0| == |updates|
    requires forall i :: 0 <= i < |updates| ==> Lasting(updates[i].target)
    requires SameExceptTemps(was, disk.files) && StagedOk(disk.files, was, taken, updates, staged0, 0)
    requires NoStray(disk.files, was, staged0, newlyStuck)
    modifies disk`files, disk`faults
    ensures disk.Valid() && committed <= |updates| == |staged|
    ensures if committed < |updates| then disk.faults > old(disk.faults) else disk.faults == old(disk.faults)
    ensures StagedOk(disk.files, was, taken, updates, staged, committed)
    ensures SameExceptTemps(AllWritten(was, updates[..committed]), disk.files)
    ensures NoStray(disk.files, was, staged, newlyStuck)
  {
    hide AllWritten, SameExceptTemps, NoStray;
    staged := staged0;
    committed := 0;
    NothingWritten(was, updates);
    while committed < |updates|
      invariant disk.Valid() && committed <= |updates| == |staged|
      invariant disk.faults == old(disk.faults)
      invariant StagedOk(disk.files, was, taken, updates, staged, committed)
      invariant SameExceptTemps(AllWritten(was, updates[..committed]), disk.files)
      invariant NoStray(disk.files, was, staged, newlyStuck)
    {
      ghost var before, stagedBefore := disk.files, staged;
      assert staged[committed].value in disk.files;
      var io := disk.Replace(staged[committed].value, updates[committed].target);
      if !io.Done? { return; }
      staged := staged[committed := None];
      CommitStep(was, taken, before, disk.files, updates, stagedBefore, committed, newlyStuck);
      committed := committed + 1;
    }
  }

  /** The commit, and the restore loop when it or staging failed. */
  method CommitStaged(disk: Disk, updates: seq<TextUpdate>, originals: seq<Option<Content>>, staged0: seq<Option<Loc>>,
                      stagingFailed: bool, ghost was: Files, ghost stuck0: set<Loc>)
    returns (r: MultiWriteResult, ghost committed: nat, ghost unrestored: seq<Loc>, staged: seq<Option<Loc>>)
    requires disk.Valid() && Distinct(updates) && |originals| == |updates|
    requires forall i :: 0 <= i < |updates| ==> Lasting(updates[i].target)
    requires forall i :: 0 <= i < |updates| ==> originals[i] == Rewritten(Look(was, updates[i].target))
    requires SameExceptTemps(was, disk.files) && StagedOk(disk.files, was, was.Keys + stuck0, updates, staged0, 0)
    requires NoStray(disk.files, was, staged0, disk.stuck - stuck0)
    requires !stagingFailed ==> |staged0| == |updates|
    requires stuck0 <= disk.stuck
    modifies disk
    ensures disk.Valid() && old(disk.faults) <= disk.faults && old(disk.stuck) <= disk.stuck
    ensures committed <= |updates|
    ensures r.Written? || r.RolledBack?
    ensures stagingFailed ==> r.RolledBack?
    ensures r.Written? ==> SameExceptTemps(AllWritten(was, updates), disk.files) && disk.stuck == old(disk.stuck)
    ensures r.Written? ==> forall k :: 0 <= k < |staged| ==> staged[k] == None
    ensures r.RolledBack? ==> r.unrestored == unrestored && Undone(was, disk.files, updates, committed, unrestored)
    ensures r.RolledBack? ==> |unrestored| + (if stagingFailed then 0 else 1) <= disk.faults - old(disk.faults)
    ensures !stagingFailed && disk.faults == old(disk.faults) ==> r.Written?
    ensures OwnTemps(staged, was.Keys + stuck0, disk.serial) && TempsKept(was, disk.files)
    ensures NoStray(disk.files, was, staged, disk.stuck - stuck0)
  {
    hide AllWritten, Rewritten;
    staged := staged0;
    var i := 0;
    if !stagingFailed {
      i, staged := CommitAll(disk, updates, staged0, was, was.Keys + stuck0, disk.stuck - stuck0);
    } else {
      NothingWritten(was, updates);
    }
    committed, unrestored := i, [];
    assert OwnTemps(staged, was.Keys + stuck0, disk.serial);
    if !stagingFailed && i == |updates| {
      assert updates[..i] == updates;
      r := Written;
    } else {
      OutsideTargets(was, updates, i);
      var errors := RollBackCommitted(disk, updates, originals, i, was);
      unrestored := errors;
      r := RolledBack(errors);
    }
  }

  /** One rename moves the boundary between written and staged targets by one. */
  lemma CommitStep(was: Files, taken: set<Loc>, before: Files, after: Files, updates: seq<TextUpdate>,
                   staged: seq<Option<Loc>>,
                   i: nat, newlyStuck: set<Loc>)
    requires i < |staged| && StagedOk(before, was, taken, updates, staged, i)
    requires forall k :: 0 <= k < |updates| ==> Lasting(updates[k].target)
    requires SameExceptTemps(AllWritten(was, updates[..i]), before)
    requires NoStray(before, was, staged, newlyStuck)
    requires staged[i].value in before
    requires after == (before - {staged[i].value})[updates[i].target := before[staged[i].value]]
    ensures StagedOk(after, was, taken, updates, staged[i := None], i + 1)
    ensures SameExceptTemps(AllWritten(was, updates[..i + 1]), after)
    ensures NoStray(after, was, staged[i := None], newlyStuck)
  {
    var src, dst := staged[i].value, updates[i].target;
    assert updates[..i + 1][..i] == updates[..i];
    assert forall l: Loc :: l != src && l != dst ==> Look(after, l) == Look(before, l);
    assert Look(after, dst) == Some(updates[i].text);
    forall l: Loc | l.Temp? && l in after && l !in was && l !in newlyStuck
      ensures Some(l) in staged[i := None]
    {
      assert l in before && l != src;
      var k :| 0 <= k < |staged| && staged[k] == Some(l);
      assert staged[i := None][k] == Some(l);
    }
  }

  ghost predicate OwnTemps(staged: seq<Option<Loc>>, taken: set<Loc>, serial: nat) {
    forall i :: 0 <= i < |staged| && staged[i].Some? ==>
      staged[i].value.Temp? && staged[i].value !in taken && staged[i].value.serial < serial
  }

  lemma OutsideTargets(was: Files, updates: seq<TextUpdate>, n: nat)
    requires n <= |updates| && Distinct(updates)
    ensures forall l: Loc :: !IsTarget(l, updates, n) ==> Look(AllWritten(was, updates[..n]), l) == Look(was, l)
  {
    AllWrittenMeans(was, updates[..n]);
    forall l: Loc | !IsTarget(l, updates, n) ensures !IsTarget(l, updates[..n], n) {
    }
  }

  lemma SameLooks(a: Files, b: Files)
    requires forall l: Loc :: Look(a, l) == Look(b, l)
    ensures a == b
  {
    forall l
      ensures l in a <==> l in b
      ensures l in a ==> a[l] == b[l]
    {
      assert Look(a, l) == Look(b, l);
    }
  }

  lemma {:induction false} AllWrittenTemps(files: Files, updates: seq<TextUpdate>)
    requires forall i :: 0 <= i < |updates| ==> !updates[i].target.Temp?
    ensures forall l: Loc :: l.Temp? ==> Look(AllWritten(files, updates), l) == Look(files, l)
  {
    if updates != [] {
      AllWrittenTemps(files, updates[..|updates| - 1]);
    }
  }
}
