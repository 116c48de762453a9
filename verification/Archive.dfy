// Archive moves: applying a list of candidates one after another, and rolling
// the recorded moves back in the order they were recorded.

module Archive {
  import opened Options

  type Files = map<string, string>

  const APPLY_CONFIRMATION := "CONFIRM_ARCHIVE_EXECUTION"
  const ROLLBACK_CONFIRMATION := "CONFIRM_ARCHIVE_ROLLBACK"

  datatype Status = Planned | Blocked | Applied | Deferred | Skipped | RolledBack

  datatype Candidate = Candidate(source: string, destination: string)

  datatype Record
    = Record(source: string, destination: string, status: Status, rollbackPath: string, rollbackAvailable: bool)

  datatype Mode = Mode(apply: bool, defer: bool, confirmation: string)

  function Look(files: Files, l: string): Option<string> {
    if l in files then Some(files[l]) else None
  }

  function Moved(files: Files, from: string, to: string): Files
    requires from in files
  {
    (files - {from})[to := files[from]]
  }

  function OperationStatus(files: Files, mode: Mode, c: Candidate): Status {
    if !mode.apply then Planned
    else if mode.confirmation != APPLY_CONFIRMATION then Blocked
    else if c.source !in files then Blocked
    else if c.destination in files then Blocked
    else Applied
  }

  function MoveRecord(files: Files, mode: Mode, c: Candidate): (Files, Record) {
    var status := if mode.defer then Deferred else OperationStatus(files, mode, c);
    var after := if status == Applied then Moved(files, c.source, c.destination) else files;
    var available := status == Applied && c.destination in after;
    (after, Record(c.source, c.destination, status, if available then c.source else "", available))
  }

  function RollbackTarget(move: Record): string {
    if move.rollbackPath != "" then move.rollbackPath else move.source
  }

  function RollbackStatus(files: Files, move: Record, confirmation: string): Status {
    var target := RollbackTarget(move);
    if move.status != Applied || !move.rollbackAvailable then Skipped
    else if confirmation != ROLLBACK_CONFIRMATION then Blocked
    else if move.destination !in files && target in files then Skipped
    else if move.destination !in files then Blocked
    else if target in files then Blocked
    else RolledBack
  }

  function RollbackRecord(files: Files, move: Record, confirmation: string): (Files, Record) {
    var target := RollbackTarget(move);
    var status := RollbackStatus(files, move, confirmation);
    var after := if status == RolledBack then Moved(files, move.destination, target) else files;
    (after, Record(move.source, move.destination, status, target,
                   move.status == Applied && move.rollbackAvailable && move.destination in after && target !in after))
  }

  /** The candidates, one after another. */
  function ApplyRun(files: Files, mode: Mode, cs: seq<Candidate>): (Files, seq<Record>) {
    if cs == [] then (files, [])
    else
      var (before, records) := ApplyRun(files, mode, cs[..|cs| - 1]);
      var (after, record) := MoveRecord(before, mode, cs[|cs| - 1]);
      (after, records + [record])
  }

  function RollbackRun(files: Files, moves: seq<Record>, confirmation: string): (Files, seq<Record>) {
    if moves == [] then (files, [])
    else
      var (before, records) := RollbackRun(files, moves[..|moves| - 1], confirmation);
      var (after, record) := RollbackRecord(before, moves[|moves| - 1], confirmation);
      (after, records + [record])
  }

  class Vault {
    var files: Files

    method Move(from: string, to: string)
      requires from in files
      modifies this
      ensures files == Moved(old(files), from, to)
    {
      files := (files - {from})[to := files[from]];
    }

    method ApplyMoves(mode: Mode, cs: seq<Candidate>) returns (records: seq<Record>)
      modifies this
      ensures (files, records) == ApplyRun(old(files), mode, cs)
    {
      records := [];
      for i := 0 to |cs|
        invariant (files, records) == ApplyRun(old(files), mode, cs[..i])
      {
        assert cs[..i + 1][..i] == cs[..i];
        var status := if mode.defer then Deferred else OperationStatus(files, mode, cs[i]);
        if status == Applied { Move(cs[i].source, cs[i].destination); }
        var available := status == Applied && cs[i].destination in files;
        records := records
          + [Record(cs[i].source, cs[i].destination, status, if available then cs[i].source else "", available)];
      }
      assert cs[..|cs|] == cs;
    }

    method RollbackMoves(moves: seq<Record>, confirmation: string) returns (records: seq<Record>)
      modifies this
      ensures (files, records) == RollbackRun(old(files), moves, confirmation)
    {
      records := [];
      for i := 0 to |moves|
        invariant (files, records) == RollbackRun(old(files), moves[..i], confirmation)
      {
        assert moves[..i + 1][..i] == moves[..i];
        var target := RollbackTarget(moves[i]);
        var status := RollbackStatus(files, moves[i], confirmation);
        if status == RolledBack { Move(moves[i].destination, target); }
        records := records + [Record(moves[i].source, moves[i].destination, status, target,
          moves[i].status == Applied && moves[i].rollbackAvailable && moves[i].destination in files
            && target !in files)];
      }
      assert moves[..|moves|] == moves;
    }
  }

  // ---- one step ---------------------------------------------------------

  /** The file has gone from one place to the other, and no other place changed. */
  ghost predicate FileMoved(before: Files, after: Files, from: string, to: string) {
    && from in before && to !in before
    && from !in after && Look(after, to) == Look(before, from)
    && (forall l :: l != from && l != to ==> Look(after, l) == Look(before, l))
  }

  /** What applying one candidate does: a dry run, a deferred run, a wrong
      confirmation, a missing source and an existing destination leave the
      files as they are; a permitted move is made and can be rolled back. */
  ghost predicate MoveDone(before: Files, mode: Mode, c: Candidate, after: Files, r: Record) {
    && r.source == c.source && r.destination == c.destination
    && (r.status == Deferred <==> mode.defer)
    && (r.status == Planned <==> !mode.defer && !mode.apply)
    && (r.status == Applied <==> !mode.defer && mode.apply && mode.confirmation == "CONFIRM_ARCHIVE_EXECUTION"
                                 && c.source in before && c.destination !in before)
    && r.status in {Deferred, Planned, Applied, Blocked}
    && (if r.status == Applied then FileMoved(before, after, c.source, c.destination) else after == before)
    && r.rollbackAvailable == (r.status == Applied)
    && r.rollbackPath == if r.status == Applied then c.source else ""
  }

  /** What rolling one record back does: only an applied move is undone, under
      the right confirmation, when its file is there and its place is free. */
  ghost predicate RollbackDone(before: Files, move: Record, confirmation: string, after: Files, r: Record) {
    var undoable := move.status == Applied && move.rollbackAvailable;
    var confirmed := confirmation == "CONFIRM_ARCHIVE_ROLLBACK";
    var back := if |move.rollbackPath| == 0 then move.source else move.rollbackPath;
    var isThere, isFree := move.destination in before, back !in before;
    && r.source == move.source && r.destination == move.destination && r.rollbackPath == back
    && (r.status == RolledBack <==> undoable && confirmed && isThere && isFree)
    && (r.status == Skipped <==> !undoable || (confirmed && !isThere && !isFree))
    && r.status in {RolledBack, Skipped, Blocked}
    && (if r.status == RolledBack then FileMoved(before, after, move.destination, back) else after == before)
    && (r.rollbackAvailable <==> undoable && move.destination in after && back !in after)
  }

  /** Every step of an apply run is such a move, and a later step leaves the earlier records alone. */
  lemma {:induction false} EachMoveIsDone(files: Files, mode: Mode, cs: seq<Candidate>, k: nat)
    requires k < |cs|
    ensures |ApplyRun(files, mode, cs).1| == |cs|
    ensures MoveDone(ApplyRun(files, mode, cs[..k]).0, mode, cs[k], ApplyRun(files, mode, cs[..k + 1]).0,
                     ApplyRun(files, mode, cs).1[k])
  {
    hide MoveDone, MoveRecord;
    var n := |cs| - 1;
    RunLengths(files, mode, cs[..n], [], "");
    if k < n {
      EachMoveIsDone(files, mode, cs[..n], k);
      assert cs[..n][..k] == cs[..k] && cs[..n][..k + 1] == cs[..k + 1];
    } else {
      assert cs[..k + 1] == cs;
      OneMove(ApplyRun(files, mode, cs[..n]).0, mode, cs[n]);
    }
  }

  lemma OneMove(before: Files, mode: Mode, c: Candidate)
    ensures MoveDone(before, mode, c, MoveRecord(before, mode, c).0, MoveRecord(before, mode, c).1)
  {
  }

  lemma {:induction false} EachRollbackIsDone(files: Files, moves: seq<Record>, confirmation: string, k: nat)
    requires k < |moves|
    ensures |RollbackRun(files, moves, confirmation).1| == |moves|
    ensures RollbackDone(RollbackRun(files, moves[..k], confirmation).0, moves[k], confirmation,
                         RollbackRun(files, moves[..k + 1], confirmation).0,
                         RollbackRun(files, moves, confirmation).1[k])
  {
    hide RollbackDone, RollbackRecord;
    var n := |moves| - 1;
    RunLengths(files, Mode(false, false, ""), [], moves[..n], confirmation);
    if k < n {
      EachRollbackIsDone(files, moves[..n], confirmation, k);
      assert moves[..n][..k] == moves[..k] && moves[..n][..k + 1] == moves[..k + 1];
    } else {
      assert moves[..k + 1] == moves;
      OneRollback(RollbackRun(files, moves[..n], confirmation).0, moves[n], confirmation);
    }
  }

  lemma OneRollback(before: Files, move: Record, confirmation: string)
    ensures RollbackDone(before, move, confirmation, RollbackRecord(before, move, confirmation).0,
                         RollbackRecord(before, move, confirmation).1)
  {
  }

  lemma {:induction false} RunLengths(files: Files, mode: Mode, cs: seq<Candidate>, moves: seq<Record>,
                                      confirmation: string)
    ensures |ApplyRun(files, mode, cs).1| == |cs| && |RollbackRun(files, moves, confirmation).1| == |moves|
    decreases |cs| + |moves|
  {
    if cs != [] { RunLengths(files, mode, cs[..|cs| - 1], moves, confirmation); }
    if moves != [] { RunLengths(files, mode, cs, moves[..|moves| - 1], confirmation); }
  }

  // ---- nothing is lost --------------------------------------------------

  function Holders(files: Files, content: string): set<string> {
    set l | l in files && files[l] == content
  }

  /** Every content is held by as many files as before. */
  ghost predicate SameContents(a: Files, b: Files) {
    forall content :: |Holders(a, content)| == |Holders(b, content)|
  }

  lemma {:induction false} MoveKeepsContents(files: Files, from: string, to: string)
    requires from in files && to !in files
    ensures SameContents(files, Moved(files, from, to))
  {
    forall content ensures |Holders(files, content)| == |Holders(Moved(files, from, to), content)| {
      MoveKeepsHolders(files, from, to, content);
    }
  }

  lemma {:induction false} MoveKeepsHolders(files: Files, from: string, to: string, content: string)
    requires from in files && to !in files
    ensures |Holders(files, content)| == |Holders(Moved(files, from, to), content)|
  {
    var before, after := Holders(files, content), Holders(Moved(files, from, to), content);
    if files[from] == content {
      var rest := before - {from};
      assert from in before && to !in rest && |rest| == |before| - 1;
      assert after == rest + {to};
    } else {
      assert after == before;
    }
  }

  lemma {:induction false} ApplyKeepsContents(files: Files, mode: Mode, cs: seq<Candidate>)
    ensures SameContents(files, ApplyRun(files, mode, cs).0)
  {
    if cs != [] {
      var init, c := cs[..|cs| - 1], cs[|cs| - 1];
      ApplyKeepsContents(files, mode, init);
      var before := ApplyRun(files, mode, init).0;
      if !mode.defer && OperationStatus(before, mode, c) == Applied {
        MoveKeepsContents(before, c.source, c.destination);
      }
    }
  }

  lemma {:induction false} RollbackKeepsContents(files: Files, moves: seq<Record>, confirmation: string)
    ensures SameContents(files, RollbackRun(files, moves, confirmation).0)
  {
    if moves != [] {
      var init, move := moves[..|moves| - 1], moves[|moves| - 1];
      RollbackKeepsContents(files, init, confirmation);
      var before := RollbackRun(files, init, confirmation).0;
      if RollbackStatus(before, move, confirmation) == RolledBack {
        MoveKeepsContents(before, move.destination, RollbackTarget(move));
      }
    }
  }

  // ---- undoing ----------------------------------------------------------

  /** No candidate's destination is another candidate's source. */
  predicate NoChains(cs: seq<Candidate>) {
    forall i, j :: 0 <= i < |cs| && 0 <= j < |cs| && i != j ==> cs[i].destination != cs[j].source
  }

  predicate IsApplied(records: seq<Record>, k: nat)
    requires k < |records|
  {
    records[k].status == Applied
  }

  /** No applied move goes to where another applied move came from. */
  ghost predicate NoAppliedChains(records: seq<Record>) {
    forall i, j {:trigger IsApplied(records, i), IsApplied(records, j)} ::
      0 <= i < |records| && 0 <= j < |records| && i != j && IsApplied(records, i) && IsApplied(records, j) ==>
        records[i].destination != records[j].source
  }

  /** The applied moves keep out of each other's way. */
  ghost predicate Apart(files: Files, records: seq<Record>) {
    && (forall k {:trigger IsApplied(records, k)} :: 0 <= k < |records| && IsApplied(records, k) ==>
         && records[k].source in files && records[k].destination !in files
         && records[k].rollbackAvailable && RollbackTarget(records[k]) == records[k].source)
    && (forall i, j {:trigger IsApplied(records, i), IsApplied(records, j)} ::
         0 <= i < j < |records| && IsApplied(records, i) && IsApplied(records, j) ==>
           records[i].source != records[j].source && records[i].destination != records[j].destination)
  }

  predicate Uses(records: seq<Record>, lo: nat, hi: nat, l: string)
    requires lo <= hi <= |records|
  {
    exists k {:trigger IsApplied(records, k)} :: lo <= k < hi && IsApplied(records, k)
      && (records[k].source == l || records[k].destination == l)
  }

  /** Exactly the applied moves among records lo..hi are in effect. */
  ghost predicate InEffect(start: Files, now: Files, records: seq<Record>, lo: nat, hi: nat)
    requires lo <= hi <= |records|
  {
    && (forall k {:trigger IsApplied(records, k)} :: lo <= k < hi && IsApplied(records, k) ==>
         records[k].source !in now && Look(now, records[k].destination) == Look(start, records[k].source))
    && (forall l :: !Uses(records, lo, hi, l) ==> Look(now, l) == Look(start, l))
  }

  lemma {:induction false} ApplyPutsMovesInEffect(files: Files, mode: Mode, cs: seq<Candidate>)
    requires NoAppliedChains(ApplyRun(files, mode, cs).1)
    ensures var (after, records) := ApplyRun(files, mode, cs);
            Apart(files, records) && InEffect(files, after, records, 0, |records|)
  {
    if cs != [] {
      var n := |cs| - 1;
      var (before, records) := ApplyRun(files, mode, cs[..n]);
      var (after, record) := MoveRecord(before, mode, cs[n]);
      FewerHaveNoChains(records, record);
      ApplyPutsMovesInEffect(files, mode, cs[..n]);
      AddRecord(files, before, after, records, mode, cs[n], record);
    }
  }

  lemma FewerHaveNoChains(records: seq<Record>, record: Record)
    requires NoAppliedChains(records + [record])
    ensures NoAppliedChains(records)
  {
    var all := records + [record];
    assert forall k :: 0 <= k < |records| ==> all[k] == records[k] && (IsApplied(all, k) <==> IsApplied(records, k));
  }

  /** A new applied move has both its places to itself. */
  lemma PlacesAreNew(files: Files, before: Files, records: seq<Record>, record: Record)
    requires NoAppliedChains(records + [record]) && record.status == Applied
    requires InEffect(files, before, records, 0, |records|)
    requires record.source in before && record.destination !in before
    requires forall k {:trigger IsApplied(records, k)} :: 0 <= k < |records| && IsApplied(records, k) ==>
               records[k].source in files
    ensures forall k {:trigger IsApplied(records, k)} :: 0 <= k < |records| && IsApplied(records, k) ==>
              && records[k].source != record.source && records[k].destination != record.destination
              && records[k].source != record.destination && records[k].destination != record.source
    ensures !Uses(records, 0, |records|, record.source) && !Uses(records, 0, |records|, record.destination)
  {
    var n, all := |records|, records + [record];
    assert IsApplied(all, n);
    forall k | 0 <= k < n && IsApplied(records, k)
      ensures records[k].source != record.source && records[k].destination != record.destination
      ensures records[k].source != record.destination && records[k].destination != record.source
    {
      assert all[k] == records[k] && IsApplied(all, k);
    }
  }

  lemma AddRecord(files: Files, before: Files, after: Files, records: seq<Record>, mode: Mode, c: Candidate,
                  record: Record)
    requires NoAppliedChains(records + [record])
    requires Apart(files, records) && InEffect(files, before, records, 0, |records|)
    requires (after, record) == MoveRecord(before, mode, c)
    ensures Apart(files, records + [record]) && InEffect(files, after, records + [record], 0, |records| + 1)
  {
    hide NoAppliedChains, Uses;
    var n, all := |records|, records + [record];
    assert forall k :: 0 <= k < n ==> all[k] == records[k] && (IsApplied(all, k) <==> IsApplied(records, k));
    assert IsApplied(all, n) <==> record.status == Applied;
    if record.status == Applied {
      PlacesAreNew(files, before, records, record);
      assert after == Moved(before, record.source, record.destination);
      assert Look(before, record.source) == Look(files, record.source);
      assert Look(before, record.destination) == Look(files, record.destination);
    }
    forall l | !Uses(all, 0, n + 1, l) ensures Look(after, l) == Look(files, l) {
      StillUnused(records, record, l);
    }
  }

  lemma StillUnused(records: seq<Record>, record: Record, l: string)
    requires !Uses(records + [record], 0, |records| + 1, l)
    ensures !Uses(records, 0, |records|, l)
    ensures record.status == Applied ==> record.source != l && record.destination != l
  {
    var n, all := |records|, records + [record];
    assert IsApplied(all, n) <==> record.status == Applied;
    assert forall k :: 0 <= k < n ==> all[k] == records[k] && (IsApplied(all, k) <==> IsApplied(records, k));
  }

  /** The first n records are undone, the others still in effect. */
  lemma {:induction false} RollbackUndoesInOrder(start: Files, moved: Files, records: seq<Record>, n: nat)
    requires n <= |records| && Apart(start, records) && InEffect(start, moved, records, 0, |records|)
    requires NoAppliedChains(records)
    ensures InEffect(start, RollbackRun(moved, records[..n], ROLLBACK_CONFIRMATION).0, records, n, |records|)
  {
    if n == 0 {
      assert records[..0] == [];
    } else {
      RollbackUndoesInOrder(start, moved, records, n - 1);
      assert records[..n][..n - 1] == records[..n - 1];
      var before := RollbackRun(moved, records[..n - 1], ROLLBACK_CONFIRMATION).0;
      var move := records[n - 1];
      UndoOne(start, before, records, n - 1);
    }
  }

  lemma UndoOne(start: Files, before: Files, records: seq<Record>, n: nat)
    requires n < |records| && Apart(start, records) && InEffect(start, before, records, n, |records|)
    requires NoAppliedChains(records)
    ensures InEffect(start, RollbackRecord(before, records[n], ROLLBACK_CONFIRMATION).0, records, n + 1, |records|)
  {
    var move := records[n];
    var after := RollbackRecord(before, move, ROLLBACK_CONFIRMATION).0;
    if IsApplied(records, n) {
      assert move.source in start;
      assert after == Moved(before, move.destination, move.source);
    }
    forall l | !Uses(records, n + 1, |records|, l) ensures Look(after, l) == Look(start, l) {
      if Uses(records, n, |records|, l) {
        var k :| n <= k < |records| && IsApplied(records, k) && (records[k].source == l || records[k].destination == l);
        assert k == n;
      }
    }
  }

  /** Without chains among the applied moves, rolling the produced manifest
      back in its own order restores the files, and rolling it back once more
      changes nothing. */
  lemma RollbackRestores(files: Files, mode: Mode, cs: seq<Candidate>)
    requires NoAppliedChains(ApplyRun(files, mode, cs).1)
    ensures var (after, manifest) := ApplyRun(files, mode, cs);
            && RollbackRun(after, manifest, ROLLBACK_CONFIRMATION).0 == files
            && RollbackRun(files, manifest, ROLLBACK_CONFIRMATION).0 == files
  {
    var (after, manifest) := ApplyRun(files, mode, cs);
    ApplyPutsMovesInEffect(files, mode, cs);
    RollbackUndoesInOrder(files, after, manifest, |manifest|);
    assert manifest[..|manifest|] == manifest;
    var back := RollbackRun(after, manifest, ROLLBACK_CONFIRMATION).0;
    forall l ensures l in back <==> l in files
             ensures l in back ==> back[l] == files[l]
    {
      assert !Uses(manifest, |manifest|, |manifest|, l);
      assert Look(back, l) == Look(files, l);
    }
    NothingLeftToUndo(files, manifest);
  }

  /** In particular when no candidate's destination is another's source. */
  lemma {:induction false} NoChainsAtAll(files: Files, mode: Mode, cs: seq<Candidate>)
    requires NoChains(cs)
    ensures NoAppliedChains(ApplyRun(files, mode, cs).1)
    ensures |ApplyRun(files, mode, cs).1| == |cs|
    ensures forall k :: 0 <= k < |cs| ==> ApplyRun(files, mode, cs).1[k].source == cs[k].source
                                          && ApplyRun(files, mode, cs).1[k].destination == cs[k].destination
  {
    if cs != [] { NoChainsAtAll(files, mode, cs[..|cs| - 1]); }
  }

  lemma {:induction false} NothingLeftToUndo(files: Files, records: seq<Record>)
    requires forall k {:trigger IsApplied(records, k)} :: 0 <= k < |records| && IsApplied(records, k) ==>
               records[k].destination !in files
    ensures RollbackRun(files, records, ROLLBACK_CONFIRMATION).0 == files
  {
    if records != [] {
      var n := |records| - 1;
      var init := records[..n];
      assert forall k :: 0 <= k < n ==> (IsApplied(init, k) <==> IsApplied(records, k)) && init[k] == records[k];
      NothingLeftToUndo(files, init);
      assert IsApplied(records, n) <==> records[n].status == Applied;
    }
  }

  /** Rolling back the report of a rollback never touches a file: none of its
      records says "applied". */
  lemma {:induction false} RollbackReportIsInert(files: Files, moves: seq<Record>, first: string, elsewhere: Files,
                                                 second: string)
    ensures RollbackRun(elsewhere, RollbackRun(files, moves, first).1, second).0 == elsewhere
  {
    if moves != [] {
      RollbackReportIsInert(files, moves[..|moves| - 1], first, elsewhere, second);
      var records := RollbackRun(files, moves, first).1;
      assert records[..|records| - 1] == RollbackRun(files, moves[..|moves| - 1], first).1;
    }
  }

  /** With a chain the recorded order does not undo: "b" to "c", then "a" to "b". */
  lemma ChainIsNotUndone()
    ensures var files := map["a" := "A", "b" := "B"];
            var cs := [Candidate("b", "c"), Candidate("a", "b")];
            var (after, manifest) := ApplyRun(files, Mode(true, false, APPLY_CONFIRMATION), cs);
            !NoChains(cs)
              && RollbackRun(after, manifest, ROLLBACK_CONFIRMATION).0 == map["a" := "A", "c" := "B"] != files
  {
    var files := map["a" := "A", "b" := "B"];
    var mode := Mode(true, false, APPLY_CONFIRMATION);
    var c0, c1 := Candidate("b", "c"), Candidate("a", "b");
    var cs := [c0, c1];
    assert cs[1].destination == cs[0].source;
    assert cs[..1] == [c0] && [c0][..0] == [];
    var r0 := Record("b", "c", Applied, "b", true);
    var r1 := Record("a", "b", Applied, "a", true);
    assert ApplyRun(files, mode, []) == (files, []);
    var files1 := Moved(files, "b", "c");
    assert MoveRecord(files, mode, c0) == (files1, r0);
    assert [] + [r0] == [r0] && [r0] + [r1] == [r0, r1];
    assert ApplyRun(files, mode, [c0]) == (files1, [] + [r0]);
    var files2 := Moved(files1, "a", "b");
    assert files2 == map["b" := "A", "c" := "B"];
    assert MoveRecord(files1, mode, c1) == (files2, r1);
    assert ApplyRun(files, mode, cs) == (files2, [r0] + [r1]);
    assert [r0, r1][..1] == [r0] && [r0][..0] == [];
    assert RollbackRun(files2, [], ROLLBACK_CONFIRMATION).0 == files2;
    assert RollbackRun(files2, [r0], ROLLBACK_CONFIRMATION).0 == files2;
    var files3 := Moved(files2, "b", "a");
    assert files3 == map["a" := "A", "c" := "B"];
    assert RollbackRun(files2, [r0, r1], ROLLBACK_CONFIRMATION).0 == files3;
    assert "b" in files && "b" !in files3;
  }

  // ---- chains are never undone ------------------------------------------

  datatype Hop = Stay | Hop(from: string, to: string)

  /** One state follows from the other by the move, or by none. */
  ghost predicate HopMade(before: Files, after: Files, hop: Hop) {
    if hop.Stay? then after == before
    else hop.from in before && hop.to !in before && after == Moved(before, hop.from, hop.to)
  }

  /** The states of a run and the move made between each two of them. */
  ghost predicate Trace(states: seq<Files>, hops: seq<Hop>) {
    && |states| == |hops| + 1
    && forall k :: 0 <= k < |hops| ==> HopMade(states[k], states[k + 1], hops[k])
  }

  lemma {:induction false} StaysPresent(states: seq<Files>, hops: seq<Hop>, l: string, lo: nat, hi: nat)
    requires Trace(states, hops) && lo <= hi <= |hops| && l in states[lo]
    requires forall k {:trigger hops[k]} :: lo <= k < hi && hops[k].Hop? ==> hops[k].from != l
    ensures l in states[hi] && states[hi][l] == states[lo][l]
    decreases hi - lo
  {
    if lo < hi {
      assert HopMade(states[lo], states[lo + 1], hops[lo]);
      StaysPresent(states, hops, l, lo + 1, hi);
    }
  }

  lemma {:induction false} StaysAbsent(states: seq<Files>, hops: seq<Hop>, l: string, lo: nat, hi: nat)
    requires Trace(states, hops) && lo <= hi <= |hops| && l !in states[lo]
    requires forall k {:trigger hops[k]} :: lo <= k < hi && hops[k].Hop? ==> hops[k].to != l
    ensures l !in states[hi]
    decreases hi - lo
  {
    if lo < hi {
      assert HopMade(states[lo], states[lo + 1], hops[lo]);
      StaysAbsent(states, hops, l, lo + 1, hi);
    }
  }

  /** An apply run and the rollback of its moves, each move made by the
      rollback where its condition allows. */
  ghost predicate ThereAndBack(there: seq<Files>, hops: seq<Hop>, back: seq<Files>, backHops: seq<Hop>) {
    && Trace(there, hops) && Trace(back, backHops) && |hops| == |backHops| && back[0] == there[|hops|]
    && (forall k {:trigger backHops[k]} {:trigger hops[k]} :: 0 <= k < |hops| ==>
         backHops[k] == if hops[k].Hop? && hops[k].to in back[k] && hops[k].from !in back[k]
                        then Hop(hops[k].to, hops[k].from) else Stay)
    && DistinctHops(hops)
  }

  /** No two moves share their source or their destination. */
  ghost predicate DistinctHops(hops: seq<Hop>) {
    forall i, j {:trigger hops[i], hops[j]} :: 0 <= i < j < |hops| && hops[i].Hop? && hops[j].Hop? ==>
      hops[i].from != hops[j].from && hops[i].to != hops[j].to
  }

  /** A place that no hop leaves keeps what a hop brought there, unless that
      hop itself is rolled back. */
  lemma KeptUntilItsRollback(there: seq<Files>, hops: seq<Hop>, back: seq<Files>, backHops: seq<Hop>, q: nat)
    requires ThereAndBack(there, hops, back, backHops) && q < |hops| && hops[q].Hop?
    requires forall s {:trigger hops[s]} :: q < s < |hops| && hops[s].Hop? ==> hops[s].from != hops[q].to
    ensures hops[q].to in there[|hops|] && hops[q].to in back[q]
  {
    assert HopMade(there[q], there[q + 1], hops[q]);
    StaysPresent(there, hops, hops[q].to, q + 1, |hops|);
    StaysPresent(back, backHops, hops[q].to, 0, q);
  }

  /** A place that was filled and then left is empty at the start, but not in the end. */
  lemma FilledThenVacated(there: seq<Files>, hops: seq<Hop>, back: seq<Files>, backHops: seq<Hop>, p: nat, q: nat)
    requires ThereAndBack(there, hops, back, backHops)
    requires p < q < |hops| && hops[q].Hop? && hops[p].Hop? && hops[p].to == hops[q].from
    ensures back[|hops|] != there[0]
    decreases |hops| - q
  {
    var n, x, z := |hops|, hops[q].from, hops[q].to;
    if s :| q < s < n && hops[s].Hop? && hops[s].from == z {
      FilledThenVacated(there, hops, back, backHops, q, s);
    } else {
      assert HopMade(there[q], there[q + 1], hops[q]) && HopMade(there[p], there[p + 1], hops[p]);
      KeptUntilItsRollback(there, hops, back, backHops, q);
      StaysAbsent(there, hops, x, q + 1, n);
      StaysAbsent(back, backHops, x, 0, q);
      assert backHops[q] == Hop(z, x) && HopMade(back[q], back[q + 1], backHops[q]);
      StaysPresent(back, backHops, x, q + 1, n);
      if x in there[0] { StaysPresent(there, hops, x, 0, p); }
    }
  }

  /** A file whose place is filled behind it does not get home. */
  lemma VacatedThenFilled(there: seq<Files>, hops: seq<Hop>, back: seq<Files>, backHops: seq<Hop>, q: nat, p: nat)
    requires ThereAndBack(there, hops, back, backHops)
    requires q < p < |hops| && hops[q].Hop? && hops[p].Hop? && hops[p].to == hops[q].from
    ensures back[|hops|] != there[0]
    decreases q
  {
    var n, x, z := |hops|, hops[q].from, hops[q].to;
    if s :| q < s < n && hops[s].Hop? && hops[s].from == z {
      FilledThenVacated(there, hops, back, backHops, q, s);
    } else if t :| 0 <= t < q && hops[t].Hop? && hops[t].from == z {
      VacatedThenFilled(there, hops, back, backHops, t, q);
    } else {
      assert HopMade(there[q], there[q + 1], hops[q]);
      KeptUntilItsRollback(there, hops, back, backHops, p);
      StaysPresent(back, backHops, x, 0, q);
      assert backHops[q] == Stay;
      KeptUntilItsRollback(there, hops, back, backHops, q);
      StaysPresent(back, backHops, z, 0, n);
      if z in there[0] { StaysPresent(there, hops, z, 0, q); }
    }
  }

  function AppliedHops(records: seq<Record>): seq<Hop> {
    seq(|records|, k requires 0 <= k < |records| =>
      if records[k].status == Applied then Hop(records[k].source, records[k].destination) else Stay)
  }

  lemma {:induction false} ApplyTrace(files: Files, mode: Mode, cs: seq<Candidate>) returns (states: seq<Files>)
    ensures var (after, records) := ApplyRun(files, mode, cs);
            && Trace(states, AppliedHops(records)) && states[0] == files && states[|records|] == after
            && forall k :: 0 <= k < |records| && records[k].status == Applied ==>
                 records[k].rollbackAvailable && RollbackTarget(records[k]) == records[k].source
  {
    if cs == [] {
      states := [files];
    } else {
      var init := cs[..|cs| - 1];
      var earlier := ApplyTrace(files, mode, init);
      var (before, records) := ApplyRun(files, mode, init);
      var (after, record) := MoveRecord(before, mode, cs[|cs| - 1]);
      states := earlier + [after];
      assert ApplyRun(files, mode, cs) == (after, records + [record]);
      var hops := AppliedHops(records + [record]);
      forall k | 0 <= k < |hops|
        ensures HopMade(states[k], states[k + 1], hops[k])
      {
        if k < |records| {
          assert hops[k] == AppliedHops(records)[k];
        } else {
          assert states[k] == before && states[k + 1] == after;
          assert hops[k] == if record.status == Applied then Hop(record.source, record.destination) else Stay;
        }
      }
      assert Trace(states, hops);
    }
  }

  function BackHops(states: seq<Files>, records: seq<Record>): seq<Hop>
    requires |states| > |records|
  {
    seq(|records|, k requires 0 <= k < |records| =>
      if records[k].status == Applied && records[k].destination in states[k] && records[k].source !in states[k]
      then Hop(records[k].destination, records[k].source) else Stay)
  }

  lemma {:induction false} RollbackTrace(files: Files, records: seq<Record>) returns (states: seq<Files>)
    requires forall k :: 0 <= k < |records| && records[k].status == Applied ==>
               records[k].rollbackAvailable && RollbackTarget(records[k]) == records[k].source
    ensures |states| == |records| + 1 && Trace(states, BackHops(states, records))
    ensures states[0] == files && states[|records|] == RollbackRun(files, records, ROLLBACK_CONFIRMATION).0
  {
    if records == [] {
      states := [files];
    } else {
      var n := |records| - 1;
      var earlier := RollbackTrace(files, records[..n]);
      var after := RollbackRecord(earlier[n], records[n], ROLLBACK_CONFIRMATION).0;
      states := earlier + [after];
      var hops := BackHops(states, records);
      forall k | 0 <= k < |hops|
        ensures HopMade(states[k], states[k + 1], hops[k])
      {
        if k < n { assert hops[k] == BackHops(earlier, records[..n])[k]; }
      }
    }
  }

  /** For moves that share neither sources nor destinations, whatever the files
      hold: rolling the manifest back restores the files exactly when the
      manifest holds no chain. */
  lemma RestoredIffNoChain(files: Files, mode: Mode, cs: seq<Candidate>)
    requires DistinctHops(AppliedHops(ApplyRun(files, mode, cs).1))
    ensures var (after, manifest) := ApplyRun(files, mode, cs);
            RollbackRun(after, manifest, ROLLBACK_CONFIRMATION).0 == files <==> NoAppliedChains(manifest)
  {
    var (after, manifest) := ApplyRun(files, mode, cs);
    if NoAppliedChains(manifest) {
      RollbackRestores(files, mode, cs);
    } else {
      var i, j :| 0 <= i < |manifest| && 0 <= j < |manifest| && i != j && IsApplied(manifest, i)
        && IsApplied(manifest, j)
                  && manifest[i].destination == manifest[j].source;
      var there := ApplyTrace(files, mode, cs);
      var back := RollbackTrace(after, manifest);
      var hops, backHops := AppliedHops(manifest), BackHops(back, manifest);
      assert ThereAndBack(there, hops, back, backHops);
      if i < j {
        FilledThenVacated(there, hops, back, backHops, i, j);
      } else {
        VacatedThenFilled(there, hops, back, backHops, j, i);
      }
    }
  }
}
