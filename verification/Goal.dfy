// The goal contract: deep merge, the two backends, the promotion guard, and
// what repeated rewrites of the contract file keep.

module GoalContract {
  import opened Options
  import opened Json
  import opened RepoPaths

  // ---- deep merge -------------------------------------------------------

  /** Objects merge key by key at every depth; anything else is replaced. */
  function Merge(base: Fields, patch: Json): Fields
    requires patch.Obj?
    decreases patch
  {
    map k | k in base.Keys + patch.fields.Keys ::
      if k !in patch.fields then base[k]
      else if k in base && base[k].Obj? && patch.fields[k].Obj? then Obj(Merge(base[k].fields, patch.fields[k]))
      else patch.fields[k]
  }

  lemma {:induction false} MergeIntoItself(patch: Json)
    requires patch.Obj?
    ensures Merge(patch.fields, patch) == patch.fields
    decreases patch
  {
    forall k | k in patch.fields && patch.fields[k].Obj?
      ensures Merge(patch.fields[k].fields, patch.fields[k]) == patch.fields[k].fields
    {
      MergeIntoItself(patch.fields[k]);
    }
  }

  /** Patching twice is patching once, at any nesting. */
  lemma {:induction false} MergeTwice(base: Fields, patch: Json)
    requires patch.Obj?
    ensures Merge(Merge(base, patch), patch) == Merge(base, patch)
    decreases patch
  {
    forall k | k in patch.fields && patch.fields[k].Obj?
      ensures k in base && base[k].Obj? ==>
                Merge(Merge(base[k].fields, patch.fields[k]), patch.fields[k]) == Merge(base[k].fields, patch.fields[k])
      ensures Merge(patch.fields[k].fields, patch.fields[k]) == patch.fields[k].fields
    {
      if k in base && base[k].Obj? { MergeTwice(base[k].fields, patch.fields[k]); }
      MergeIntoItself(patch.fields[k]);
    }
  }

  /** The value at a key path through objects. */
  function Lookup(fields: Fields, path: seq<string>): Option<Json>
    requires |path| > 0
    decreases |path|
  {
    if path[0] !in fields then None
    else if |path| == 1 then Some(fields[path[0]])
    else if fields[path[0]].Obj? then Lookup(fields[path[0]].fields, path[1..])
    else None
  }

  /** A key path the patch says nothing about, not even about one of its
      prefixes by a non-object, keeps its value. */
  predicate Untouched(patch: Json, path: seq<string>)
    requires patch.Obj? && |path| > 0
  {
    path[0] in patch.fields ==> |path| > 1 && patch.fields[path[0]].Obj? && Untouched(patch.fields[path[0]], path[1..])
  }

  lemma {:induction false} NothingSaid(patch: Json, path: seq<string>)
    requires patch.Obj? && |path| > 0 && Untouched(patch, path)
    ensures Lookup(patch.fields, path).None?
    decreases |path|
  {
    if path[0] in patch.fields { NothingSaid(patch.fields[path[0]], path[1..]); }
  }

  lemma {:induction false} MergeKeepsUntouched(base: Fields, patch: Json, path: seq<string>)
    requires patch.Obj? && |path| > 0 && Untouched(patch, path)
    ensures Lookup(Merge(base, patch), path) == Lookup(base, path)
    decreases |path|
  {
    if path[0] in patch.fields {
      if path[0] in base && base[path[0]].Obj? {
        MergeKeepsUntouched(base[path[0]].fields, patch.fields[path[0]], path[1..]);
      } else {
        NothingSaid(patch.fields[path[0]], path[1..]);
      }
    }
  }

  /** Where the patch has a value, that value stands in the result; an object
      meets an object there by merging with it. */
  lemma {:induction false} MergePutsPatch(base: Fields, patch: Json, path: seq<string>)
    requires patch.Obj? && |path| > 0 && Lookup(patch.fields, path).Some?
    ensures var value := Lookup(patch.fields, path).value;
            var before := Lookup(base, path);
            Lookup(Merge(base, patch), path) ==
            if value.Obj? && before.Some? && before.value.Obj? then Some(Obj(Merge(before.value.fields, value)))
            else Some(value)
    decreases |path|
  {
    var k := path[0];
    if |path| > 1 && k in base && base[k].Obj? {
      MergePutsPatch(base[k].fields, patch.fields[k], path[1..]);
    }
  }

  // ---- backends ---------------------------------------------------------

  datatype Op = Get | Set(contract: Fields) | Update(patch: Fields)

  datatype Outcome = Got(contract: Fields) | Unavailable | Invalid | Unreadable

  datatype Codec = Codec(parse: string -> Option<Json>, serialize: Json -> string, valid: Fields -> bool)

  /** A valid contract is read back as it was written. */
  ghost predicate Faithful(codec: Codec) {
    forall fields: Fields :: codec.valid(fields) ==> codec.parse(codec.serialize(Obj(fields))) == Some(Obj(fields))
  }

  function FakeStep(state: Option<Fields>, op: Op, codec: Codec): (Option<Fields>, Outcome)
    decreases op.Update?
  {
    match op
    case Get => if state.None? then (state, Unavailable) else (state, Got(state.value))
    case Set(contract) => if codec.valid(contract) then (Some(contract), Got(contract)) else (state, Invalid)
    case Update(patch) =>
      if state.None? then (state, Unavailable)
      else FakeStep(state, Set(Merge(state.value, Obj(patch))), codec)
  }

  function FileGet(bytes: Option<string>, codec: Codec): Outcome {
    if bytes.None? then Unavailable
    else
      var payload := codec.parse(bytes.value);
      if payload.None? || !payload.value.Obj? then Unreadable
      else if !codec.valid(payload.value.fields) then Invalid
      else Got(payload.value.fields)
  }

  function FileStep(bytes: Option<string>, op: Op, codec: Codec): (Option<string>, Outcome)
    decreases op.Update?
  {
    match op
    case Get => (bytes, FileGet(bytes, codec))
    case Set(contract) =>
      if codec.valid(contract) then (Some(codec.serialize(Obj(contract))), Got(contract)) else (bytes, Invalid)
    case Update(patch) =>
      var current := FileGet(bytes, codec);
      if !current.Got? then (bytes, current)
      else FileStep(bytes, Set(Merge(current.contract, Obj(patch))), codec)
  }

  class FakeGoalBackend {
    var payload: Option<Fields>

    constructor ()
      ensures payload == None
    {
      payload := None;
    }

    method GetGoal(codec: Codec) returns (o: Outcome)
      ensures (payload, o) == FakeStep(payload, Get, codec)
    {
      if payload.None? { return Unavailable; }
      return Got(payload.value);
    }

    method SetGoal(contract: Fields, codec: Codec) returns (o: Outcome)
      modifies this
      ensures (payload, o) == FakeStep(old(payload), Set(contract), codec)
    {
      if !codec.valid(contract) { return Invalid; }
      payload := Some(contract);
      return Got(contract);
    }

    method UpdateGoal(patch: Fields, codec: Codec) returns (o: Outcome)
      modifies this
      ensures (payload, o) == FakeStep(old(payload), Update(patch), codec)
    {
      var current := GetGoal(codec);
      if !current.Got? { return current; }
      o := SetGoal(Merge(current.contract, Obj(patch)), codec);
    }
  }

  class FileGoalBackend {
    var bytes: Option<string>

    method GetGoal(codec: Codec) returns (o: Outcome)
      ensures (bytes, o) == FileStep(bytes, Get, codec)
    {
      if bytes.None? { return Unavailable; }
      var payload := codec.parse(bytes.value);
      if payload.None? || !payload.value.Obj? { return Unreadable; }
      if !codec.valid(payload.value.fields) { return Invalid; }
      return Got(payload.value.fields);
    }

    method SetGoal(contract: Fields, codec: Codec) returns (o: Outcome)
      modifies this
      ensures (bytes, o) == FileStep(old(bytes), Set(contract), codec)
    {
      if !codec.valid(contract) { return Invalid; }
      bytes := Some(codec.serialize(Obj(contract)));
      return Got(contract);
    }

    method UpdateGoal(patch: Fields, codec: Codec) returns (o: Outcome)
      modifies this
      ensures (bytes, o) == FileStep(old(bytes), Update(patch), codec)
    {
      var current := GetGoal(codec);
      if !current.Got? { return current; }
      o := SetGoal(Merge(current.contract, Obj(patch)), codec);
    }
  }

  function FakeRun(ops: seq<Op>, codec: Codec): (Option<Fields>, seq<Outcome>) {
    if ops == [] then (None, [])
    else
      var (state, outcomes) := FakeRun(ops[..|ops| - 1], codec);
      var (next, o) := FakeStep(state, ops[|ops| - 1], codec);
      (next, outcomes + [o])
  }

  function FileRun(ops: seq<Op>, codec: Codec): (Option<string>, seq<Outcome>) {
    if ops == [] then (None, [])
    else
      var (bytes, outcomes) := FileRun(ops[..|ops| - 1], codec);
      var (next, o) := FileStep(bytes, ops[|ops| - 1], codec);
      (next, outcomes + [o])
  }

  /** The file holds what the memory holds, and that is valid. */
  ghost predicate Represents(bytes: Option<string>, state: Option<Fields>, codec: Codec) {
    && (bytes.None? <==> state.None?)
    && (state.Some? ==> codec.parse(bytes.value) == Some(Obj(state.value)) && codec.valid(state.value))
  }

  lemma StepsAgree(bytes: Option<string>, state: Option<Fields>, op: Op, codec: Codec)
    requires Faithful(codec) && Represents(bytes, state, codec)
    ensures FileStep(bytes, op, codec).1 == FakeStep(state, op, codec).1
    ensures Represents(FileStep(bytes, op, codec).0, FakeStep(state, op, codec).0, codec)
    decreases op.Update?
  {
    match op
    case Get =>
    case Set(contract) =>
      if codec.valid(contract) { assert codec.parse(codec.serialize(Obj(contract))) == Some(Obj(contract)); }
    case Update(patch) =>
      if state.Some? { StepsAgree(bytes, state, Set(Merge(state.value, Obj(patch))), codec); }
  }

  /** From an empty start the two backends answer every sequence of gets, sets
      and updates alike. */
  lemma {:induction false} BackendsAgree(ops: seq<Op>, codec: Codec)
    requires Faithful(codec)
    ensures FakeRun(ops, codec).1 == FileRun(ops, codec).1
    ensures Represents(FileRun(ops, codec).0, FakeRun(ops, codec).0, codec)
  {
    if ops != [] {
      var init, op := ops[..|ops| - 1], ops[|ops| - 1];
      BackendsAgree(init, codec);
      StepsAgree(FileRun(init, codec).0, FakeRun(init, codec).0, op, codec);
    }
  }

  lemma OneMoreOp(ops: seq<Op>, op: Op, codec: Codec)
    ensures FakeRun(ops + [op], codec).0 == FakeStep(FakeRun(ops, codec).0, op, codec).0
    ensures FakeRun(ops + [op], codec).1 == FakeRun(ops, codec).1 + [FakeStep(FakeRun(ops, codec).0, op, codec).1]
  {
    assert (ops + [op])[..|ops|] == ops;
  }

  /** A codec, two contracts and a run of both backends that the agreement covers. */
  lemma BackendsDoAgreeSomewhere() returns (codec: Codec, a: Fields, b: Fields)
    ensures Faithful(codec) && codec.valid(a) && codec.valid(b) && a != b
    ensures FakeRun([Set(a), Update(b), Get], codec).1 == FileRun([Set(a), Update(b), Get], codec).1
            == [Got(a), Got(b), Got(b)]
  {
    a, b := map["status" := Str("active")], map["status" := Str("paused")];
    var active, paused := a, b;
    codec := Codec(
      text => if text == "a" then Some(Obj(active)) else if text == "b" then Some(Obj(paused)) else None,
      json => if json == Obj(active) then "a" else "b",
      fields => fields == active || fields == paused);
    assert a["status"] != b["status"];
    assert Merge(a, Obj(b)) == b;
    var ops := [Set(a), Update(b), Get];
    OneMoreOp([], Set(a), codec);
    assert [] + [Set(a)] == [Set(a)];
    OneMoreOp([Set(a)], Update(b), codec);
    assert [Set(a)] + [Update(b)] == [Set(a), Update(b)];
    OneMoreOp([Set(a), Update(b)], Get, codec);
    assert [Set(a), Update(b)] + [Get] == ops;
    assert codec.valid(a) && codec.valid(b);
    assert FakeRun([], codec).0 == None && FakeRun([], codec).1 == [];
    assert FakeRun([Set(a)], codec).0 == Some(a);
    assert FakeRun([Set(a)], codec).1 == [Got(a)];
    assert FakeRun([Set(a), Update(b)], codec).0 == Some(b);
    assert FakeRun([Set(a), Update(b)], codec).1 == [Got(a), Got(b)];
    BackendsAgree(ops, codec);
  }

  /** Repeating an update answers the same and leaves the state as it is. */
  lemma UpdateIsIdempotent(state: Option<Fields>, patch: Fields, codec: Codec)
    ensures var (once, o) := FakeStep(state, Update(patch), codec);
            o.Got? ==> FakeStep(once, Update(patch), codec) == (once, o)
  {
    if state.Some? { MergeTwice(state.value, Obj(patch)); }
  }

  // ---- the promotion guard ----------------------------------------------

  predicate Truthy(value: Option<Json>) {
    value.Some? && match value.value
      case Null => false
      case Bool(b) => b
      case Int(n) => n != 0
      case Float(mantissa, _) => mantissa != 0
      case Str(s) => s != ""
      case Arr(items) => items != []
      case Obj(fields) => fields != map[]
  }

  /** Everything is true but nothing, no, zero and the empty values. */
  lemma TruthyMeans(value: Json)
    ensures Truthy(Some(value)) <==>
              value !in {Null, Bool(false), Int(0), Str(""), Arr([]), Obj(map[])}
                && !(value.Float? && value.mantissa == 0)
  {
  }

  function TextOf(value: Json, show: Show): string {
    Strip(if value.Str? then value.s else show(value))
  }

  function TextAt(fields: Fields, key: string, show: Show): string {
    if key in fields then TextOf(fields[key], show) else ""
  }

  function NonBlank(texts: seq<string>): seq<string> {
    if texts == [] then [] else (if texts[0] == "" then [] else [texts[0]]) + NonBlank(texts[1..])
  }

  function ListText(value: Option<Json>, show: Show): seq<string> {
    if value.None? || !value.value.Arr? then []
    else
      var items := value.value.items;
      NonBlank(seq(|items|, i requires 0 <= i < |items| => TextOf(items[i], show)))
  }

  function UniqueText(values: seq<string>): seq<string> {
    if values == [] then []
    else
      var before, last := UniqueText(values[..|values| - 1]), Strip(values[|values| - 1]);
      if last == "" || last in before then before else before + [last]
  }

  method UniqueTextLoop(values: seq<string>) returns (unique: seq<string>)
    ensures unique == UniqueText(values)
  {
    unique := [];
    var seen: set<string> := {};
    for i := 0 to |values|
      invariant unique == UniqueText(values[..i])
      invariant forall t :: t in seen <==> t in unique
    {
      assert values[..i + 1][..i] == values[..i];
      var normalized := Strip(values[i]);
      if normalized != "" && normalized !in seen {
        unique := unique + [normalized];
        seen := seen + {normalized};
      }
    }
    assert values[..|values|] == values;
  }

  lemma {:induction false} UniqueTextMembers(values: seq<string>, t: string)
    ensures t in UniqueText(values) <==> t != "" && exists i :: 0 <= i < |values| && Strip(values[i]) == t
  {
    if values != [] {
      var init, n := values[..|values| - 1], |values| - 1;
      UniqueTextMembers(init, t);
      assert forall i :: 0 <= i < n ==> init[i] == values[i];
      assert (exists i :: 0 <= i < |values| && Strip(values[i]) == t)
        <==> Strip(values[n]) == t || exists i :: 0 <= i < n && Strip(init[i]) == t;
    }
  }

  /** Everything the guard is derived from, as loaded. */
  datatype Evidence = Evidence(
    readiness: Fields,
    sealedPreflight: Fields,
    status: Fields,
    session: Option<Fields>,
    guardRequested: bool,
    worktreeGuard: Fields)

  const TERMINAL_QUEUE_BLOCKERS := {"execution_blocked_by_no_runnable_proposal",
    "learning_blocked_by_execution_not_runnable"}
  const TERMINAL_STOP_REASONS := {"queue_exhausted", "proposal_budget_exhausted"}

  function BlockerIds(items: seq<Json>, show: Show): seq<string> {
    if items == [] then []
    else
      var id := if items[0].Obj? then TextAt(items[0].fields, "id", show) else "";
      (if id == "" then [] else [id]) + BlockerIds(items[1..], show)
  }

  predicate SuccessfulIteration(item: Json, show: Show) {
    item.Obj? && (TextAt(item.fields, "decision", show) == "PROMOTE"
                  || TextAt(item.fields, "outcome", show) == "promoted"
                  || TextAt(item.fields, "status", show) == "promoted")
  }

  predicate TerminalQueueCompleted(e: Evidence, show: Show) {
    var run := Sub(e.status, "run");
    && TextAt(run, "status", show) == "completed"
    && TextAt(run, "runtime_mode", show) == "self_improvement_loop"
    && e.session.Some?
    && TextAt(e.session.value, "status", show) == "complete"
    && TextAt(e.session.value, "stop_reason", show) in TERMINAL_STOP_REASONS
    && "iterations" in e.session.value && e.session.value["iterations"].Arr?
    && exists item :: item in e.session.value["iterations"].items && SuccessfulIteration(item, show)
  }

  function WorktreeBlockers(e: Evidence, show: Show): seq<string> {
    if !e.guardRequested then []
    else if e.worktreeGuard == map[] then ["goal_worktree_guard_missing"]
    else if Field(e.worktreeGuard, "artifact_kind") != Some(Str("goal_worktree_guard"))
      then ["goal_worktree_guard_invalid"]
    else
      var decisions := Sub(e.worktreeGuard, "decisions");
      if Truthy(Field(decisions, "can_promote_result")) then []
      else
        var blockers := ListText(Field(decisions, "promotion_blockers"), show)
          + ListText(Field(decisions, "fatal_blockers"), show);
        UniqueText(if blockers == [] then ["goal_worktree_guard_not_promotable"] else blockers)
  }

  predicate PreflightIsClean(preflight: Fields) {
    && Field(preflight, "artifact_kind") == Some(Str("release_closeout_sealed_rehearsal_check"))
    && Field(preflight, "status") == Some(Str("pass"))
    && Field(preflight, "preflight_status") == Some(Str("sealed_clean_pass"))
    && Field(preflight, "distribution_binding_status") == Some(Str("pass"))
    && Field(preflight, "authority_preflight_status") == Some(Str("clean"))
  }

  function Without(blockers: seq<string>, dropped: set<string>): seq<string> {
    if blockers == [] then []
    else (if blockers[0] in dropped then [] else [blockers[0]]) + Without(blockers[1..], dropped)
  }

  function Texts(values: seq<string>): Json {
    Arr(seq(|values|, i requires 0 <= i < |values| => Str(values[i])))
  }

  function GuardFields(can: bool, blockers: seq<string>, clean: bool): Fields {
    map["can_promote_result" := Bool(can),
        "promotion_blockers" := Texts(blockers),
        "sealed_authority_clean" := Bool(clean),
        "runtime_certificate_verified" := Bool(false),
        "sustained_runtime_claimed" := Bool(false),
        "no_sustained_claim_before_certificate_verified" := Bool(true)]
  }

  function SealedClean(e: Evidence): bool {
    var preflight := Sub(Sub(e.readiness, "diagnostics"), "release_authority_preflight_summary");
    PreflightIsClean(if preflight == map[] then e.sealedPreflight else preflight)
  }

  function ReadinessBlockers(e: Evidence, show: Show): seq<string> {
    var listed :=
      if Truthy(Field(e.readiness, "can_promote_result")) then []
      else
        var items := Field(e.readiness, "promotion_blockers");
        if items.Some? && items.value.Arr? then BlockerIds(items.value.items, show) else [];
    if TerminalQueueCompleted(e, show) then Without(listed, TERMINAL_QUEUE_BLOCKERS) else listed
  }

  /** May the result be promoted, before the worktree guard has its say? */
  predicate ReadyToPromote(e: Evidence, show: Show) {
    && (Truthy(Field(e.readiness, "can_promote_result"))
        || (TerminalQueueCompleted(e, show) && ReadinessBlockers(e, show) == []))
    && SealedClean(e)
  }

  function GuardFromReadiness(e: Evidence, show: Show): Option<Fields> {
    if e.readiness == map[] then None
    else
      var guardBlockers := WorktreeBlockers(e, show);
      var can := ReadyToPromote(e, show) && guardBlockers == [];
      var found := ReadinessBlockers(e, show) + guardBlockers;
      var blockers :=
        if can || found != [] then found
        else [if SealedClean(e) then "can_promote_result not verified" else "sealed authority clean pass not verified"];
      Some(GuardFields(can, UniqueText(blockers), SealedClean(e)))
  }

  function DefaultGuard(guard: Option<Fields>): Fields {
    GuardFields(false, ["self-improvement loop certificate incomplete", "sealed authority clean pass not verified"],
      false)
    + (if guard.Some? then guard.value else map[])
  }

  /** The guard says "promote" exactly when it lists no blocker, and only under a clean seal. */
  ghost predicate CoherentGuard(guard: Fields) {
    && "can_promote_result" in guard && guard["can_promote_result"].Bool?
    && "promotion_blockers" in guard && guard["promotion_blockers"].Arr?
    && "sealed_authority_clean" in guard && guard["sealed_authority_clean"].Bool?
    && (guard["can_promote_result"].b <==> guard["promotion_blockers"].items == [])
    && (guard["can_promote_result"].b ==> guard["sealed_authority_clean"].b)
  }

  lemma {:induction false} BlockerIdsAreStripped(items: seq<Json>, show: Show)
    ensures forall t :: t in BlockerIds(items, show) ==> t != "" && Strip(t) == t
  {
    if items != [] {
      BlockerIdsAreStripped(items[1..], show);
      if items[0].Obj? && "id" in items[0].fields {
        var value := items[0].fields["id"];
        StripTwice(if value.Str? then value.s else show(value));
      }
    }
  }

  lemma {:induction false} NonBlankAreNonBlank(texts: seq<string>)
    ensures forall t :: t in NonBlank(texts) <==> t in texts && t != ""
  {
    if texts != [] {
      NonBlankAreNonBlank(texts[1..]);
      assert forall t :: t in texts <==> t == texts[0] || t in texts[1..];
    }
  }

  // ---- what the guard says of the evidence ------------------------------

  /** The text of a field, without the white space around it. */
  ghost predicate Says(fields: Fields, key: string, text: string, show: Show) {
    key in fields && IsStripped(if fields[key].Str? then fields[key].s else show(fields[key]), text)
  }

  lemma SaysMeans(fields: Fields, key: string, text: string, show: Show)
    requires key in fields || text != ""
    ensures Says(fields, key, text, show) <==> key in fields && TextAt(fields, key, show) == text
  {
    hide IsStripped, Strip;
    if key in fields {
      var shown := if fields[key].Str? then fields[key].s else show(fields[key]);
      StripMeans(shown);
      if IsStripped(shown, text) { StrippedIsUnique(shown, text); }
    }
  }

  /** The preflight summary in the readiness report counts when it is a
      non-empty object, the sealed preflight report otherwise. */
  ghost predicate SealIsClean(e: Evidence) {
    var summary := Sub(Sub(e.readiness, "diagnostics"), "release_authority_preflight_summary");
    var preflight := if |summary| > 0 then summary else e.sealedPreflight;
    && IsText(preflight, "artifact_kind", "release_closeout_sealed_rehearsal_check")
    && IsText(preflight, "status", "pass") && IsText(preflight, "preflight_status", "sealed_clean_pass")
    && IsText(preflight, "distribution_binding_status", "pass")
    && IsText(preflight, "authority_preflight_status", "clean")
  }

  ghost predicate IsText(fields: Fields, key: string, text: string) {
    key in fields && fields[key].Str? && fields[key].s == text
  }

  /** The loop ran to the end of its queue and promoted something on the way. */
  ghost predicate QueueIsDone(e: Evidence, show: Show) {
    && Says(Sub(e.status, "run"), "status", "completed", show)
    && Says(Sub(e.status, "run"), "runtime_mode", "self_improvement_loop", show)
    && e.session.Some?
    && var session := e.session.value;
    && Says(session, "status", "complete", show)
    && (Says(session, "stop_reason", "queue_exhausted", show)
        || Says(session, "stop_reason", "proposal_budget_exhausted", show))
    && "iterations" in session && session["iterations"].Arr?
    && exists item :: item in session["iterations"].items && item.Obj?
         && (Says(item.fields, "decision", "PROMOTE", show) || Says(item.fields, "outcome", "promoted", show)
             || Says(item.fields, "status", "promoted", show))
  }

  /** A blocker the readiness report lists and a finished queue does not lift. */
  ghost predicate Blocks(e: Evidence, t: string, show: Show) {
    && !Truthy(Field(e.readiness, "can_promote_result")) && t != ""
    && "promotion_blockers" in e.readiness && e.readiness["promotion_blockers"].Arr?
    && (exists item :: item in e.readiness["promotion_blockers"].items && item.Obj? && Says(item.fields, "id", t, show))
    && !(QueueIsDone(e, show) && t in {"execution_blocked_by_no_runnable_proposal",
                                       "learning_blocked_by_execution_not_runnable"})
  }

  ghost predicate Lists(decisions: Fields, key: string, t: string, show: Show) {
    && key in decisions && decisions[key].Arr? && t != ""
    && exists item :: item in decisions[key].items && IsStripped(if item.Str? then item.s else show(item), t)
  }

  /** A blocker the worktree guard adds, where one is asked for. */
  ghost predicate WorktreeBlocks(e: Evidence, t: string, show: Show) {
    var decisions := Sub(e.worktreeGuard, "decisions");
    && e.guardRequested
    && if |e.worktreeGuard| == 0 then t == "goal_worktree_guard_missing"
       else if Field(e.worktreeGuard, "artifact_kind") != Some(Str("goal_worktree_guard"))
       then t == "goal_worktree_guard_invalid"
       else
         && !Truthy(Field(decisions, "can_promote_result"))
         && (Lists(decisions, "promotion_blockers", t, show) || Lists(decisions, "fatal_blockers", t, show)
             || (t == "goal_worktree_guard_not_promotable"
                 && forall u :: !Lists(decisions, "promotion_blockers", u, show)
                                && !Lists(decisions, "fatal_blockers", u, show)))
  }

  /** The guard's blockers are those of the report and of the worktree, and
      when there are none and promotion is still not allowed, the one reason. */
  ghost predicate ListsBlockers(e: Evidence, blockers: seq<string>, promoted: bool, show: Show) {
    && (forall i, j :: 0 <= i < j < |blockers| ==> blockers[i] != blockers[j])
    && forall t :: t in blockers <==>
         || Blocks(e, t, show) || WorktreeBlocks(e, t, show)
         || (!promoted && (forall u :: !Blocks(e, u, show) && !WorktreeBlocks(e, u, show))
             && t == if SealIsClean(e) then "can_promote_result not verified"
                     else "sealed authority clean pass not verified")
  }

  /** Promotion is allowed when the readiness report allows it, or the queue is
      done and no blocker is left, the seal is clean, and the worktree guard
      has nothing against it. */
  ghost predicate MayPromote(e: Evidence, show: Show) {
    && SealIsClean(e) && (forall t :: !WorktreeBlocks(e, t, show))
    && (Truthy(Field(e.readiness, "can_promote_result"))
        || (QueueIsDone(e, show) && forall t :: !Blocks(e, t, show)))
  }

  /** What the guard derived from the evidence says. */
  lemma GuardMeans(e: Evidence, show: Show) returns (blockers: seq<string>)
    requires e.readiness != map[]
    ensures GuardFromReadiness(e, show).Some?
    ensures var guard := GuardFromReadiness(e, show).value;
            && Field(guard, "can_promote_result") == Some(Bool(MayPromote(e, show)))
            && Field(guard, "sealed_authority_clean") == Some(Bool(SealIsClean(e)))
            && Field(guard, "promotion_blockers") == Some(Texts(blockers))
            && Field(guard, "no_sustained_claim_before_certificate_verified") == Some(Bool(true))
            && ListsBlockers(e, blockers, MayPromote(e, show), show)
  {
    hide ReadinessBlockers, WorktreeBlockers, SealedClean, ReadyToPromote, SealIsClean, Blocks, WorktreeBlocks,
         MayPromote, ListsBlockers, UniqueText;
    SealMeans(e);
    BlockersMean(e, show);
    MayPromoteMeans(e, show);
    var found := ReadinessBlockers(e, show) + WorktreeBlockers(e, show);
    var named := if MayPromote(e, show) || found != [] then found
      else [if SealedClean(e) then "can_promote_result not verified" else "sealed authority clean pass not verified"];
    blockers := UniqueText(named);
    NamedAreListed(e, named, MayPromote(e, show), show);
  }

  lemma BlockersMean(e: Evidence, show: Show)
    ensures forall t :: t in ReadinessBlockers(e, show) <==> Blocks(e, t, show)
    ensures forall t :: t in WorktreeBlockers(e, show) <==> WorktreeBlocks(e, t, show)
  {
    hide *;
    forall t ensures t in ReadinessBlockers(e, show) <==> Blocks(e, t, show) { BlocksMeans(e, t, show); }
    forall t ensures t in WorktreeBlockers(e, show) <==> WorktreeBlocks(e, t, show) { WorktreeMeans(e, t, show); }
  }

  lemma MayPromoteMeans(e: Evidence, show: Show)
    ensures MayPromote(e, show) <==> ReadyToPromote(e, show) && WorktreeBlockers(e, show) == []
  {
    hide ReadinessBlockers, WorktreeBlockers, SealedClean, TerminalQueueCompleted, SealIsClean, QueueIsDone, Blocks,
         WorktreeBlocks, Truthy;
    SealMeans(e);
    QueueMeans(e, show);
    BlockersMean(e, show);
    NoneIn(ReadinessBlockers(e, show));
    NoneIn(WorktreeBlockers(e, show));
  }

  lemma NoneIn(texts: seq<string>)
    ensures texts == [] <==> forall t :: t !in texts
  {
    if texts != [] { assert texts[0] in texts; }
  }

  lemma {:induction false} UniqueTextIsUnique(values: seq<string>)
    ensures forall i, j :: 0 <= i < j < |UniqueText(values)| ==> UniqueText(values)[i] != UniqueText(values)[j]
  {
    hide Strip;
    if values != [] { UniqueTextIsUnique(values[..|values| - 1]); }
  }

  lemma SealMeans(e: Evidence)
    ensures SealedClean(e) <==> SealIsClean(e)
  {
    var summary := Sub(Sub(e.readiness, "diagnostics"), "release_authority_preflight_summary");
    assert |summary| > 0 <==> summary != map[];
  }

  lemma QueueMeans(e: Evidence, show: Show)
    ensures TerminalQueueCompleted(e, show) <==> QueueIsDone(e, show)
  {
    hide Says, TextAt;
    var run := Sub(e.status, "run");
    SaysMeans(run, "status", "completed", show);
    SaysMeans(run, "runtime_mode", "self_improvement_loop", show);
    if e.session.Some? {
      var session := e.session.value;
      SaysMeans(session, "status", "complete", show);
      SaysMeans(session, "stop_reason", "queue_exhausted", show);
      SaysMeans(session, "stop_reason", "proposal_budget_exhausted", show);
      NotThere(run, "status", show);
      NotThere(run, "runtime_mode", show);
      NotThere(session, "status", show);
      NotThere(session, "stop_reason", show);
      forall item: Json | item.Obj?
        ensures SuccessfulIteration(item, show) <==>
                  Says(item.fields, "decision", "PROMOTE", show) || Says(item.fields, "outcome", "promoted", show)
                  || Says(item.fields, "status", "promoted", show)
      {
        SaysMeans(item.fields, "decision", "PROMOTE", show);
        SaysMeans(item.fields, "outcome", "promoted", show);
        SaysMeans(item.fields, "status", "promoted", show);
        NotThere(item.fields, "decision", show);
        NotThere(item.fields, "outcome", show);
        NotThere(item.fields, "status", show);
      }
    }
  }

  lemma NotThere(fields: Fields, key: string, show: Show)
    ensures key !in fields ==> TextAt(fields, key, show) == ""
  {
  }

  lemma {:induction false} BlockerIdsMembers(items: seq<Json>, t: string, show: Show)
    ensures t in BlockerIds(items, show) <==>
              t != "" && exists item :: item in items && item.Obj? && Says(item.fields, "id", t, show)
  {
    hide Says, TextAt;
    if items != [] {
      BlockerIdsMembers(items[1..], t, show);
      if items[0].Obj? && t != "" {
        SaysMeans(items[0].fields, "id", t, show);
        NotThere(items[0].fields, "id", show);
      }
      assert forall item :: item in items <==> item == items[0] || item in items[1..];
    }
  }

  lemma {:induction false} WithoutMembers(blockers: seq<string>, dropped: set<string>, t: string)
    ensures t in Without(blockers, dropped) <==> t in blockers && t !in dropped
  {
    if blockers != [] {
      WithoutMembers(blockers[1..], dropped, t);
      assert t in blockers <==> t == blockers[0] || t in blockers[1..];
    }
  }

  lemma BlocksMeans(e: Evidence, t: string, show: Show)
    ensures t in ReadinessBlockers(e, show) <==> Blocks(e, t, show)
  {
    hide Says, TerminalQueueCompleted, QueueIsDone, Truthy;
    QueueMeans(e, show);
    var items := Field(e.readiness, "promotion_blockers");
    if items.Some? && items.value.Arr? {
      BlockerIdsMembers(items.value.items, t, show);
      WithoutMembers(BlockerIds(items.value.items, show), TERMINAL_QUEUE_BLOCKERS, t);
    } else {
      WithoutMembers([], TERMINAL_QUEUE_BLOCKERS, t);
    }
    WithoutMembers([], TERMINAL_QUEUE_BLOCKERS, t);
  }

  lemma ListTextMembers(decisions: Fields, key: string, t: string, show: Show)
    ensures t in ListText(Field(decisions, key), show) <==> Lists(decisions, key, t, show)
  {
    hide Strip, IsStripped;
    var value := Field(decisions, key);
    if value.Some? && value.value.Arr? {
      var items := value.value.items;
      var texts := seq(|items|, i requires 0 <= i < |items| => TextOf(items[i], show));
      NonBlankAreNonBlank(texts);
      forall item: Json
        ensures IsStripped(if item.Str? then item.s else show(item), t) <==> TextOf(item, show) == t
      {
        var shown := if item.Str? then item.s else show(item);
        StripMeans(shown);
        if IsStripped(shown, t) { StrippedIsUnique(shown, t); }
      }
      if t in texts {
        var i :| 0 <= i < |texts| && texts[i] == t;
        assert items[i] in items;
      }
      if item :| item in items && TextOf(item, show) == t {
        var i :| 0 <= i < |items| && items[i] == item;
        assert texts[i] == t;
      }
    }
  }

  lemma WorktreeMeans(e: Evidence, t: string, show: Show)
    ensures t in WorktreeBlockers(e, show) <==> WorktreeBlocks(e, t, show)
  {
    hide Strip, Lists, ListText, UniqueText, Truthy;
    var decisions := Sub(e.worktreeGuard, "decisions");
    assert |e.worktreeGuard| == 0 <==> e.worktreeGuard == map[];
    var a := ListText(Field(decisions, "promotion_blockers"), show);
    var b := ListText(Field(decisions, "fatal_blockers"), show);
    forall u
      ensures u in a <==> Lists(decisions, "promotion_blockers", u, show)
      ensures u in b <==> Lists(decisions, "fatal_blockers", u, show)
    {
      ListTextMembers(decisions, "promotion_blockers", u, show);
      ListTextMembers(decisions, "fatal_blockers", u, show);
    }
    NoneIn(a + b);
    var values := if a + b == [] then ["goal_worktree_guard_not_promotable"] else a + b;
    UniqueTextMembers(values, t);
    forall u | u in a + b ensures Strip(u) == u && u != "" { ListedIsStripped(decisions, u, show); }
    StripOfStripped("goal_worktree_guard_not_promotable");
    StrippedMembers(values, t);
  }

  lemma ListedIsStripped(decisions: Fields, u: string, show: Show)
    requires u in ListText(Field(decisions, "promotion_blockers"), show)
             || u in ListText(Field(decisions, "fatal_blockers"), show)
    ensures Strip(u) == u && u != ""
  {
    forall key | u in ListText(Field(decisions, key), show) ensures Strip(u) == u && u != "" {
      ListTextMembers(decisions, key, u, show);
      StripOfStripped(u);
    }
  }

  lemma StrippedMembers(values: seq<string>, t: string)
    requires forall u :: u in values ==> Strip(u) == u && u != ""
    ensures t != "" && (exists i :: 0 <= i < |values| && Strip(values[i]) == t) <==> t in values
  {
    hide Strip;
    if t in values {
      var i :| 0 <= i < |values| && values[i] == t;
      assert Strip(values[i]) == t;
    }
  }

  lemma NamedAreListed(e: Evidence, named: seq<string>, can: bool, show: Show)
    requires var found := ReadinessBlockers(e, show) + WorktreeBlockers(e, show);
             && can == (ReadyToPromote(e, show) && WorktreeBlockers(e, show) == [])
             && named == if can || found != [] then found
                 else [if SealedClean(e) then "can_promote_result not verified"
                       else "sealed authority clean pass not verified"]
    requires forall t :: t in ReadinessBlockers(e, show) <==> Blocks(e, t, show)
    requires forall t :: t in WorktreeBlockers(e, show) <==> WorktreeBlocks(e, t, show)
    ensures ListsBlockers(e, UniqueText(named), can, show)
  {
    hide ReadinessBlockers, WorktreeBlockers, SealedClean, Blocks, WorktreeBlocks, Strip, UniqueText, ReadyToPromote;
    var found := ReadinessBlockers(e, show) + WorktreeBlockers(e, show);
    SealMeans(e);
    NoneIn(found);
    UniqueTextIsUnique(named);
    forall u | u in named ensures Strip(u) == u && u != "" { NamedIsStripped(e, u, show); }
    forall t ensures t in UniqueText(named) <==> t in named {
      UniqueTextMembers(named, t);
      StrippedMembers(named, t);
    }
  }

  lemma NamedIsStripped(e: Evidence, u: string, show: Show)
    requires u in ReadinessBlockers(e, show) || u in WorktreeBlockers(e, show)
             || u in {"can_promote_result not verified", "sealed authority clean pass not verified"}
    ensures Strip(u) == u && u != ""
  {
    hide Says, Lists, IsStripped;
    if u in ReadinessBlockers(e, show) {
      var items := Field(e.readiness, "promotion_blockers");
      if items.Some? && items.value.Arr? {
        BlockerIdsAreStripped(items.value.items, show);
        WithoutMembers(BlockerIds(items.value.items, show), TERMINAL_QUEUE_BLOCKERS, u);
      }
    } else if u in WorktreeBlockers(e, show) {
      WorktreeTextIsStripped(e, u, show);
    } else {
      StripOfStripped(u);
    }
  }

  lemma WorktreeTextIsStripped(e: Evidence, u: string, show: Show)
    requires u in WorktreeBlockers(e, show)
    ensures Strip(u) == u && u != ""
  {
    if u == "goal_worktree_guard_missing" || u == "goal_worktree_guard_invalid" {
      StripOfStripped(u);
    } else {
      var decisions := Sub(e.worktreeGuard, "decisions");
      var blockers := ListText(Field(decisions, "promotion_blockers"), show)
        + ListText(Field(decisions, "fatal_blockers"), show);
      var values := if blockers == [] then ["goal_worktree_guard_not_promotable"] else blockers;
      UniqueTextMembers(values, u);
      var i :| 0 <= i < |values| && Strip(values[i]) == u;
      StripTwice(values[i]);
    }
  }

  lemma StripTwice(text: string)
    ensures Strip(Strip(text)) == Strip(text)
  {
    StripMeans(text);
    StripOfStripped(Strip(text));
  }

  /** No blocker found so far is blank, so none is lost when duplicates are dropped. */
  lemma FoundBlockersSurvive(e: Evidence, show: Show)
    ensures ReadinessBlockers(e, show) != [] || WorktreeBlockers(e, show) != [] ==>
              UniqueText(ReadinessBlockers(e, show) + WorktreeBlockers(e, show)) != []
  {
    var a, b := ReadinessBlockers(e, show), WorktreeBlockers(e, show);
    var items := Field(e.readiness, "promotion_blockers");
    if items.Some? && items.value.Arr? {
      BlockerIdsAreStripped(items.value.items, show);
      forall t { WithoutMembers(BlockerIds(items.value.items, show), TERMINAL_QUEUE_BLOCKERS, t); }
    }
    if a != [] {
      assert a[0] in a;
      assert (a + b)[0] == a[0];
      UniqueTextMembers(a + b, a[0]);
    } else if b != [] {
      WorktreeTextIsStripped(e, b[0], show);
      assert (a + b)[0] == b[0];
      UniqueTextMembers(a + b, b[0]);
    }
  }

  lemma GuardFieldsAreCoherent(can: bool, blockers: seq<string>, clean: bool)
    requires can <==> blockers == []
    requires can ==> clean
    ensures CoherentGuard(GuardFields(can, blockers, clean))
    ensures CoherentGuard(DefaultGuard(Some(GuardFields(can, blockers, clean))))
  {
    var guard, default := GuardFields(can, blockers, clean), DefaultGuard(Some(GuardFields(can, blockers, clean)));
    assert |Texts(blockers).items| == |blockers|;
    assert forall k :: k in guard ==> k in default && default[k] == guard[k];
  }

  lemma BlockersDecide(e: Evidence, show: Show)
    ensures e.readiness != map[] ==>
              exists can: bool, blockers: seq<string>, clean: bool ::
                GuardFromReadiness(e, show) == Some(GuardFields(can, blockers, clean))
                && (can <==> blockers == []) && (can ==> clean)
  {
    hide ReadinessBlockers, WorktreeBlockers, SealedClean, TerminalQueueCompleted, GuardFields, Truthy;
    if e.readiness != map[] {
      FoundBlockersSurvive(e, show);
      var clean := SealedClean(e);
      var found := ReadinessBlockers(e, show) + WorktreeBlockers(e, show);
      if ReadyToPromote(e, show) && WorktreeBlockers(e, show) == [] {
        NothingListed(e, show);
        assert found == [];
        assert GuardFromReadiness(e, show) == Some(GuardFields(true, UniqueText([]), clean));
      } else if found != [] {
        assert GuardFromReadiness(e, show) == Some(GuardFields(false, UniqueText(found), clean));
      } else {
        var fallback := if clean then "can_promote_result not verified" else "sealed authority clean pass not verified";
        StripOfStripped(fallback);
        UniqueTextMembers([fallback], fallback);
        assert Strip([fallback][0]) == fallback;
        assert GuardFromReadiness(e, show) == Some(GuardFields(false, UniqueText([fallback]), clean));
      }
    }
  }

  lemma NothingListed(e: Evidence, show: Show)
    requires ReadyToPromote(e, show)
    ensures ReadinessBlockers(e, show) == []
  {
    hide TerminalQueueCompleted, SealedClean;
  }

  lemma FreshGuardIsCoherent(e: Evidence, show: Show)
    ensures CoherentGuard(DefaultGuard(GuardFromReadiness(e, show)))
    ensures CoherentGuard(DefaultGuard(None))
  {
    hide GuardFromReadiness, CoherentGuard, DefaultGuard, GuardFields;
    BlockersDecide(e, show);
    if e.readiness != map[] {
      var can: bool, blockers: seq<string>, clean: bool :|
        GuardFromReadiness(e, show) == Some(GuardFields(can, blockers, clean)) && (can <==> blockers == [])
          && (can ==> clean);
      GuardFieldsAreCoherent(can, blockers, clean);
    }
    NoGuard(e, show);
  }

  lemma NoGuard(e: Evidence, show: Show)
    ensures CoherentGuard(DefaultGuard(None))
    ensures e.readiness == map[] ==> GuardFromReadiness(e, show) == None
  {
    var blockers := ["self-improvement loop certificate incomplete", "sealed authority clean pass not verified"];
    assert DefaultGuard(None) == GuardFields(false, blockers, false);
    GuardFieldsAreCoherent(false, blockers, false);
  }

  // ---- rewriting the contract -------------------------------------------

  function CertificateStatus(runtime: Fields, show: Show): string {
    var given := Truthy(Field(runtime, "certificate_status"));
    var status := if given then TextAt(runtime, "certificate_status", show) else "";
    if status == "verified" then "verified" else "unverified"
  }

  /** The certificate a contract carries. */
  function Certificate(contract: Fields, show: Show): string {
    CertificateStatus(Sub(contract, "runtime"), show)
  }

  datatype Rewrite = Rewrite(
    contractId: string,
    sync: bool,
    evidence: Evidence,
    rest: Fields,                // the fields that depend on options and constants only
    envelope: Option<Json>)      // the metadata with the embedded envelope, when one could be built

  function FreshContract(w: Rewrite, show: Show): (contract: Fields)
    ensures "runtime" in contract && "promotion_guard" in contract
  {
    w.rest
    + map["contract_id" := Str(w.contractId),
          "runtime" := Obj(Sub(w.rest, "runtime")
            + map["certificate_status" := Str("unverified"), "verified_at" := Str("")]),
          "promotion_guard" := Obj(DefaultGuard(if w.sync then GuardFromReadiness(w.evidence, show) else None))]
  }

  /** The runtime section takes over the existing certificate and, when that is
      verified, its date. */
  function PreservedRuntime(runtime: Fields, existing: Fields, show: Show): Fields {
    var status := CertificateStatus(existing, show);
    var verifiedAt := TextAt(existing, "verified_at", show);
    runtime + map["certificate_status" := Str(status)]
    + (if verifiedAt != "" && status == "verified" then map["verified_at" := Str(verifiedAt)] else map[])
  }

  function PreservedGuard(guard: Fields, existing: Fields, status: string): Fields {
    var claimed := Truthy(Field(existing, "sustained_runtime_claimed")) && status == "verified"
      && Truthy(Field(guard, "can_promote_result")) && Truthy(Field(guard, "sealed_authority_clean"));
    guard + map["runtime_certificate_verified" := Bool(status == "verified"),
      "sustained_runtime_claimed" := Bool(claimed)]
  }

  /** All but the name, the certificate and the guard of a fresh contract depends on options alone. */
  lemma FreshContractMeans(w: Rewrite, show: Show)
    ensures var contract := FreshContract(w, show);
            && (forall k :: k != "contract_id" && k != "runtime" && k != "promotion_guard" ==>
                  Field(contract, k) == Field(w.rest, k))
            && Field(contract, "contract_id") == Some(Str(w.contractId))
            && (forall k :: k != "certificate_status" && k != "verified_at" ==>
                  Field(Sub(contract, "runtime"), k) == Field(Sub(w.rest, "runtime"), k))
            && Field(Sub(contract, "runtime"), "verified_at") == Some(Str(""))
  {
    hide GuardFromReadiness, DefaultGuard;
  }

  /** A fresh contract's guard is the one derived from the evidence when
      readiness is synchronised and there is a report; otherwise it promotes nothing. */
  lemma FreshGuardMeans(w: Rewrite, show: Show)
    ensures var guard := Sub(FreshContract(w, show), "promotion_guard");
            if w.sync && w.evidence.readiness != map[] then Some(guard) == GuardFromReadiness(w.evidence, show)
            else
              && Field(guard, "can_promote_result") == Some(Bool(false))
              && Field(guard, "sealed_authority_clean") == Some(Bool(false))
              && Field(guard, "promotion_blockers") == Some(Arr([Str("self-improvement loop certificate incomplete"),
                                                                 Str("sealed authority clean pass not verified")]))
  {
    hide GuardFields, GuardFromReadiness, DefaultGuard;
    if w.sync && w.evidence.readiness != map[] {
      BlockersDecide(w.evidence, show);
      var can: bool, blockers: seq<string>, clean: bool :|
        GuardFromReadiness(w.evidence, show) == Some(GuardFields(can, blockers, clean));
      DefaultsYield(can, blockers, clean);
    } else {
      NoGuard(w.evidence, show);
      NothingPromoted();
    }
  }

  lemma DefaultsYield(can: bool, blockers: seq<string>, clean: bool)
    ensures DefaultGuard(Some(GuardFields(can, blockers, clean))) == GuardFields(can, blockers, clean)
  {
  }

  lemma NothingPromoted()
    ensures var guard := DefaultGuard(None);
            && Field(guard, "can_promote_result") == Some(Bool(false))
            && Field(guard, "sealed_authority_clean") == Some(Bool(false))
            && Field(guard, "promotion_blockers") == Some(Arr([Str("self-improvement loop certificate incomplete"),
                                                               Str("sealed authority clean pass not verified")]))
  {
    var blockers := ["self-improvement loop certificate incomplete", "sealed authority clean pass not verified"];
    assert DefaultGuard(None) == GuardFields(false, blockers, false);
    assert Texts(blockers).items == [Str(blockers[0]), Str(blockers[1])];
  }

  /** The objective and the metadata, where there are any, are the existing contract's. */
  function Inherited(contract: Fields, existing: Fields): Fields {
    contract
    + (if "objective" in existing && existing["objective"].Str? && Strip(existing["objective"].s) != ""
       then map["objective" := existing["objective"]] else map[])
    + (if "metadata" in existing && existing["metadata"].Obj?
       then map["metadata" := existing["metadata"]] else map[])
  }

  function PreserveRuntimeState(contract: Fields, existing: Fields, show: Show): Fields {
    if existing == map[] then contract
    else
      var kept := Inherited(contract, existing);
      var status := CertificateStatus(Sub(existing, "runtime"), show);
      var runtime := PreservedRuntime(Sub(kept, "runtime"), Sub(existing, "runtime"), show);
      var guard := PreservedGuard(Sub(kept, "promotion_guard"), Sub(existing, "promotion_guard"), status);
      kept + map["runtime" := Obj(runtime), "promotion_guard" := Obj(guard)]
  }

  function Rewritten(file: Option<Fields>, w: Rewrite, show: Show): Fields {
    var same := file.Some? && Field(file.value, "contract_id") == Some(Str(w.contractId));
    var existing := if same then file.value else map[];
    var contract := PreserveRuntimeState(FreshContract(w, show), existing, show);
    if w.envelope.Some? then contract["metadata" := w.envelope.value] else contract
  }

  /** A rewrite that fails validation leaves the file as it was. */
  function AfterRewrite(file: Option<Fields>, w: Rewrite, valid: Fields -> bool, show: Show): Option<Fields> {
    var contract := Rewritten(file, w, show);
    if valid(contract) then Some(contract) else file
  }

  /** The file before, between and after a sequence of rewrites. */
  ghost predicate RewriteRun(files: seq<Option<Fields>>, ws: seq<Rewrite>, valid: Fields -> bool, show: Show) {
    && |files| == |ws| + 1
    && forall i :: 0 <= i < |ws| ==> files[i + 1] == AfterRewrite(files[i], ws[i], valid, show)
  }

  /** What every contract written by a rewrite says of itself. */
  ghost predicate HonestContract(contract: Fields, show: Show) {
    var guard := Sub(contract, "promotion_guard");
    && CoherentGuard(guard)
    && Field(guard, "runtime_certificate_verified") == Some(Bool(Certificate(contract, show) == "verified"))
    && (Truthy(Field(guard, "sustained_runtime_claimed")) ==>
         && Certificate(contract, show) == "verified"
         && guard["can_promote_result"].b && guard["sealed_authority_clean"].b)
  }

  /** Preserving keeps the fresh guard's verdict, blockers and seal. */
  lemma PreservedGuardIsHonest(guard: Fields, existing: Fields, status: string)
    requires CoherentGuard(guard)
    ensures var kept := PreservedGuard(guard, existing, status);
            && CoherentGuard(kept)
            && Field(kept, "runtime_certificate_verified") == Some(Bool(status == "verified"))
            && (Truthy(Field(kept, "sustained_runtime_claimed")) ==>
                 status == "verified" && kept["can_promote_result"].b && kept["sealed_authority_clean"].b)
  {
    var kept := PreservedGuard(guard, existing, status);
    assert forall k :: k in ["can_promote_result", "promotion_blockers", "sealed_authority_clean"] ==>
             k in kept && kept[k] == guard[k];
  }

  lemma InheritedMeans(contract: Fields, existing: Fields)
    ensures var now := Inherited(contract, existing);
            && (forall k :: k != "objective" && k != "metadata" ==> Field(now, k) == Field(contract, k))
            && Field(now, "objective") == (if "objective" in existing && existing["objective"].Str?
                                              && !IsStripped(existing["objective"].s, "")
                                           then Some(existing["objective"]) else Field(contract, "objective"))
            && Field(now, "metadata") == (if "metadata" in existing && existing["metadata"].Obj?
                                          then Some(existing["metadata"]) else Field(contract, "metadata"))
  {
    hide Strip, IsStripped;
    if "objective" in existing && existing["objective"].Str? {
      StripMeans(existing["objective"].s);
      if IsStripped(existing["objective"].s, "") { StrippedIsUnique(existing["objective"].s, ""); }
    }
  }

  lemma PreservedParts(contract: Fields, existing: Fields, show: Show)
    requires existing != map[] && "runtime" in contract && "promotion_guard" in contract
    ensures var kept := PreserveRuntimeState(contract, existing, show);
            && Sub(kept, "runtime") == PreservedRuntime(Sub(contract, "runtime"), Sub(existing, "runtime"), show)
            && Sub(kept, "promotion_guard")
               == PreservedGuard(Sub(contract, "promotion_guard"), Sub(existing, "promotion_guard"),
                                 CertificateStatus(Sub(existing, "runtime"), show))
  {
    hide CertificateStatus, TextAt, PreservedRuntime, PreservedGuard, Inherited, Strip, IsStripped;
    InheritedMeans(contract, existing);
    assert Field(Inherited(contract, existing), "runtime") == Field(contract, "runtime");
    assert Field(Inherited(contract, existing), "promotion_guard") == Field(contract, "promotion_guard");
  }

  /** What a contract for the same goal takes over from the existing one: a
      non-blank objective, metadata that is an object, the certificate and the
      date of a verified one. All else is the fresh contract's. */
  ghost predicate TakesOver(now: Fields, contract: Fields, existing: Fields, show: Show) {
    var runtime, guard := Sub(existing, "runtime"), Sub(existing, "promotion_guard");
    var certified := Truthy(Field(runtime, "certificate_status"))
      && Says(runtime, "certificate_status", "verified", show);
    && (forall k :: k !in {"objective", "metadata", "runtime", "promotion_guard"} ==>
          Field(now, k) == Field(contract, k))
    && Field(now, "objective") == (if "objective" in existing && existing["objective"].Str?
                                      && !IsStripped(existing["objective"].s, "")
                                   then Some(existing["objective"]) else Field(contract, "objective"))
    && Field(now, "metadata") == (if "metadata" in existing && existing["metadata"].Obj?
                                  then Some(existing["metadata"]) else Field(contract, "metadata"))
    && "runtime" in now && now["runtime"].Obj? && "promotion_guard" in now && now["promotion_guard"].Obj?
    && TakesOverRuntime(now["runtime"].fields, Sub(contract, "runtime"), runtime, certified, show)
    && TakesOverGuard(now["promotion_guard"].fields, Sub(contract, "promotion_guard"), guard, certified)
  }

  ghost predicate TakesOverRuntime(now: Fields, started: Fields, existing: Fields, certified: bool, show: Show) {
    && (forall k :: k != "certificate_status" && k != "verified_at" ==> Field(now, k) == Field(started, k))
    && Field(now, "certificate_status") == Some(Str(if certified then "verified" else "unverified"))
    && (forall date :: certified && date != "" && Says(existing, "verified_at", date, show) ==>
          Field(now, "verified_at") == Some(Str(date)))
    && (!certified || (forall date :: date != "" ==> !Says(existing, "verified_at", date, show)) ==>
          Field(now, "verified_at") == Field(started, "verified_at"))
  }

  ghost predicate TakesOverGuard(now: Fields, started: Fields, existing: Fields, certified: bool) {
    && (forall k :: k != "runtime_certificate_verified" && k != "sustained_runtime_claimed" ==>
          Field(now, k) == Field(started, k))
    && Field(now, "runtime_certificate_verified") == Some(Bool(certified))
    && Field(now, "sustained_runtime_claimed") ==
       Some(Bool(certified && Truthy(Field(existing, "sustained_runtime_claimed"))
                 && Truthy(Field(started, "can_promote_result")) && Truthy(Field(started, "sealed_authority_clean"))))
  }

  /** A rewrite takes over from a contract of the same goal and from no other;
      the embedded envelope, when there is one, replaces the metadata. */
  lemma RewrittenMeans(file: Option<Fields>, w: Rewrite, show: Show) returns (before: Fields)
    ensures if file.Some? && |file.value| > 0 && Field(file.value, "contract_id") == Some(Str(w.contractId))
            then TakesOver(before, FreshContract(w, show), file.value, show)
            else before == FreshContract(w, show)
    ensures forall k :: k != "metadata" || w.envelope.None? ==> Field(Rewritten(file, w, show), k) == Field(before, k)
    ensures w.envelope.Some? ==> Field(Rewritten(file, w, show), "metadata") == w.envelope
  {
    hide FreshContract, PreserveRuntimeState, TakesOver;
    var same := file.Some? && Field(file.value, "contract_id") == Some(Str(w.contractId));
    var existing := if same then file.value else map[];
    before := PreserveRuntimeState(FreshContract(w, show), existing, show);
    if existing == map[] {
      NothingPreserved(FreshContract(w, show), show);
    } else {
      PreservedMeans(FreshContract(w, show), existing, show);
    }
  }

  lemma PreservedMeans(contract: Fields, existing: Fields, show: Show)
    requires existing != map[] && "runtime" in contract && "promotion_guard" in contract
    ensures TakesOver(PreserveRuntimeState(contract, existing, show), contract, existing, show)
  {
    hide CertificateStatus, PreservedRuntime, PreservedGuard, Inherited, Strip, IsStripped, TakesOverRuntime,
         TakesOverGuard, Truthy, Says;
    var runtime := Sub(existing, "runtime");
    StatusMeans(runtime, show);
    PreservedParts(contract, existing, show);
    RuntimeMeans(Sub(contract, "runtime"), runtime, show);
    GuardIsKept(Sub(contract, "promotion_guard"), Sub(existing, "promotion_guard"), CertificateStatus(runtime, show));
    InheritedMeans(contract, existing);
  }

  lemma StatusMeans(runtime: Fields, show: Show)
    ensures CertificateStatus(runtime, show) ==
            if Truthy(Field(runtime, "certificate_status")) && Says(runtime, "certificate_status", "verified", show)
            then "verified" else "unverified"
  {
    hide Says, TextAt;
    SaysMeans(runtime, "certificate_status", "verified", show);
  }

  lemma RuntimeMeans(started: Fields, existing: Fields, show: Show)
    ensures TakesOverRuntime(PreservedRuntime(started, existing, show), started, existing,
                             CertificateStatus(existing, show) == "verified", show)
  {
    hide Says, TextAt, CertificateStatus;
    var now, date := PreservedRuntime(started, existing, show), TextAt(existing, "verified_at", show);
    StatusIsKnown(existing, show);
    forall d | d != "" ensures Says(existing, "verified_at", d, show) <==> date == d {
      SaysMeans(existing, "verified_at", d, show);
      NotThere(existing, "verified_at", show);
    }
    assert date != "" ==> Says(existing, "verified_at", date, show);
    assert forall k :: k != "certificate_status" && k != "verified_at" ==> Field(now, k) == Field(started, k);
  }

  lemma GuardIsKept(started: Fields, existing: Fields, status: string)
    ensures TakesOverGuard(PreservedGuard(started, existing, status), started, existing, status == "verified")
  {
    hide Truthy;
  }

  lemma StatusIsStable(runtime: Fields, status: string, show: Show)
    requires status in {"verified", "unverified"} && Field(runtime, "certificate_status") == Some(Str(status))
    ensures CertificateStatus(runtime, show) == status
  {
    StripOfStripped("verified");
    StripOfStripped("unverified");
  }

  /** A fresh contract carries no certificate and claims nothing. */
  lemma FreshContractIsHonest(w: Rewrite, show: Show)
    ensures var contract := FreshContract(w, show);
            && HonestContract(contract, show)
            && Certificate(contract, show) == "unverified"
            && contract["runtime"].Obj? && contract["promotion_guard"].Obj?
            && CoherentGuard(contract["promotion_guard"].fields)
  {
    hide GuardFromReadiness, CoherentGuard;
    FreshGuardIsCoherent(w.evidence, show);
    StatusIsStable(Sub(FreshContract(w, show), "runtime"), "unverified", show);
    FreshGuardClaimsNothing(w.evidence, show);
  }

  lemma FreshGuardClaimsNothing(e: Evidence, show: Show)
    ensures forall guard :: guard in {DefaultGuard(None), DefaultGuard(GuardFromReadiness(e, show))} ==>
              Field(guard, "runtime_certificate_verified") == Some(Bool(false))
              && Field(guard, "sustained_runtime_claimed") == Some(Bool(false))
  {
    hide ReadinessBlockers, WorktreeBlockers, SealedClean, ReadyToPromote, UniqueText;
  }

  /** An honest contract's guard and certificate do not depend on its metadata. */
  lemma MetadataIsApart(contract: Fields, envelope: Json, show: Show)
    ensures HonestContract(contract["metadata" := envelope], show) == HonestContract(contract, show)
    ensures Certificate(contract["metadata" := envelope], show) == Certificate(contract, show)
  {
    hide CoherentGuard, CertificateStatus;
  }

  lemma RewrittenIsHonest(file: Option<Fields>, w: Rewrite, show: Show)
    ensures HonestContract(Rewritten(file, w, show), show)
    ensures Certificate(Rewritten(file, w, show), show) == "verified" ==>
              file.Some? && Certificate(file.value, show) == "verified"
  {
    hide FreshContract, PreserveRuntimeState, CertificateStatus, CoherentGuard, PreservedGuard, TextAt;
    var same := file.Some? && Field(file.value, "contract_id") == Some(Str(w.contractId));
    var existing := if same then file.value else map[];
    var started := FreshContract(w, show);
    var contract := PreserveRuntimeState(started, existing, show);
    FreshContractIsHonest(w, show);
    if existing != map[] {
      var status := CertificateStatus(Sub(existing, "runtime"), show);
      PreservedParts(started, existing, show);
      PreservedGuardIsHonest(Sub(started, "promotion_guard"), Sub(existing, "promotion_guard"), status);
      StatusIsKnown(Sub(existing, "runtime"), show);
      StatusIsStable(Sub(contract, "runtime"), status, show);
    } else {
      NothingPreserved(started, show);
    }
    if w.envelope.Some? { MetadataIsApart(contract, w.envelope.value, show); }
  }

  lemma StatusIsKnown(runtime: Fields, show: Show)
    ensures CertificateStatus(runtime, show) in {"verified", "unverified"}
  {
  }

  lemma NothingPreserved(contract: Fields, show: Show)
    ensures PreserveRuntimeState(contract, map[], show) == contract
  {
  }

  /** Over any sequence of rewrites, whatever the evidence and whichever are
      refused: at every point the file is the initial one or an honest
      contract, and its certificate is verified only if the initial one was. */
  lemma {:induction false} RewritesStayHonest(files: seq<Option<Fields>>, ws: seq<Rewrite>, valid: Fields -> bool,
                                              show: Show, n: nat)
    requires RewriteRun(files, ws, valid, show) && n <= |ws|
    ensures files[n] == files[0] || (files[n].Some? && HonestContract(files[n].value, show) && valid(files[n].value))
    ensures files[n].Some? && Certificate(files[n].value, show) == "verified" ==>
              files[0].Some? && Certificate(files[0].value, show) == "verified"
  {
    hide Rewritten, HonestContract, Certificate;
    if n > 0 {
      RewritesStayHonest(files, ws, valid, show, n - 1);
      RewrittenIsHonest(files[n - 1], ws[n - 1], show);
      assert files[n] == AfterRewrite(files[n - 1], ws[n - 1], valid, show);
    }
  }
}
