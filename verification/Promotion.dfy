// Promoting a schema-validated candidate to its canonical place, or leaving
// the place alone when nothing that matters has changed.

module Promotion {
  import opened Options
  import opened Json
  import opened Binding
  import RepoPaths

  type Files = map<string, string>

  /** How bytes are read and written, and what the schemas accept. */
  datatype Codec = Codec(
    parse: string -> Option<Json>,
    serialize: Json -> string,
    markdown: string -> Option<string>,
    schemaOf: Fields -> string,            // the text of "$schema", empty without one
    accepts: (string, Json) -> bool)

  /** What was read from a text is read again from what it is written as. */
  ghost predicate Faithful(codec: Codec) {
    forall text :: codec.parse(text).Some? ==>
      codec.parse(codec.serialize(codec.parse(text).value)) == codec.parse(text)
  }

  /** The last component of a path ends in the suffix and is longer than it. */
  predicate HasSuffix(path: string, suffix: string) {
    var n := |path| - |suffix|;
    n > 0 && path[n..] == suffix && path[n - 1] != '/'
  }

  /** A suffix follows a name; a component that is nothing but the suffix has none. */
  lemma SuffixMeans(directory: string, name: string, suffix: string)
    requires directory == "" || directory[|directory| - 1] == '/'
    requires '/' !in name
    ensures HasSuffix(directory + name + suffix, suffix) <==> name != ""
  {
    assert (directory + name + suffix)[|directory + name|..] == suffix;
    if name != "" { assert name[|name| - 1] in name; }
  }

  /** A digest with the mode it was computed in; digests are injective, so the
      digested value stands for the digest. */
  datatype Digest =
    | NoFile
    | RawBytes(bytes: string)
    | Unparseable(bytes: string)
    | JsonForm(mode: Mode, declared: bool, form: Json)
    | Markdown(text: string)
    | BinaryMarkdown(bytes: string)
    | RawText(bytes: string)

  function FileDigest(files: Files, path: string, mode: Mode, codec: Codec): Digest {
    if path !in files then NoFile
    else
      var raw := files[path];
      if mode.RawMode? then RawBytes(raw)
      else if HasSuffix(path, ".json") then
        var payload := codec.parse(raw);
        if payload.None? then Unparseable(raw)
        else JsonForm(mode, payload.value.Obj? && PatternsFor(payload.value.fields) != {},
          Normalize(payload.value, mode))
      else if HasSuffix(path, ".md") then
        var bound := codec.markdown(raw);
        if bound.None? then BinaryMarkdown(raw) else Markdown(bound.value)
      else RawText(raw)
  }

  function ReadObject(files: Files, path: string, codec: Codec): Option<Fields> {
    if path !in files then None
    else
      var payload := codec.parse(files[path]);
      if payload.Some? && payload.value.Obj? then Some(payload.value.fields) else None
  }

  datatype Request = Request(
    candidate: string,
    schemaOverride: Option<string>,
    expectedKind: Option<string>,
    expectedProducer: Option<string>,
    mode: Mode)

  datatype PromotionResult = Promoted | Unchanged | Refused

  predicate Declares(fields: Fields, key: string, expected: Option<string>) {
    expected.None? || Field(fields, key) == Some(Str(expected.value))
  }

  /** An override that is not empty wins over the payload's own schema; a blank choice is none. */
  function SchemaPath(payload: Fields, override: Option<string>, codec: Codec): Option<string> {
    var text := RepoPaths.Strip(if override.Some? && override.value != "" then override.value
      else codec.schemaOf(payload));
    if text == "" then None else Some(text)
  }

  /** The candidate may be promoted. */
  predicate Admissible(files: Files, r: Request, codec: Codec) {
    var payload := ReadObject(files, r.candidate, codec);
    payload.Some? &&
    var schema := SchemaPath(payload.value, r.schemaOverride, codec);
    && schema.Some?
    && Declares(payload.value, "artifact_kind", r.expectedKind)
    && Declares(payload.value, "producer", r.expectedProducer)
    && codec.accepts(schema.value, Obj(payload.value))
  }

  function SchemaFor(files: Files, r: Request, codec: Codec): string
    requires Admissible(files, r, codec)
  {
    SchemaPath(ReadObject(files, r.candidate, codec).value, r.schemaOverride, codec).value
  }

  /** The destination is a valid, non-empty report with the candidate's digest. */
  predicate NothingToDo(files: Files, r: Request, destination: string, codec: Codec)
    requires Admissible(files, r, codec)
  {
    var existing := ReadObject(files, destination, codec);
    && existing.Some? && existing.value != map[]
    && codec.accepts(SchemaFor(files, r, codec), Obj(existing.value))
    && FileDigest(files, r.candidate, r.mode, codec) == FileDigest(files, destination, r.mode, codec)
  }

  /** The transition on (candidate, destination). */
  function Promote(files: Files, r: Request, destination: string, codec: Codec): (Files, PromotionResult) {
    if !Admissible(files, r, codec) then (files, Refused)
    else if NothingToDo(files, r, destination, codec) then
      (if r.candidate == destination then files else files - {r.candidate}, Unchanged)
    else
      (files[destination := codec.serialize(Obj(ReadObject(files, r.candidate, codec).value))], Promoted)
  }

  class Store {
    var files: Files

    /** The promotion as written: the checks in order, then the comparison,
        then either the removal of the candidate or the write. */
    method PromoteSchemaValidatedJson(r: Request, destination: string, codec: Codec) returns (result: PromotionResult)
      modifies this
      ensures (files, result) == Promote(old(files), r, destination, codec)
      ensures result != Refused <==>
                r.candidate in old(files) && exists schema :: Passes(old(files)[r.candidate], r, schema, codec)
    {
      RefusedExactly(files, r, destination, codec);
      var payload := ReadObject(files, r.candidate, codec);
      if payload.None? { return Refused; }
      var schema := SchemaPath(payload.value, r.schemaOverride, codec);
      if schema.None? { return Refused; }
      if !Declares(payload.value, "artifact_kind", r.expectedKind) { return Refused; }
      if !Declares(payload.value, "producer", r.expectedProducer) { return Refused; }
      if !codec.accepts(schema.value, Obj(payload.value)) { return Refused; }
      if destination in files {
        var existing := ReadObject(files, destination, codec);
        if existing.Some? && !codec.accepts(schema.value, Obj(existing.value)) { existing := None; }
        var candidateDigest := FileDigest(files, r.candidate, r.mode, codec);
        var existingDigest := FileDigest(files, destination, r.mode, codec);
        if existing.Some? && existing.value != map[] && candidateDigest == existingDigest {
          if r.candidate != destination { files := files - {r.candidate}; }
          return Unchanged;
        }
      }
      files := files[destination := codec.serialize(Obj(payload.value))];
      return Promoted;
    }
  }

  predicate BothMarkdown(candidate: string, destination: string) {
    HasSuffix(candidate, ".md") && HasSuffix(destination, ".md")
  }

  /** After every success the destination has the candidate's normal form, and
      it holds a report its schema accepts. Markdown names are the exception:
      there the digest is of the text's lines. */
  lemma DestinationHasCandidatesForm(files: Files, r: Request, destination: string, codec: Codec)
    requires Faithful(codec) && Promote(files, r, destination, codec).1 != Refused
    requires Promote(files, r, destination, codec).1 == Promoted || r.mode.RawMode?
             || !BothMarkdown(r.candidate, destination)
    ensures var (after, _) := Promote(files, r, destination, codec);
            && ReadObject(after, destination, codec).Some?
            && Normalize(Obj(ReadObject(after, destination, codec).value), r.mode)
               == Normalize(Obj(ReadObject(files, r.candidate, codec).value), r.mode)
            && codec.accepts(SchemaFor(files, r, codec), Obj(ReadObject(after, destination, codec).value))
  {
    var payload := ReadObject(files, r.candidate, codec).value;
    assert codec.parse(codec.serialize(Obj(payload))) == Some(Obj(payload));
  }

  // ---- what a promotion has checked -------------------------------------

  /** The key holds the expected text, if one is expected. */
  ghost predicate Carries(fields: Fields, key: string, expected: Option<string>) {
    match expected
    case None => true
    case Some(text) => key in fields && fields[key] == Str(text)
  }

  /** The schema asked for: the override unless it is empty, else the payload's own. */
  ghost predicate Chooses(schema: string, payload: Fields, override: Option<string>, codec: Codec) {
    RepoPaths.IsStripped(match override
      case None => codec.schemaOf(payload)
      case Some(text) => if |text| == 0 then codec.schemaOf(payload) else text, schema)
  }

  /** The text is a JSON object that names a schema (`schema`), carries the
      expected kind and producer, and is accepted by the schema. */
  ghost predicate Passes(text: string, r: Request, schema: string, codec: Codec) {
    && codec.parse(text).Some? && codec.parse(text).value.Obj?
    && var payload := codec.parse(text).value.fields;
    && Chooses(schema, payload, r.schemaOverride, codec) && |schema| > 0
    && Carries(payload, "artifact_kind", r.expectedKind)
    && Carries(payload, "producer", r.expectedProducer)
    && codec.accepts(schema, Obj(payload))
  }

  /** A promotion is refused exactly when the candidate is missing or fails one
      of these checks. */
  lemma RefusedExactly(files: Files, r: Request, destination: string, codec: Codec)
    ensures Promote(files, r, destination, codec).1 != Refused <==>
              r.candidate in files && exists schema :: Passes(files[r.candidate], r, schema, codec)
    ensures Promote(files, r, destination, codec).1 != Refused ==>
              Passes(files[r.candidate], r, SchemaFor(files, r, codec), codec)
  {
    hide RepoPaths.Strip, RepoPaths.IsStripped, FileDigest, NothingToDo;
    if r.candidate in files && codec.parse(files[r.candidate]).Some? && codec.parse(files[r.candidate]).value.Obj? {
      var payload := codec.parse(files[r.candidate]).value.fields;
      forall schema
        ensures Chooses(schema, payload, r.schemaOverride, codec) && schema != "" <==>
                  SchemaPath(payload, r.schemaOverride, codec) == Some(schema)
      {
        ChosenSchema(schema, payload, r.schemaOverride, codec);
      }
      if Admissible(files, r, codec) {
        assert Passes(files[r.candidate], r, SchemaFor(files, r, codec), codec);
      }
    }
  }

  lemma ChosenSchema(schema: string, payload: Fields, override: Option<string>, codec: Codec)
    ensures Chooses(schema, payload, override, codec) && schema != "" <==>
              SchemaPath(payload, override, codec) == Some(schema)
  {
    hide RepoPaths.Strip, RepoPaths.IsStripped;
    var text := if override.Some? && override.value != "" then override.value else codec.schemaOf(payload);
    RepoPaths.StripMeans(text);
    if Chooses(schema, payload, override, codec) { RepoPaths.StrippedIsUnique(text, schema); }
  }

  /** After every success the destination holds a report of the expected kind
      and producer. Markdown names are the exception where nothing was written. */
  lemma DestinationCarriesKind(files: Files, r: Request, destination: string, codec: Codec)
    requires Faithful(codec) && Promote(files, r, destination, codec).1 != Refused
    requires Promote(files, r, destination, codec).1 == Promoted || r.mode.RawMode?
             || !BothMarkdown(r.candidate, destination)
    ensures var after := Promote(files, r, destination, codec).0;
            && destination in after
            && codec.parse(after[destination]).Some? && codec.parse(after[destination]).value.Obj?
            && var report := codec.parse(after[destination]).value.fields;
            && Carries(report, "artifact_kind", r.expectedKind) && Carries(report, "producer", r.expectedProducer)
  {
    hide Normalize;
    var payload := ReadObject(files, r.candidate, codec).value;
    assert codec.parse(codec.serialize(Obj(payload))) == Some(Obj(payload));
    if Promote(files, r, destination, codec).1 == Unchanged {
      var report := ReadObject(files, destination, codec).value;
      DestinationHasCandidatesForm(files, r, destination, codec);
      SameFormSameField(report, payload, r.mode, "artifact_kind");
      SameFormSameField(report, payload, r.mode, "producer");
    }
  }

  lemma SameFormSameField(a: Fields, b: Fields, mode: Mode, k: string)
    requires Normalize(Obj(a), mode) == Normalize(Obj(b), mode)
    requires k == "artifact_kind" || k == "producer"
    ensures Field(a, k) == Field(b, k)
  {
    NormalizeIsNormalFields(a, mode);
    NormalizeIsNormalFields(b, mode);
    NormalFieldIs(a, mode, k);
    NormalFieldIs(b, mode, k);
  }

  /** A written destination reads back as the candidate; a candidate found
      unchanged is removed unless it is the destination itself. */
  lemma WrittenOrRemoved(files: Files, r: Request, destination: string, codec: Codec)
    requires Faithful(codec)
    ensures var (after, result) := Promote(files, r, destination, codec);
            && (result.Promoted? ==> r.candidate in files && destination in after
                                     && codec.parse(after[destination]) == codec.parse(files[r.candidate]))
            && (result.Unchanged? ==> (r.candidate in after <==> r.candidate == destination))
  {
    if Admissible(files, r, codec) {
      var payload := ReadObject(files, r.candidate, codec).value;
      assert codec.parse(codec.serialize(Obj(payload))) == Some(Obj(payload));
    }
  }

  /** A promotion that reports no change leaves the destination's bytes alone,
      and every other file but the candidate; a refused one changes nothing. */
  lemma OnlyCandidateAndDestinationChange(files: Files, r: Request, destination: string, codec: Codec, path: string)
    ensures var (after, result) := Promote(files, r, destination, codec);
            && (result.Refused? ==> after == files)
            && (result.Unchanged? ==>
                 destination in files && destination in after && after[destination] == files[destination])
            && (path != destination && path != r.candidate ==>
                 (path in after <==> path in files) && (path in files ==> after[path] == files[path]))
            && (result.Promoted? && r.candidate in files && r.candidate != destination ==> r.candidate in after)
  {
  }

  // ---- required binding modes -------------------------------------------

  const REVISION_BOUND_KINDS: set<string> := {
    "auto_improve_readiness_report",
    "goal_run_status",
    "goal_runtime_certificate",
    "release_closeout_batch_manifest",
    "release_closeout_finality_attestation",
    "release_closeout_fixed_point_report",
    "release_closeout_sealed_rehearsal_check",
    "release_closeout_summary",
    "release_evidence_cohort",
    "remediation_backlog"}

  function ResolveBindingMode(expectedKind: Option<string>, requested: Option<Mode>): Option<Mode> {
    var bound := expectedKind.Some? && expectedKind.value in REVISION_BOUND_KINDS;
    if bound && requested.None? then None
    else
      var mode := if requested.Some? then requested.value else ContentMode;
      if bound && mode != RevisionMode then None else Some(mode)
  }

  /** A bound kind is either promoted under revision binding or not at all. */
  lemma BoundKindsResolveToRevision(expectedKind: Option<string>, requested: Option<Mode>)
    ensures expectedKind.Some? && expectedKind.value in REVISION_BOUND_KINDS ==>
              (ResolveBindingMode(expectedKind, requested).Some? <==> requested == Some(RevisionMode))
              && ResolveBindingMode(expectedKind, requested) in {None, Some(RevisionMode)}
    ensures !(expectedKind.Some? && expectedKind.value in REVISION_BOUND_KINDS) ==>
              ResolveBindingMode(expectedKind, requested) == Some(if requested.Some? then requested.value
                else ContentMode)
  {
  }

  // ---- whole runs -------------------------------------------------------

  /** One attempt of a run: the other files as they are by then, the request
      without its mode, and the mode asked for. */
  datatype Attempt = Attempt(others: Files, request: Request, requested: Option<Mode>)

  datatype Place = Place(bytes: Option<string>, latest: Option<Fields>)

  function WithPlace(others: Files, destination: string, bytes: Option<string>): Files {
    if bytes.Some? then others[destination := bytes.value] else others - {destination}
  }

  /** The destination, and the payload of the latest successful candidate. */
  function Attempted(place: Place, a: Attempt, destination: string, codec: Codec): Place {
    var mode := ResolveBindingMode(a.request.expectedKind, a.requested);
    if mode.None? then place
    else
      var files := WithPlace(a.others, destination, place.bytes);
      var r := a.request.(mode := mode.value);
      var (after, result) := Promote(files, r, destination, codec);
      if result.Refused? then place
      else Place(if destination in after then Some(after[destination]) else None, ReadObject(files, r.candidate, codec))
  }

  function AfterRun(start: Option<string>, attempts: seq<Attempt>, destination: string, codec: Codec): Place {
    if attempts == [] then Place(start, None)
    else Attempted(AfterRun(start, attempts[..|attempts| - 1], destination, codec), attempts[|attempts| - 1],
      destination, codec)
  }

  ghost predicate AllBound(attempts: seq<Attempt>) {
    forall i :: 0 <= i < |attempts| ==>
      attempts[i].request.expectedKind.Some? && attempts[i].request.expectedKind.value in REVISION_BOUND_KINDS
  }

  /** The place holds a report with the latest candidate's source revision. */
  ghost predicate Current(place: Place, codec: Codec) {
    place.latest.Some? ==>
      && place.bytes.Some?
      && codec.parse(place.bytes.value).Some? && codec.parse(place.bytes.value).value.Obj?
      && Field(codec.parse(place.bytes.value).value.fields, "source_revision") == Field(place.latest.value,
        "source_revision")
  }

  lemma AttemptKeepsCurrent(place: Place, a: Attempt, destination: string, codec: Codec)
    requires Faithful(codec) && Current(place, codec) && !HasSuffix(destination, ".md")
    requires a.request.expectedKind.Some? && a.request.expectedKind.value in REVISION_BOUND_KINDS
    ensures Current(Attempted(place, a, destination, codec), codec)
  {
    BoundKindsResolveToRevision(a.request.expectedKind, a.requested);
    if a.requested == Some(RevisionMode) {
      var files := WithPlace(a.others, destination, place.bytes);
      var r := a.request.(mode := RevisionMode);
      var (after, result) := Promote(files, r, destination, codec);
      if !result.Refused? {
        DestinationHasCandidatesForm(files, r, destination, codec);
        RevisionBindingIsStronger(ReadObject(after, destination, codec).value,
          ReadObject(files, r.candidate, codec).value);
      }
    }
  }

  /** However candidates and all other files change between attempts, and
      whichever attempts are refused, the destination of revision-bound kinds
      always carries the source revision of the latest promoted candidate. */
  lemma {:induction false} RevisionIsAlwaysLatest(start: Option<string>, attempts: seq<Attempt>, destination: string,
                                                  codec: Codec)
    requires Faithful(codec) && AllBound(attempts) && !HasSuffix(destination, ".md")
    ensures Current(AfterRun(start, attempts, destination, codec), codec)
  {
    if attempts != [] {
      RevisionIsAlwaysLatest(start, attempts[..|attempts| - 1], destination, codec);
      AttemptKeepsCurrent(AfterRun(start, attempts[..|attempts| - 1], destination, codec),
                          attempts[|attempts| - 1], destination, codec);
    }
  }

  /** The destination holds an accepted report, not an empty one, that differs
      from the candidate in nothing content binding looks at but in its revision. */
  predicate DiffersInRevisionAlone(files: Files, r: Request, destination: string, codec: Codec)
    requires Admissible(files, r, codec)
  {
    var candidate := ReadObject(files, r.candidate, codec).value;
    var existing := ReadObject(files, destination, codec);
    && existing.Some? && existing.value != map[]
    && codec.accepts(SchemaFor(files, r, codec), Obj(existing.value))
    && Normalize(Obj(existing.value), ContentMode) == Normalize(Obj(candidate), ContentMode)
    && Field(existing.value, "source_revision") != Field(candidate, "source_revision")
  }

  /** Equal normal forms come from the same declared patterns. */
  lemma SameFormSamePatterns(a: Fields, b: Fields, mode: Mode)
    requires Normalize(Obj(a), mode) == Normalize(Obj(b), mode)
    ensures PatternsFor(a) == PatternsFor(b)
  {
    NormalizeIsNormalFields(a, mode);
    NormalizeIsNormalFields(b, mode);
    KindIsKept(a, mode);
    KindIsKept(b, mode);
  }

  /** What two files must have in common: the bytes under raw binding and
      under names that are neither JSON nor Markdown; the normal forms of two
      JSON files; the bound lines of two Markdown files, or the bytes when
      neither is text. */
  ghost predicate SameReport(a: string, b: string, nameA: string, nameB: string, mode: Mode, codec: Codec) {
    if mode.RawMode? then a == b
    else if HasSuffix(nameA, ".json") && HasSuffix(nameB, ".json") then
      && codec.parse(a).Some? && codec.parse(b).Some?
      && Normalize(codec.parse(a).value, mode) == Normalize(codec.parse(b).value, mode)
    else if HasSuffix(nameA, ".md") && HasSuffix(nameB, ".md") then
      codec.markdown(a) == codec.markdown(b) && (codec.markdown(a).None? ==> a == b)
    else
      && a == b && !HasSuffix(nameA, ".json") && !HasSuffix(nameB, ".json")
      && !HasSuffix(nameA, ".md") && !HasSuffix(nameB, ".md")
  }

  /** A promotion has nothing to do exactly when the destination is an
      accepted, non-empty report that agrees with the candidate. */
  lemma NothingToDoMeans(files: Files, r: Request, destination: string, codec: Codec)
    requires Admissible(files, r, codec)
    ensures NothingToDo(files, r, destination, codec) <==>
              var existing := ReadObject(files, destination, codec);
              && existing.Some? && existing.value != map[]
              && codec.accepts(SchemaFor(files, r, codec), Obj(existing.value))
              && SameReport(files[r.candidate], files[destination], r.candidate, destination, r.mode, codec)
  {
    OneSuffix(r.candidate);
    OneSuffix(destination);
    var existing := ReadObject(files, destination, codec);
    var candidate := ReadObject(files, r.candidate, codec).value;
    if existing.Some? && Normalize(Obj(existing.value), r.mode) == Normalize(Obj(candidate), r.mode) {
      SameFormSamePatterns(existing.value, candidate, r.mode);
    }
  }

  lemma OneSuffix(path: string)
    ensures !(HasSuffix(path, ".json") && HasSuffix(path, ".md"))
  {
    if |path| > 5 {
      assert path[|path| - 5..][4] == path[|path| - 3..][2];
    }
  }

  /** Under content binding the destination ends with the candidate's revision
      exactly when it did not differ from the candidate in its revision alone:
      when there was something to do, or the revisions agreed before. */
  lemma RevisionIsCandidatesIff(files: Files, r: Request, destination: string, codec: Codec)
    requires Faithful(codec) && r.mode == ContentMode && Admissible(files, r, codec)
    requires HasSuffix(destination, ".json") && HasSuffix(r.candidate, ".json")
    ensures var candidate := ReadObject(files, r.candidate, codec).value;
            var existing := ReadObject(files, destination, codec);
            var after := ReadObject(Promote(files, r, destination, codec).0, destination, codec);
            && after.Some?
            && (Field(after.value, "source_revision") == Field(candidate, "source_revision")
                <==> !DiffersInRevisionAlone(files, r, destination, codec))
            && (Field(after.value, "source_revision") == Field(candidate, "source_revision")
                <==> !NothingToDo(files, r, destination, codec)
                     || Field(existing.value, "source_revision") == Field(candidate, "source_revision"))
  {
    hide Normalize, PatternsFor, FileDigest;
    var candidate := ReadObject(files, r.candidate, codec).value;
    NothingToDoMeans(files, r, destination, codec);
    if NothingToDo(files, r, destination, codec) { NothingToDoKeeps(files, r, destination, codec); }
    assert codec.parse(codec.serialize(Obj(candidate))) == Some(Obj(candidate));
  }

  lemma NothingToDoKeeps(files: Files, r: Request, destination: string, codec: Codec)
    requires Admissible(files, r, codec) && NothingToDo(files, r, destination, codec)
    ensures ReadObject(Promote(files, r, destination, codec).0, destination, codec) == ReadObject(files, destination,
            codec)
  {
    hide Normalize, PatternsFor, FileDigest;
  }

  /** Under content binding the revision can go stale: a candidate that differs
      in its revision alone is not written. */
  lemma ContentBindingMayKeepOldRevision(r: Request, destination: string, codec: Codec, files: Files, old': Fields,
                                         new': Fields)
    requires Faithful(codec) && r.mode == ContentMode && Admissible(files, r, codec)
    requires HasSuffix(destination, ".json") && HasSuffix(r.candidate, ".json") && destination != r.candidate
    requires ReadObject(files, destination, codec) == Some(old') && ReadObject(files, r.candidate, codec) == Some(new')
    requires old' != map[] && codec.accepts(SchemaFor(files, r, codec), Obj(old'))
    requires new' == old'["source_revision" := Str("new")] && Field(old', "source_revision") == Some(Str("old"))
    ensures Promote(files, r, destination, codec) == (files - {r.candidate}, Unchanged)
    ensures Field(old', "source_revision") != Field(new', "source_revision")
  {
    hide FileDigest;
    NormalizeIsNormalFields(old', ContentMode);
    NormalizeIsNormalFields(new', ContentMode);
    SameContentForm(old', new');
    NothingToDoMeans(files, r, destination, codec);
  }

  lemma SameContentForm(old': Fields, new': Fields)
    requires new' == old'["source_revision" := Str("new")]
    ensures NormalFields(old', ContentMode) == NormalFields(new', ContentMode)
  {
    assert PatternsFor(old') == PatternsFor(new');
    assert WithoutEnvelope(old', ContentMode) == WithoutEnvelope(new', ContentMode);
  }

  /** Such a run: "new" waits beside a destination that holds "old", is taken
      for unchanged, and is removed. */
  lemma StaleRevisionRun() returns (codec: Codec, files: Files, r: Request)
    ensures Faithful(codec) && r.mode == ContentMode && Admissible(files, r, codec)
    ensures DiffersInRevisionAlone(files, r, "d.json", codec)
    ensures Promote(files, r, "d.json", codec) == (map["d.json" := "old"], Unchanged)
  {
    hide Normalize, FileDigest, NothingToDo;
    var old': Fields, new': Fields := map["source_revision" := Str("old")], map["source_revision" := Str("new")];
    codec := Codec(
      text => if text == "old" then Some(Obj(old')) else if text == "new" then Some(Obj(new')) else None,
      json => if json == Obj(old') then "old" else "new",
      text => None,
      fields => "schema",
      (schema, json) => true);
    files := map["c.json" := "new", "d.json" := "old"];
    r := Request("c.json", None, None, None, ContentMode);
    assert old'["source_revision"] != new'["source_revision"];
    assert "c.json"[1..] == ".json" && "d.json"[1..] == ".json";
    PlainText();
    assert new' == old'["source_revision" := Str("new")];
    ContentBindingMayKeepOldRevision(r, "d.json", codec, files, old', new');
    NothingToDoMeans(files, r, "d.json", codec);
    assert files - {"c.json"} == map["d.json" := "old"];
  }

  lemma PlainText()
    ensures RepoPaths.Strip("schema") == "schema"
  {
  }
}
