// JSON values and the normal forms under which two artifacts count as the same.

module Json {
  import opened Options

  /** A float is its mantissa times two to its exponent. */
  datatype Json =
    | Null
    | Bool(b: bool)
    | Int(n: int)
    | Float(mantissa: int, exponent: int)
    | Str(s: string)
    | Arr(items: seq<Json>)
    | Obj(fields: map<string, Json>)

  type Fields = map<string, Json>

  /** Python's text of a JSON value that is not a text itself. */
  type Show = Json -> string

  function Field(fields: Fields, key: string): Option<Json> {
    if key in fields then Some(fields[key]) else None
  }

  /** The object under a key, empty when there is none. */
  function Sub(fields: Fields, key: string): Fields {
    if key in fields && fields[key].Obj? then fields[key].fields else map[]
  }
}

module Binding {
  import opened Options
  import opened Json
  import opened RepoPaths

  type Pattern = seq<string>

  // ---- declared pointer noise -------------------------------------------

  predicate TokenMatches(pattern: string, token: string) {
    pattern == "*" || pattern == token
  }

  predicate PathMatchesPattern(pattern: Pattern, path: seq<string>) {
    |pattern| == |path| && forall i :: 0 <= i < |path| ==> TokenMatches(pattern[i], path[i])
  }

  predicate AnyMatch(patterns: set<Pattern>, path: seq<string>) {
    exists p :: p in patterns && PathMatchesPattern(p, path)
  }

  predicate HasDescendantMatch(patterns: set<Pattern>, path: seq<string>) {
    exists p :: p in patterns && |p| > |path| && forall i :: 0 <= i < |path| ==> TokenMatches(p[i], path[i])
  }

  /** The entries whose path no pattern matches. */
  function Unmatched(fields: Fields, patterns: set<Pattern>, path: seq<string>): (kept: Fields)
    ensures forall k :: k in kept <==> k in fields && !AnyMatch(patterns, path + [k])
    ensures forall k :: k in kept ==> kept[k] == fields[k]
  {
    fields - (set k | k in fields && AnyMatch(patterns, path + [k]))
  }

  /** Drops the matched entries, descending only where a pattern goes deeper. */
  function StripPruned(value: Json, patterns: set<Pattern>, path: seq<string>): Json
    decreases value
  {
    if patterns == {} then value
    else match value
      case Obj(fields) =>
        var kept := Unmatched(fields, patterns, path);
        Obj(map k | k in kept ::
              if HasDescendantMatch(patterns, path + [k]) then StripPruned(kept[k], patterns, path + [k]) else kept[k])
      case Arr(items) =>
        Arr(seq(|items|, i requires 0 <= i < |items| =>
          if HasDescendantMatch(patterns, path + ["*"]) then StripPruned(items[i], patterns, path + ["*"])
            else items[i]))
      case _ => value
  }

  /** Visits every node and drops each object entry whose full path matches. */
  function StripAll(value: Json, patterns: set<Pattern>, path: seq<string>): Json
    decreases value
  {
    match value
    case Obj(fields) =>
      var kept := Unmatched(fields, patterns, path);
      Obj(map k | k in kept :: StripAll(kept[k], patterns, path + [k]))
    case Arr(items) =>
      Arr(seq(|items|, i requires 0 <= i < |items| => StripAll(items[i], patterns, path + ["*"])))
    case _ => value
  }

  /** Below a path that no pattern extends there is nothing to drop. */
  lemma {:induction false} NothingBelow(value: Json, patterns: set<Pattern>, path: seq<string>)
    requires !HasDescendantMatch(patterns, path)
    ensures StripAll(value, patterns, path) == value
    decreases value
  {
    hide Unmatched, AnyMatch, HasDescendantMatch;
    match value {
      case Obj(fields) =>
        forall k | k in fields
          ensures !AnyMatch(patterns, path + [k]) && StripAll(fields[k], patterns, path + [k]) == fields[k]
        {
          NoDeeperMatch(patterns, path, k);
          NothingBelow(fields[k], patterns, path + [k]);
        }
      case Arr(items) =>
        NoDeeperMatch(patterns, path, "*");
        forall i | 0 <= i < |items| ensures StripAll(items[i], patterns, path + ["*"]) == items[i] {
          NothingBelow(items[i], patterns, path + ["*"]);
        }
      case _ =>
    }
  }

  lemma NoDeeperMatch(patterns: set<Pattern>, path: seq<string>, token: string)
    requires !HasDescendantMatch(patterns, path)
    ensures !HasDescendantMatch(patterns, path + [token]) && !AnyMatch(patterns, path + [token])
  {
    forall p | p in patterns && |p| > |path|
      ensures !(forall i :: 0 <= i < |path| + 1 ==> TokenMatches(p[i], (path + [token])[i]))
    {
      var i :| 0 <= i < |path| && !TokenMatches(p[i], path[i]);
      assert (path + [token])[i] == path[i];
    }
  }

  lemma NothingDeclared(patterns: set<Pattern>, path: seq<string>)
    requires patterns == {}
    ensures !HasDescendantMatch(patterns, path)
  {
  }

  /** The pruned traversal gives the same result as the full one. */
  lemma {:induction false} PruningIsExact(value: Json, patterns: set<Pattern>, path: seq<string>)
    ensures StripPruned(value, patterns, path) == StripAll(value, patterns, path)
    decreases value
  {
    hide AnyMatch, PathMatchesPattern, HasDescendantMatch, Unmatched;
    if patterns == {} {
      NothingDeclared(patterns, path);
      NothingBelow(value, patterns, path);
    } else {
      match value {
        case Obj(fields) =>
          forall k | k in fields
            ensures StripAll(fields[k], patterns, path + [k]) ==
                    if HasDescendantMatch(patterns, path + [k]) then StripPruned(fields[k], patterns, path + [k])
                      else fields[k]
          {
            if HasDescendantMatch(patterns, path + [k]) {
              PruningIsExact(fields[k], patterns, path + [k]);
            } else {
              NothingBelow(fields[k], patterns, path + [k]);
            }
          }
        case Arr(items) =>
          forall i | 0 <= i < |items|
            ensures StripAll(items[i], patterns, path + ["*"]) ==
                    if HasDescendantMatch(patterns, path + ["*"]) then StripPruned(items[i], patterns, path + ["*"])
                      else items[i]
          {
            if HasDescendantMatch(patterns, path + ["*"]) {
              PruningIsExact(items[i], patterns, path + ["*"]);
            } else {
              NothingBelow(items[i], patterns, path + ["*"]);
            }
          }
        case _ =>
      }
    }
  }

  // ---- what stripping means, place by place -----------------------------

  datatype Step = Key(k: string) | Index(i: nat)

  /** The value at a place, if there is one. */
  function At(value: Json, place: seq<Step>): Option<Json>
    decreases |place|
  {
    if place == [] then Some(value)
    else match place[0]
      case Key(k) => if value.Obj? && k in value.fields then At(value.fields[k], place[1..]) else None
      case Index(i) => if value.Arr? && i < |value.items| then At(value.items[i], place[1..]) else None
  }

  /** The tokens by which patterns see a place: keys as they are, positions as "*". */
  function Tokens(place: seq<Step>): seq<string> {
    if place == [] then [] else [if place[0].Key? then place[0].k else "*"] + Tokens(place[1..])
  }

  /** Some entry on the way to the place is dropped. */
  predicate Dropped(patterns: set<Pattern>, path: seq<string>, place: seq<Step>)
    decreases |place|
  {
    place != [] &&
    var next := path + [if place[0].Key? then place[0].k else "*"];
    || (place[0].Key? && AnyMatch(patterns, next))
    || Dropped(patterns, next, place[1..])
  }

  /** A place survives exactly when no object entry on the way to it matches a
      pattern (array elements are never dropped), and a surviving place keeps
      its value, itself stripped. */
  lemma {:induction false} StrippedPlace(value: Json, patterns: set<Pattern>, path: seq<string>, place: seq<Step>)
    ensures At(StripAll(value, patterns, path), place) ==
            if At(value, place).None? || Dropped(patterns, path, place) then None
            else Some(StripAll(At(value, place).value, patterns, path + Tokens(place)))
    decreases |place|
  {
    if place == [] {
      assert path + Tokens(place) == path;
    } else {
      var token := if place[0].Key? then place[0].k else "*";
      assert path + Tokens(place) == (path + [token]) + Tokens(place[1..]);
      match place[0] {
        case Key(k) =>
          if value.Obj? && k in value.fields {
            StrippedPlace(value.fields[k], patterns, path + [k], place[1..]);
          }
        case Index(i) =>
          if value.Arr? && i < |value.items| {
            StrippedPlace(value.items[i], patterns, path + ["*"], place[1..]);
          }
      }
    }
  }

  /** The entries of a stripped object. */
  lemma StrippedFields(fields: Fields, patterns: set<Pattern>, path: seq<string>) returns (stripped: Fields)
    ensures StripAll(Obj(fields), patterns, path) == Obj(stripped)
    ensures forall k :: k in stripped <==> k in fields && !AnyMatch(patterns, path + [k])
    ensures forall k :: k in stripped ==> stripped[k] == StripAll(fields[k], patterns, path + [k])
  {
    hide Unmatched, AnyMatch;
    stripped := StripAll(Obj(fields), patterns, path).fields;
  }

  lemma StrippedItems(items: seq<Json>, patterns: set<Pattern>, path: seq<string>) returns (stripped: seq<Json>)
    ensures StripAll(Arr(items), patterns, path) == Arr(stripped) && |stripped| == |items|
    ensures forall i :: 0 <= i < |items| ==> stripped[i] == StripAll(items[i], patterns, path + ["*"])
  {
    stripped := StripAll(Arr(items), patterns, path).items;
  }

  lemma ScalarsStay(value: Json, patterns: set<Pattern>, path: seq<string>)
    requires !value.Obj? && !value.Arr?
    ensures StripAll(value, patterns, path) == value
  {
  }

  lemma {:induction false} StrippingTwice(value: Json, patterns: set<Pattern>, path: seq<string>)
    ensures StripAll(StripAll(value, patterns, path), patterns, path) == StripAll(value, patterns, path)
    decreases value
  {
    hide StripAll, AnyMatch;
    match value {
      case Obj(fields) =>
        var once := StrippedFields(fields, patterns, path);
        var twice := StrippedFields(once, patterns, path);
        forall k | k in once ensures twice[k] == once[k] {
          StrippingTwice(fields[k], patterns, path + [k]);
        }
        assert twice == once;
      case Arr(items) =>
        var once := StrippedItems(items, patterns, path);
        var twice := StrippedItems(once, patterns, path);
        forall i | 0 <= i < |items| ensures twice[i] == once[i] {
          StrippingTwice(items[i], patterns, path + ["*"]);
        }
        assert twice == once;
      case _ => ScalarsStay(value, patterns, path);
    }
  }

  // ---- binding modes ----------------------------------------------------

  datatype Mode = ContentMode | RevisionMode | RawMode

  function VolatileKeys(mode: Mode): set<string> {
    match mode
    case ContentMode => {"generated_at", "source_revision"}
    case RevisionMode => {"generated_at"}
    case RawMode => {}
  }

  const FRESHNESS_PATTERN: Pattern := ["artifact_records", "*", "generated_at"]

  /** The declared table: one artifact kind has per-record clocks. Only a text
      can equal the kind's name, whatever the surrounding white space. */
  function PatternsFor(fields: Fields): set<Pattern> {
    if "artifact_kind" in fields && fields["artifact_kind"].Str?
       && Strip(fields["artifact_kind"].s) == "artifact_freshness_report"
    then {FRESHNESS_PATTERN} else {}
  }

  function NormalizeClock(value: Json): Json {
    if value.Obj? then Obj(value.fields - {"checked_at"}) else value
  }

  /** Drops the volatile top-level keys and the currentness clock. */
  function WithoutEnvelope(fields: Fields, mode: Mode): Fields {
    var kept := fields - VolatileKeys(mode);
    if "currentness" in kept then kept["currentness" := NormalizeClock(kept["currentness"])] else kept
  }

  function Normalize(value: Json, mode: Mode): Json {
    if !value.Obj? then value
    else StripPruned(Obj(WithoutEnvelope(value.fields, mode)), PatternsFor(value.fields), [])
  }

  /** The same normal form, without pruning. */
  function NormalFields(fields: Fields, mode: Mode): Fields {
    var patterns := PatternsFor(fields);
    var kept := Unmatched(WithoutEnvelope(fields, mode), patterns, []);
    map k | k in kept :: StripAll(kept[k], patterns, [k])
  }

  lemma NormalizeIsNormalFields(fields: Fields, mode: Mode)
    ensures Normalize(Obj(fields), mode) == Obj(NormalFields(fields, mode))
  {
    hide Unmatched, AnyMatch, WithoutEnvelope, PatternsFor;
    var patterns := PatternsFor(fields);
    var kept := WithoutEnvelope(fields, mode);
    PruningIsExact(Obj(kept), patterns, []);
    assert forall k: string :: [] + [k] == [k];
  }

  lemma TopLevelNeverMatches(fields: Fields, k: string)
    ensures !AnyMatch(PatternsFor(fields), [k])
  {
    assert forall p :: p in PatternsFor(fields) ==> |p| == 3;
  }

  /** Outside the record list no declared pattern reaches anything. */
  lemma OnlyRecordsAreTouched(fields: Fields, k: string, value: Json)
    requires k != "artifact_records"
    ensures StripAll(value, PatternsFor(fields), [k]) == value
  {
    forall p | p in PatternsFor(fields)
      ensures p == FRESHNESS_PATTERN && !TokenMatches(p[0], [k][0])
    {
    }
    NothingBelow(value, PatternsFor(fields), [k]);
  }

  /** One field of the normal form. */
  lemma NormalFieldIs(fields: Fields, mode: Mode, k: string)
    ensures k in NormalFields(fields, mode) <==> k in fields && k !in VolatileKeys(mode)
    ensures k in fields && k !in VolatileKeys(mode) ==>
              NormalFields(fields, mode)[k] ==
              if k == "currentness" then NormalizeClock(fields[k])
              else if k == "artifact_records" then StripAll(fields[k], PatternsFor(fields), [k])
              else fields[k]
  {
    TopLevelNeverMatches(fields, k);
    if k in fields && k != "artifact_records" {
      OnlyRecordsAreTouched(fields, k, WithoutEnvelope(fields, RawMode)[k]);
      OnlyRecordsAreTouched(fields, k, fields[k]);
    }
  }

  lemma KindIsKept(fields: Fields, mode: Mode)
    ensures PatternsFor(NormalFields(fields, mode)) == PatternsFor(fields)
  {
    NormalFieldIs(fields, mode, "artifact_kind");
  }

  /** Normalising under a mode that already dropped no more than this one does
      loses nothing: the second normal form is that of the original. */
  lemma NormalizeAfter(fields: Fields, first: Mode, second: Mode)
    requires VolatileKeys(first) <= VolatileKeys(second)
    ensures NormalFields(NormalFields(fields, first), second) == NormalFields(fields, second)
  {
    hide NormalFields, StripAll;
    var once := NormalFields(fields, first);
    KindIsKept(fields, first);
    forall k
      ensures k in NormalFields(once, second) <==> k in NormalFields(fields, second)
      ensures k in NormalFields(fields, second) ==> NormalFields(once, second)[k] == NormalFields(fields, second)[k]
    {
      NormalFieldIs(fields, first, k);
      NormalFieldIs(fields, second, k);
      NormalFieldIs(once, second, k);
      if k in fields {
        StrippingTwice(fields[k], PatternsFor(fields), [k]);
      }
    }
  }

  lemma NormalizeTwice(value: Json, mode: Mode)
    ensures Normalize(Normalize(value, mode), mode) == Normalize(value, mode)
  {
    if value.Obj? {
      NormalizeIsNormalFields(value.fields, mode);
      NormalizeIsNormalFields(NormalFields(value.fields, mode), mode);
      NormalizeAfter(value.fields, mode, mode);
    }
  }

  lemma ContentAfterRevision(value: Json)
    ensures Normalize(Normalize(value, RevisionMode), ContentMode) == Normalize(value, ContentMode)
  {
    if value.Obj? {
      NormalizeIsNormalFields(value.fields, RevisionMode);
      NormalizeIsNormalFields(value.fields, ContentMode);
      NormalizeIsNormalFields(NormalFields(value.fields, RevisionMode), ContentMode);
      NormalizeAfter(value.fields, RevisionMode, ContentMode);
    }
  }

  /** Equal under revision binding means equal under content binding; the
      converse holds exactly when the source revisions agree as well. */
  lemma {:induction false} RevisionBindingIsStronger(a: Fields, b: Fields)
    ensures Normalize(Obj(a), RevisionMode) == Normalize(Obj(b), RevisionMode) <==>
              Normalize(Obj(a), ContentMode) == Normalize(Obj(b), ContentMode)
              && Field(a, "source_revision") == Field(b, "source_revision")
  {
    hide *;
    NormalizeIsNormalFields(a, RevisionMode);
    NormalizeIsNormalFields(b, RevisionMode);
    NormalizeIsNormalFields(a, ContentMode);
    NormalizeIsNormalFields(b, ContentMode);
    ContentAfterRevision(Obj(a));
    ContentAfterRevision(Obj(b));
    RevisionIsKept(a);
    RevisionIsKept(b);
    if NormalFields(a, ContentMode) == NormalFields(b, ContentMode)
       && Field(a, "source_revision") == Field(b, "source_revision") {
      RevisionFormFromContentForm(a, b);
    }
  }

  lemma RevisionIsKept(fields: Fields)
    ensures Field(NormalFields(fields, RevisionMode), "source_revision") == Field(fields, "source_revision")
  {
    NormalFieldIs(fields, RevisionMode, "source_revision");
  }

  /** The two normal forms differ in the source revision only. */
  lemma SameApartFromRevision(fields: Fields, k: string)
    requires k != "source_revision"
    ensures k in NormalFields(fields, RevisionMode) <==> k in NormalFields(fields, ContentMode)
    ensures k in NormalFields(fields, ContentMode) ==>
              NormalFields(fields, RevisionMode)[k] == NormalFields(fields, ContentMode)[k]
  {
    hide NormalFields, PatternsFor, StripAll, NormalizeClock;
    NormalFieldIs(fields, RevisionMode, k);
    NormalFieldIs(fields, ContentMode, k);
  }

  lemma {:induction false} RevisionFormFromContentForm(a: Fields, b: Fields)
    requires NormalFields(a, ContentMode) == NormalFields(b, ContentMode)
    requires Field(a, "source_revision") == Field(b, "source_revision")
    ensures NormalFields(a, RevisionMode) == NormalFields(b, RevisionMode)
  {
    hide NormalFields;
    forall k
      ensures k in NormalFields(a, RevisionMode) <==> k in NormalFields(b, RevisionMode)
      ensures k in NormalFields(a, RevisionMode) ==>
                NormalFields(a, RevisionMode)[k] == NormalFields(b, RevisionMode)[k]
    {
      if k == "source_revision" {
        RevisionIsKept(a);
        RevisionIsKept(b);
      } else {
        SameApartFromRevision(a, k);
        SameApartFromRevision(b, k);
      }
    }
  }

  // ---- which reports count as the same ----------------------------------

  /** The report's kind is the one whose records carry clocks. */
  ghost predicate IsFreshnessReport(fields: Fields) {
    && "artifact_kind" in fields && fields["artifact_kind"].Str?
    && IsStripped(fields["artifact_kind"].s, "artifact_freshness_report")
  }

  /** Two values that are both objects agree outside one key; others are equal. */
  ghost predicate SameButFor(a: Json, b: Json, key: string) {
    if a.Obj? && b.Obj? then forall k :: k != key ==> Field(a.fields, k) == Field(b.fields, k) else a == b
  }

  /** Objects or lists of records that agree outside each record's clock. */
  ghost predicate SameRecords(a: Json, b: Json) {
    if a.Obj? && b.Obj? then
      && (forall k :: k in a.fields <==> k in b.fields)
      && (forall k :: k in a.fields ==> SameButFor(a.fields[k], b.fields[k], "generated_at"))
    else if a.Arr? && b.Arr? then
      && |a.items| == |b.items|
      && (forall i :: 0 <= i < |a.items| ==> SameButFor(a.items[i], b.items[i], "generated_at"))
    else a == b
  }

  /** Equal up to the clocks: the time of writing (unless raw), the source
      revision under content binding, the time of the currentness check, and
      in freshness reports the time of writing of each record. */
  ghost predicate SameButForClocks(a: Fields, b: Fields, mode: Mode) {
    forall k :: AgreeAt(a, b, mode, k)
  }

  ghost predicate AgreeAt(a: Fields, b: Fields, mode: Mode, k: string) {
    || (k == "generated_at" && !mode.RawMode?)
    || (k == "source_revision" && mode.ContentMode?)
    || (k in a && k in b && k == "currentness" && SameButFor(a[k], b[k], "checked_at"))
    || (k in a && k in b && k == "artifact_records" && IsFreshnessReport(a) && SameRecords(a[k], b[k]))
    || Field(a, k) == Field(b, k)
  }

  /** One record without its clock. */
  lemma RecordStripped(value: Json, token: string)
    ensures StripAll(value, {FRESHNESS_PATTERN}, ["artifact_records", token]) ==
            if value.Obj? then Obj(value.fields - {"generated_at"}) else value
  {
    hide StripAll, AnyMatch, HasDescendantMatch;
    var patterns, path: seq<string> := {FRESHNESS_PATTERN}, ["artifact_records", token];
    if value.Obj? {
      var stripped := StrippedFields(value.fields, patterns, path);
      forall k ensures AnyMatch(patterns, path + [k]) <==> k == "generated_at" { RecordClockMatches(token, k); }
      forall k | k in value.fields
        ensures StripAll(value.fields[k], patterns, path + [k]) == value.fields[k]
      {
        NoneDeeper(path + [k]);
        NothingBelow(value.fields[k], patterns, path + [k]);
      }
      assert stripped == value.fields - {"generated_at"};
    } else if value.Arr? {
      var stripped := StrippedItems(value.items, patterns, path);
      NoneDeeper(path + ["*"]);
      forall i | 0 <= i < |value.items| ensures stripped[i] == value.items[i] {
        NothingBelow(value.items[i], patterns, path + ["*"]);
      }
      assert stripped == value.items;
    } else {
      ScalarsStay(value, patterns, path);
    }
  }

  lemma NoneDeeper(path: seq<string>)
    requires |path| == 3
    ensures !HasDescendantMatch({FRESHNESS_PATTERN}, path)
  {
    assert |FRESHNESS_PATTERN| == 3;
  }

  lemma RecordClockMatches(token: string, k: string)
    ensures AnyMatch({FRESHNESS_PATTERN}, ["artifact_records", token] + [k]) <==> k == "generated_at"
    ensures !AnyMatch({FRESHNESS_PATTERN}, ["artifact_records"] + [token])
  {
    var path: seq<string> := ["artifact_records", token] + [k];
    assert PathMatchesPattern(FRESHNESS_PATTERN, path) <==> k == "generated_at" by {
      assert FRESHNESS_PATTERN[0] == path[0] && FRESHNESS_PATTERN[1] == "*" && FRESHNESS_PATTERN[2] == "generated_at";
      assert path[2] == k;
    }
  }

  lemma SameWithoutClock(a: Json, b: Json, key: string)
    ensures SameButFor(a, b, key) <==>
              (if a.Obj? then Obj(a.fields - {key}) else a) == (if b.Obj? then Obj(b.fields - {key}) else b)
  {
    if a.Obj? && b.Obj? {
      var x, y := a.fields - {key}, b.fields - {key};
      forall k
        ensures k != key ==> Field(x, k) == Field(a.fields, k) && Field(y, k) == Field(b.fields, k)
        ensures k == key ==> Field(x, k).None? && Field(y, k).None?
      {
      }
      SameFields(x, y);
    }
  }

  lemma SameFields(x: Fields, y: Fields)
    ensures x == y <==> forall k :: Field(x, k) == Field(y, k)
  {
    if forall k :: Field(x, k) == Field(y, k) {
      assert forall k :: k in x <==> Field(x, k).Some?;
      assert forall k :: k in y <==> Field(y, k).Some?;
    }
  }

  /** One record agrees with another when they are stripped to the same. */
  lemma RecordAgrees(a: Json, b: Json, token: string)
    ensures SameButFor(a, b, "generated_at") <==>
              StripAll(a, {FRESHNESS_PATTERN}, ["artifact_records"] + [token])
              == StripAll(b, {FRESHNESS_PATTERN}, ["artifact_records"] + [token])
    ensures !AnyMatch({FRESHNESS_PATTERN}, ["artifact_records"] + [token])
  {
    hide StripAll, SameButFor, AnyMatch;
    RecordStripped(a, token);
    RecordStripped(b, token);
    RecordClockMatches(token, "");
    SameWithoutClock(a, b, "generated_at");
    assert ["artifact_records"] + [token] == ["artifact_records", token];
  }

  lemma ListedRecordsAgree(a: seq<Json>, b: seq<Json>)
    ensures SameRecords(Arr(a), Arr(b)) <==>
              StripAll(Arr(a), {FRESHNESS_PATTERN}, ["artifact_records"])
              == StripAll(Arr(b), {FRESHNESS_PATTERN}, ["artifact_records"])
  {
    hide StripAll, SameButFor, AnyMatch;
    var x := StrippedItems(a, {FRESHNESS_PATTERN}, ["artifact_records"]);
    var y := StrippedItems(b, {FRESHNESS_PATTERN}, ["artifact_records"]);
    if |a| == |b| {
      forall i | 0 <= i < |a| ensures SameButFor(a[i], b[i], "generated_at") <==> x[i] == y[i] {
        RecordAgrees(a[i], b[i], "*");
      }
    }
  }

  lemma NamedRecordsAgree(a: Fields, b: Fields)
    ensures SameRecords(Obj(a), Obj(b)) <==>
              StripAll(Obj(a), {FRESHNESS_PATTERN}, ["artifact_records"])
              == StripAll(Obj(b), {FRESHNESS_PATTERN}, ["artifact_records"])
  {
    hide StripAll, SameButFor, AnyMatch;
    var x := StrippedFields(a, {FRESHNESS_PATTERN}, ["artifact_records"]);
    var y := StrippedFields(b, {FRESHNESS_PATTERN}, ["artifact_records"]);
    forall k ensures (k in x <==> k in a) && (k in y <==> k in b) { RecordAgrees(Null, Null, k); }
    forall k | k in a && k in b ensures SameButFor(a[k], b[k], "generated_at") <==> x[k] == y[k] {
      RecordAgrees(a[k], b[k], k);
    }
    if x == y {
      assert forall k :: (k in x <==> k in y) && (k in x ==> x[k] == y[k]);
    }
  }

  lemma SameRecordsMeans(a: Json, b: Json)
    ensures SameRecords(a, b) <==>
              StripAll(a, {FRESHNESS_PATTERN}, ["artifact_records"])
              == StripAll(b, {FRESHNESS_PATTERN}, ["artifact_records"])
  {
    hide StripAll, SameRecords;
    if a.Obj? && b.Obj? {
      NamedRecordsAgree(a.fields, b.fields);
    } else if a.Arr? && b.Arr? {
      ListedRecordsAgree(a.items, b.items);
    } else {
      OthersAgree(a, b);
    }
  }

  lemma OthersAgree(a: Json, b: Json)
    requires !(a.Obj? && b.Obj?) && !(a.Arr? && b.Arr?)
    ensures SameRecords(a, b) <==> a == b
    ensures SameRecords(a, b) <==>
              StripAll(a, {FRESHNESS_PATTERN}, ["artifact_records"])
              == StripAll(b, {FRESHNESS_PATTERN}, ["artifact_records"])
  {
  }

  lemma PatternsMean(fields: Fields)
    ensures PatternsFor(fields) == if IsFreshnessReport(fields) then {FRESHNESS_PATTERN} else {}
  {
    hide Strip, IsStripped;
    if "artifact_kind" in fields && fields["artifact_kind"].Str? {
      var text := fields["artifact_kind"].s;
      StripMeans(text);
      if IsFreshnessReport(fields) { StrippedIsUnique(text, "artifact_freshness_report"); }
    }
  }

  lemma FieldAgrees(a: Fields, b: Fields, mode: Mode, k: string)
    requires PatternsFor(a) == PatternsFor(b)
    ensures Field(NormalFields(a, mode), k) == Field(NormalFields(b, mode), k) <==> AgreeAt(a, b, mode, k)
  {
    hide NormalFields, StripAll, SameButFor, SameRecords, PatternsFor, IsFreshnessReport;
    NormalFieldIs(a, mode, k);
    NormalFieldIs(b, mode, k);
    PatternsMean(a);
    if k in a && k in b {
      SameWithoutClock(a[k], b[k], "checked_at");
      SameRecordsMeans(a[k], b[k]);
      NothingDeclared({}, [k]);
      NothingBelow(a[k], {}, [k]);
      NothingBelow(b[k], {}, [k]);
      EqualAgree(a[k], b[k]);
    }
  }

  lemma EqualAgree(a: Json, b: Json)
    ensures a == b ==> SameButFor(a, b, "checked_at") && SameRecords(a, b)
  {
  }

  /** Two reports have the same normal form exactly when they agree up to the clocks. */
  lemma SameFormMeans(a: Fields, b: Fields, mode: Mode)
    ensures Normalize(Obj(a), mode) == Normalize(Obj(b), mode) <==> SameButForClocks(a, b, mode)
  {
    hide Normalize, NormalFields, PatternsFor;
    NormalizeIsNormalFields(a, mode);
    NormalizeIsNormalFields(b, mode);
    SameFields(NormalFields(a, mode), NormalFields(b, mode));
    SameKindSamePatterns(a, b);
    NormalFieldIs(a, mode, "artifact_kind");
    NormalFieldIs(b, mode, "artifact_kind");
    if Field(a, "artifact_kind") == Field(b, "artifact_kind") {
      forall k { FieldAgrees(a, b, mode, k); }
    } else {
      assert !AgreeAt(a, b, mode, "artifact_kind");
      assert Field(NormalFields(a, mode), "artifact_kind") != Field(NormalFields(b, mode), "artifact_kind");
    }
  }

  lemma SameKindSamePatterns(a: Fields, b: Fields)
    ensures Field(a, "artifact_kind") == Field(b, "artifact_kind") ==> PatternsFor(a) == PatternsFor(b)
  {
  }
}
