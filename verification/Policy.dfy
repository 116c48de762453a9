// How reports record which local policy overlay they depend on, how composed
// reports merge those records, and when a record still describes today.

module Policy {
  import opened Options
  import opened Json

  const INDEPENDENT := "independent"
  const UNKNOWN := "unknown"
  const MISSING := "missing"

  /** What reading the overlay file gives today. */
  datatype Overlay = Unreadable | Absent | Present(digest: string)

  /** How a policy path recorded in a report is judged: against a vault, or by
      its text alone. */
  datatype Scope =
    | InVault(isCustom: string -> bool)
    | NoVault(isAbsolute: string -> bool, isDefault: string -> bool)

  // ---- what a report depends on -----------------------------------------

  predicate ComposedSummary(report: Fields) {
    var digest := Sub(report, "pytest_collect_nodeid_digest");
    && Field(report, "artifact_kind") == Some(Str("test_execution_summary"))
    && (Field(report, "summary_mode") in {Some(Str("aggregate")), Some(Str("reused")), Some(Str("derived"))}
        || exists k :: k in digest && "manifest_" <= k)
  }

  /** A composed summary is a test execution summary in one of three modes, or
      one whose collection digest has a manifest key. */
  lemma ComposedSummaryMeans(report: Fields)
    ensures ComposedSummary(report) <==>
              && "artifact_kind" in report && report["artifact_kind"] == Str("test_execution_summary")
              && (("summary_mode" in report && report["summary_mode"].Str?
                   && exists i :: 0 <= i < 3 && ["aggregate", "reused", "derived"][i] == report["summary_mode"].s)
                  || ("pytest_collect_nodeid_digest" in report && report["pytest_collect_nodeid_digest"].Obj?
                      && exists name :: "manifest_" + name in report["pytest_collect_nodeid_digest"].fields))
  {
    var digest := Sub(report, "pytest_collect_nodeid_digest");
    if k :| k in digest && "manifest_" <= k {
      assert k == "manifest_" + k[|"manifest_"|..];
    }
    if name :| "manifest_" + name in digest {
      assert "manifest_" <= "manifest_" + name;
    }
    var modes := ["aggregate", "reused", "derived"];
    assert modes[0] == "aggregate" && modes[1] == "reused" && modes[2] == "derived";
  }

  /** The dependency of a report that recorded none, from its policy path. */
  function InferredDependency(scope: Scope, report: Fields): Option<string> {
    var path := Field(Sub(report, "policy"), "path");
    var named := path.Some? && path.value.Str? && path.value.s != "";
    var marked := "custom_policy_path" in Sub(report, "input_fingerprints");
    if !marked && named && scope.NoVault? && scope.isAbsolute(path.value.s) then Some(UNKNOWN)
    else
      var custom := marked
        || (named && if scope.InVault? then scope.isCustom(path.value.s) else !scope.isDefault(path.value.s));
      if custom && ComposedSummary(report) then Some(UNKNOWN)
      else if custom then None
      else Some(MISSING)
  }

  /** None means that the report does not depend on the overlay at all. */
  function Dependency(scope: Scope, report: Fields, show: Show): (d: Option<string>)
    ensures d.Some? ==> d.value != INDEPENDENT
  {
    var recorded := Field(Sub(report, "input_fingerprints"), "local_corpus_policy");
    if recorded.None? then InferredDependency(scope, report)
    else
      var state := if recorded.value.Str? then recorded.value.s else show(recorded.value);
      if state == INDEPENDENT then None else Some(state)
  }

  /** The text a report recorded, if any. */
  function Recorded(report: Fields, show: Show): Option<string> {
    var recorded := Field(Sub(report, "input_fingerprints"), "local_corpus_policy");
    if recorded.None? then None else Some(if recorded.value.Str? then recorded.value.s else show(recorded.value))
  }

  /** The report names a policy path, and without a mark for a custom policy
      only that path tells which policy it ran on. */
  predicate PathDecides(report: Fields) {
    var path := Field(Sub(report, "policy"), "path");
    path.Some? && path.value.Str? && path.value.s != "" && "custom_policy_path" !in Sub(report, "input_fingerprints")
  }

  /** The path alone cannot be judged: it is absolute and there is no vault. */
  predicate Unjudgeable(scope: Scope, report: Fields) {
    PathDecides(report) && scope.NoVault? && scope.isAbsolute(Sub(report, "policy")["path"].s)
  }

  predicate RanOnCustomPolicy(scope: Scope, report: Fields) {
    if PathDecides(report) then
      var path := Sub(report, "policy")["path"].s;
      if scope.InVault? then scope.isCustom(path) else !scope.isDefault(path)
    else "custom_policy_path" in Sub(report, "input_fingerprints")
  }

  /** A recorded state is the dependency. Without one, independence is inferred
      only for a report that ran on a custom policy and is no composed summary;
      what composed summaries or unjudgeable paths rest on is unknown, and all
      other reports depend on the overlay's absence. */
  lemma DependencyMeans(scope: Scope, report: Fields, show: Show)
    ensures var recorded, d := Recorded(report, show), Dependency(scope, report, show);
            && (recorded.Some? && recorded.value != INDEPENDENT ==> d == recorded)
            && (d == None <==> recorded == Some(INDEPENDENT)
                               || (recorded.None? && !Unjudgeable(scope, report) && RanOnCustomPolicy(scope, report)
                                   && !ComposedSummary(report)))
            && (recorded.None? ==>
                 && (d == Some(MISSING) <==> !Unjudgeable(scope, report) && !RanOnCustomPolicy(scope, report))
                 && (d == Some(UNKNOWN) <==> Unjudgeable(scope, report)
                                             || (RanOnCustomPolicy(scope, report) && ComposedSummary(report))))
  {
    hide ComposedSummary;
  }

  // ---- merging ----------------------------------------------------------

  function Dependencies(scope: Scope, reports: seq<Fields>, show: Show): (ds: set<string>)
    ensures INDEPENDENT !in ds
  {
    set r | r in reports && Dependency(scope, r, show).Some? :: Dependency(scope, r, show).value
  }

  function Merged(dependencies: set<string>): string {
    if dependencies == {} then INDEPENDENT
    else if |dependencies| != 1 then UNKNOWN
    else
      OnlyOne(dependencies);
      var d :| d in dependencies; d
  }

  lemma OnlyOne<T>(s: set<T>)
    requires |s| == 1
    ensures exists x :: s == {x}
  {
    var x :| x in s;
    assert |s - {x}| == 0;
    assert s == {x};
  }

  function MergeDependencies(scope: Scope, reports: seq<Fields>, show: Show): string {
    Merged(Dependencies(scope, reports, show))
  }

  lemma MergedIs(ds: set<string>, d: string)
    requires d in ds
    ensures Merged(ds) == if ds == {d} then d else UNKNOWN
  {
    if |ds| == 1 { OnlyOne(ds); }
  }

  /** What a recorded merge result contributes to a later merge. */
  function AsDependencies(merged: string): set<string> {
    if merged == INDEPENDENT then {} else {merged}
  }

  /** Merging part of a set first and recording the result changes nothing. */
  lemma MergingPartFirst(part: set<string>, rest: set<string>)
    requires INDEPENDENT !in part
    ensures Merged(AsDependencies(Merged(part)) + rest) == Merged(part + rest)
  {
    if part == {} {
      assert part + rest == rest;
      assert {} + rest == rest;
    } else {
      var a :| a in part;
      MergedIs(part, a);
      MergedIs(part + rest, a);
      if part != {a} {
        var b :| b in part && b != a;
        MergedIs({UNKNOWN} + rest, UNKNOWN);
        assert b in part + rest;
      }
    }
  }

  /** The composed report: an envelope that records the merge over itself and
      the reports it was made from. */
  function Composed(scope: Scope, envelope: Fields, parts: seq<Fields>, show: Show): Fields {
    var fingerprints := Sub(envelope, "input_fingerprints");
    var merged := MergeDependencies(scope, [envelope] + parts, show);
    envelope["input_fingerprints" := Obj(fingerprints["local_corpus_policy" := Str(merged)])]
  }

  /** Composing replaces the recorded dependency and nothing else. */
  lemma ComposedKeepsTheRest(scope: Scope, envelope: Fields, parts: seq<Fields>, show: Show, k: string)
    ensures var composed := Composed(scope, envelope, parts, show);
            && (k != "input_fingerprints" ==> Field(composed, k) == Field(envelope, k))
            && composed["input_fingerprints"].Obj?
            && Field(composed["input_fingerprints"].fields, "local_corpus_policy") ==
               Some(Str(MergeDependencies(scope, [envelope] + parts, show)))
            && (k != "local_corpus_policy" ==>
                  Field(composed["input_fingerprints"].fields, k) == Field(Sub(envelope, "input_fingerprints"), k))
  {
    hide MergeDependencies;
  }

  lemma ComposedDependency(scope: Scope, envelope: Fields, parts: seq<Fields>, show: Show)
    ensures var merged := MergeDependencies(scope, [envelope] + parts, show);
            Dependency(scope, Composed(scope, envelope, parts, show), show)
            == if merged == INDEPENDENT then None else Some(merged)
  {
    hide MergeDependencies;
  }

  datatype Group = Group(envelope: Fields, parts: seq<Fields>)

  function Members(groups: seq<Group>): seq<Fields> {
    if groups == [] then [] else [groups[0].envelope] + groups[0].parts + Members(groups[1..])
  }

  function ComposedReports(scope: Scope, groups: seq<Group>, show: Show): seq<Fields> {
    if groups == [] then []
    else [Composed(scope, groups[0].envelope, groups[0].parts, show)] + ComposedReports(scope, groups[1..], show)
  }

  lemma DependenciesOfBoth(scope: Scope, a: seq<Fields>, b: seq<Fields>, show: Show)
    ensures Dependencies(scope, a + b, show) == Dependencies(scope, a, show) + Dependencies(scope, b, show)
  {
    var both, either := Dependencies(scope, a + b, show), Dependencies(scope, a, show) + Dependencies(scope, b, show);
    forall d ensures d in both <==> d in either {
      if d in both {
        var r :| r in a + b && Dependency(scope, r, show) == Some(d);
        assert r in a || r in b;
      }
      if d in either {
        var r :| (r in a || r in b) && Dependency(scope, r, show) == Some(d);
        assert r in a + b;
      }
    }
  }

  lemma ComposedContributes(scope: Scope, g: Group, show: Show)
    ensures Dependencies(scope, [Composed(scope, g.envelope, g.parts, show)], show)
            == AsDependencies(MergeDependencies(scope, [g.envelope] + g.parts, show))
  {
    hide MergeDependencies, Composed, Dependency;
    ComposedDependency(scope, g.envelope, g.parts, show);
    var r := Composed(scope, g.envelope, g.parts, show);
    assert [r][0] == r && forall x :: x in [r] ==> x == r;
  }

  lemma {:induction false} GroupingUnder(scope: Scope, groups: seq<Group>, extra: set<string>, show: Show)
    requires INDEPENDENT !in extra
    ensures Merged(extra + Dependencies(scope, ComposedReports(scope, groups, show), show))
            == Merged(extra + Dependencies(scope, Members(groups), show))
  {
    hide Merged, Dependency, Dependencies, Composed, AsDependencies;
    if groups != [] {
      var g, rest := groups[0], groups[1..];
      var own := Dependencies(scope, [g.envelope] + g.parts, show);
      var later := Dependencies(scope, ComposedReports(scope, rest, show), show);
      DependenciesOfBoth(scope, [g.envelope] + g.parts, Members(rest), show);
      DependenciesOfBoth(scope, [Composed(scope, g.envelope, g.parts, show)], ComposedReports(scope, rest, show), show);
      ComposedContributes(scope, g, show);
      calc {
        Merged(extra + Dependencies(scope, ComposedReports(scope, groups, show), show));
        { assert extra + (AsDependencies(Merged(own)) + later) == AsDependencies(Merged(own)) + (extra + later); }
        Merged(AsDependencies(Merged(own)) + (extra + later));
        { MergingPartFirst(own, extra + later); }
        Merged(own + (extra + later));
        { assert own + (extra + later) == (extra + own) + later; }
        Merged((extra + own) + later);
        { GroupingUnder(scope, rest, extra + own, show); }
        Merged((extra + own) + Dependencies(scope, Members(rest), show));
        { assert (extra + own) + Dependencies(scope, Members(rest), show)
                 == extra + (own + Dependencies(scope, Members(rest), show)); }
        Merged(extra + Dependencies(scope, Members(groups), show));
      }
    }
  }

  /** Merging composed reports gives what merging everything they were composed
      from gives, however the reports were grouped. */
  lemma GroupingDoesNotMatter(scope: Scope, groups: seq<Group>, show: Show)
    ensures MergeDependencies(scope, ComposedReports(scope, groups, show), show)
            == MergeDependencies(scope, Members(groups), show)
  {
    GroupingUnder(scope, groups, {}, show);
    assert forall s: set<string> :: {} + s == s;
  }

  // ---- currentness ------------------------------------------------------

  /** Does a recorded dependency describe today's overlay? */
  predicate Describes(dependency: string, today: Overlay) {
    match today
    case Unreadable => false
    case Absent => dependency == MISSING
    case Present(digest) => dependency == digest
  }

  predicate IsFreshnessReport(report: Fields) {
    Field(report, "artifact_kind") == Some(Str("artifact_freshness_report"))
  }

  predicate IsCurrent(scope: Scope, report: Fields, today: Overlay, show: Show) {
    && ("input_fingerprints" in report ==> report["input_fingerprints"].Obj?)
    && var dependency := Dependency(scope, report, show);
       if dependency.None? then !IsFreshnessReport(report) else Describes(dependency.value, today)
  }

  /** What a report's dependency says of it today: malformed fingerprints and an
      unreadable overlay speak against it, as does its kind when it depends on nothing. */
  lemma CurrentMeans(scope: Scope, report: Fields, today: Overlay, show: Show)
    ensures IsCurrent(scope, report, today, show) <==>
              && (Field(report, "input_fingerprints").None? || report["input_fingerprints"].Obj?)
              && match Dependency(scope, report, show)
                 case None => !("artifact_kind" in report && report["artifact_kind"].Str?
                                && report["artifact_kind"].s == "artifact_freshness_report")
                 case Some(state) => today == Present(state) || (today == Absent && state == "missing")
  {
    hide Dependency;
  }

  /** Digests are sha256 in hexadecimal. */
  ghost predicate WellFormed(today: Overlay) {
    today.Present? ==> |today.digest| == 64
  }

  ghost predicate WellFormedReport(report: Fields) {
    "input_fingerprints" in report ==> report["input_fingerprints"].Obj?
  }

  /** A merge describes today exactly when everything merged does. */
  lemma MergeDescribesIffAllDo(ds: set<string>, today: Overlay)
    requires WellFormed(today) && ds != {}
    ensures Describes(Merged(ds), today) <==> forall d :: d in ds ==> Describes(d, today)
  {
    var a :| a in ds;
    MergedIs(ds, a);
    if ds != {a} {
      var b :| b in ds && b != a;
      assert !Describes(UNKNOWN, today);
    }
  }

  /** A composed report is current exactly when each report it was made from is,
      where an independent freshness report counts as current for this purpose
      but is never current itself. */
  lemma ComposedIsCurrentIffPartsAre(scope: Scope, envelope: Fields, parts: seq<Fields>, today: Overlay, show: Show)
    requires WellFormed(today)
    requires forall r :: r in [envelope] + parts ==> WellFormedReport(r)
    ensures var all := [envelope] + parts;
            IsCurrent(scope, Composed(scope, envelope, parts, show), today, show)
            <==> (forall r :: r in all ==>
                    IsCurrent(scope, r, today, show) || (IsFreshnessReport(r) && Dependency(scope, r, show).None?))
                 && !(IsFreshnessReport(envelope) && Dependencies(scope, all, show) == {})
  {
    hide Composed, Dependency, Describes, IsFreshnessReport, Merged;
    var all, composed := [envelope] + parts, Composed(scope, envelope, parts, show);
    var ds := Dependencies(scope, all, show);
    ComposedDependency(scope, envelope, parts, show);
    ComposedKeepsKind(scope, envelope, parts, show);
    MergedIsIndependentIffEmpty(ds);
    assert forall r :: r in all && Dependency(scope, r, show).Some? ==> Dependency(scope, r, show).value in ds;
    if ds != {} {
      MergeDescribesIffAllDo(ds, today);
      if forall r :: r in all ==>
           IsCurrent(scope, r, today, show) || (IsFreshnessReport(r) && Dependency(scope, r, show).None?) {
        forall d | d in ds ensures Describes(d, today) {
          var r :| r in all && Dependency(scope, r, show) == Some(d);
        }
      }
    }
  }

  lemma MergedIsIndependentIffEmpty(ds: set<string>)
    requires INDEPENDENT !in ds
    ensures Merged(ds) == INDEPENDENT <==> ds == {}
  {
    if ds != {} {
      var d :| d in ds;
      MergedIs(ds, d);
    }
  }

  lemma ComposedKeepsKind(scope: Scope, envelope: Fields, parts: seq<Fields>, show: Show)
    ensures var composed := Composed(scope, envelope, parts, show);
            WellFormedReport(composed) && IsFreshnessReport(composed) == IsFreshnessReport(envelope)
  {
  }

  // ---- building a report ------------------------------------------------

  /** The overlay part of the input fingerprints. Under a custom policy only the
      digest of its path is recorded; otherwise an unreadable overlay raises. */
  function Fingerprints(others: Fields, customPath: Option<string>, today: Overlay): Option<Fields> {
    if customPath.Some? then Some(others["custom_policy_path" := Str(customPath.value)])
    else if today.Unreadable? then None
    else if today.Present? then Some(others["local_corpus_policy" := Str(today.digest)])
    else Some(others)
  }

  /** A report built over one overlay under the default policy is current later
      exactly while the overlay is the same and can be read. */
  lemma BuiltReportIsCurrentIffOverlayIsSame(scope: Scope, others: Fields, built: Overlay, later: Overlay,
                                             report: Fields, show: Show)
    requires WellFormed(built) && WellFormed(later)
    requires "local_corpus_policy" !in others && "custom_policy_path" !in others
    requires Fingerprints(others, None, built).Some?
    requires Field(report, "input_fingerprints") == Some(Obj(Fingerprints(others, None, built).value))
    requires Field(Sub(report, "policy"), "path") == Some(Str("ops/policies/wiki-maintainer-policy.yaml"))
    requires scope.InVault? && !scope.isCustom("ops/policies/wiki-maintainer-policy.yaml")
    ensures IsCurrent(scope, report, later, show) <==> later == built
  {
    if built.Absent? {
      assert Dependency(scope, report, show) == Some(MISSING);
    } else {
      assert Dependency(scope, report, show) == Some(built.digest);
    }
  }

  /** A report built under a custom policy is current whatever becomes of the
      overlay, unless its kind may never rest on an unrecorded dependency. */
  lemma CustomReportIsCurrentIffKindAllows(scope: Scope, others: Fields, path: string, built: Overlay, later: Overlay,
                                           report: Fields, show: Show)
    requires WellFormed(later)
    requires "local_corpus_policy" !in others
    requires Field(report, "input_fingerprints") == Some(Obj(Fingerprints(others, Some(path), built).value))
    ensures IsCurrent(scope, report, later, show) <==> !ComposedSummary(report) && !IsFreshnessReport(report)
  {
    var recorded := Fingerprints(others, Some(path), built).value;
    assert "custom_policy_path" in recorded && "local_corpus_policy" !in recorded;
    assert !Describes(UNKNOWN, later);
  }
}
