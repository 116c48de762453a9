// Manifest paths: normalisation, allowed apply roots and the apply guard.

module Options {
  datatype Option<+T> = None | Some(value: T)
}

module RepoPaths {
  import opened Options

  // ---- text -------------------------------------------------------------

  /** The parts of a text between separators; an empty text has one empty part. */
  function Split(text: string): (parts: seq<string>)
    ensures |parts| > 0
  {
    if text == "" then [""]
    else
      var rest := Split(text[1..]);
      if text[0] == '/' then [""] + rest else [[text[0]] + rest[0]] + rest[1..]
  }

  function Join(parts: seq<string>): string
    requires |parts| > 0
  {
    if |parts| == 1 then parts[0] else parts[0] + "/" + Join(parts[1..])
  }

  predicate StartsWith(text: string, prefix: string) {
    prefix <= text
  }

  /** The ASCII characters that count as white space: blank, tab to carriage
      return, and the four separators. */
  predicate IsSpace(c: char) {
    c == ' ' || 0x09 <= c as int <= 0x0D || 0x1C <= c as int <= 0x1F
  }

  lemma SpacesAre(c: char)
    ensures IsSpace(c) <==>
              c in {' ', '\t', '\n', '\U{0B}', '\U{0C}', '\r', '\U{1C}', '\U{1D}', '\U{1E}', '\U{1F}'}
  {
  }

  function StripLeft(text: string): string {
    if text != "" && IsSpace(text[0]) then StripLeft(text[1..]) else text
  }

  function StripRight(text: string): string {
    if text != "" && IsSpace(text[|text| - 1]) then StripRight(text[..|text| - 1]) else text
  }

  function Strip(text: string): string {
    StripRight(StripLeft(text))
  }

  /** `s` is `text` without the white space around it. */
  ghost predicate IsStripped(text: string, s: string) {
    exists i: nat, j: nat :: i <= j <= |text| && s == text[i..j] && Around(text, i, j)
      && (s != "" ==> !IsSpace(s[0]) && !IsSpace(s[|s| - 1]))
  }

  /** Outside i..j there is only white space. */
  ghost predicate Around(text: string, i: nat, j: nat) {
    forall k :: (0 <= k < i || j <= k) && k < |text| ==> IsSpace(text[k])
  }

  lemma StripMeans(text: string)
    ensures IsStripped(text, Strip(text))
  {
    var i := LeftEdge(text);
    var j := RightEdge(StripLeft(text));
    assert Strip(text) == text[i..i + j];
    forall k | (0 <= k < i || i + j <= k) && k < |text| ensures IsSpace(text[k]) {
      if i <= k { assert text[k] == StripLeft(text)[k - i]; }
    }
    assert Around(text, i, i + j);
  }

  lemma {:induction false} LeftEdge(text: string) returns (i: nat)
    ensures i <= |text| && StripLeft(text) == text[i..] && forall k :: 0 <= k < i ==> IsSpace(text[k])
    ensures i < |text| ==> !IsSpace(text[i])
  {
    if text != "" && IsSpace(text[0]) {
      i := LeftEdge(text[1..]);
      i := i + 1;
    } else {
      i := 0;
    }
  }

  lemma {:induction false} RightEdge(text: string) returns (j: nat)
    ensures j <= |text| && StripRight(text) == text[..j] && forall k :: j <= k < |text| ==> IsSpace(text[k])
    ensures j > 0 ==> !IsSpace(text[j - 1])
  {
    if text != "" && IsSpace(text[|text| - 1]) {
      j := RightEdge(text[..|text| - 1]);
      assert text[..|text| - 1][..j] == text[..j];
    } else {
      j := |text|;
    }
  }

  /** A stretch with no white space at its ends lies inside any stretch that has nothing else around it. */
  lemma LiesInside(text: string, i: nat, j: nat, a: nat, b: nat)
    requires i < j <= |text| && a <= b <= |text| && Around(text, a, b)
    requires !IsSpace(text[i]) && !IsSpace(text[j - 1])
    ensures a <= i && j <= b
  {
  }

  lemma StrippedIsUnique(text: string, s: string)
    requires IsStripped(text, s)
    ensures s == Strip(text)
  {
    hide Strip, IsSpace, Around;
    StripMeans(text);
    var t := Strip(text);
    var i: nat, j: nat :| i <= j <= |text| && s == text[i..j] && Around(text, i, j)
                          && (s != "" ==> !IsSpace(s[0]) && !IsSpace(s[|s| - 1]));
    var a: nat, b: nat :| a <= b <= |text| && t == text[a..b] && Around(text, a, b)
                          && (t != "" ==> !IsSpace(t[0]) && !IsSpace(t[|t| - 1]));
    if i < j {
      assert s[0] == text[i] && s[|s| - 1] == text[j - 1];
      LiesInside(text, i, j, a, b);
    }
    if a < b {
      assert t[0] == text[a] && t[|t| - 1] == text[b - 1];
      LiesInside(text, a, b, i, j);
    }
  }

  /** A text without white space at its ends is left as it is. */
  lemma StripOfStripped(text: string)
    requires text != "" ==> !IsSpace(text[0]) && !IsSpace(text[|text| - 1])
    ensures Strip(text) == text
  {
  }

  function ForwardSlashes(text: string): string {
    seq(|text|, i requires 0 <= i < |text| => if text[i] == '\\' then '/' else text[i])
  }

  lemma JoinHead(prefix: string, head: string, tail: seq<string>)
    ensures Join([prefix + head] + tail) == prefix + Join([head] + tail)
  {
    assert ([prefix + head] + tail)[1..] == tail && ([head] + tail)[1..] == tail;
    if tail != [] {
      assert (prefix + head) + "/" + Join(tail) == prefix + (head + "/" + Join(tail));
    }
  }

  lemma {:induction false} JoinSplit(text: string)
    ensures Join(Split(text)) == text
  {
    if text != "" {
      JoinSplit(text[1..]);
      SplitGrows(text);
      var rest := Split(text[1..]);
      if text[0] == '/' {
        assert ([""] + rest)[1..] == rest;
      } else {
        JoinHead([text[0]], rest[0], rest[1..]);
        assert [rest[0]] + rest[1..] == rest;
      }
    }
  }

  lemma {:induction false} SplitPartHasNoSlash(text: string, k: nat)
    requires k < |Split(text)|
    ensures '/' !in Split(text)[k]
  {
    if text != "" {
      var rest := Split(text[1..]);
      if text[0] == '/' {
        if k > 0 { SplitPartHasNoSlash(text[1..], k - 1); }
      } else {
        SplitPartHasNoSlash(text[1..], k);
      }
    }
  }

  lemma {:induction false} SplitOfPart(part: string)
    requires '/' !in part
    ensures Split(part) == [part]
  {
    if part != "" {
      assert part[0] in part;
      assert forall c :: c in part[1..] ==> c in part;
      SplitOfPart(part[1..]);
      assert [part[0]] + part[1..] == part;
    }
  }

  /** A separator inside a text separates the parts on its left from those on its right. */
  lemma {:induction false} SplitAtSlash(left: string, right: string)
    ensures Split(left + "/" + right) == Split(left) + Split(right)
  {
    var text := left + "/" + right;
    SplitGrows(text);
    if left == "" {
      assert text[1..] == right;
    } else {
      assert text[1..] == left[1..] + "/" + right && text[0] == left[0];
      SplitAtSlash(left[1..], right);
      SplitGrows(left);
      PartsGrow(left[0], Split(left[1..]), Split(right));
    }
  }

  lemma PartsGrow(c: char, l: seq<string>, r: seq<string>)
    requires |l| > 0
    ensures [""] + (l + r) == ([""] + l) + r
    ensures [[c] + (l + r)[0]] + (l + r)[1..] == ([[c] + l[0]] + l[1..]) + r
  {
  }

  lemma SplitGrows(text: string)
    requires text != ""
    ensures Split(text) == (if text[0] == '/' then [""] + Split(text[1..])
                            else [[text[0]] + Split(text[1..])[0]] + Split(text[1..])[1..])
  {
  }

  lemma {:induction false} SplitJoin(parts: seq<string>)
    requires |parts| > 0 && forall k :: 0 <= k < |parts| ==> '/' !in parts[k]
    ensures Split(Join(parts)) == parts
  {
    SplitOfPart(parts[0]);
    if |parts| > 1 {
      SplitJoin(parts[1..]);
      SplitAtSlash(parts[0], Join(parts[1..]));
      assert parts == [parts[0]] + parts[1..];
    }
  }

  // ---- normalisation ----------------------------------------------------

  /** The component loop of POSIX path normalisation for a relative path. */
  function Collapse(parts: seq<string>, kept: seq<string>): seq<string> {
    if parts == [] then kept
    else
      var part := parts[0];
      var next :=
        if part == "" || part == "." then kept
        else if part != ".." || kept == [] || kept[|kept| - 1] == ".." then kept + [part]
        else kept[..|kept| - 1];
      Collapse(parts[1..], next)
  }

  function NormPath(text: string): string {
    var kept := Collapse(Split(text), []);
    if kept == [] then "." else Join(kept)
  }

  function NormalizeManifestPath(value: Option<string>): Option<string> {
    if value.None? then None
    else
      var raw := ForwardSlashes(Strip(value.value));
      if raw == "" || raw[0] == '/' then None
      else
        var normalized := NormPath(Strip(raw));
        if normalized == "." || normalized == ".." || StartsWith(normalized, "../") then None
        else Some(normalized)
  }

  /** A path segment that stays below its directory. */
  predicate PlainSegment(part: string) {
    part != "" && part != "." && part != ".." && '/' !in part
  }

  lemma {:induction false} CollapseInParts(left: seq<string>, right: seq<string>, kept: seq<string>)
    ensures Collapse(left + right, kept) == Collapse(right, Collapse(left, kept))
  {
    if left == [] {
      assert left + right == right;
    } else {
      assert (left + right)[1..] == left[1..] + right;
      CollapseInParts(left[1..], right,
        if left[0] == "" || left[0] == "." then kept
        else if left[0] != ".." || kept == [] || kept[|kept| - 1] == ".." then kept + [left[0]]
        else kept[..|kept| - 1]);
    }
  }

  lemma {:induction false} CollapseOfNormal(done: seq<string>, kept: seq<string>)
    requires ParentsInFront(done + kept)
    ensures Collapse(kept, done) == done + kept
    decreases |kept|
  {
    if kept == [] {
      assert done + kept == done;
    } else {
      var part := kept[0];
      assert (done + kept)[|done|] == part;
      if part == ".." && done != [] {
        assert (done + kept)[|done| - 1] == done[|done| - 1] == "..";
      }
      assert done + kept == (done + [part]) + kept[1..];
      CollapseOfNormal(done + [part], kept[1..]);
    }
  }

  lemma CollapseMiddle(left: seq<string>, middle: seq<string>, right: seq<string>)
    ensures Collapse(left + middle + right, []) == Collapse(right, Collapse(middle, Collapse(left, [])))
  {
    CollapseInParts(left + middle, right, []);
    CollapseInParts(left, middle, []);
  }

  /** The laws of normalisation: "." and empty components may be left out, a
      segment and the ".." after it cancel, and what has its parents in front
      and nothing to leave out is normal. By them every path has one normal form. */
  lemma CollapseLaws(left: seq<string>, right: seq<string>, segment: string, normal: seq<string>)
    ensures Collapse(left + ["."] + right, []) == Collapse(left + right, [])
    ensures Collapse(left + [""] + right, []) == Collapse(left + right, [])
    ensures PlainSegment(segment) ==> Collapse(left + [segment, ".."] + right, []) == Collapse(left + right, [])
    ensures ParentsInFront(normal) ==> Collapse(normal, []) == normal
  {
    CollapseInParts(left, right, []);
    CollapseMiddle(left, ["."], right);
    CollapseMiddle(left, [""], right);
    CollapseMiddle(left, [segment, ".."], right);
    var kept := Collapse(left, []);
    assert ["."][1..] == [] && [""][1..] == [] && [segment, ".."][1..] == [".."] && [".."][1..] == [];
    assert (kept + [segment])[..|kept|] == kept;
    if ParentsInFront(normal) {
      assert [] + normal == normal;
      CollapseOfNormal([], normal);
    }
  }

  /** ".." survives normalisation only as a block at the front. */
  ghost predicate ParentsInFront(kept: seq<string>) {
    && (forall k :: 0 <= k < |kept| ==> kept[k] != "" && kept[k] != "." && '/' !in kept[k])
    && (forall j, k :: 0 <= j < k < |kept| && kept[k] == ".." ==> kept[j] == "..")
  }

  lemma {:induction false} CollapseKeepsShape(parts: seq<string>, kept: seq<string>)
    requires ParentsInFront(kept)
    requires forall k :: 0 <= k < |parts| ==> '/' !in parts[k]
    ensures ParentsInFront(Collapse(parts, kept))
  {
    if parts != [] {
      var part := parts[0];
      var next :=
        if part == "" || part == "." then kept
        else if part != ".." || kept == [] || kept[|kept| - 1] == ".." then kept + [part]
        else kept[..|kept| - 1];
      assert ParentsInFront(next) by {
        if part == ".." && kept != [] && kept[|kept| - 1] == ".." {
          assert forall j :: 0 <= j < |kept| ==> kept[j] == "..";
        }
      }
      CollapseKeepsShape(parts[1..], next);
    }
  }

  /** An accepted manifest path never leaves its root: every segment goes down. */
  lemma NormalizedPathStaysInside(value: Option<string>)
    requires NormalizeManifestPath(value).Some?
    ensures forall k :: 0 <= k < |Split(NormalizeManifestPath(value).value)| ==>
              PlainSegment(Split(NormalizeManifestPath(value).value)[k])
  {
    var text := Strip(ForwardSlashes(Strip(value.value)));
    var kept := Collapse(Split(text), []);
    forall k | 0 <= k < |Split(text)| ensures '/' !in Split(text)[k] {
      SplitPartHasNoSlash(text, k);
    }
    CollapseKeepsShape(Split(text), []);
    SplitJoin(kept);
    if kept[0] == ".." {
      LeadingParentShows(kept);
    }
  }

  /** The text of a manifest path, before it is normalised. */
  ghost predicate PathText(value: string, text: string) {
    && IsStripped(value, Strip(value)) && |text| == |Strip(value)|
    && forall k :: 0 <= k < |text| ==> text[k] == (if Strip(value)[k] == '\\' then '/' else Strip(value)[k])
  }

  lemma TextOfPath(value: string)
    ensures PathText(value, ForwardSlashes(Strip(value)))
    ensures Strip(ForwardSlashes(Strip(value))) == ForwardSlashes(Strip(value))
  {
    StripMeans(value);
    StripOfStripped(ForwardSlashes(Strip(value)));
  }

  /** A manifest path is accepted exactly when it is relative, not empty, and
      leads to a place below its root; it then stands for that place. */
  lemma AcceptedExactly(value: string, text: string)
    requires PathText(value, text)
    ensures var kept := Collapse(Split(text), []);
            NormalizeManifestPath(Some(value)) ==
            if text != "" && text[0] != '/' && kept != [] && kept[0] != ".." then Some(Join(kept)) else None
  {
    TextOfPath(value);
    assert text == ForwardSlashes(Strip(value));
    if text != "" && text[0] != '/' {
      var kept := Collapse(Split(text), []);
      forall k | 0 <= k < |Split(text)| ensures '/' !in Split(text)[k] {
        SplitPartHasNoSlash(text, k);
      }
      CollapseKeepsShape(Split(text), []);
      if kept != [] {
        SplitJoin(kept);
        SplitOfPart(".");
        SplitOfPart("..");
        if kept[0] == ".." {
          LeadingParentShows(kept);
        } else if StartsWith(Join(kept), "../") {
          assert Join(kept) == ".." + "/" + Join(kept)[3..];
          SplitAtSlash("..", Join(kept)[3..]);
        }
      }
    }
  }

  lemma {:induction false} LeadingParentShows(kept: seq<string>)
    requires |kept| > 0 && kept[0] == ".."
    ensures Join(kept) == ".." || StartsWith(Join(kept), "../")
  {
    if |kept| > 1 {
      assert Join(kept) == "../" + Join(kept[1..]);
    }
  }

  // ---- allowed apply roots ----------------------------------------------

  datatype AllowedApplyRoot = AllowedApplyRoot(normalizedPath: string, prefixMatch: bool)

  function ParseAllowedApplyRoot(value: string): Option<AllowedApplyRoot> {
    var raw := ForwardSlashes(Strip(value));
    if raw == "" then None
    else
      var prefixMatch := raw[|raw| - 1] == '/';
      var normalized := NormalizeManifestPath(Some(if prefixMatch then raw[..|raw| - 1] else raw));
      if normalized.None? then None
      else Some(AllowedApplyRoot(normalized.value, prefixMatch))
  }

  predicate PathMatches(path: string, root: AllowedApplyRoot) {
    if root.prefixMatch then path == root.normalizedPath || StartsWith(path, root.normalizedPath + "/")
    else path == root.normalizedPath
  }

  /** The string test is the segment test: a directory root covers exactly the
      paths whose segment list extends its own. */
  lemma MatchIsSegmentPrefix(path: string, root: AllowedApplyRoot)
    ensures PathMatches(path, root) <==>
              if root.prefixMatch then Split(root.normalizedPath) <= Split(path)
              else Split(root.normalizedPath) == Split(path)
  {
    var base := root.normalizedPath;
    JoinSplit(path);
    JoinSplit(base);
    if StartsWith(path, base + "/") {
      assert path == base + "/" + path[|base| + 1..];
      SplitAtSlash(base, path[|base| + 1..]);
    }
    if Split(base) <= Split(path) && Split(base) != Split(path) {
      var tail := Split(path)[|Split(base)|..];
      assert Split(path) == Split(base) + tail;
      JoinAppend(Split(base), tail);
      assert path == base + "/" + Join(tail);
    }
  }

  lemma {:induction false} JoinAppend(left: seq<string>, right: seq<string>)
    requires |left| > 0 && |right| > 0
    ensures Join(left + right) == Join(left) + "/" + Join(right)
  {
    assert (left + right)[1..] == left[1..] + right;
    if |left| > 1 {
      JoinAppend(left[1..], right);
      assert Join(left + right) == left[0] + "/" + (Join(left[1..]) + "/" + Join(right));
    } else {
      assert left[1..] + right == right;
    }
  }

  /** A trailing separator, and nothing else, makes a directory root; the root
      is at the normalised path before it. */
  lemma RootMeans(value: string, text: string)
    requires PathText(value, text)
    ensures var root := ParseAllowedApplyRoot(value);
            var directory := text != "" && text[|text| - 1] == '/';
            var path := NormalizeManifestPath(Some(if directory then text[..|text| - 1] else text));
            && (root.Some? <==> text != "" && path.Some?)
            && (root.Some? ==> root.value.prefixMatch == directory && Some(root.value.normalizedPath) == path)
  {
    TextOfPath(value);
    assert text == ForwardSlashes(Strip(value));
  }

  /** A path of plain segments without backslashes or surrounding white space. */
  predicate AsWritten(parts: seq<string>) {
    && parts != [] && (forall k :: 0 <= k < |parts| ==> PlainSegment(parts[k]) && '\\' !in parts[k])
    && !IsSpace(parts[0][0]) && !IsSpace(parts[|parts| - 1][|parts[|parts| - 1]| - 1])
  }

  /** Such a path is its own normal form, a file root as it stands, and a
      directory root with a separator after it. */
  lemma PlainPathsAreKept(parts: seq<string>)
    requires AsWritten(parts)
    ensures NormalizeManifestPath(Some(Join(parts))) == Some(Join(parts))
    ensures ParseAllowedApplyRoot(Join(parts)) == Some(AllowedApplyRoot(Join(parts), false))
    ensures ParseAllowedApplyRoot(Join(parts) + "/") == Some(AllowedApplyRoot(Join(parts), true))
  {
    var path := Join(parts);
    JoinEnds(parts);
    StripOfStripped(path);
    StripOfStripped(path + "/");
    assert ForwardSlashes(path) == path && ForwardSlashes(path + "/") == path + "/";
    assert (path + "/")[..|path|] == path;
    SplitJoin(parts);
    assert [] + parts == parts;
    CollapseOfNormal([], parts);
    TextOfPath(path);
    AcceptedExactly(path, path);
  }

  lemma {:induction false} JoinEnds(parts: seq<string>)
    requires |parts| > 0 && forall k :: 0 <= k < |parts| ==> PlainSegment(parts[k]) && '\\' !in parts[k]
    ensures PlainSegment(parts[0]) && PlainSegment(parts[|parts| - 1])
    ensures Join(parts) != "" && Join(parts)[0] == parts[0][0] && '\\' !in Join(parts)
    ensures Join(parts)[|Join(parts)| - 1] == parts[|parts| - 1][|parts[|parts| - 1]| - 1]
    ensures parts[0][0] in parts[0] && parts[0][0] != '/' && Join(parts)[|Join(parts)| - 1] != '/'
  {
    if |parts| > 1 {
      JoinEnds(parts[1..]);
    }
  }

  // ---- the apply guard --------------------------------------------------

  datatype ChangeType = Added | Modified | Deleted | Unsupported

  /** One element of the manifest's `files` list as found in the JSON text. */
  datatype Entry = NotAnObject | Entry(path: Option<string>, change: ChangeType)

  function EntryPath(entry: Entry): Option<string> {
    if entry.NotAnObject? then None else NormalizeManifestPath(entry.path)
  }

  predicate Covered(path: string, roots: seq<AllowedApplyRoot>) {
    exists k :: 0 <= k < |roots| && PathMatches(path, roots[k])
  }

  datatype GuardState = GuardState(
    changedPaths: seq<string>,
    invalidEntries: set<nat>,
    disallowedPaths: set<string>)

  /** The normalised path of each entry, where it has one. */
  function Paths(files: seq<Entry>): seq<Option<string>> {
    seq(|files|, k requires 0 <= k < |files| => EntryPath(files[k]))
  }

  /** The conditions under which a manifest passes the guard: every entry has
      a usable path, and an allowed root covers it. */
  ghost predicate GuardAccepts(files: seq<Entry>, roots: seq<AllowedApplyRoot>) {
    AllCovered(Paths(files), roots)
  }

  ghost predicate AllCovered(paths: seq<Option<string>>, roots: seq<AllowedApplyRoot>) {
    forall k :: 0 <= k < |paths| ==> paths[k].Some? && Covered(paths[k].value, roots)
  }

  /** The usable paths, in manifest order. */
  ghost function ChangedPaths(files: seq<Entry>): seq<string> {
    Somes(Paths(files))
  }

  ghost function Somes(paths: seq<Option<string>>): seq<string> {
    if paths == [] then []
    else
      var last := paths[|paths| - 1];
      Somes(paths[..|paths| - 1]) + (if last.Some? then [last.value] else [])
  }

  lemma {:induction false} SomesMembers(paths: seq<Option<string>>, p: string)
    ensures p in Somes(paths) <==> Some(p) in paths
  {
    if paths != [] {
      var init, last := paths[..|paths| - 1], paths[|paths| - 1];
      assert paths == init + [last];
      SomesMembers(init, p);
    }
  }

  method IsCovered(path: string, roots: seq<AllowedApplyRoot>) returns (matched: bool)
    ensures matched <==> Covered(path, roots)
  {
    for r := 0 to |roots|
      invariant forall k :: 0 <= k < r ==> !PathMatches(path, roots[k])
    {
      if PathMatches(path, roots[r]) { return true; }
    }
    return false;
  }

  method ManifestApplyGuardState(files: seq<Entry>, roots: seq<AllowedApplyRoot>) returns (state: GuardState)
    ensures state.invalidEntries == {} && state.disallowedPaths == {} <==> GuardAccepts(files, roots)
    ensures state.changedPaths == ChangedPaths(files)
    ensures forall k: nat :: k in state.invalidEntries <==> k < |files| && Paths(files)[k].None?
    ensures forall p :: p in state.disallowedPaths <==> p in state.changedPaths && !Covered(p, roots)
  {
    state := GuardStateOf(Paths(files), roots);
  }

  method GuardStateOf(paths: seq<Option<string>>, roots: seq<AllowedApplyRoot>) returns (state: GuardState)
    ensures state.invalidEntries == {} && state.disallowedPaths == {} <==> AllCovered(paths, roots)
    ensures state.changedPaths == Somes(paths)
    ensures forall k: nat :: k in state.invalidEntries <==> k < |paths| && paths[k].None?
    ensures forall p :: p in state.disallowedPaths <==> p in state.changedPaths && !Covered(p, roots)
  {
    var changed: seq<string>, invalid: set<nat>, disallowed: set<string> := [], {}, {};
    for index := 0 to |paths|
      invariant changed == Somes(paths[..index])
      invariant forall k: nat :: k in invalid <==> k < index && paths[k].None?
      invariant forall p :: p in disallowed <==> p in changed && !Covered(p, roots)
    {
      var path := paths[index];
      assert paths[..index + 1][..index] == paths[..index];
      if path.None? {
        invalid := invalid + {index};
      } else {
        changed := changed + [path.value];
        var covered := IsCovered(path.value, roots);
        if !covered {
          disallowed := disallowed + {path.value};
        }
      }
    }
    assert paths[..|paths|] == paths;
    state := GuardState(changed, invalid, disallowed);
    GuardStateDecides(paths, roots, state);
  }

  lemma GuardStateDecides(paths: seq<Option<string>>, roots: seq<AllowedApplyRoot>, state: GuardState)
    requires state.changedPaths == Somes(paths)
    requires forall k: nat :: k in state.invalidEntries <==> k < |paths| && paths[k].None?
    requires forall p :: p in state.disallowedPaths <==> p in state.changedPaths && !Covered(p, roots)
    ensures state.invalidEntries == {} && state.disallowedPaths == {} <==> AllCovered(paths, roots)
  {
    forall p { SomesMembers(paths, p); }
    if state.invalidEntries == {} && state.disallowedPaths == {} {
      forall k | 0 <= k < |paths|
        ensures paths[k].Some? && Covered(paths[k].value, roots)
      {
        assert k as nat !in state.invalidEntries;
        assert paths[k].value in state.changedPaths;
      }
    }
  }

  /** Every path of an accepted manifest has only plain segments, and they
      extend (or equal) the segments of one allowed root. */
  lemma AcceptedPathsAreConfined(files: seq<Entry>, roots: seq<AllowedApplyRoot>, k: nat)
    requires GuardAccepts(files, roots) && k < |files|
    ensures Paths(files)[k].Some? && Confined(Paths(files)[k].value, roots)
  {
    var path := Paths(files)[k].value;
    NormalizedPathStaysInside(files[k].path);
    var r :| 0 <= r < |roots| && PathMatches(path, roots[r]);
    MatchIsSegmentPrefix(path, roots[r]);
  }

  ghost predicate Confined(path: string, roots: seq<AllowedApplyRoot>) {
    && (forall k :: 0 <= k < |Split(path)| ==> PlainSegment(Split(path)[k]))
    && (exists r :: 0 <= r < |roots| && Split(roots[r].normalizedPath) <= Split(path)
                    && (!roots[r].prefixMatch ==> Split(roots[r].normalizedPath) == Split(path)))
  }
}
