// The Makefile include walk: which files are read, in which order, and under
// which variable environment each include is resolved.

module IncludeWalk {
  import opened Options

  datatype Operator = Append | Default | Set

  datatype Assignment = Assignment(name: string, operator: Operator, value: string)

  type Env = map<string, seq<string>>

  datatype Include = Include(path: string, optional: bool)

  /** The files by normalised name, and how their text is read: the name a path
      text stands for, the files a pattern matches (sorted), the assignment a
      line makes, and the include tokens a line yields in an environment. */
  datatype Vault = Vault(
    files: map<string, seq<string>>,
    normal: string -> string,
    matches: string -> seq<string>,
    assignment: string -> Option<Assignment>,
    includes: (string, Env) -> seq<Include>)

  /** `+=` appends, `?=` keeps an earlier value, the others replace. */
  ghost function Record(env: Env, a: Option<Assignment>): Env {
    if a.None? then env
    else
      var name, value := a.value.name, a.value.value;
      match a.value.operator
      case Append => env[name := (if name in env then env[name] else []) + [value]]
      case Default => if name in env then env else env[name := [value]]
      case Set => env[name := [value]]
  }

  /** The paths an include token stands for. */
  ghost function Targets(v: Vault, token: Include): seq<string> {
    if v.matches(token.path) == [] then [token.path] else v.matches(token.path)
  }

  // ---- the stream of lines ----------------------------------------------

  datatype Event = Enter(file: string) | Read(file: string, index: nat)

  ghost predicate WellFormed(v: Vault, log: seq<Event>) {
    forall k :: 0 <= k < |log| ==>
      log[k].file in v.files && (log[k].Read? ==> log[k].index < |v.files[log[k].file]|)
  }

  /** The environment left by the lines of the stream, folded in order. */
  ghost function EnvOf(v: Vault, log: seq<Event>): Env
    requires WellFormed(v, log)
  {
    if log == [] then map[]
    else
      var init, last := log[..|log| - 1], log[|log| - 1];
      if last.Enter? then EnvOf(v, init)
      else Record(EnvOf(v, init), v.assignment(v.files[last.file][last.index]))
  }

  ghost function Entered(log: seq<Event>): seq<string> {
    if log == [] then []
    else Entered(log[..|log| - 1]) + (if log[|log| - 1].Enter? then [log[|log| - 1].file] else [])
  }

  /** Which lines of a file the stream contains, in order. */
  ghost function LinesOf(log: seq<Event>, file: string): seq<nat> {
    if log == [] then []
    else
      var last := log[|log| - 1];
      LinesOf(log[..|log| - 1], file) + (if last.Read? && last.file == file then [last.index] else [])
  }

  ghost function UpTo(n: nat): seq<nat> {
    seq(n, k => k)
  }

  /** The include tokens of the line read at position k, in the environment after that line. */
  ghost function TokensAt(v: Vault, log: seq<Event>, k: nat): seq<Include>
    requires WellFormed(v, log) && k < |log| && log[k].Read?
  {
    assert WellFormed(v, log[..k + 1]);
    v.includes(v.files[log[k].file][log[k].index], EnvOf(v, log[..k + 1]))
  }

  // ---- what a variable holds --------------------------------------------

  /** The line read at position k assigns the name. */
  ghost predicate Assigns(v: Vault, log: seq<Event>, k: nat, name: string)
    requires WellFormed(v, log)
  {
    k < |log| && log[k].Read? && AssignmentAt(v, log, k).Some? && AssignmentAt(v, log, k).value.name == name
  }

  ghost function AssignmentAt(v: Vault, log: seq<Event>, k: nat): Option<Assignment>
    requires WellFormed(v, log) && k < |log| && log[k].Read?
  {
    v.assignment(v.files[log[k].file][log[k].index])
  }

  /** The last line that sets the name, or the first that assigns it when none sets it. */
  ghost predicate IsBase(v: Vault, log: seq<Event>, b: nat, name: string)
    requires WellFormed(v, log)
  {
    && Assigns(v, log, b, name)
    && (AssignmentAt(v, log, b).value.operator.Set? || forall k: nat :: k < b ==> !Assigns(v, log, k, name))
    && (forall k :: b < k < |log| && Assigns(v, log, k, name) ==> !AssignmentAt(v, log, k).value.operator.Set?)
  }

  /** What the lines from position `from` on append to the name, in order. */
  ghost function AppendsFrom(v: Vault, log: seq<Event>, from: nat, name: string): seq<string>
    requires WellFormed(v, log)
  {
    if |log| <= from then []
    else
      var k := |log| - 1;
      AppendsFrom(v, log[..k], from, name) +
      if Assigns(v, log, k, name) && AssignmentAt(v, log, k).value.operator.Append?
      then [AssignmentAt(v, log, k).value.value] else []
  }

  /** The value of a name is that of its base line and all that is appended
      later; a line that only gives a default counts when no earlier line
      assigns the name, and never again. */
  ghost predicate Holds(v: Vault, log: seq<Event>, env: Env, name: string)
    requires WellFormed(v, log)
  {
    && (name in env <==> exists k: nat :: Assigns(v, log, k, name))
    && (name in env ==> exists b: nat :: IsBase(v, log, b, name))
    && (forall b: nat :: IsBase(v, log, b, name) ==>
          name in env && env[name] == [AssignmentAt(v, log, b).value.value] + AppendsFrom(v, log, b + 1, name))
  }

  lemma SameAssignments(v: Vault, log: seq<Event>, e: Event, k: nat, name: string)
    requires WellFormed(v, log) && WellFormed(v, log + [e]) && k < |log|
    ensures Assigns(v, log + [e], k, name) <==> Assigns(v, log, k, name)
    ensures log[k].Read? ==> AssignmentAt(v, log + [e], k) == AssignmentAt(v, log, k)
  {
  }

  lemma AppendsOneMore(v: Vault, log: seq<Event>, e: Event, name: string)
    requires WellFormed(v, log) && WellFormed(v, log + [e])
    ensures forall from: nat :: from <= |log| ==>
              AppendsFrom(v, log + [e], from, name) == AppendsFrom(v, log, from, name) +
              if Assigns(v, log + [e], |log|, name) && AssignmentAt(v, log + [e], |log|).value.operator.Append?
              then [AssignmentAt(v, log + [e], |log|).value.value] else []
    ensures AppendsFrom(v, log + [e], |log| + 1, name) == []
  {
    assert (log + [e])[..|log|] == log;
  }

  /** Which base lines one more line leaves, and when it is one itself. */
  lemma BaseOfOneMore(v: Vault, log: seq<Event>, e: Event, name: string)
    requires WellFormed(v, log) && WellFormed(v, log + [e])
    ensures var more, k := log + [e], |log|;
            var sets := Assigns(v, more, k, name) && AssignmentAt(v, more, k).value.operator.Set?;
            && (forall b: nat :: b < k ==> (IsBase(v, more, b, name) <==> IsBase(v, log, b, name) && !sets))
            && (IsBase(v, more, k, name) <==>
                  Assigns(v, more, k, name) && (sets || forall j: nat :: j < k ==> !Assigns(v, log, j, name)))
            && (forall b: nat :: IsBase(v, more, b, name) ==> b <= k)
  {
    forall j: nat | j < |log|
      ensures Assigns(v, log + [e], j, name) <==> Assigns(v, log, j, name)
      ensures log[j].Read? ==> AssignmentAt(v, log + [e], j) == AssignmentAt(v, log, j)
    {
      SameAssignments(v, log, e, j, name);
    }
  }

  lemma OneMoreLine(v: Vault, log: seq<Event>, env: Env, e: Event, now: Env, name: string)
    requires WellFormed(v, log + [e]) && WellFormed(v, log) && Holds(v, log, env, name)
    requires e.Enter? ==> now == env
    requires e.Read? ==> now == Record(env, AssignmentAt(v, log + [e], |log|))
    ensures Holds(v, log + [e], now, name)
  {
    hide AppendsFrom, WellFormed, IsBase;
    var more, k := log + [e], |log|;
    forall j: nat | j < k ensures Assigns(v, more, j, name) <==> Assigns(v, log, j, name) {
      SameAssignments(v, log, e, j, name);
    }
    BaseOfOneMore(v, log, e, name);
    AppendsOneMore(v, log, e, name);
    forall b: nat | IsBase(v, log, b, name)
      ensures b < k && log[b].Read? && more[b] == log[b]
      ensures AssignmentAt(v, more, b) == AssignmentAt(v, log, b)
    {
      BaseIsThere(v, log, b, name);
      SameAssignments(v, log, e, b, name);
    }
  }

  lemma BaseIsThere(v: Vault, log: seq<Event>, b: nat, name: string)
    requires WellFormed(v, log) && IsBase(v, log, b, name)
    ensures b < |log| && log[b].Read? && Assigns(v, log, b, name)
  {
  }

  lemma {:induction false} EnvMeans(v: Vault, log: seq<Event>, name: string)
    requires WellFormed(v, log)
    ensures Holds(v, log, EnvOf(v, log), name)
  {
    if log != [] {
      var k := |log| - 1;
      EnvMeans(v, log[..k], name);
      assert log[..k] + [log[k]] == log;
      OneMoreLine(v, log[..k], EnvOf(v, log[..k]), log[k], EnvOf(v, log), name);
    }
  }

  /** A path has been listed, or is missing and may be. */
  predicate Arrived(v: Vault, path: string, optional: bool, seen: set<string>) {
    v.normal(path) in seen || (v.normal(path) !in v.files && optional)
  }

  /** A token stands for the paths it matches, and for itself when it matches none. */
  ghost predicate StandsFor(v: Vault, token: Include, target: string) {
    if |v.matches(token.path)| > 0 then target in v.matches(token.path) else target == token.path
  }

  ghost predicate TokenFollowed(v: Vault, token: Include, seen: set<string>) {
    forall target :: StandsFor(v, token, target) ==> Arrived(v, target, token.optional, seen)
  }

  ghost predicate LineFollowed(v: Vault, log: seq<Event>, k: nat, seen: set<string>)
    requires WellFormed(v, log) && k < |log|
  {
    log[k].Read? ==> forall token :: token in TokensAt(v, log, k) ==> TokenFollowed(v, token, seen)
  }

  // ---- the inlined stream -----------------------------------------------

  /** The files entered so far. */
  ghost function SeenIn(log: seq<Event>): set<string> {
    set f | f in Entered(log)
  }

  /** The termination measure: vault files not seen yet. */
  ghost function Unseen(v: Vault, seen: set<string>): nat {
    |v.files.Keys - seen|
  }

  lemma Subsets(a: set<string>, b: set<string>)
    requires a <= b
    ensures |a| <= |b|
  {
    assert b == a + (b - a);
  }

  lemma FewerUnseen(v: Vault, seen: set<string>, seenMore: set<string>)
    requires seen <= seenMore
    ensures Unseen(v, seenMore) <= Unseen(v, seen)
  {
    Subsets(v.files.Keys - seenMore, v.files.Keys - seen);
  }

  lemma OneSeen(v: Vault, seen: set<string>, file: string)
    requires file in v.files && file !in seen
    ensures Unseen(v, seen + {file}) < Unseen(v, seen)
  {
    assert v.files.Keys - (seen + {file}) == (v.files.Keys - seen) - {file};
  }

  lemma {:induction false} EnteredGrows(log: seq<Event>, more: seq<Event>)
    requires log <= more
    ensures Entered(log) <= Entered(more) && SeenIn(log) <= SeenIn(more)
  {
    if log == more {
    } else {
      var init := more[..|more| - 1];
      assert log <= init;
      EnteredGrows(log, init);
    }
  }

  lemma Entering(v: Vault, log: seq<Event>, file: string)
    requires WellFormed(v, log) && file in v.files
    ensures WellFormed(v, log + [Enter(file)])
    ensures Entered(log + [Enter(file)]) == Entered(log) + [file]
    ensures SeenIn(log + [Enter(file)]) == SeenIn(log) + {file}
    ensures EnvOf(v, log + [Enter(file)]) == EnvOf(v, log)
    ensures file !in SeenIn(log) ==> Unseen(v, SeenIn(log + [Enter(file)])) < Unseen(v, SeenIn(log))
  {
    var now := log + [Enter(file)];
    assert now[..|log|] == log;
    if file !in SeenIn(log) { OneSeen(v, SeenIn(log), file); }
  }

  lemma Reading(v: Vault, log: seq<Event>, file: string, i: nat)
    requires WellFormed(v, log) && file in v.files && i < |v.files[file]|
    ensures WellFormed(v, log + [Read(file, i)])
    ensures Entered(log + [Read(file, i)]) == Entered(log) && SeenIn(log + [Read(file, i)]) == SeenIn(log)
    ensures EnvOf(v, log + [Read(file, i)]) == Record(EnvOf(v, log), v.assignment(v.files[file][i]))
    ensures TokensAt(v, log + [Read(file, i)], |log|) == v.includes(v.files[file][i], EnvOf(v, log + [Read(file, i)]))
  {
    var read := log + [Read(file, i)];
    assert read[..|log|] == log && read[..|log| + 1] == read;
  }

  lemma Growing(v: Vault, log: seq<Event>, more: seq<Event>)
    requires log <= more
    ensures Unseen(v, SeenIn(more)) <= Unseen(v, SeenIn(log))
  {
    EnteredGrows(log, more);
    FewerUnseen(v, SeenIn(log), SeenIn(more));
  }

  /** The stream after a walk, or the required file it could not find and the
      stream up to there. */
  datatype Inlining = Stream(log: seq<Event>) | Missing(file: string, log: seq<Event>)

  /** The stream with a file inlined where its path is asked for: the whole
      file at its first visit, nothing at a later one. */
  ghost function InlinePath(v: Vault, log: seq<Event>, path: string, optional: bool): (r: Inlining)
    requires WellFormed(v, log)
    ensures WellFormed(v, r.log) && log <= r.log
    decreases Unseen(v, SeenIn(log)), 0, 0
  {
    var file := v.normal(path);
    if file in SeenIn(log) || (file !in v.files && optional) then Stream(log)
    else if file !in v.files then Missing(file, log)
    else
      Entering(v, log, file);
      InlineLines(v, log + [Enter(file)], file, 0)
  }

  /** The lines of a file from the i-th on, each followed at once by all it includes. */
  ghost function InlineLines(v: Vault, log: seq<Event>, file: string, i: nat): (r: Inlining)
    requires WellFormed(v, log) && file in v.files && i <= |v.files[file]|
    ensures WellFormed(v, r.log) && log <= r.log
    decreases Unseen(v, SeenIn(log)), 3, |v.files[file]| - i
  {
    if i == |v.files[file]| then Stream(log)
    else
      Reading(v, log, file, i);
      var read := log + [Read(file, i)];
      var line := InlineTokens(v, read, TokensAt(v, read, |log|));
      if line.Missing? then line
      else
        Growing(v, log, line.log);
        InlineLines(v, line.log, file, i + 1)
  }

  /** The include tokens of one line, in order. */
  ghost function InlineTokens(v: Vault, log: seq<Event>, tokens: seq<Include>): (r: Inlining)
    requires WellFormed(v, log)
    ensures WellFormed(v, r.log) && log <= r.log
    decreases Unseen(v, SeenIn(log)), 2, |tokens|
  {
    if tokens == [] then Stream(log)
    else
      var first := InlineTargets(v, log, Targets(v, tokens[0]), tokens[0].optional);
      if first.Missing? then first
      else
        Growing(v, log, first.log);
        InlineTokens(v, first.log, tokens[1..])
  }

  /** The paths one token stands for, in order. */
  ghost function InlineTargets(v: Vault, log: seq<Event>, targets: seq<string>, optional: bool): (r: Inlining)
    requires WellFormed(v, log)
    ensures WellFormed(v, r.log) && log <= r.log
    decreases Unseen(v, SeenIn(log)), 1, |targets|
  {
    if targets == [] then Stream(log)
    else
      var first := InlinePath(v, log, targets[0], optional);
      if first.Missing? then first
      else
        Growing(v, log, first.log);
        InlineTargets(v, first.log, targets[1..], optional)
  }

  // ---- the walk ---------------------------------------------------------

  class Walk {
    const vault: Vault
    var seen: set<string>
    var ordered: seq<string>
    var env: Env
    ghost var log: seq<Event>

    /** Listing, seen set and environment are those of the stream so far. */
    ghost predicate Valid()
      reads this
      ensures Valid() ==> WellFormed(vault, log)
    {
      WellFormed(vault, log) && ordered == Entered(log) && seen == SeenIn(log) && env == EnvOf(vault, log)
    }

    constructor (v: Vault)
      ensures Valid() && vault == v && log == []
    {
      vault, seen, ordered, env, log := v, {}, [], map[], [];
    }

    method EnterFile(file: string)
      requires Valid() && file in vault.files && file !in seen
      modifies this
      ensures Valid() && log == old(log) + [Enter(file)]
    {
      hide EnvOf, Entered, SeenIn;
      Entering(vault, log, file);
      seen := seen + {file};
      ordered := ordered + [file];
      log := log + [Enter(file)];
    }

    method ReadLine(file: string, index: nat)
      requires Valid() && file in vault.files && index < |vault.files[file]|
      modifies this`env, this`log
      ensures Valid() && log == old(log) + [Read(file, index)]
      ensures TokensAt(vault, log, |log| - 1) == vault.includes(vault.files[file][index], env)
    {
      hide EnvOf, Entered, TokensAt;
      Reading(vault, log, file, index);
      var a := vault.assignment(vault.files[file][index]);
      if a.Some? {
        var name, value := a.value.name, a.value.value;
        match a.value.operator {
          case Append => env := env[name := (if name in env then env[name] else []) + [value]];
          case Default => if name !in env { env := env[name := [value]]; }
          case Set => env := env[name := [value]];
        }
      }
      log := log + [Read(file, index)];
    }
  }

  lemma JustThePath(v: Vault, log: seq<Event>, path: string, optional: bool)
    requires WellFormed(v, log)
    ensures InlineTargets(v, log, [path], optional) == InlinePath(v, log, path, optional)
  {
  }

  /** How a visit that ends with this stream ended. */
  function Ended(missing: Option<string>, log: seq<Event>): Inlining {
    if missing.None? then Stream(log) else Missing(missing.value, log)
  }

  method Visit(w: Walk, path: string, optional: bool, ghost budget: nat) returns (missing: Option<string>)
    requires w.Valid() && Unseen(w.vault, SeenIn(w.log)) <= budget
    modifies w
    ensures w.Valid()
    ensures Ended(missing, w.log) == InlinePath(w.vault, old(w.log), path, optional)
    decreases budget, 0
  {
    hide EnvOf, Entered, InlineLines;
    var file := w.vault.normal(path);
    if file in w.seen { return None; }
    if file !in w.vault.files { return if optional then None else Some(file); }
    Entering(w.vault, w.log, file);
    w.EnterFile(file);
    missing := VisitLines(w, file, budget - 1);
  }

  method VisitLines(w: Walk, file: string, ghost budget: nat) returns (missing: Option<string>)
    requires w.Valid() && file in w.vault.files && Unseen(w.vault, SeenIn(w.log)) <= budget
    modifies w
    ensures w.Valid()
    ensures Ended(missing, w.log) == InlineLines(w.vault, old(w.log), file, 0)
    decreases budget, 3
  {
    hide EnvOf, Entered, SeenIn, TokensAt, InlineTokens, Unseen;
    var lines := w.vault.files[file];
    for i := 0 to |lines|
      invariant w.Valid() && Unseen(w.vault, SeenIn(w.log)) <= budget
      invariant InlineLines(w.vault, w.log, file, i) == InlineLines(w.vault, old(w.log), file, 0)
    {
      ghost var before := w.log;
      w.ReadLine(file, i);
      Growing(w.vault, before, w.log);
      ghost var read := w.log;
      missing := VisitTokens(w, w.vault.includes(lines[i], w.env), budget);
      if missing.Some? { return; }
      Growing(w.vault, read, w.log);
    }
    missing := None;
  }

  method VisitTokens(w: Walk, tokens: seq<Include>, ghost budget: nat) returns (missing: Option<string>)
    requires w.Valid() && Unseen(w.vault, SeenIn(w.log)) <= budget
    modifies w
    ensures w.Valid()
    ensures Ended(missing, w.log) == InlineTokens(w.vault, old(w.log), tokens)
    decreases budget, 2
  {
    hide EnvOf, Entered, SeenIn, InlineTargets, Unseen;
    for n := 0 to |tokens|
      invariant w.Valid() && Unseen(w.vault, SeenIn(w.log)) <= budget
      invariant InlineTokens(w.vault, w.log, tokens[n..]) == InlineTokens(w.vault, old(w.log), tokens)
    {
      ghost var before := w.log;
      assert tokens[n..][0] == tokens[n] && tokens[n..][1..] == tokens[n + 1..];
      var matched := w.vault.matches(tokens[n].path);
      if matched == [] {
        JustThePath(w.vault, w.log, tokens[n].path, tokens[n].optional);
        missing := Visit(w, tokens[n].path, tokens[n].optional, budget);
      } else {
        missing := VisitTargets(w, matched, tokens[n].optional, budget);
      }
      if missing.Some? { return; }
      Growing(w.vault, before, w.log);
    }
    missing := None;
  }

  method VisitTargets(w: Walk, targets: seq<string>, optional: bool,
                      ghost budget: nat) returns (missing: Option<string>)
    requires w.Valid() && Unseen(w.vault, SeenIn(w.log)) <= budget
    modifies w
    ensures w.Valid()
    ensures Ended(missing, w.log) == InlineTargets(w.vault, old(w.log), targets, optional)
    decreases budget, 1
  {
    hide EnvOf, Entered, SeenIn, InlinePath, Unseen;
    for n := 0 to |targets|
      invariant w.Valid() && Unseen(w.vault, SeenIn(w.log)) <= budget
      invariant InlineTargets(w.vault, w.log, targets[n..], optional)
             == InlineTargets(w.vault, old(w.log), targets, optional)
    {
      ghost var before := w.log;
      assert targets[n..][0] == targets[n] && targets[n..][1..] == targets[n + 1..];
      missing := Visit(w, targets[n], optional, budget);
      if missing.Some? { return; }
      Growing(w.vault, before, w.log);
    }
    missing := None;
  }

  /** The listing is that of the inlined stream, and the walk fails exactly
      when the stream asks for a required file that is not there. */
  method MakefileSourcePaths(v: Vault, root: string) returns (ordered: seq<string>, missing: Option<string>)
    ensures var stream := InlinePath(v, [], root, false);
            && (missing.None? <==> stream.Stream?)
            && (missing.Some? ==> missing.value == stream.file)
            && ordered == Entered(stream.log)
  {
    hide EnvOf, Entered, InlinePath;
    var w := new Walk(v);
    missing := Visit(w, root, false, Unseen(v, SeenIn([])));
    ordered := w.ordered;
  }

  // ---- what the inlined stream is like ----------------------------------

  /** The line at position q asks for the file, and its own file has not been read further since. */
  ghost predicate Causes(v: Vault, log: seq<Event>, q: nat, file: string, optional: bool)
    requires WellFormed(v, log)
  {
    && q < |log| && log[q].Read?
    && (exists token, target :: token in TokensAt(v, log, q) && token.optional == optional
                              && StandsFor(v, token, target) && v.normal(target) == file)
    && (forall k :: q < k < |log| ==> log[k].Read? ==> log[k].file != log[q].file)
  }

  ghost predicate HasCause(v: Vault, log: seq<Event>, file: string, optional: bool)
    requires WellFormed(v, log)
  {
    exists q :: Causes(v, log, q, file, optional)
  }

  ghost predicate AskedFor(v: Vault, log: seq<Event>, file: string)
    requires WellFormed(v, log)
  {
    HasCause(v, log, file, true) || HasCause(v, log, file, false)
  }

  /** Every file entered from position `from` on, the very first apart, was asked for just there. */
  ghost predicate AllCaused(v: Vault, log: seq<Event>, from: nat)
    requires WellFormed(v, log)
  {
    forall p :: from <= p < |log| && log[p].Enter? && p > 0 ==>
      (assert WellFormed(v, log[..p]); AskedFor(v, log[..p], log[p].file))
  }

  ghost predicate AllFollowed(v: Vault, log: seq<Event>, from: nat, seen: set<string>)
    requires WellFormed(v, log)
  {
    forall k :: from <= k < |log| ==> LineFollowed(v, log, k, seen)
  }

  ghost predicate AllRead(v: Vault, log: seq<Event>, files: set<string>) {
    forall f :: f in files ==> f in v.files && LinesOf(log, f) == UpTo(|v.files[f]|)
  }

  predicate NoDuplicates(xs: seq<string>) {
    forall i, j :: 0 <= i < j < |xs| ==> xs[i] != xs[j]
  }

  lemma {:induction false} NoLines(log: seq<Event>, file: string)
    requires forall k :: 0 <= k < |log| ==> log[k].file != file
    ensures LinesOf(log, file) == []
  {
    if log != [] { NoLines(log[..|log| - 1], file); }
  }

  /** What one visit adds to the walk. */
  ghost predicate Extends(v: Vault, before: seq<Event>, after: seq<Event>, seenBefore: set<string>,
                          seenAfter: set<string>)
    requires WellFormed(v, after)
  {
    && before <= after && seenBefore <= seenAfter
    && OnlyNew(before, after, seenBefore)
    && AllCaused(v, after, |before|)
    && AllFollowed(v, after, |before|, seenAfter)
    && AllRead(v, after, seenAfter - seenBefore)
    && SameLines(before, after, seenBefore)
  }

  ghost predicate OnlyNew(before: seq<Event>, after: seq<Event>, seenBefore: set<string>) {
    forall k :: |before| <= k < |after| ==> after[k].file !in seenBefore
  }

  ghost predicate SameLines(before: seq<Event>, after: seq<Event>, files: set<string>) {
    forall f :: f in files ==> LinesOf(after, f) == LinesOf(before, f)
  }

  /** A visit under way: the first i lines of `file` have been read and followed. */
  ghost predicate Partial(v: Vault, before: seq<Event>, now: seq<Event>, seenBefore: set<string>, seen: set<string>,
                          file: string, i: nat)
    requires WellFormed(v, now)
  {
    && before < now && now[|before|] == Enter(file)
    && seenBefore + {file} <= seen && file !in seenBefore
    && OnlyNew(before, now, seenBefore)
    && AllCaused(v, now, |before|)
    && AllFollowed(v, now, |before|, seen)
    && AllRead(v, now, seen - seenBefore - {file})
    && LinesOf(now, file) == UpTo(i)
    && SameLines(before, now, seenBefore)
  }

  lemma SameTokens(v: Vault, log: seq<Event>, more: seq<Event>, k: nat)
    requires WellFormed(v, more) && log <= more && k < |log| && log[k].Read?
    ensures WellFormed(v, log)
    ensures TokensAt(v, log, k) == TokensAt(v, more, k)
  {
    assert forall j :: 0 <= j < |log| ==> more[j] == log[j];
    assert log[..k + 1] == more[..k + 1];
  }

  lemma CausedStays(v: Vault, log: seq<Event>, more: seq<Event>, from: nat)
    requires WellFormed(v, more) && log <= more && WellFormed(v, log)
    requires AllCaused(v, log, from) && AllCaused(v, more, |log|)
    ensures AllCaused(v, more, from)
  {
    forall p | from <= p < |more| && more[p].Enter? && p > 0
      ensures WellFormed(v, more[..p]) && AskedFor(v, more[..p], more[p].file)
    {
      if p < |log| {
        assert more[..p] == log[..p] && more[p] == log[p];
      }
    }
  }

  lemma FollowedStays(v: Vault, log: seq<Event>, more: seq<Event>, from: nat, seen: set<string>, seenMore: set<string>)
    requires WellFormed(v, more) && log <= more && WellFormed(v, log) && seen <= seenMore
    requires AllFollowed(v, log, from, seen) && AllFollowed(v, more, |log|, seenMore)
    ensures AllFollowed(v, more, from, seenMore)
  {
    forall k | from <= k < |more| ensures LineFollowed(v, more, k, seenMore) {
      if k < |log| && log[k].Read? {
        SameTokens(v, log, more, k);
        assert LineFollowed(v, log, k, seen);
      }
    }
  }

  lemma ExtendsTwice(v: Vault, a: seq<Event>, b: seq<Event>, c: seq<Event>, seenA: set<string>, seenB: set<string>,
                     seenC: set<string>)
    requires WellFormed(v, b) && WellFormed(v, c)
    requires Extends(v, a, b, seenA, seenB) && Extends(v, b, c, seenB, seenC)
    ensures Extends(v, a, c, seenA, seenC)
  {
    CausedStays(v, b, c, |a|);
    FollowedStays(v, b, c, |a|, seenB, seenC);
    forall k | |a| <= k < |c| ensures c[k].file !in seenA {
      if k < |b| { assert c[k] == b[k]; }
    }
  }

  lemma NothingAdded(v: Vault, log: seq<Event>, seen: set<string>)
    requires WellFormed(v, log)
    ensures Extends(v, log, log, seen, seen)
  {
  }

  /** Reading one more line and following its includes continues a visit. */
  lemma LineDone(v: Vault, before: seq<Event>, now: seq<Event>, next: seq<Event>, seenBefore: set<string>,
                 seen: set<string>, seenNext: set<string>, file: string, i: nat)
    requires WellFormed(v, now) && WellFormed(v, next) && file in v.files
    requires Partial(v, before, now, seenBefore, seen, file, i)
    requires i < |v.files[file]| && WellFormed(v, now + [Read(file, i)])
    requires Extends(v, now + [Read(file, i)], next, seen, seenNext)
    requires forall token :: token in TokensAt(v, now + [Read(file, i)], |now|) ==> TokenFollowed(v, token, seenNext)
    ensures Partial(v, before, next, seenBefore, seenNext, file, i + 1)
  {
    hide EnvOf, TokensAt, LineFollowed, AskedFor, TokenFollowed, Record;
    var read := now + [Read(file, i)];
    SameTokens(v, read, next, |now|);
    LineDoneCaused(v, before, now, read, next, Read(file, i));
    LineDoneFollowed(v, before, now, read, next, seen, seenNext, Read(file, i));
    assert read[..|now|] == now;
    forall k | |before| <= k < |next| ensures next[k].file !in seenBefore {
      if k < |now| { assert next[k] == read[k] == now[k]; } else if k == |now| { assert next[k] == read[k]; }
    }
    assert LinesOf(read, file) == UpTo(i) + [i] == UpTo(i + 1);
    assert forall f :: f != file ==> LinesOf(read, f) == LinesOf(now, f);
  }

  lemma LineDoneCaused(v: Vault, before: seq<Event>, now: seq<Event>, read: seq<Event>, next: seq<Event>, e: Event)
    requires WellFormed(v, now) && WellFormed(v, next) && read == now + [e] && e.Read? && read <= next
    requires AllCaused(v, now, |before|) && AllCaused(v, next, |read|)
    ensures AllCaused(v, next, |before|)
  {
    assert WellFormed(v, read) by {
      assert forall j :: 0 <= j < |read| ==> next[j] == read[j];
    }
    forall p | |before| <= p < |read| && read[p].Enter? && p > 0
      ensures WellFormed(v, read[..p]) && AskedFor(v, read[..p], read[p].file)
    {
      assert read[..p] == now[..p] && read[p] == now[p];
    }
    CausedStays(v, read, next, |before|);
  }

  lemma LineDoneFollowed(v: Vault, before: seq<Event>, now: seq<Event>, read: seq<Event>, next: seq<Event>,
                         seen: set<string>, seenNext: set<string>, e: Event)
    requires WellFormed(v, now) && WellFormed(v, next) && read == now + [e] && e.Read? && read <= next
             && seen <= seenNext
    requires AllFollowed(v, now, |before|, seen) && AllFollowed(v, next, |read|, seenNext)
    requires next[|now|] == e && forall token :: token in TokensAt(v, next, |now|) ==> TokenFollowed(v, token, seenNext)
    ensures AllFollowed(v, next, |before|, seenNext)
  {
    assert now <= next;
    forall k | |before| <= k < |next| ensures LineFollowed(v, next, k, seenNext) {
      if k < |now| && next[k].Read? {
        assert next[k] == now[k];
        SameTokens(v, now, next, k);
        assert LineFollowed(v, now, k, seen);
      }
    }
  }

  lemma EnteringStarts(v: Vault, before: seq<Event>, seenBefore: set<string>, file: string)
    requires WellFormed(v, before) && file in v.files && file !in seenBefore
    requires before == [] || AskedFor(v, before, file)
    requires forall k :: 0 <= k < |before| ==> before[k].file in seenBefore
    ensures WellFormed(v, before + [Enter(file)])
    ensures Partial(v, before, before + [Enter(file)], seenBefore, seenBefore + {file}, file, 0)
  {
    var now := before + [Enter(file)];
    assert now[..|before|] == before;
    NoLines(before, file);
  }

  lemma PartialFacts(v: Vault, before: seq<Event>, now: seq<Event>, seenBefore: set<string>, seen: set<string>,
                     file: string, i: nat)
    requires WellFormed(v, now) && Partial(v, before, now, seenBefore, seen, file, i)
    ensures |before| < |now| && now[|before|] == Enter(file) && file in seen
  {
  }

  lemma ExtendsFacts(v: Vault, before: seq<Event>, after: seq<Event>, seenBefore: set<string>, seenAfter: set<string>)
    requires WellFormed(v, after) && Extends(v, before, after, seenBefore, seenAfter)
    ensures before <= after && seenBefore <= seenAfter && OnlyNew(before, after, seenBefore)
    ensures Unseen(v, seenAfter) <= Unseen(v, seenBefore)
  {
    FewerUnseen(v, seenBefore, seenAfter);
  }

  lemma AllLinesDone(v: Vault, before: seq<Event>, now: seq<Event>, seenBefore: set<string>, seen: set<string>,
                     file: string)
    requires WellFormed(v, now) && file in v.files
    requires Partial(v, before, now, seenBefore, seen, file, |v.files[file]|)
    ensures Extends(v, before, now, seenBefore, seen)
  {
    forall f | f in seen - seenBefore ensures f in v.files && LinesOf(now, f) == UpTo(|v.files[f]|) {
      assert f != file ==> f in seen - seenBefore - {file};
    }
  }

  lemma TokenStaysFollowed(v: Vault, token: Include, seen: set<string>, seenMore: set<string>)
    requires TokenFollowed(v, token, seen) && seen <= seenMore
    ensures TokenFollowed(v, token, seenMore)
  {
  }

  /** A line still causes its targets after other targets' files were visited. */
  lemma StillCauses(v: Vault, start: seq<Event>, log: seq<Event>, seenStart: set<string>, seen: set<string>,
                    q: nat, token: Include, target: string)
    requires WellFormed(v, log) && Extends(v, start, log, seenStart, seen)
    requires WellFormed(v, start) && q < |start| && start[q].Read? && start[q].file in seenStart
    requires token in TokensAt(v, start, q) && target in Targets(v, token)
    requires forall k :: q < k < |start| && start[k].Read? ==> start[k].file != start[q].file
    ensures HasCause(v, log, v.normal(target), token.optional)
  {
    assert log[q] == start[q];
    SameTokens(v, start, log, q);
    forall k | q < k < |log| && log[k].Read? ensures log[k].file != log[q].file {
      if k < |start| { assert log[k] == start[k]; }
    }
    assert Causes(v, log, q, v.normal(target), token.optional);
  }

  lemma PathStaysArrived(v: Vault, path: string, optional: bool, seen: set<string>, seenMore: set<string>)
    requires Arrived(v, path, optional, seen) && seen <= seenMore
    ensures Arrived(v, path, optional, seenMore)
  {
  }

  lemma AllArrived(v: Vault, token: Include, targets: seq<string>, seen: set<string>)
    requires targets == Targets(v, token)
    requires forall k :: 0 <= k < |targets| ==> Arrived(v, targets[k], token.optional, seen)
    ensures TokenFollowed(v, token, seen)
  {
    forall target | StandsFor(v, token, target) ensures Arrived(v, target, token.optional, seen) {
      assert target in targets;
    }
  }

  /** Every file is entered once, and only entered files are read. */
  ghost predicate Sound(v: Vault, log: seq<Event>) {
    WellFormed(v, log) && NoDuplicates(Entered(log)) && forall k :: 0 <= k < |log| ==> log[k].file in SeenIn(log)
  }

  /** A walk went on from one stream to another. */
  ghost predicate WentOn(v: Vault, before: seq<Event>, after: seq<Event>) {
    Sound(v, after) && Extends(v, before, after, SeenIn(before), SeenIn(after))
  }

  /** A walk that stopped had just been asked for a file that is required and not there. */
  ghost predicate StoppedForCause(v: Vault, r: Inlining)
    requires WellFormed(v, r.log)
  {
    r.Missing? ==> r.file !in v.files && (r.log == [] || HasCause(v, r.log, r.file, false))
  }

  lemma OneMore(xs: seq<string>, x: string)
    requires NoDuplicates(xs) && x !in xs
    ensures NoDuplicates(xs + [x])
  {
  }

  lemma EnteringIsSound(v: Vault, log: seq<Event>, file: string)
    requires Sound(v, log) && file in v.files && file !in SeenIn(log)
    ensures Sound(v, log + [Enter(file)])
  {
    hide EnvOf, Entered, WellFormed, NoDuplicates;
    Entering(v, log, file);
    OneMore(Entered(log), file);
    assert forall k :: 0 <= k < |log| ==> (log + [Enter(file)])[k] == log[k];
  }

  lemma ReadingIsSound(v: Vault, log: seq<Event>, file: string, i: nat)
    requires Sound(v, log) && file in SeenIn(log) && file in v.files && i < |v.files[file]|
    ensures Sound(v, log + [Read(file, i)])
  {
    hide EnvOf, Entered, WellFormed, NoDuplicates, TokensAt;
    Reading(v, log, file, i);
    assert forall k :: 0 <= k < |log| ==> (log + [Read(file, i)])[k] == log[k];
  }

  lemma NothingSeen()
    ensures SeenIn([]) == {}
  {
  }

  lemma SoundFacts(v: Vault, log: seq<Event>)
    requires Sound(v, log)
    ensures WellFormed(v, log) && forall k :: 0 <= k < |log| ==> log[k].file in SeenIn(log)
  {
  }

  lemma {:induction false} PathGoesOn(v: Vault, log: seq<Event>, path: string, optional: bool)
    requires Sound(v, log) && (log == [] || HasCause(v, log, v.normal(path), optional))
    requires log == [] ==> !optional
    ensures var r := InlinePath(v, log, path, optional);
            && StoppedForCause(v, r)
            && (r.Stream? ==> WentOn(v, log, r.log) && Arrived(v, path, optional, SeenIn(r.log)))
            && (r.Stream? && log == [] ==> r.log != [] && r.log[0] == Enter(v.normal(path)))
            && (r.Missing? && r.log == [] ==> r.file == v.normal(path))
    decreases Unseen(v, SeenIn(log)), 0, 0
  {
    hide EnvOf, Entered, SeenIn, HasCause, InlineLines, Extends, Sound, Partial;
    SoundFacts(v, log);
    NothingSeen();
    var file := v.normal(path);
    if file in SeenIn(log) || file !in v.files {
      NothingAdded(v, log, SeenIn(log));
    } else {
      Entering(v, log, file);
      EnteringIsSound(v, log, file);
      EnteringStarts(v, log, SeenIn(log), file);
      LinesGoOn(v, log, log + [Enter(file)], file, 0);
    }
  }

  lemma {:induction false} LinesGoOn(v: Vault, before: seq<Event>, now: seq<Event>, file: string, i: nat)
    requires Sound(v, before) && Sound(v, now) && file in v.files && i <= |v.files[file]|
    requires Partial(v, before, now, SeenIn(before), SeenIn(now), file, i)
    ensures var r := InlineLines(v, now, file, i);
            && StoppedForCause(v, r) && (r.Missing? ==> r.log != [])
            && (r.Stream? ==> WentOn(v, before, r.log) && |before| < |r.log| && r.log[|before|] == Enter(file)
                              && file in SeenIn(r.log))
    decreases Unseen(v, SeenIn(now)), 3, |v.files[file]| - i
  {
    hide EnvOf, Entered, SeenIn, HasCause, InlineTokens, Extends, Partial, TokensAt;
    PartialFacts(v, before, now, SeenIn(before), SeenIn(now), file, i);
    if i == |v.files[file]| {
      AllLinesDone(v, before, now, SeenIn(before), SeenIn(now), file);
    } else {
      var read := now + [Read(file, i)];
      Reading(v, now, file, i);
      ReadingIsSound(v, now, file, i);
      NothingAdded(v, read, SeenIn(read));
      TokensGoOn(v, read, read, TokensAt(v, read, |now|));
      var line := InlineTokens(v, read, TokensAt(v, read, |now|));
      if line.Stream? {
        Growing(v, now, line.log);
        LineDone(v, before, now, line.log, SeenIn(before), SeenIn(now), SeenIn(line.log), file, i);
        LinesGoOn(v, before, line.log, file, i + 1);
      }
    }
  }

  /** The stream ends in `start`'s last line and what has been inlined after it. */
  lemma {:induction false} TokensGoOn(v: Vault, start: seq<Event>, now: seq<Event>, tokens: seq<Include>)
    requires Sound(v, start) && start != [] && start[|start| - 1].Read? && WentOn(v, start, now)
    requires forall token :: token in tokens ==> token in TokensAt(v, start, |start| - 1)
    ensures var r := InlineTokens(v, now, tokens);
            && StoppedForCause(v, r) && (r.Missing? ==> r.log != [])
            && (r.Stream? ==> WentOn(v, start, r.log) && SeenIn(now) <= SeenIn(r.log)
                              && forall token :: token in tokens ==> TokenFollowed(v, token, SeenIn(r.log)))
    decreases Unseen(v, SeenIn(now)), 2, |tokens|
  {
    hide EnvOf, Entered, SeenIn, HasCause, InlineTargets, Extends, Sound, TokensAt, TokenFollowed;
    if tokens != [] {
      var token := tokens[0];
      assert token in tokens && forall t :: t in tokens[1..] ==> t in tokens;
      TargetsGoOn(v, start, now, token, Targets(v, token));
      var first := InlineTargets(v, now, Targets(v, token), token.optional);
      if first.Stream? {
        Growing(v, now, first.log);
        AllArrived(v, token, Targets(v, token), SeenIn(first.log));
        TokensGoOn(v, start, first.log, tokens[1..]);
        var r := InlineTokens(v, first.log, tokens[1..]);
        if r.Stream? {
          TokenStaysFollowed(v, token, SeenIn(first.log), SeenIn(r.log));
          assert forall t :: t in tokens ==> t == token || t in tokens[1..];
        }
      }
    }
  }

  lemma {:induction false} TargetsGoOn(v: Vault, start: seq<Event>, now: seq<Event>, token: Include,
                                       targets: seq<string>)
    requires Sound(v, start) && start != [] && start[|start| - 1].Read? && WentOn(v, start, now)
    requires token in TokensAt(v, start, |start| - 1)
    requires forall target :: target in targets ==> target in Targets(v, token)
    ensures var r := InlineTargets(v, now, targets, token.optional);
            && StoppedForCause(v, r) && (r.Missing? ==> r.log != [])
            && (r.Stream? ==> WentOn(v, start, r.log) && SeenIn(now) <= SeenIn(r.log)
                              && forall k :: 0 <= k < |targets| ==>
                                   Arrived(v, targets[k], token.optional, SeenIn(r.log)))
    decreases Unseen(v, SeenIn(now)), 1, |targets|
  {
    hide EnvOf, Entered, SeenIn, HasCause, InlinePath, Extends, TokensAt, Arrived;
    if targets != [] {
      var q := |start| - 1;
      ExtendsFacts(v, start, now, SeenIn(start), SeenIn(now));
      StillCauses(v, start, now, SeenIn(start), SeenIn(now), q, token, targets[0]);
      PathGoesOn(v, now, targets[0], token.optional);
      var first := InlinePath(v, now, targets[0], token.optional);
      if first.Stream? {
        Growing(v, now, first.log);
        ExtendsTwice(v, start, now, first.log, SeenIn(start), SeenIn(now), SeenIn(first.log));
        ExtendsFacts(v, now, first.log, SeenIn(now), SeenIn(first.log));
        TargetsGoOn(v, start, first.log, token, targets[1..]);
        var r := InlineTargets(v, first.log, targets[1..], token.optional);
        if r.Stream? {
          PathStaysArrived(v, targets[0], token.optional, SeenIn(first.log), SeenIn(r.log));
          forall k | 0 <= k < |targets| ensures Arrived(v, targets[k], token.optional, SeenIn(r.log)) {
            if k > 0 { assert targets[k] == targets[1..][k - 1]; }
          }
        }
      }
    }
  }

  lemma {:induction false} EnteredFirst(log: seq<Event>)
    requires |log| > 0 && log[0].Enter?
    ensures |Entered(log)| > 0 && Entered(log)[0] == log[0].file
  {
    var init := log[..|log| - 1];
    if |log| > 1 {
      EnteredFirst(init);
    } else {
      assert init == [];
    }
  }

  /** The inlined stream lists every file once, the root first; it holds all
      lines of every listed file in order, follows every include under the
      environment folded from the stream up to its line, and enters no file
      that was not asked for at just that point. */
  lemma InlinedStreamIsComplete(v: Vault, root: string)
    requires InlinePath(v, [], root, false).Stream?
    ensures var log := InlinePath(v, [], root, false).log;
            && NoDuplicates(Entered(log)) && Entered(log) != [] && Entered(log)[0] == v.normal(root)
            && AllRead(v, log, SeenIn(log)) && AllFollowed(v, log, 0, SeenIn(log)) && AllCaused(v, log, 0)
  {
    hide InlinePath;
    var log := InlinePath(v, [], root, false).log;
    PathGoesOn(v, [], root, false);
    EnteredFirst(log);
    NothingSeen();
  }

  /** The walk fails only for the root or for a required include of a line
      whose own file has not been read further, and only when it is not there. */
  lemma FailureHasCause(v: Vault, root: string)
    requires InlinePath(v, [], root, false).Missing?
    ensures var r := InlinePath(v, [], root, false);
            && r.file !in v.files
            && if r.log == [] then r.file == v.normal(root) else HasCause(v, r.log, r.file, false)
  {
    hide InlinePath;
    PathGoesOn(v, [], root, false);
  }
}
