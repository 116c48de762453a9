// Module closures over cyclic graphs: Make targets and Make variables. The
// recursion carries a path-local set of the nodes above it, not a global one.

module Closure {
  datatype Target = Target(modules: set<string>, dependencies: set<string>)

  type Graph = map<string, Target>

  /** The modules of a target and of everything below it, never re-entering a
      node that is already on the current path. */
  function ClosureModules(g: Graph, target: string, seen: set<string>): set<string>
    decreases g.Keys - seen, 0
  {
    if target in seen || target !in g then {}
    else g[target].modules + Below(g, g[target].dependencies, seen + {target})
  }

  function Below(g: Graph, nodes: set<string>, seen: set<string>): set<string>
    decreases g.Keys - seen, 1
  {
    set d, m | d in nodes && m in ClosureModules(g, d, seen) :: m
  }

  method TargetClosureModules(g: Graph, target: string, seen: set<string>) returns (modules: set<string>)
    ensures modules == ClosureModules(g, target, seen)
    decreases g.Keys - seen
  {
    if target in seen || target !in g { return {}; }
    modules := g[target].modules;
    var todo := g[target].dependencies;
    while todo != {}
      invariant todo <= g[target].dependencies
      invariant modules == g[target].modules + Below(g, g[target].dependencies - todo, seen + {target})
      decreases todo
    {
      var dependency :| dependency in todo;
      var below := TargetClosureModules(g, dependency, seen + {target});
      modules := modules + below;
      todo := todo - {dependency};
    }
    assert g[target].dependencies - todo == g[target].dependencies;
  }

  // ---- reachability -----------------------------------------------------

  ghost predicate Walk(g: Graph, path: seq<string>) {
    && |path| > 0
    && (forall i :: 0 <= i < |path| ==> path[i] in g)
    && (forall i :: 0 < i < |path| ==> path[i] in g[path[i - 1]].dependencies)
  }

  ghost predicate WalkBetween(g: Graph, path: seq<string>, from: string, to: string) {
    Walk(g, path) && path[0] == from && path[|path| - 1] == to
  }

  ghost predicate Reaches(g: Graph, from: string, to: string) {
    exists path :: WalkBetween(g, path, from, to)
  }

  ghost predicate Simple(path: seq<string>) {
    forall i, j :: 0 <= i < j < |path| ==> path[i] != path[j]
  }

  /** Every walk can be shortened to one that visits no node twice. */
  lemma {:induction false} ShortenWalk(g: Graph, path: seq<string>) returns (short: seq<string>)
    requires Walk(g, path)
    ensures WalkBetween(g, short, path[0], path[|path| - 1]) && Simple(short)
    decreases |path|
  {
    if i, j :| 0 <= i < j < |path| && path[i] == path[j] {
      var cut := path[..i] + path[j..];
      assert cut[0] == path[0] && cut[|cut| - 1] == path[|path| - 1];
      forall k | 0 < k < |cut| ensures cut[k] in g[cut[k - 1]].dependencies {
        if k < i {
          assert cut[k] == path[k] && cut[k - 1] == path[k - 1];
        } else if k == i {
          assert cut[k] == path[j] == path[i] && cut[k - 1] == path[i - 1];
        } else {
          assert cut[k] == path[k - i + j] && cut[k - 1] == path[k - i + j - 1];
        }
      }
      short := ShortenWalk(g, cut);
    } else {
      short := path;
    }
  }

  /** A simple walk that stays clear of `seen` is followed to its end. */
  lemma {:induction false} SimpleWalkIsFollowed(g: Graph, path: seq<string>, seen: set<string>, m: string)
    requires Walk(g, path) && Simple(path)
    requires forall i :: 0 <= i < |path| ==> path[i] !in seen
    requires m in g[path[|path| - 1]].modules
    ensures m in ClosureModules(g, path[0], seen)
    decreases |path|
  {
    if |path| > 1 {
      var rest := path[1..];
      assert forall i :: 0 <= i < |rest| ==> rest[i] == path[i + 1];
      assert rest[|rest| - 1] == path[|path| - 1];
      SimpleWalkIsFollowed(g, rest, seen + {path[0]}, m);
    }
  }

  lemma {:induction false} ClosureIsReached(g: Graph, target: string, seen: set<string>, m: string)
    returns (path: seq<string>)
    requires m in ClosureModules(g, target, seen)
    ensures Walk(g, path) && path[0] == target && m in g[path[|path| - 1]].modules
    decreases g.Keys - seen
  {
    if m in g[target].modules {
      path := [target];
    } else {
      var d :| d in g[target].dependencies && m in ClosureModules(g, d, seen + {target});
      var rest := ClosureIsReached(g, d, seen + {target}, m);
      path := [target] + rest;
    }
  }

  ghost predicate ReachesOwner(g: Graph, from: string, m: string) {
    exists to :: Reaches(g, from, to) && m in g[to].modules
  }

  /** The path-local recursion computes plain reachability, cycles or not. */
  lemma ClosureIsReachability(g: Graph, target: string, m: string)
    ensures m in ClosureModules(g, target, {}) <==> ReachesOwner(g, target, m)
  {
    if m in ClosureModules(g, target, {}) {
      var path := ClosureIsReached(g, target, {}, m);
      assert WalkBetween(g, path, target, path[|path| - 1]);
    }
    if ReachesOwner(g, target, m) {
      var to :| Reaches(g, target, to) && m in g[to].modules;
      var path :| WalkBetween(g, path, target, to);
      var short := ShortenWalk(g, path);
      SimpleWalkIsFollowed(g, short, {}, m);
    }
  }

  /** Accepts exactly when every existing target reaches the module's owner. */
  method RequireGeneratorModuleForTargets(module': string, targets: seq<string>, g: Graph) returns (ok: bool)
    ensures ok <==> forall t :: t in targets && t in g ==> ReachesOwner(g, t, module')
  {
    for i := 0 to |targets|
      invariant forall k :: 0 <= k < i && targets[k] in g ==> ReachesOwner(g, targets[k], module')
    {
      if targets[i] in g {
        var modules := TargetClosureModules(g, targets[i], {});
        ClosureIsReachability(g, targets[i], module');
        if module' !in modules { return false; }
      }
    }
    return true;
  }

  // ---- variables --------------------------------------------------------

  type Assignments = map<string, seq<string>>

  /** How text is read: the modules it names and the variables it refers to. */
  datatype Syntax = Syntax(modulesIn: string -> set<string>, referencesIn: string -> set<string>)

  function ModulesInText(syntax: Syntax, text: string, vars: Assignments, seen: set<string>): set<string>
    decreases vars.Keys - seen, 1
  {
    syntax.modulesIn(text) + BelowReferences(syntax, syntax.referencesIn(text), vars, seen)
  }

  function BelowReferences(syntax: Syntax, references: set<string>, vars: Assignments, seen: set<string>): set<string>
    decreases vars.Keys - seen, 0
  {
    set v, i, m | v in references && v !in seen && v in vars && 0 <= i < |vars[v]|
                  && m in ModulesInText(syntax, vars[v][i], vars, seen + {v}) :: m
  }

  /** The graph whose nodes are the assigned variables. */
  function VariableGraph(syntax: Syntax, vars: Assignments): Graph {
    map v | v in vars :: Target(
      set i, m | 0 <= i < |vars[v]| && m in syntax.modulesIn(vars[v][i]) :: m,
      set i, w | 0 <= i < |vars[v]| && w in syntax.referencesIn(vars[v][i]) :: w)
  }

  lemma {:induction false} TextClosureIsGraphClosure(syntax: Syntax, text: string, vars: Assignments,
                                                     seen: set<string>, m: string)
    ensures var g := VariableGraph(syntax, vars);
            m in ModulesInText(syntax, text, vars, seen) <==>
              m in syntax.modulesIn(text)
              || exists v :: v in syntax.referencesIn(text) && m in ClosureModules(g, v, seen)
    decreases vars.Keys - seen
  {
    var g := VariableGraph(syntax, vars);
    forall v, i | v in syntax.referencesIn(text) && v !in seen && v in vars && 0 <= i < |vars[v]|
      ensures m in ModulesInText(syntax, vars[v][i], vars, seen + {v}) <==>
                m in syntax.modulesIn(vars[v][i])
                || exists w :: w in syntax.referencesIn(vars[v][i]) && m in ClosureModules(g, w, seen + {v})
    {
      TextClosureIsGraphClosure(syntax, vars[v][i], vars, seen + {v}, m);
    }
    forall v | v in syntax.referencesIn(text) && v !in seen && v in vars
      ensures m in ClosureModules(g, v, seen) <==>
                exists i :: 0 <= i < |vars[v]| && m in ModulesInText(syntax, vars[v][i], vars, seen + {v})
    {
      NodeClosure(syntax, vars, seen, v, m);
    }
  }

  lemma NodeClosure(syntax: Syntax, vars: Assignments, seen: set<string>, v: string, m: string)
    requires v in vars && v !in seen
    requires forall i :: 0 <= i < |vars[v]| ==>
               (m in ModulesInText(syntax, vars[v][i], vars, seen + {v}) <==>
                  m in syntax.modulesIn(vars[v][i])
                  || exists w :: w in syntax.referencesIn(vars[v][i])
                                 && m in ClosureModules(VariableGraph(syntax, vars), w, seen + {v}))
    ensures m in ClosureModules(VariableGraph(syntax, vars), v, seen) <==>
              exists i :: 0 <= i < |vars[v]| && m in ModulesInText(syntax, vars[v][i], vars, seen + {v})
  {
    var g := VariableGraph(syntax, vars);
    if m in ClosureModules(g, v, seen) && m !in g[v].modules {
      assert m in Below(g, g[v].dependencies, seen + {v});
      var w :| w in g[v].dependencies && m in ClosureModules(g, w, seen + {v});
      var i :| 0 <= i < |vars[v]| && w in syntax.referencesIn(vars[v][i]);
    }
    if i :| 0 <= i < |vars[v]| && m in ModulesInText(syntax, vars[v][i], vars, seen + {v}) {
      if m !in syntax.modulesIn(vars[v][i]) {
        var w :| w in syntax.referencesIn(vars[v][i]) && m in ClosureModules(g, w, seen + {v});
        assert w in g[v].dependencies;
      }
    }
  }

  /** A text's modules are those it names and those named by the value of any
      variable reachable from its references. */
  lemma TextModulesAreReachability(syntax: Syntax, text: string, vars: Assignments, m: string)
    ensures m in ModulesInText(syntax, text, vars, {}) <==>
              m in syntax.modulesIn(text)
              || exists v :: v in syntax.referencesIn(text) && ReachesOwner(VariableGraph(syntax, vars), v, m)
  {
    TextClosureIsGraphClosure(syntax, text, vars, {}, m);
    forall v { ClosureIsReachability(VariableGraph(syntax, vars), v, m); }
  }

  /** The two nested loops over references and their values. */
  method ModulesInTextLoop(syntax: Syntax, text: string, vars: Assignments,
                           seen: set<string>) returns (modules: set<string>)
    ensures modules == ModulesInText(syntax, text, vars, seen)
    decreases vars.Keys - seen, 1
  {
    modules := syntax.modulesIn(text);
    var todo := syntax.referencesIn(text);
    while todo != {}
      invariant todo <= syntax.referencesIn(text)
      invariant modules == syntax.modulesIn(text)
                + BelowReferences(syntax, syntax.referencesIn(text) - todo, vars, seen)
      decreases todo
    {
      var variable :| variable in todo;
      if variable !in seen && variable in vars {
        var below := ModulesInValues(syntax, variable, vars, seen);
        modules := modules + below;
      }
      todo := todo - {variable};
    }
    assert syntax.referencesIn(text) - todo == syntax.referencesIn(text);
  }

  method ModulesInValues(syntax: Syntax, variable: string, vars: Assignments,
                         seen: set<string>) returns (modules: set<string>)
    requires variable in vars && variable !in seen
    ensures modules == BelowReferences(syntax, {variable}, vars, seen)
    decreases vars.Keys - seen, 0
  {
    modules := {};
    for n := 0 to |vars[variable]|
      invariant forall m :: m in modules <==>
                  exists i :: 0 <= i < n && m in ModulesInText(syntax, vars[variable][i], vars, seen + {variable})
    {
      var below := ModulesInTextLoop(syntax, vars[variable][n], vars, seen + {variable});
      modules := modules + below;
    }
  }
}
