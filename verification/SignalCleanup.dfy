// Parent signals arriving while a child process is supervised: the handlers
// that are installed around the run, what they clean up, and what is left
// behind when the run is over. A state machine over single steps of the main
// thread and arriving signals.

module SignalCleanup {
  datatype Signum = Term | Int

  /** A cleanup attempt (kill, then drain), by a signal handler or by the exception path. */
  datatype Cleanup = ByHandler | ByException

  datatype Phase =
    | Install(s: Signum)                  // about to set our handler for s
    | Record(s: Signum)                   // our handler is set, the previous one not yet remembered
    | UndoInstall(todo: seq<Signum>)      // installation raised: putting back what was remembered
    | Assign                              // both installed, the restore function not yet kept
    | Running                             // communicating with the child
    | Check                               // exception path: about to look at `attempted`
    | Decided                             // exception path: found nothing attempted, cleanup not yet begun
    | Cleaning                            // exception path: cleaning up
    | Restoring(todo: seq<Signum>)        // leaving: putting the previous handlers back
    | Exited

  datatype State = State(
    phase: Phase,
    ours: set<Signum>,          // signals whose current handler is ours
    remembered: seq<Signum>,    // signals whose previous handler is remembered
    restorable: bool,           // the run holds the restore function
    attempted: bool,            // the shared flag set by the handler
    drained: bool,              // the child's output was drained
    drainTimeout: bool,         // the result reported output_drain_timeout
    cleanups: seq<Cleanup>)     // every cleanup begun, in order

  const START := State(Install(Term), {}, [], false, false, false, false, [])

  /** How a handler ends after its cleanup: the forwarded handler returns, or
      something is raised; an OSError or ValueError raised inside one of the
      guarded `signal.signal` statements is swallowed there. */
  datatype Ending = Returned | Raised | Swallowed

  function ToRestore(s: State): seq<Signum> {
    if s.restorable then s.remembered else []
  }

  function AfterInstalling(signum: Signum): Phase {
    if signum == Term then Install(Int) else Assign
  }

  /** Where control goes when a handler raises in the given phase. */
  ghost predicate RaiseLeadsTo(s: State, next: Phase) {
    match s.phase
    case Install(_) => next == UndoInstall(s.remembered)
    case Record(_) => next == UndoInstall(s.remembered)
    case UndoInstall(_) => next == Check
    case Assign => next == Check
    case Running => next == Check
    case Check => next == Restoring(ToRestore(s))
    case Decided => next == Restoring(ToRestore(s))
    // raised inside the guarded cleanup steps it is noted as a failure; outside it escapes
    case Cleaning => next == Cleaning || next == Restoring(ToRestore(s))
    case Restoring(_) => next == Exited
    case Exited => false
  }

  /** Where control goes when what a handler raises is swallowed: the statement
      it interrupted is given up, and the loop around it goes on. */
  ghost predicate SwallowLeadsTo(s: State, next: Phase) {
    match s.phase
    case Install(signum) => next == AfterInstalling(signum)
    case Record(signum) => next == AfterInstalling(signum)
    case UndoInstall(todo) => todo != [] && next == UndoInstall(todo[1..])
    case Restoring(todo) => todo != [] && next == Restoring(todo[1..])
    case _ => false
  }

  /** A signal whose handler is ours arrives, and the handler cleans up. */
  ghost predicate SignalStep(s: State, t: State, signum: Signum, ending: Ending) {
    && signum in s.ours && !s.phase.Exited?
    && (match ending
        case Returned => t.phase == s.phase
        case Raised => RaiseLeadsTo(s, t.phase)
        case Swallowed => SwallowLeadsTo(s, t.phase))
    && t == s.(phase := t.phase, attempted := true, cleanups := s.cleanups + [ByHandler])
  }

  /** A previous handler cannot be set. If the platform refuses it, the loop
      goes on; if it is None, which `signal.signal` does not take, the TypeError
      leaves the loop. */
  ghost predicate PutBackFails(s: State, t: State) {
    match s.phase
    case UndoInstall(todo) => todo != [] && (t == s.(phase := UndoInstall(todo[1..])) || t == s.(phase := Check))
    case Restoring(todo) => todo != [] && (t == s.(phase := Restoring(todo[1..])) || t == s.(phase := Exited))
    case _ => false
  }

  ghost predicate MainStep(s: State, t: State) {
    match s.phase
    case Install(signum) =>
      || t == s.(phase := Record(signum), ours := s.ours + {signum})
      // the handler could not be set (for example outside the main thread)
      || t == s.(phase := AfterInstalling(signum))
    case Record(signum) =>
      t == s.(phase := AfterInstalling(signum), remembered := s.remembered + [signum])
    case UndoInstall(todo) =>
      if todo == [] then t == s.(phase := Check)
      else t == s.(phase := UndoInstall(todo[1..]), ours := s.ours - {todo[0]}) || PutBackFails(s, t)
    case Assign => t == s.(phase := Running, restorable := true)
    case Running =>
      || t == s.(phase := Restoring(ToRestore(s)), drained := true)
      || t == s.(phase := Restoring(ToRestore(s)), drainTimeout := true)
      || t == s.(phase := Check)
    case Check =>
      t == s.(phase := if s.attempted then Restoring(ToRestore(s)) else Decided)
    case Decided => t == s.(phase := Cleaning, cleanups := s.cleanups + [ByException])
    case Cleaning => t == s.(phase := Restoring(ToRestore(s)))
    case Restoring(todo) =>
      if todo == [] then t == s.(phase := Exited)
      else t == s.(phase := Restoring(todo[1..]), ours := s.ours - {todo[0]}) || PutBackFails(s, t)
    case Exited => false
  }

  ghost predicate Step(s: State, t: State) {
    MainStep(s, t) || exists signum, ending :: SignalStep(s, t, signum, ending)
  }

  /** A run: any interleaving of main-thread steps and signals from the start. */
  ghost predicate Run(states: seq<State>) {
    && |states| > 0 && states[0] == START
    && forall i :: 0 <= i < |states| - 1 ==> Step(states[i], states[i + 1])
  }

  // ---- the steps that do harm -------------------------------------------

  /** In these phases a handler of ours is in place whose previous handler only
      the interrupted statement, or what follows it, would put back. */
  predicate Exposed(phase: Phase, ending: Ending) {
    match phase
    case Record(_) => ending != Returned
    case Assign => ending == Raised
    case UndoInstall(todo) => ending != Returned && todo != []
    case Restoring(todo) => ending != Returned && todo != []
    case _ => false
  }

  /** A handler fails to return in an exposed phase, or a previous handler
      cannot be set. */
  ghost predicate LosingStep(s: State, t: State) {
    || PutBackFails(s, t)
    || exists signum, ending :: SignalStep(s, t, signum, ending) && Exposed(s.phase, ending)
  }

  /** A handler runs after the exception path found nothing attempted and
      before it begins its own cleanup. */
  ghost predicate LateStep(s: State, t: State) {
    s.phase.Decided? && exists signum, ending :: SignalStep(s, t, signum, ending)
  }

  ghost predicate LostBefore(states: seq<State>, n: nat)
    requires n < |states|
  {
    exists i :: 0 <= i < n && LosingStep(states[i], states[i + 1])
  }

  ghost predicate LateBefore(states: seq<State>, n: nat)
    requires n < |states|
  {
    exists i :: 0 <= i < n && LateStep(states[i], states[i + 1])
  }

  // ---- invariants -------------------------------------------------------

  /** A cleanup by the exception path comes after one begun by a handler. */
  ghost predicate RepeatsHandler(cleanups: seq<Cleanup>) {
    exists i, j :: 0 <= i < j < |cleanups| && cleanups[i] == ByHandler && cleanups[j] == ByException
  }

  /** The child has been dealt with. */
  ghost predicate Settled(s: State) {
    s.drained || s.drainTimeout || s.cleanups != []
  }

  predicate OneException(cleanups: seq<Cleanup>) {
    forall i, j :: 0 <= i < j < |cleanups| ==> !(cleanups[i] == ByException && cleanups[j] == ByException)
  }

  /** `late` says whether a late step came before. */
  ghost predicate CleanupInvariant(s: State, late: bool) {
    && (s.attempted <==> ByHandler in s.cleanups)
    && (s.phase.Exited? || s.phase.Restoring? ==> Settled(s))
    && (ByException in s.cleanups ==> s.phase.Cleaning? || s.phase.Restoring? || s.phase.Exited?)
    && (s.phase.Cleaning? ==> ByException in s.cleanups)
    && OneException(s.cleanups)
    && (late ==> s.phase.Decided? || s.phase.Cleaning? || s.phase.Restoring? || s.phase.Exited?)
    && (s.phase.Decided? ==> (late <==> ByHandler in s.cleanups))
    && (ByException in s.cleanups ==> (RepeatsHandler(s.cleanups) <==> late))
  }

  function Set(xs: seq<Signum>): set<Signum> {
    set x | x in xs
  }

  ghost predicate NoDuplicates(xs: seq<Signum>) {
    forall i, j :: 0 <= i < j < |xs| ==> xs[i] != xs[j]
  }

  /** The handlers of ours that the rest of an uninterrupted run puts back. */
  function Pending(s: State): set<Signum> {
    match s.phase
    case Install(_) => Set(s.remembered)
    case Record(signum) => Set(s.remembered) + {signum}
    case UndoInstall(todo) => Set(todo)
    case Assign => Set(s.remembered)
    case Restoring(todo) => Set(todo)
    case Exited => {}
    case _ => Set(ToRestore(s))
  }

  /** What may be remembered, or still be to do, in each phase. */
  ghost predicate WellPhased(s: State) {
    && NoDuplicates(s.remembered)
    && match s.phase
       case Install(Term) => s.remembered == [] && s.ours == {}
       case Record(Term) => s.remembered == [] && s.ours == {Term}
       case Install(Int) => s.ours <= {Term}
       case Record(Int) => Set(s.remembered) <= {Term} && Int in s.ours
       case UndoInstall(todo) => NoDuplicates(todo) && !s.restorable
       case Restoring(todo) => NoDuplicates(todo)
       case _ => true
  }

  /** The handlers still to be put back are all ours, and all of ours are still
      to be put back unless one was lost. */
  ghost predicate HandlerInvariant(s: State, lost: bool) {
    && WellPhased(s)
    && (s.restorable ==> !s.phase.Install? && !s.phase.Record? && !s.phase.Assign?)
    && Pending(s) <= s.ours
    && (lost <==> s.ours != Pending(s))
  }

  lemma DecidedKeepsCleanups(s: State, t: State, late: bool)
    requires CleanupInvariant(s, late) && MainStep(s, t) && s.phase.Decided?
    ensures CleanupInvariant(t, late)
  {
    var n := |s.cleanups|;
    assert t.cleanups[n] == ByException;
    if ByHandler in s.cleanups {
      var i :| 0 <= i < n && s.cleanups[i] == ByHandler;
      assert t.cleanups[i] == ByHandler;
    }
    assert forall i :: 0 <= i < n ==> t.cleanups[i] == s.cleanups[i] && t.cleanups[i] in s.cleanups;
  }

  lemma EarlyStepKeepsCleanups(s: State, t: State, late: bool)
    requires CleanupInvariant(s, late) && MainStep(s, t)
    requires s.phase.Install? || s.phase.Record? || s.phase.UndoInstall? || s.phase.Assign?
    ensures CleanupInvariant(t, late)
  {
    hide RepeatsHandler, OneException, ToRestore;
  }

  lemma MiddleStepKeepsCleanups(s: State, t: State, late: bool)
    requires CleanupInvariant(s, late) && MainStep(s, t) && (s.phase.Running? || s.phase.Check?)
    ensures CleanupInvariant(t, late)
  {
    hide RepeatsHandler, OneException, ToRestore;
  }

  lemma LeavingStepKeepsCleanups(s: State, t: State, late: bool)
    requires CleanupInvariant(s, late) && MainStep(s, t) && (s.phase.Cleaning? || s.phase.Restoring?)
    ensures CleanupInvariant(t, late)
  {
    hide RepeatsHandler, OneException, ToRestore;
  }

  lemma MainKeepsCleanups(s: State, t: State, late: bool)
    requires CleanupInvariant(s, late) && MainStep(s, t)
    ensures CleanupInvariant(t, late)
  {
    match s.phase
    case Decided => DecidedKeepsCleanups(s, t, late);
    case Running => MiddleStepKeepsCleanups(s, t, late);
    case Check => MiddleStepKeepsCleanups(s, t, late);
    case Cleaning => LeavingStepKeepsCleanups(s, t, late);
    case Restoring(_) => LeavingStepKeepsCleanups(s, t, late);
    case Exited =>
    case _ =>
      hide MainStep, CleanupInvariant;
      EarlyStepKeepsCleanups(s, t, late);
  }

  lemma OneMoreHandler(cleanups: seq<Cleanup>)
    ensures RepeatsHandler(cleanups + [ByHandler]) <==> RepeatsHandler(cleanups)
    ensures OneException(cleanups) ==> OneException(cleanups + [ByHandler])
    ensures forall c :: c in cleanups + [ByHandler] <==> c in cleanups || c == ByHandler
  {
    var more := cleanups + [ByHandler];
    assert more[|cleanups|] == ByHandler;
    assert forall i :: 0 <= i < |cleanups| ==> more[i] == cleanups[i];
    if i, j :| 0 <= i < j < |cleanups| && cleanups[i] == ByHandler && cleanups[j] == ByException {
      assert more[i] == ByHandler && more[j] == ByException;
    }
  }

  lemma SignalKeepsCleanups(s: State, t: State, signum: Signum, ending: Ending, late: bool)
    requires CleanupInvariant(s, late) && SignalStep(s, t, signum, ending)
    ensures CleanupInvariant(t, late || s.phase.Decided?)
  {
    hide RepeatsHandler, OneException;
    OneMoreHandler(s.cleanups);
  }

  lemma PutBackOne(todo: seq<Signum>)
    requires todo != [] && NoDuplicates(todo)
    ensures NoDuplicates(todo[1..]) && Set(todo[1..]) == Set(todo) - {todo[0]} && todo[0] in Set(todo)
  {
    forall x ensures x in todo[1..] <==> x in todo && x != todo[0] {
      if x in todo && x != todo[0] {
        var i :| 0 <= i < |todo| && todo[i] == x;
        assert todo[1..][i - 1] == x;
      }
    }
  }

  lemma RemoveFromBoth(a: set<Signum>, b: set<Signum>, x: Signum)
    requires x in b && b <= a
    ensures a - {x} == b - {x} <==> a == b
  {
    assert a == (a - {x}) + {x} && b == (b - {x}) + {x};
  }

  lemma RememberOne(remembered: seq<Signum>, signum: Signum)
    requires NoDuplicates(remembered) && signum !in remembered
    ensures NoDuplicates(remembered + [signum]) && Set(remembered + [signum]) == Set(remembered) + {signum}
  {
  }

  lemma PuttingBackKeepsHandlers(s: State, t: State, todo: seq<Signum>, lost: bool)
    requires HandlerInvariant(s, lost) && MainStep(s, t) && todo != []
    requires s.phase == UndoInstall(todo) || s.phase == Restoring(todo)
    ensures HandlerInvariant(t, lost || PutBackFails(s, t))
  {
    hide NoDuplicates, Set;
    NothingToDo();
    PutBackOne(todo);
    RemoveFromBoth(s.ours, Set(todo), todo[0]);
  }

  lemma RecordingKeepsHandlers(s: State, t: State, lost: bool)
    requires HandlerInvariant(s, lost) && MainStep(s, t) && s.phase.Record?
    ensures HandlerInvariant(t, lost)
  {
    hide NoDuplicates, Set;
    NotYetRemembered(s);
    RememberOne(s.remembered, s.phase.s);
  }

  lemma InstallingKeepsHandlers(s: State, t: State, lost: bool)
    requires HandlerInvariant(s, lost) && MainStep(s, t) && s.phase.Install?
    ensures HandlerInvariant(t, lost)
  {
    hide NoDuplicates, Set;
    NothingToDo();
  }

  lemma MiddleStepKeepsHandlers(s: State, t: State, lost: bool)
    requires HandlerInvariant(s, lost) && MainStep(s, t) && !PutBackFails(s, t)
    requires s.phase.Assign? || s.phase.Running? || s.phase.Check? || s.phase.Decided? || s.phase.Cleaning?
    ensures HandlerInvariant(t, lost)
  {
    hide NoDuplicates, Set;
    NothingToDo();
  }

  lemma LastStepKeepsHandlers(s: State, t: State, lost: bool)
    requires HandlerInvariant(s, lost) && MainStep(s, t)
    requires s.phase == UndoInstall([]) || s.phase == Restoring([])
    ensures HandlerInvariant(t, lost)
  {
    hide NoDuplicates, Set;
    NothingToDo();
  }

  lemma MainKeepsHandlers(s: State, t: State, lost: bool)
    requires HandlerInvariant(s, lost) && MainStep(s, t)
    ensures HandlerInvariant(t, lost || PutBackFails(s, t))
  {
    hide HandlerInvariant, MainStep;
    if s.phase.UndoInstall? || s.phase.Restoring? {
      if s.phase.todo != [] {
        PuttingBackKeepsHandlers(s, t, s.phase.todo, lost);
      } else {
        LastStepKeepsHandlers(s, t, lost);
      }
    } else if s.phase.Record? {
      RecordingKeepsHandlers(s, t, lost);
    } else if s.phase.Install? {
      InstallingKeepsHandlers(s, t, lost);
    } else {
      NoStepFromExit(s, t);
      MiddleStepKeepsHandlers(s, t, lost);
    }
  }

  lemma NoStepFromExit(s: State, t: State)
    requires MainStep(s, t)
    ensures !s.phase.Exited?
  {
  }

  lemma NothingToDo()
    ensures Set([]) == {} && NoDuplicates([])
  {
  }

  lemma NotYetRemembered(s: State)
    requires WellPhased(s) && s.phase.Record?
    ensures s.phase.s !in s.remembered
  {
    assert forall x :: x in s.remembered ==> x in Set(s.remembered);
  }

  lemma SignalKeepsHandlers(s: State, t: State, signum: Signum, ending: Ending, lost: bool)
    requires HandlerInvariant(s, lost) && SignalStep(s, t, signum, ending)
    ensures HandlerInvariant(t, lost || Exposed(s.phase, ending))
  {
    hide NoDuplicates, Set;
    NothingToDo();
    match s.phase
    case UndoInstall(todo) => if todo != [] { PutBackOne(todo); }
    case Restoring(todo) => if todo != [] { PutBackOne(todo); }
    case Record(other) =>
      NotYetRemembered(s);
      InSet(s.remembered, other);
    case _ =>
  }

  lemma InSet(xs: seq<Signum>, x: Signum)
    ensures x in Set(xs) <==> x in xs
  {
  }

  lemma OneStep(states: seq<State>, n: nat)
    requires n + 1 < |states|
    ensures LostBefore(states, n + 1) <==> LostBefore(states, n) || LosingStep(states[n], states[n + 1])
    ensures LateBefore(states, n + 1) <==> LateBefore(states, n) || LateStep(states[n], states[n + 1])
  {
  }

  lemma MainAddsNoHandler(s: State, t: State)
    requires MainStep(s, t)
    ensures t.cleanups != s.cleanups + [ByHandler]
  {
    var n := |s.cleanups|;
    assert (s.cleanups + [ByHandler])[n] == ByHandler;
    if s.phase.Decided? {
      assert t.cleanups[n] == ByException;
    } else {
      assert |t.cleanups| == n;
    }
  }

  /** A step of the main thread is none by a signal. */
  lemma StepsAreApart(s: State, t: State)
    requires MainStep(s, t)
    ensures (LosingStep(s, t) <==> PutBackFails(s, t)) && !LateStep(s, t)
  {
    hide MainStep, PutBackFails, RaiseLeadsTo, SwallowLeadsTo;
    MainAddsNoHandler(s, t);
  }

  lemma SignalsArePutBackApart(s: State, t: State, signum: Signum, ending: Ending)
    requires SignalStep(s, t, signum, ending)
    ensures !PutBackFails(s, t)
  {
    assert |t.cleanups| == |s.cleanups| + 1;
  }

  /** Two endings of the same step do the same harm. */
  lemma SameHarm(s: State, t: State, signum: Signum, ending: Ending, other: Signum, otherEnding: Ending)
    requires SignalStep(s, t, signum, ending) && SignalStep(s, t, other, otherEnding)
    ensures Exposed(s.phase, ending) == Exposed(s.phase, otherEnding)
  {
  }

  lemma {:induction false} RunKeepsInvariants(states: seq<State>, n: nat)
    requires Run(states) && n < |states|
    ensures CleanupInvariant(states[n], LateBefore(states, n)) && HandlerInvariant(states[n], LostBefore(states, n))
  {
    if n > 0 {
      RunKeepsInvariants(states, n - 1);
      var s, t := states[n - 1], states[n];
      OneStep(states, n - 1);
      assert Step(s, t);
      if MainStep(s, t) {
        StepsAreApart(s, t);
        MainKeepsCleanups(s, t, LateBefore(states, n - 1));
        MainKeepsHandlers(s, t, LostBefore(states, n - 1));
      } else {
        var signum, ending :| SignalStep(s, t, signum, ending);
        SignalsArePutBackApart(s, t, signum, ending);
        SignalKeepsCleanups(s, t, signum, ending, LateBefore(states, n - 1));
        SignalKeepsHandlers(s, t, signum, ending, LostBefore(states, n - 1));
        forall other, otherEnding | SignalStep(s, t, other, otherEnding)
          ensures Exposed(s.phase, otherEnding) == Exposed(s.phase, ending)
        {
          SameHarm(s, t, signum, ending, other, otherEnding);
        }
      }
    }
  }

  // ---- theorems over all interleavings ----------------------------------

  /** Every exit has drained the child, reported that draining timed out, or
      attempted to clean the child up. */
  lemma EveryExitSettlesTheChild(states: seq<State>, n: nat)
    requires Run(states) && n < |states| && states[n].phase.Exited?
    ensures Settled(states[n])
  {
    RunKeepsInvariants(states, n);
  }

  /** The exception path cleans up at most once, and it repeats a cleanup begun
      by a handler exactly when a handler ran in the window between reading
      the flag and starting the cleanup. */
  lemma ExceptionCleanupRepeatsOnlyInWindow(states: seq<State>, n: nat)
    requires Run(states) && n < |states|
    ensures OneException(states[n].cleanups)
    ensures ByException in states[n].cleanups ==> (RepeatsHandler(states[n].cleanups) <==> LateBefore(states, n))
    ensures RepeatsHandler(states[n].cleanups) ==> LateBefore(states, n)
  {
    RunKeepsInvariants(states, n);
  }

  /** At exit the previous handlers are back exactly when no handler failed to
      return in an exposed phase and each of them could be set again. */
  lemma HandlersAreBackIffNoneLost(states: seq<State>, n: nat)
    requires Run(states) && n < |states| && states[n].phase.Exited?
    ensures states[n].ours == {} <==> !LostBefore(states, n)
  {
    RunKeepsInvariants(states, n);
  }

  lemma GoOn(states: seq<State>, t: State) returns (longer: seq<State>)
    requires Run(states) && Step(states[|states| - 1], t)
    ensures Run(longer) && longer[|longer| - 1] == t
  {
    hide Step;
    longer := states + [t];
    forall i | 0 <= i < |longer| - 1 ensures Step(longer[i], longer[i + 1]) {
      if i < |states| - 1 { assert Step(states[i], states[i + 1]); }
    }
  }

  lemma SignalGoesOn(states: seq<State>, t: State, signum: Signum, ending: Ending) returns (longer: seq<State>)
    requires Run(states) && SignalStep(states[|states| - 1], t, signum, ending)
    ensures Run(longer) && longer[|longer| - 1] == t
  {
    hide MainStep, SignalStep;
    assert Step(states[|states| - 1], t);
    longer := GoOn(states, t);
  }

  lemma MainGoesOn(states: seq<State>, t: State) returns (longer: seq<State>)
    requires Run(states) && MainStep(states[|states| - 1], t)
    ensures Run(longer) && longer[|longer| - 1] == t
  {
    hide MainStep, SignalStep;
    assert Step(states[|states| - 1], t);
    longer := GoOn(states, t);
  }

  const RUNNING := START.(phase := Running, ours := {Term, Int}, remembered := [Term, Int], restorable := true)

  /** A run in which both handlers get installed without interruption. */
  lemma RunningIsReached() returns (states: seq<State>)
    ensures Run(states) && states[|states| - 1] == RUNNING
  {
    hide Run;
    var s1 := START.(phase := Record(Term), ours := {Term});
    var s2 := s1.(phase := Install(Int), remembered := [Term]);
    var s3 := s2.(phase := Record(Int), ours := {Term, Int});
    var s4 := s3.(phase := Assign, remembered := [Term, Int]);
    states := [START];
    RunStarts();
    states := MainGoesOn(states, s1);
    states := MainGoesOn(states, s2);
    states := MainGoesOn(states, s3);
    states := MainGoesOn(states, s4);
    states := MainGoesOn(states, RUNNING);
  }

  lemma RunStarts()
    ensures Run([START])
  {
  }

  /** A second signal while the handlers are being put back leaves them in place. */
  lemma SignalWhileRestoringLosesHandlers()
    ensures exists states: seq<State> ::
              Run(states) && states[|states| - 1].phase.Exited? && states[|states| - 1].ours != {}
  {
    hide Run;
    var states := RunningIsReached();
    var leaving := RUNNING.(phase := Restoring([Term, Int]), drained := true);
    var gone := leaving.(phase := Exited, attempted := true, cleanups := [ByHandler]);
    states := MainGoesOn(states, leaving);
    states := SignalGoesOn(states, gone, Int, Raised);
  }

  /** A handler that cleans up and returns just after the flag was read makes
      the exception path clean up a second time. */
  lemma SignalAfterCheckRepeatsCleanup()
    ensures exists states: seq<State> :: Run(states) && RepeatsHandler(states[|states| - 1].cleanups)
  {
    hide Run;
    var states := RunningIsReached();
    var checking := RUNNING.(phase := Check);
    var decided := RUNNING.(phase := Decided);
    var handled := decided.(attempted := true, cleanups := [ByHandler]);
    var repeated := handled.(phase := Cleaning, cleanups := [ByHandler, ByException]);
    states := MainGoesOn(states, checking);
    states := MainGoesOn(states, decided);
    states := SignalGoesOn(states, handled, Term, Returned);
    states := MainGoesOn(states, repeated);
    assert repeated.cleanups[0] == ByHandler && repeated.cleanups[1] == ByException;
  }
}
