# Verification model of the operations core

This project models the parts of `ops/scripts/core` whose correctness rests on
interplay rather than on any single function, and proves what they keep over
every input, every I/O fault pattern, every interleaving or every run:

* **Manifest transactions** (`Disks`, `RepoPaths`, `AtomicWrite`,
  `ManifestApply`, `Rehearsal`). The file system is a mutable map in which every
  operation may raise an I/O error. A changed-files manifest is guarded, all its
  entries are backed up and staged, then applied in order, and rolled back in
  reverse when an error strikes. Multi-file text writes and the rehearsal of a
  manifest on a copy are modelled over the same disk.
* **Process supervision** (`Supervision`, `SignalCleanup`). The clock and the
  child act nondeterministically. The heartbeat loop, the terminate/kill
  escalation and the result are methods over that host; parent signals that
  interleave with installing, running, cleaning up and restoring are a state
  machine over single steps.
* **Closures** (`Closure`, `IncludeWalk`). The path-local recursion over Make
  targets and Make variables, and the Makefile include walk that threads a
  variable environment through the files it reads.
* **Binding and promotion** (`Json`, `Binding`, `Promotion`). The pruned pointer
  traversal, the normal forms of the binding modes, and promotion over runs.
* **Archive moves** (`Archive`), **the goal contract** (`GoalContract`) and
  **policy dependencies** (`Policy`).

Operations that change state in place are classes and methods with loops,
specified by functions of the old state; what the system promises is then proved
about those functions. Code that computes values is modelled by functions and
lemmas.

## Assumptions

* Digests are injective, so a digest is represented by what it digests; sha256
  digests are 64 characters long.
* What was parsed from a text is parsed again from the text it is serialised to,
  and a valid goal contract is read back as it was written (the explicit
  hypotheses `Faithful` of `Promotion` and `GoalContract`, each shown to be met by
  `StaleRevisionRun` and `BackendsDoAgreeSomewhere`).
* A rename is atomic; a failed one changes nothing. A failed copy or write may
  leave anything in its destination, and in nothing else.
* Paths are flat keys: no file lies below another file, and there are no
  symbolic links. Temporary names are unused when handed out, and nothing else
  touches the files during an operation.
* Time does not run backwards, and a wait that times out has lasted at least as
  long as it was asked to.
* JSON numbers are integers or binary floats (a mantissa and a power of two), kept
  apart as their texts are (1 is not 1.0); signed zeros and the non-numbers are not
  modelled.

## Where the code does not keep the expected property

Each of these is stated with the exact condition under which the property holds,
or with a run that breaks it.

* A passing rehearsal does not promise every single manifest entry. Verdicts are
  kept per path and a later entry for the path replaces the earlier verdict, so a
  manifest that writes and deletes the same path passes. Every entry is satisfied
  exactly when no path is both deleted and written
  (`PassPromisesEveryEntryIffConsistent`, `ContradictoryManifestPasses`).
* A complete rollback of a multi-file write restores the files exactly only when
  no replaced file held a carriage return: originals are read in text mode, which
  folds line ends (`UndoneIsExact`, `LineEndsAreNotRestored`). If removing a staged file fails, that error
  replaces the one that names the unrestored files; the contract of
  `AtomicMultiWrite` says so (`CleanupFailed`).
* The previous signal handlers are not back on every exit: a handler that raises
  while a handler has just been set but not remembered, before the restore
  function is kept, or while handlers are being put back, leaves a handler of the
  run in place. So does an `OSError` or `ValueError` that a forwarded handler
  raises inside one of the guarded statements, and a previous handler that cannot
  be set again, be it that the platform refuses it or that it is None, whose
  TypeError ends the restoring (`HandlersAreBackIffNoneLost`,
  `SignalWhileRestoringLosesHandlers`).
* The exception path can repeat a cleanup that a handler began, when the signal
  arrives between reading the flag and starting the cleanup
  (`ExceptionCleanupRepeatsOnlyInWindow`, `SignalAfterCheckRepeatsCleanup`).
* Rolling an archive manifest back in its recorded order does not restore the
  files when one applied move goes to where another came from
  (`RestoredIffNoChain`, `ChainIsNotUndone`).
* Under content binding a destination may keep an older source revision: exactly
  when it is an accepted, non-empty report that differs from the candidate in its
  revision alone (`RevisionIsCandidatesIff`, `StaleRevisionRun`).
  For files named `.md` the digest is of
  the text's lines, so equality of JSON normal forms is not claimed for them.
* A freshness report that depends on no overlay is never current itself, although
  a report composed from it can be (`ComposedIsCurrentIffPartsAre` states the
  exact relation).

## Model

| member | source | states |
|---|---|---|
| RepoPaths.CollapseKeepsShape | ops/scripts/core/path_runtime.py:9-19 | Path normalisation leaves no empty or "." segment, and ".." only as a block at the front, from any start that already has this shape. |
| RepoPaths.CollapseLaws | ops/scripts/core/path_runtime.py:9-19 | The laws of path normalisation: "." and empty components may be left out, a segment and the ".." after it cancel, and a path with its parents in front and nothing to leave out is normal. |
| RepoPaths.StripMeans | ops/scripts/core/filesystem_runtime.py:243 | Stripping yields the part of a text with nothing but white space around it and none at its ends. |
| RepoPaths.NormalizedPathStaysInside | ops/scripts/core/filesystem_runtime.py:242-251 | Every segment of an accepted manifest path goes down: none is empty, ".", ".." or holds a separator. |
| RepoPaths.AcceptedExactly | ops/scripts/core/filesystem_runtime.py:242-251 | A manifest path is accepted exactly when its text, with forward slashes and without surrounding white space, is relative, not empty, and leads below its root; it then stands for that place. |
| RepoPaths.RootMeans | ops/scripts/core/filesystem_runtime.py:254-269 | An allowed root is a directory root exactly when its text ends in a separator, and is at the normalised path before it. |
| RepoPaths.PlainPathsAreKept | ops/scripts/core/filesystem_runtime.py:242-269 | A path of plain segments is its own normal form, a file root as it stands and a directory root with a separator after it. |
| RepoPaths.MatchIsSegmentPrefix | ops/scripts/core/filesystem_runtime.py:287-290 | The string test for an allowed root (equal, or starts with the root and a slash) holds exactly when the root's segment list is a prefix of the path's, or equal to it for a file root. |
| RepoPaths.IsCovered | ops/scripts/core/filesystem_runtime.py:344-345 | The search over the roots answers exactly whether some root matches. |
| RepoPaths.ManifestApplyGuardState | ops/scripts/core/filesystem_runtime.py:323-353 | Changed paths are the usable paths in manifest order, invalid entries exactly those without one, disallowed paths exactly the uncovered ones; nothing to complain of exactly when every entry has a covered path. |
| RepoPaths.AcceptedPathsAreConfined | ops/scripts/core/filesystem_runtime.py:356-375 | Every path of an accepted manifest stays inside and extends the segments of an allowed root. |
| Disks.Disk.Copy | ops/scripts/core/filesystem_runtime.py:721-734 | Copying a file: success copies exactly, an error may leave an incomplete copy, nothing else changes. |
| Disks.Disk.Replace | ops/scripts/core/filesystem_runtime.py:86-87 | The rename is all or nothing, and a missing source is reported only when it is missing. |
| Disks.Disk.Unlink | ops/scripts/core/filesystem_runtime.py:77-83 | Removing a file changes that file only, and only on success. |
| Disks.Disk.RemoveTree | ops/scripts/core/filesystem_runtime.py:876 | Removing the temporary directory touches nothing outside it, whatever goes wrong. |
| AtomicWrite.ReadTextIsExact | ops/scripts/core/filesystem_runtime.py:56-59 | Reading a file's text and writing it back is exact if and only if the file holds no carriage return. |
| AtomicWrite.LineEndsFold | ops/scripts/core/filesystem_runtime.py:56-59 | A line end with a carriage return, alone or before a new line, is read as one new line, and the rest of the text by itself. |
| AtomicWrite.StageText | ops/scripts/core/filesystem_runtime.py:62-74 | A staged text sits complete under a name of its own; a failed staging leaves no temporary file unless removing it failed too. |
| AtomicWrite.CleanupStaged | ops/scripts/core/filesystem_runtime.py:77-83 | Removes exactly the staged file; an already missing one is no error. |
| AtomicWrite.AtomicWriteText | ops/scripts/core/filesystem_runtime.py:104-113 | At every outcome the target holds its old text or the new one, the new one on success; nothing else lasting changes; success exactly when no error was raised. |
| AtomicWrite.HasDuplicateTargets | ops/scripts/core/filesystem_runtime.py:133-156 | Finds a duplicate exactly when two updates share a target. |
| AtomicWrite.AllWrittenMeans | ops/scripts/core/filesystem_runtime.py:159-167 | The simultaneous update of distinct targets: each holds its own text and every other file is unchanged. |
| AtomicWrite.RestoreTextUpdate | ops/scripts/core/filesystem_runtime.py:90-101 | A reported success means the target holds its original text or is absent again; nothing else lasting changes. |
| AtomicWrite.StageAll | ops/scripts/core/filesystem_runtime.py:172-174 | All texts staged under distinct new names, no lasting file touched, no stray temporary file even when it stops early. |
| AtomicWrite.CommitStep | ops/scripts/core/filesystem_runtime.py:175-180 | One rename moves the boundary between written and still staged targets by one and loses no staged file. |
| AtomicWrite.CommitAll | ops/scripts/core/filesystem_runtime.py:175-180 | After any number of renames exactly the committed prefix is written, the rest still staged; it stops short only on an error. |
| AtomicWrite.RollBackCommitted | ops/scripts/core/filesystem_runtime.py:181-187 | Restoring in reverse puts every committed target back or names it, at the cost of one further error per name; all other files are as before. |
| AtomicWrite.CommitStaged | ops/scripts/core/filesystem_runtime.py:171-187 | Either all targets are written, or the committed ones are restored or named. |
| AtomicWrite.CleanupAll | ops/scripts/core/filesystem_runtime.py:188-196 | Removes every left-over staged file or stops at the first removal error; touches no lasting file. |
| AtomicWrite.UndoneIsExact | ops/scripts/core/filesystem_runtime.py:181-193 | After a rollback that names nothing, the disk is as before if and only if no replaced target held a carriage return. |
| AtomicWrite.LineEndsAreNotRestored | ops/scripts/core/filesystem_runtime.py:56-59 | A concrete rollback that names nothing and leaves "a\n" where "a\r\n" was. |
| AtomicWrite.AtomicMultiWrite | ops/scripts/core/filesystem_runtime.py:159-196 | Success is the simultaneous update and nothing else. Otherwise every target is back (through text mode) or named, with fewer names than errors, so none after a single error. No staged file survives unless a removal raised an error. Without errors it always succeeds, exactly for distinct targets. |
| ManifestApply.LastEntryWins | ops/scripts/core/filesystem_runtime.py:756-771 | Applying overrides the tree left to right: the last entry for a path decides it, and paths the manifest does not name are unchanged. |
| ManifestApply.EveryEntryHoldsIffConsistent | ops/scripts/core/filesystem_runtime.py:756-771 | Every single entry is satisfied by the result exactly when no path is both deleted and written. |
| ManifestApply.ApplyCommutesWithRestriction | ops/scripts/core/filesystem_runtime.py:491-519 | Applying to the copy that holds only the manifest's paths gives the restriction of applying to the whole tree. |
| ManifestApply.ApplicableMeans | ops/scripts/core/filesystem_runtime.py:687-744 | A manifest can be prepared exactly when every entry has a path inside the tree and a known change type, and every added or modified one a workspace file. |
| ManifestApply.TransformedEntriesAreDone | ops/scripts/core/filesystem_runtime.py:756-771 | On the overridden tree the last entry of every path has been done: a deleted path is gone, an added or modified one holds what its workspace file held. |
| ManifestApply.PrepareItem | ops/scripts/core/filesystem_runtime.py:708-743 | One entry's backup and staged copy are exact; a refusal for a missing candidate means it is missing; nothing but the two copies changes. |
| ManifestApply.PrepareEntry | ops/scripts/core/filesystem_runtime.py:694-743 | An entry is prepared as its path and change type say: a deleted one is not staged, an added or modified one is staged from its workspace file; it is refused as malformed or missing only when it is. |
| ManifestApply.PrepareItems | ops/scripts/core/filesystem_runtime.py:687-744 | All backups and staged copies are taken from the tree as it was before any change, repeated paths included; without errors it succeeds exactly when every entry is usable, and the reason of a refusal is true of the manifest. |
| ManifestApply.ApplyItem | ops/scripts/core/filesystem_runtime.py:761-771 | One entry is applied completely or, on an error, not at all. |
| ManifestApply.ApplyStep | ops/scripts/core/filesystem_runtime.py:761-771 | A step advances the tree by one entry and leaves every backup and every later staged copy intact. |
| ManifestApply.ApplyItems | ops/scripts/core/filesystem_runtime.py:756-771 | The applied items are the prefix before the first error, and the tree is the old one overridden by just that prefix. |
| ManifestApply.RollBackStep | ops/scripts/core/filesystem_runtime.py:776-787 | Undoing one item in reverse keeps all paths already undone at their initial content, or named, even when the path repeats. |
| ManifestApply.RollBackItems | ops/scripts/core/filesystem_runtime.py:774-788 | Whatever fails, every applied path is back at its initial content or named; a name costs an error; no other file changes. |
| ManifestApply.ValidateGuard | ops/scripts/core/filesystem_runtime.py:356-375 | Passes exactly the manifests whose roots parse and cover every entry. |
| ManifestApply.RootsMean | ops/scripts/core/filesystem_runtime.py:331 | The allowed roots are usable exactly when each of them is, and are taken in order. |
| ManifestApply.WriteReport | ops/scripts/core/filesystem_runtime.py:854-866 | Only the report's place can change, to the whole report or not at all; a missing timestamp refuses first. |
| ManifestApply.ApplyOrRollBack | ops/scripts/core/filesystem_runtime.py:868-874 | The live tree is fully overridden, or each path is at its initial content or named. |
| ManifestApply.ApplyInDirectory | ops/scripts/core/filesystem_runtime.py:849-874 | The guarantees of the transaction at the point where the temporary directory still exists. |
| ManifestApply.ApplyManifestTransaction | ops/scripts/core/filesystem_runtime.py:828-880 | All or nothing under any fault pattern. On success every entry was usable and the last one of each path has been done (a deleted path is gone from the live tree, an added or modified one holds what its workspace file held), the report is written, and no other lasting file changes; on failure every lasting file but the report is as before or named among the manifest's paths, with fewer names than errors, and the reason given is true of the manifest; a manifest that cannot be prepared or lacks its time stamp changes no lasting file, and the time stamp is asked for only after everything was prepared. It is refused by the guard exactly when it is not guarded. Without errors it succeeds exactly for guarded, applicable, timestamped input and leaves no scratch file. |
| ManifestApply.ChangesAreConfined | ops/scripts/core/filesystem_runtime.py:838-880 | After a completed transaction every changed file but the report is a live one, named by the manifest, inside the tree and below an allowed root. |
| Rehearsal.SeedCopy | ops/scripts/core/filesystem_runtime.py:491-519 | The copy holds exactly the manifest's live files, the baseline their contents or absence; no live file changes. |
| Rehearsal.VerifyApply | ops/scripts/core/filesystem_runtime.py:522-540 | A positive verdict means the entry holds on the copy, and without read errors a negative one means it does not. |
| Rehearsal.VerifyRollback | ops/scripts/core/filesystem_runtime.py:543-560 | A positive verdict means the baseline is back, and without read errors a negative one means it is not. |
| Rehearsal.VerifyAllApplied | ops/scripts/core/filesystem_runtime.py:649-652 | The verdict kept for a path is that of its last entry: a positive one means that entry holds on the copy whatever errors struck, and without read errors a negative one means it does not. |
| Rehearsal.VerifyAllRolledBack | ops/scripts/core/filesystem_runtime.py:655-661 | A positive verdict means the path's baseline is back whatever errors struck, and without read errors a negative one means it is not. |
| Rehearsal.ApplyVerdictsHold | ops/scripts/core/filesystem_runtime.py:645-652 | After an error-free apply the last entry of every path finds the copy as it wants it. |
| Rehearsal.RunRehearsal | ops/scripts/core/filesystem_runtime.py:645-661 | Touches nothing outside the temporary directory; the per-file results tell what the copy held before, after applying and after rolling back; a rehearsal without diagnostics has put every baseline back; without errors everything is verified. |
| Rehearsal.ToldResultsAreHonest | ops/scripts/core/filesystem_runtime.py:663-684 | The per-file results of a rehearsal are true of the copy: applied means the last entry of the path held after applying, rolled back means its live content was back. |
| Rehearsal.AllVerifiedIsBack | ops/scripts/core/filesystem_runtime.py:663-684 | When all results are verified, every path of the manifest has its live content back on the copy. |
| Rehearsal.RehearseInDirectory | ops/scripts/core/filesystem_runtime.py:629-667 | The rehearsed copy is the manifest applied to the restriction of the live tree; without errors all is verified exactly for applicable manifests; a verified rollback has put the live content back at every manifest path of the copy. |
| Rehearsal.RehearseManifestApplyRollback | ops/scripts/core/filesystem_runtime.py:601-684 | Every completed rehearsal writes its whole report, and on any outcome the report's place holds its old content or the whole report. Whatever errors struck, a pass implies a guarded, applicable manifest, the expected copy after applying, and the live content back at every manifest path of the copy after rolling back, and each per-file verdict is true of the copy; without errors it passes exactly for applicable manifests. No lasting file but the report changes, and none at all when the guard, the timestamp or the directory fails. |
| Rehearsal.RehearsedStaysApplicable | ops/scripts/core/filesystem_runtime.py:687-744 | While the manifest's workspace files stay the same, a manifest that passed its rehearsal stays applicable. |
| Rehearsal.RehearsalPredicts | ops/scripts/core/filesystem_runtime.py:601-684 | While the manifest's workspace files stay the same, a completed transaction leaves at every manifest path exactly what the rehearsed copy held, whatever else changed in the live tree. |
| Rehearsal.BaseDoesNotMatter | ops/scripts/core/filesystem_runtime.py:756-771 | At the manifest's paths the outcome depends on the workspace files only. |
| Rehearsal.PassPromisesEveryEntryIffConsistent | ops/scripts/core/filesystem_runtime.py:649-652 | A pass promises every single entry exactly when no path is both deleted and written. |
| Rehearsal.ContradictoryManifestPasses | ops/scripts/core/filesystem_runtime.py:649-652 | A manifest that writes and then deletes one path is guarded and applicable, hence passes, although its first entry is not satisfied. |
| Supervision.HeartbeatTurn | ops/scripts/core/command_runtime.py:438-472 | One turn: a positive wait within the time left; if it times out, a heartbeat is emitted or the deadline is reached. |
| Supervision.ChooseWait | ops/scripts/core/command_runtime.py:443-445 | The wait is positive, fits the time left, and reaches the deadline or the next heartbeat. |
| Supervision.HeartbeatIfDue | ops/scripts/core/command_runtime.py:454-472 | After a wait that timed out either a heartbeat is emitted or the deadline has been reached. |
| Supervision.EmitHeartbeat | ops/scripts/core/command_runtime.py:457-470 | A heartbeat that is due is counted, reported once in order, and the next one lies at least one interval later. |
| Supervision.PassTicks | ops/scripts/core/command_runtime.py:469-470 | The next heartbeat lies after the clock reading by at most one interval, and at least one interval after the previous one. |
| Supervision.HeartbeatLoop | ops/scripts/core/command_runtime.py:434-472 | The loop ends, and its log shows input only in the first wait, every wait answered by its own heartbeat in order, and a timeout only at or after the deadline. |
| Supervision.CommunicateWithOptionalHeartbeats | ops/scripts/core/command_runtime.py:420-472 | With heartbeats the log of the loop, without them one wait of the full timeout that carries the input; a timeout is never reported before the deadline, only waits are made, and the quiet time noted is that of the last heartbeat, or all of it when a run ends without output. |
| Supervision.HeartbeatArithmetic | ops/scripts/core/command_runtime.py:434-472 | Heartbeat n is numbered n, comes no earlier than n intervals, n - 1 intervals end before the deadline, and so heartbeats and waits are bounded by the timeout. |
| Supervision.TotalWithinTimeout | ops/scripts/core/command_runtime.py:438-472 | The waits of the loop follow one another and together ask for no more than the timeout. |
| Supervision.ReadyOutput | ops/scripts/core/command_runtime.py:485-489 | Collecting ready output takes no waiting time. |
| Supervision.OutputIfExited | ops/scripts/core/command_runtime.py:503-506 | A poll, and only when it finds the child gone a look at its output that takes no waiting time. |
| Supervision.TerminateAndDrain | ops/scripts/core/command_runtime.py:508-528 | The signals attempted are TERM, or TERM then KILL, as the final state says, and KILL only after TERM's grace period has run out and the child is still there; one grace period for each, and never more than two even when the host raises; the last steps taken are the evidence of the final state. |
| Supervision.AfterGrace | ops/scripts/core/command_runtime.py:512-528 | A child found gone with its output ready after the grace period is not killed; otherwise it is killed once. |
| Supervision.KillAndDrain | ops/scripts/core/command_runtime.py:516-528 | One KILL and at most one grace period, ending drained or with the drain timeout reported; the signal reported is KILL, or TERM when KILL found no child. |
| Supervision.FinalizeTimedOutProcess | ops/scripts/core/command_runtime.py:492-528 | The signals are none, TERM, or TERM then KILL, none exactly for the two recovery states, and TERM only while the last poll found the child running or its output was not ready; at most two grace periods on every outcome; every final state is settled by the steps it names. |
| Supervision.TimeoutExpiredRunResult | ops/scripts/core/command_runtime.py:777-812 | The result is timed out exactly when a signal was attempted, and then never has return code 0; its reason is "startup_timeout" exactly when the launch took the whole timeout, else "timeout_after_output" exactly when there is output, else "execution_timeout"; it carries the child's last output, its return code, the last signal that reached it and the quiet time; every signal was sent to a child that was still there. |
| Supervision.CommunicateRunWithTimeout | ops/scripts/core/command_runtime.py:815-837 | Every returned result has the same exact reason, return code, signal and quiet time, follows a drained child or reports the drain timeout, and leaves the communicating state only after the deadline; the waits up to the deadline have the log of the loop, or are the one wait with the input. On every outcome signals are attempted only after the deadline, as TERM or TERM then KILL, each to a child that was still there, an exception escapes exactly when the host raised one, the waits up to the deadline ask for no more than the timeout, and all later ones together for at most two grace periods. |
| SignalCleanup.RunKeepsInvariants | ops/scripts/core/command_runtime.py:840-863 | Every reachable state of every interleaving keeps the cleanup and handler invariants. |
| SignalCleanup.EveryExitSettlesTheChild | ops/scripts/core/command_runtime.py:840-863 | Every exit has drained the child, reported the drain timeout, or attempted cleanup. |
| SignalCleanup.ExceptionCleanupRepeatsOnlyInWindow | ops/scripts/core/command_runtime.py:599-609 | The exception path cleans up at most once, and repeats a handler's cleanup exactly when some step of the run is a handler's between the check and the cleanup. |
| SignalCleanup.SignalAfterCheckRepeatsCleanup | ops/scripts/core/command_runtime.py:853-858 | A run in which the exception path does repeat a handler's cleanup. |
| SignalCleanup.HandlersAreBackIffNoneLost | ops/scripts/core/command_runtime.py:611-634 | At exit the previous handlers are back exactly when, along the run, no handler raised in an exposed phase, none had its exception swallowed there, and each previous handler could be set again (neither refused by the platform nor None). |
| SignalCleanup.SignalWhileRestoringLosesHandlers | ops/scripts/core/command_runtime.py:617-622 | A run in which a signal during restoring leaves handlers of the run in place. |
| Closure.TargetClosureModules | ops/scripts/core/derived_surfaces.py:234-254 | The loop over dependencies computes the closure function for any graph and any path-local set. |
| Closure.ShortenWalk | ops/scripts/core/derived_surfaces.py:234-254 | Every walk can be shortened to one between the same nodes that visits no node twice. |
| Closure.SimpleWalkIsFollowed | ops/scripts/core/derived_surfaces.py:234-254 | A simple walk clear of the path-local set is followed to its end. |
| Closure.ClosureIsReached | ops/scripts/core/derived_surfaces.py:234-254 | Every module found belongs to a node at the end of a walk. |
| Closure.ClosureIsReachability | ops/scripts/core/derived_surfaces.py:234-254 | On any graph, cycles included, the closure is exactly the modules of all reachable nodes. |
| Closure.RequireGeneratorModuleForTargets | ops/scripts/core/derived_surfaces.py:257-272 | Accepts exactly when every existing target reaches the module's owner. |
| Closure.TextClosureIsGraphClosure | ops/scripts/core/makefile_runtime.py:154-174 | The recursion over variables is the graph closure of the variable graph, for any path-local set. |
| Closure.TextModulesAreReachability | ops/scripts/core/makefile_runtime.py:154-174 | A text's modules are those it names and those named by any variable reachable from its references. |
| Closure.ModulesInTextLoop | ops/scripts/core/makefile_runtime.py:154-174 | The nested loops compute that closure. |
| Closure.ModulesInValues | ops/scripts/core/makefile_runtime.py:166-173 | The inner loop covers every value of a variable with the variable added to the path-local set. |
| IncludeWalk.Walk.ReadLine | ops/scripts/core/makefile_runtime.py:43-60 | Recording a line by its operator keeps the environment equal to the fold of the stream, now with that line. |
| IncludeWalk.EnvMeans | ops/scripts/core/makefile_runtime.py:43-60 | Over any stream of lines a name is bound exactly when some line assigns it; its value is that of the last line that sets it, or of the first that assigns it when none does, followed by what later lines append, in order; a line that gives a default counts only when no earlier line assigns the name. |
| IncludeWalk.Walk.EnterFile | ops/scripts/core/makefile_runtime.py:101-102 | Entering a new file appends it to the listing and the seen set, and both stay those of the stream. |
| IncludeWalk.Visit | ops/scripts/core/makefile_runtime.py:91-113 | A visit extends the stream exactly as inlining the path at this point does, and fails exactly when that does, with the same file and the same stream up to there. |
| IncludeWalk.VisitLines | ops/scripts/core/makefile_runtime.py:103-113 | The loop over lines: each line is recorded and everything it includes inlined before the next line is read. |
| IncludeWalk.VisitTokens | ops/scripts/core/makefile_runtime.py:105-113 | The include tokens of a line are inlined in order. |
| IncludeWalk.VisitTargets | ops/scripts/core/makefile_runtime.py:106-113 | The paths a token stands for are inlined in sorted order, or the token's own path when none matches. |
| IncludeWalk.MakefileSourcePaths | ops/scripts/core/makefile_runtime.py:85-116 | The walk ends; its listing is the order of first entry in the textually inlined stream, in which each file appears in full at its first visit only and each include is resolved under the environment folded from the stream up to its line. It fails exactly when that stream asks for a required file that is not there, and names that file. |
| IncludeWalk.InlinedStreamIsComplete | ops/scripts/core/makefile_runtime.py:85-116 | The inlined stream lists each file once, the root first, holds all lines of every listed file in order, follows every include that resolves, and enters no file that was not asked for at just that point. |
| IncludeWalk.FailureHasCause | ops/scripts/core/makefile_runtime.py:96-99 | A walk fails only for a missing root, or for a missing file that a non-optional include of a line asks for whose own file has not been read further. |
| IncludeWalk.LineDone | ops/scripts/core/makefile_runtime.py:103-113 | Reading one more line and following its includes keeps what is known of the visit so far. |
| Binding.PruningIsExact | ops/scripts/core/artifact_binding_runtime.py:67-95 | For every JSON tree and pattern set the pruned traversal equals the full one. |
| Binding.NothingBelow | ops/scripts/core/artifact_binding_runtime.py:53-64 | Below a path that no pattern extends the full traversal changes nothing. |
| Binding.StrippedPlace | ops/scripts/core/artifact_binding_runtime.py:67-95 | A place survives exactly when no object entry on its way matches a pattern, with positions seen as "*"; array elements are never dropped. |
| Binding.StrippingTwice | ops/scripts/core/artifact_binding_runtime.py:67-95 | Stripping is idempotent. |
| Binding.NormalFieldIs | ops/scripts/core/artifact_binding_runtime.py:125-145 | What the normal form keeps of each top-level field. |
| Binding.SameFormMeans | ops/scripts/core/artifact_binding_runtime.py:98-145 | Two reports have the same normal form exactly when they agree up to the clocks: the time of writing, the source revision under content binding, the time of the currentness check, and in freshness reports the time of writing of each record. |
| Binding.NormalizeTwice | ops/scripts/core/artifact_binding_runtime.py:125-145 | Normalisation is idempotent in every mode. |
| Binding.NormalizeAfter | ops/scripts/core/artifact_binding_runtime.py:105-145 | Normalising first under a mode that drops no more loses nothing for the second. |
| Binding.ContentAfterRevision | ops/scripts/core/artifact_binding_runtime.py:105-145 | Content-normalising a revision-normalised payload equals content-normalising the original. |
| Binding.RevisionBindingIsStronger | ops/scripts/core/artifact_binding_runtime.py:20-24 | Equality under revision binding is exactly equality under content binding together with equal source revisions. |
| Promotion.Store.PromoteSchemaValidatedJson | ops/scripts/core/artifact_io_runtime.py:311-370 | The checks, the comparison and the write or removal in the code's order make the transition `Promote` on the files; it is not refused exactly when the candidate is a JSON object that names a schema, carries the expected kind and producer, and is accepted by the schema chosen. |
| Promotion.RefusedExactly | ops/scripts/core/artifact_io_runtime.py:304-337 | A promotion is refused exactly when the candidate is missing or fails one of the five checks, the schema being the stripped override unless that is empty. |
| Promotion.DestinationCarriesKind | ops/scripts/core/artifact_io_runtime.py:325-370 | After every success the destination holds a report of the expected kind and producer. |
| Promotion.WrittenOrRemoved | ops/scripts/core/artifact_io_runtime.py:358-370 | A written destination reads back as the candidate; a candidate found unchanged is removed unless it is the destination. |
| Promotion.DestinationHasCandidatesForm | ops/scripts/core/artifact_io_runtime.py:330-370 | After every success the destination holds a schema-valid report with the candidate's normal form. |
| Promotion.OnlyCandidateAndDestinationChange | ops/scripts/core/artifact_io_runtime.py:338-370 | A no-op leaves the destination's bytes alone, a refusal changes nothing, and no third file changes. |
| Promotion.BoundKindsResolveToRevision | ops/scripts/core/canonical_artifact_promote.py:12-42 | A kind in the required table is promoted under revision binding or not at all; other kinds get the requested mode or content. |
| Promotion.RevisionIsAlwaysLatest | ops/scripts/core/artifact_io_runtime.py:311-370 | Over any run of attempts of required kinds, whatever changes in between, the destination carries the source revision of the latest promoted candidate. |
| Promotion.NothingToDoMeans | ops/scripts/core/artifact_io_runtime.py:338-363 | A promotion is a no-op exactly when the destination is an accepted, non-empty report that agrees with the candidate: in its bytes under raw binding or under other names, in its normal form between JSON files, in its bound lines between Markdown files. |
| Promotion.SuffixMeans | ops/scripts/core/artifact_binding_runtime.py:163-175 | A file name has a suffix when something precedes it in the last component. |
| Promotion.RevisionIsCandidatesIff | ops/scripts/core/artifact_io_runtime.py:338-370 | Under content binding the destination ends with the candidate's source revision exactly when there was something to do or the revisions agreed before, that is, unless it was an accepted, non-empty report differing in its revision alone. |
| Promotion.ContentBindingMayKeepOldRevision | ops/scripts/core/artifact_io_runtime.py:338-363 | Under content binding a candidate that differs in its revision alone is not written. |
| Promotion.StaleRevisionRun | ops/scripts/core/artifact_io_runtime.py:338-363 | A concrete such run, under a codec that meets the round-trip hypothesis. |
| Archive.Vault.ApplyMoves | ops/scripts/core/archive_execution_manifest.py:343-356 | The loop over candidates moves files and records as the run function says, each against the files left by the one before. |
| Archive.Vault.RollbackMoves | ops/scripts/core/archive_execution_manifest.py:330-341 | The same for the rollback of recorded moves in recorded order. |
| Archive.EachMoveIsDone | ops/scripts/core/archive_execution_manifest.py:96-261 | Every step of an apply run moves its file exactly when the run is no dry or deferred one, is confirmed, the source is there and the destination is not; otherwise no file changes; the record says which. |
| Archive.EachRollbackIsDone | ops/scripts/core/archive_execution_manifest.py:173-303 | Every step of a rollback undoes its move exactly when it was applied, the run is confirmed, the file is there and its place free; otherwise no file changes; the record says which. |
| Archive.ApplyKeepsContents | ops/scripts/core/archive_execution_manifest.py:96-159 | Any apply run preserves how many files hold each content. |
| Archive.RollbackKeepsContents | ops/scripts/core/archive_execution_manifest.py:173-218 | Any rollback of any recorded moves preserves it too. |
| Archive.ApplyPutsMovesInEffect | ops/scripts/core/archive_execution_manifest.py:221-261 | Without chains exactly the applied moves are in effect after the run, and each can be rolled back. |
| Archive.RollbackRestores | ops/scripts/core/archive_execution_manifest.py:264-303 | Without chains among the applied moves, rolling back in recorded order restores the files, and once more changes nothing. |
| Archive.NoChainsAtAll | ops/scripts/core/archive_execution_manifest.py:343-356 | If no candidate's destination is another's source, no chain can be applied, and the records follow the candidates. |
| Archive.VacatedThenFilled | ops/scripts/core/archive_execution_manifest.py:173-218 | When a place vacated by one move is filled by a later one, rollback does not restore the files, whatever they hold. |
| Archive.FilledThenVacated | ops/scripts/core/archive_execution_manifest.py:173-218 | When a place filled by one move is vacated by a later one, rollback does not restore the files, whatever they hold. |
| Archive.RestoredIffNoChain | ops/scripts/core/archive_execution_manifest.py:221-303 | For moves with distinct sources and destinations, whatever the files hold, rollback restores exactly when no applied move goes to where another came from. |
| Archive.ChainIsNotUndone | ops/scripts/core/archive_execution_manifest.py:330-341 | A concrete chain after whose rollback a file is missing from its place. |
| Archive.RollbackReportIsInert | ops/scripts/core/archive_execution_manifest.py:187-188 | Rolling back the report of a rollback never touches a file. |
| GoalContract.MergeTwice | ops/scripts/core/codex_goal_client.py:95-103 | Deep-merging the same patch twice equals merging it once, at any nesting. |
| GoalContract.MergePutsPatch | ops/scripts/core/codex_goal_client.py:95-103 | Where the patch has a value, that value stands in the result; an object meets an object there by merging with it. |
| GoalContract.MergeKeepsUntouched | ops/scripts/core/codex_goal_client.py:95-103 | What is found at a key path the patch does not touch, a value or nothing, is kept. |
| GoalContract.FakeGoalBackend.SetGoal | ops/scripts/core/codex_goal_client.py:626-629 | A valid contract replaces the held one; an invalid one is refused and changes nothing. |
| GoalContract.FakeGoalBackend.UpdateGoal | ops/scripts/core/codex_goal_client.py:631-632 | Updating is setting the merge of the held contract and the patch. |
| GoalContract.FileGoalBackend.GetGoal | ops/scripts/core/codex_goal_client.py:650-660 | Tells an absent, an unreadable and an invalid file apart, and otherwise returns its contract. |
| GoalContract.FileGoalBackend.SetGoal | ops/scripts/core/codex_goal_client.py:662-665 | A valid contract is written; an invalid one is refused and changes nothing. |
| GoalContract.FileGoalBackend.UpdateGoal | ops/scripts/core/codex_goal_client.py:667-668 | Updating is setting the merge of the contract read and the patch. |
| GoalContract.StepsAgree | ops/scripts/core/codex_goal_client.py:614-668 | From corresponding states the two backends answer each operation alike and stay in correspondence. |
| GoalContract.BackendsAgree | ops/scripts/core/codex_goal_client.py:614-668 | From an empty start they answer every sequence of gets, sets and updates alike. |
| GoalContract.BackendsDoAgreeSomewhere | ops/scripts/core/codex_goal_client.py:614-668 | A codec that meets the round-trip hypothesis and a run of set, update and get that both backends answer with the contracts. |
| GoalContract.UpdateIsIdempotent | ops/scripts/core/codex_goal_client.py:631-632 | Repeating an accepted update answers the same and leaves the state as it is. |
| GoalContract.UniqueTextLoop | ops/scripts/core/codex_goal_client.py:134-143 | The loop computes the stripped, non-blank texts in order of first occurrence. |
| GoalContract.UniqueTextMembers | ops/scripts/core/codex_goal_client.py:134-143 | A text is kept exactly when it is not blank and some value strips to it. |
| GoalContract.FoundBlockersSurvive | ops/scripts/core/codex_goal_client.py:205-280 | No blocker found is lost to blankness, so a non-empty list stays non-empty. |
| GoalContract.BlockersDecide | ops/scripts/core/codex_goal_client.py:293-341 | Derived from any readiness evidence, the guard promotes exactly when it lists no blocker, and only under a clean seal. |
| GoalContract.GuardMeans | ops/scripts/core/codex_goal_client.py:205-341 | What the derived guard says of the raw evidence: it promotes exactly when the readiness report does, or the queue is done and no blocker is left, the preflight in force is clean in all five respects and the worktree guard has nothing against it; it lists each readiness and worktree blocker once, and otherwise the one reason. |
| GoalContract.TruthyMeans | ops/scripts/core/codex_goal_client.py:308 | Everything is true but null, false, zero and the empty values. |
| GoalContract.FreshGuardIsCoherent | ops/scripts/core/codex_goal_client.py:344-360 | The same after the defaults are filled in, with and without evidence. |
| GoalContract.PreservedGuardIsHonest | ops/scripts/core/codex_goal_client.py:188-200 | Preserving runtime state keeps the guard coherent, ties the verified flag to the certificate, and lets a sustained-runtime claim stand only with certificate, seal and promotion. |
| GoalContract.FreshContractIsHonest | ops/scripts/core/codex_goal_client.py:572-611 | A freshly built contract carries no certificate and claims nothing. |
| GoalContract.FreshGuardMeans | ops/scripts/core/codex_goal_client.py:344-360 | A fresh contract's guard is the derived one when readiness is synchronised and reported, and otherwise promotes nothing. |
| GoalContract.FreshContractMeans | ops/scripts/core/codex_goal_client.py:572-611 | All of a fresh contract but its name, certificate and guard is fixed by the options. |
| GoalContract.RewrittenIsHonest | ops/scripts/core/codex_goal_client.py:838-882 | One rewrite yields an honest contract and never raises the certificate from unverified to verified. |
| GoalContract.RewrittenMeans | ops/scripts/core/codex_goal_client.py:162-202 | A rewrite takes over the objective, the metadata, the certificate and the date of a verified one from a contract of the same goal, and everything else from the fresh one; the embedded envelope replaces the metadata. |
| GoalContract.RewritesStayHonest | ops/scripts/core/codex_goal_client.py:838-882 | Over any sequence of rewrites, refused ones included, the file is the initial one or an honest contract, verified only if the initial one was. |
| Policy.DependencyMeans | ops/scripts/core/artifact_envelope_runtime.py:190-219 | A recorded state is the dependency. Without one, a report is independent exactly if it ran on a custom policy and is no composed summary; composed summaries and unjudgeable paths are unknown; all others depend on the overlay's absence. |
| Policy.ComposedSummaryMeans | ops/scripts/core/artifact_envelope_runtime.py:213-216 | A composed summary is a test execution summary in one of three modes or with a manifest key in its digest. |
| Policy.MergingPartFirst | ops/scripts/core/artifact_envelope_runtime.py:222-235 | Merging some dependencies first and recording the result changes no later merge. |
| Policy.GroupingDoesNotMatter | ops/scripts/core/artifact_envelope_runtime.py:222-235 | Merging composed reports gives what merging all their constituents gives, however they were grouped. |
| Policy.ComposedKeepsTheRest | ops/scripts/core/artifact_envelope_runtime.py:222-235 | Composing replaces the recorded dependency of the envelope and nothing else. |
| Policy.MergeDescribesIffAllDo | ops/scripts/core/artifact_envelope_runtime.py:238-253 | A merge describes today's overlay exactly when everything merged does, a read failure included. |
| Policy.CurrentMeans | ops/scripts/core/artifact_envelope_runtime.py:238-253 | A report is current exactly when its recorded digest is today's, its recorded absence holds today, or it depends on nothing and is no freshness report; never when its fingerprints are malformed or the overlay cannot be read. |
| Policy.ComposedIsCurrentIffPartsAre | ops/scripts/core/artifact_envelope_runtime.py:222-253 | A composed report is current exactly when each constituent is, independent freshness reports being the one stated exception. |
| Policy.BuiltReportIsCurrentIffOverlayIsSame | ops/scripts/core/artifact_envelope_runtime.py:150-253 | A report built under the default policy is current later exactly while the overlay it was built over is unchanged and readable. |
| Policy.CustomReportIsCurrentIffKindAllows | ops/scripts/core/artifact_envelope_runtime.py:190-253 | A report built under a custom policy stays current whatever the overlay becomes, except for composed summaries and freshness reports, which never are. |

## Left out

- Real file systems: directories and their creation or removal (including the removal of emptied parent directories after an apply), permissions, `fsync`, time stamps, symbolic links and paths that resolve to the same file. A file turning into a directory is outside the model.
- Exceptions other than I/O errors in the middle of a manifest transaction or a multi-file write: an interrupt there is not rolled back by the code and is not modelled.
- Malformed containers: a manifest whose `files` is no list, allowed roots that are no strings, and promotion blockers that are no list, which raise other exceptions.
- Unicode: NFC normalisation, white space outside ASCII, and decoding errors.
- `stage_replace_file` and `plan_manifest_apply_transaction`, which would only repeat parts of the transaction.
- Report bodies, counts and messages: a report is a text with a place and a time stamp; guard problems and rollback errors are sets or lists of paths, not formatted text.
- Starting the child, the environment it gets, the platforms' signal calls (signals are named as on POSIX systems), and the window between the start and the installation of handlers.
- The text of Makefile lines: assignments, includes, module and variable references are functions of the text given to the model; the separate environment of the variable closure is a given map.
- Schemas, schema loading and validation, and policy files: they are arbitrary predicates and texts.
- Promotion.DestinationHasCandidatesForm: does not cover a promotion between two files named `.md` that writes nothing outside raw mode, because their digest is of text lines, not of the JSON normal form; Promotion.DestinationCarriesKind has the same exception.
- I/O errors during promotion, archive moves and goal contract writes, and the modification time that a promotion sets.
- Archive.RestoredIffNoChain: does not cover moves that share a source or a destination; there a chain can be restored by coincidence (for example "a" to "b", "b" to "a", "a" to "b").
- Archived directories and paths that are neither files nor directories, and the recorded evidence texts.
- The freshness and debt tables, prompt and telemetry assembly, command lines, inventories and frontmatter: long tables and string building.
- How the goal client's file paths are resolved, its fixed contract sections, and the envelope it embeds: the sections that no proof depends on are an arbitrary map.
