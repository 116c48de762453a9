// Running a child process under a deadline: heartbeats while waiting, then
// the terminate/kill escalation.

module Supervision {
  import opened Options

  /** What `communicate` did: finished with the child's output, ran into its
      timeout, or raised something else. */
  datatype Comm =
    | Output(stdout: string, stderr: string)
    | TimedOut(stdout: string, stderr: string)
    | Raised

  /** One bounded wait: the clock reading it was computed from, its length,
      and the standard input it carried. */
  datatype Wait = Wait(reading: real, length: real, input: Option<string>)

  datatype Heartbeat = Heartbeat(index: nat, at: real, elapsed: real, quietSeconds: int)

  datatype Sig = Term | Kill

  /** What the supervisor did to the child, and what came of it. The answer to
      a signal is None when sending it raised. */
  datatype Step =
    | Polled(code: Option<int>)
    | Waited(length: real, result: Comm)
    | Signalled(sig: Sig, answer: Option<string>)

  function MinReal(a: real, b: real): (r: real)
    ensures r <= a && r <= b && (r == a || r == b)
  {
    if a <= b then a else b
  }

  function MaxReal(a: real, b: real): (r: real)
    ensures a <= r && b <= r && (r == a || r == b)
  {
    if a >= b then a else b
  }

  /** The clock and the child. Time only moves forward, and a wait that times
      out has lasted at least as long as it was asked to. */
  class Host {
    var now: real
    var returncode: Option<int>
    ghost var waits: seq<Wait>
    ghost var beats: seq<Heartbeat>
    ghost var signals: seq<Sig>
    ghost var waited: real
    ghost var signalTimes: seq<real>   // when each signal was attempted
    ghost var raised: nat              // errors the host has raised so far
    ghost var steps: seq<Step>
    ghost var drained: bool
    ghost var said: (string, string)   // what the last finished or timed-out wait returned

    method Elapse()
      modifies this`now
      ensures old(now) <= now
    {
      var dt: real := *;
      if dt > 0.0 { now := now + dt; }
    }

    method Monotonic() returns (t: real)
      modifies this`now
      ensures old(now) <= now == t
    {
      Elapse();
      t := now;
    }

    method Communicate(input: Option<string>, length: real, ghost reading: real) returns (c: Comm)
      modifies this`now, this`waits, this`waited, this`drained, this`said, this`returncode, this`raised, this`steps
      ensures old(now) <= now
      ensures steps == old(steps) + [Waited(length, c)]
      ensures c.Output? ==> returncode.Some?
      ensures c.Raised? <==> raised != old(raised)
      ensures old(raised) <= raised
      ensures c.TimedOut? ==> old(now) + length <= now
      ensures waits == old(waits) + [Wait(reading, length, input)]
      ensures waited == old(waited) + length
      ensures drained == (old(drained) || c.Output?)
      ensures c.Output? || c.TimedOut? ==> said == (c.stdout, c.stderr)
    {
      waits := waits + [Wait(reading, length, input)];
      waited := waited + length;
      Elapse();
      var stdout: string, stderr: string := *, *;
      if * {
        var code: int := *;
        returncode := Some(code);
        drained := true;
        said := (stdout, stderr);
        steps := steps + [Waited(length, Output(stdout, stderr))];
        return Output(stdout, stderr);
      } else if * {
        if length > 0.0 { now := now + length; }
        said := (stdout, stderr);
        steps := steps + [Waited(length, TimedOut(stdout, stderr))];
        return TimedOut(stdout, stderr);
      }
      raised := raised + 1;
      steps := steps + [Waited(length, Raised)];
      return Raised;
    }

    method Poll() returns (code: Option<int>)
      modifies this`returncode, this`steps
      ensures code == returncode && steps == old(steps) + [Polled(code)]
    {
      if * {
        var c: int := *;
        returncode := Some(c);
      }
      steps := steps + [Polled(returncode)];
      return returncode;
    }

    /** Attempts a signal; the result is "none" when the child is already gone. */
    method SendSignal(sig: Sig) returns (sent: Option<string>)
      modifies this`signals, this`signalTimes, this`raised, this`steps
      ensures signals == old(signals) + [sig] && signalTimes == old(signalTimes) + [now]
      ensures sent.None? <==> raised != old(raised)
      ensures steps == old(steps) + [Signalled(sig, sent)]
      ensures sent.Some? && sent.value != "none" ==> sent.value == if sig == Term then "sigterm" else "sigkill"
      ensures old(raised) <= raised
    {
      signals, signalTimes := signals + [sig], signalTimes + [now];
      if * {
        raised := raised + 1;
        steps := steps + [Signalled(sig, None)];
        return None;
      }
      var gone: bool := *;
      sent := Some(if gone then "none" else if sig == Term then "sigterm" else "sigkill");
      steps := steps + [Signalled(sig, sent)];
    }

    method HeartbeatCallback(beat: Heartbeat) returns (ok: bool)
      modifies this`now, this`beats, this`raised
      ensures old(now) <= now
      ensures beats == old(beats) + [beat]
      ensures !ok <==> raised != old(raised)
      ensures old(raised) <= raised
    {
      beats := beats + [beat];
      Elapse();
      if * {
        raised := raised + 1;
        return false;
      }
      return true;
    }
  }

  class HeartbeatState {
    var heartbeatCount: nat
    var quietSeconds: int

    constructor ()
      ensures heartbeatCount == 0 && quietSeconds == 0
    {
      heartbeatCount, quietSeconds := 0, 0;
    }
  }

  // ---- heartbeats -------------------------------------------------------

  /** n whole intervals. */
  function Ticks(n: nat, interval: real): real {
    if n == 0 then 0.0 else Ticks(n - 1, interval) + interval
  }

  /** n whole intervals end before the deadline. */
  predicate EndBeforeDeadline(n: nat, interval: real, timeout: real) {
    Ticks(n, interval) < timeout
  }

  /** A wait is positive and fits into the time left. */
  ghost predicate WaitFits(w: Wait, start: real, timeout: real) {
    0.0 < w.length <= start + timeout - w.reading && start <= w.reading
  }

  /** Heartbeat k (from 0) is numbered k + 1, comes no earlier than k + 1
      intervals, and k intervals end before the deadline. */
  ghost predicate BeatInOrder(b: Heartbeat, k: nat, start: real, timeout: real, interval: real) {
    && b.index == k + 1
    && b.elapsed == b.at - start && b.quietSeconds == b.elapsed.Floor
    && EndBeforeDeadline(k, interval, timeout)
    && Ticks(k, interval) + interval <= b.elapsed
  }

  /** The quiet time noted last, starting from `before`. */
  ghost function Noted(beats: seq<Heartbeat>, before: int): int {
    if beats == [] then before else beats[|beats| - 1].quietSeconds
  }

  /** A finished run without output was quiet to its end; otherwise the last heartbeat counts. */
  ghost predicate QuietNoted(c: Comm, noted: int, beats: seq<Heartbeat>, before: int, start: real, now: real) {
    noted == if c.Output? && c.stdout == "" && c.stderr == "" then (now - start).Floor else Noted(beats, before)
  }

  ghost predicate Answers(b: Heartbeat, w: Wait) {
    w.reading + w.length <= b.at
  }

  /** The log of one supervised wait that began at `start`. Only the first wait
      carries the input, and each wait but the last is answered by its own
      heartbeat before the next one starts. */
  ghost predicate HeartbeatLog(waits: seq<Wait>, beats: seq<Heartbeat>, start: real, timeout: real, interval: real,
                               input: Option<string>) {
    && |beats| <= |waits| <= |beats| + 1
    && (forall k :: 0 <= k < |waits| ==> WaitFits(waits[k], start, timeout))
    && (forall k :: 0 <= k < |waits| ==> waits[k].input == if k == 0 then input else None)
    && (forall k :: 0 <= k < |beats| ==> BeatInOrder(beats[k], k, start, timeout, interval))
    && (forall k :: 0 <= k < |beats| ==> Answers(beats[k], waits[k]))
    && (forall k :: 0 < k < |waits| ==> beats[k - 1].at <= waits[k].reading)
  }

  /** The time asked for by a sequence of waits. */
  ghost function Total(waits: seq<Wait>): real {
    if waits == [] then 0.0 else Total(waits[..|waits| - 1]) + waits[|waits| - 1].length
  }

  lemma OneMoreWait(waits: seq<Wait>, w: Wait)
    ensures Total(waits + [w]) == Total(waits) + w.length
  {
    assert (waits + [w])[..|waits|] == waits;
  }

  /** The waits of the log follow one another, so together they fit before the deadline. */
  lemma {:induction false} WaitsFollowOneAnother(waits: seq<Wait>, beats: seq<Heartbeat>, start: real, timeout: real,
                                                 interval: real, input: Option<string>, n: nat)
    requires HeartbeatLog(waits, beats, start, timeout, interval, input) && 0 < n <= |waits|
    ensures Total(waits[..n]) <= waits[n - 1].reading + waits[n - 1].length - start
  {
    assert waits[..n][..n - 1] == waits[..n - 1];
    assert WaitFits(waits[n - 1], start, timeout);
    if n > 1 {
      WaitsFollowOneAnother(waits, beats, start, timeout, interval, input, n - 1);
      assert Answers(beats[n - 2], waits[n - 2]) && beats[n - 2].at <= waits[n - 1].reading;
    } else {
      assert waits[..0] == [];
    }
  }

  lemma TotalWithinTimeout(waits: seq<Wait>, beats: seq<Heartbeat>, start: real, timeout: real, interval: real,
                           input: Option<string>)
    requires HeartbeatLog(waits, beats, start, timeout, interval, input) && timeout >= 0.0
    ensures Total(waits) <= timeout
  {
    if waits != [] {
      var n := |waits|;
      WaitsFollowOneAnother(waits, beats, start, timeout, interval, input, n);
      assert waits[..n] == waits && WaitFits(waits[n - 1], start, timeout);
    }
  }

  lemma {:induction false} TicksIsProduct(n: nat, interval: int)
    requires interval >= 1
    ensures Ticks(n, interval as real) == (n * interval) as real
    ensures n <= n * interval
  {
    if n > 0 {
      TicksIsProduct(n - 1, interval);
      assert n * interval == (n - 1) * interval + interval;
    }
  }

  /** In plain numbers: heartbeat n comes no earlier than n intervals, its
      predecessor's interval ends before the deadline, and so the number of
      heartbeats and of `communicate` calls is bounded. */
  lemma {:induction false} HeartbeatArithmetic(waits: seq<Wait>, beats: seq<Heartbeat>, start: real, timeout: int,
                                               interval: int, input: Option<string>)
    requires HeartbeatLog(waits, beats, start, timeout as real, interval as real, input)
    requires timeout >= 1 && interval >= 1
    ensures forall k :: 0 <= k < |beats| ==> OnSchedule(beats[k], k, timeout, interval)
    ensures |beats| <= timeout && |waits| <= timeout + 1
  {
    forall k | 0 <= k < |beats| ensures OnSchedule(beats[k], k, timeout, interval) {
      assert BeatInOrder(beats[k], k, start, timeout as real, interval as real);
      TicksIsProduct(k, interval);
      assert (k + 1) * interval == k * interval + interval;
    }
    if |beats| > 0 {
      assert OnSchedule(beats[|beats| - 1], |beats| - 1, timeout, interval);
      TicksIsProduct(|beats| - 1, interval);
    }
  }

  ghost predicate OnSchedule(b: Heartbeat, k: nat, timeout: int, interval: int) {
    b.index == k + 1 && ((k + 1) * interval) as real <= b.elapsed && k * interval < timeout
  }

  method CommunicateWithOptionalHeartbeats(host: Host, state: HeartbeatState, input: Option<string>, timeout: int,
                                           interval: Option<int>, callback: bool)
    returns (c: Comm, ghost start: real, ghost waits: seq<Wait>, ghost beats: seq<Heartbeat>)
    requires timeout >= 1 && (interval.Some? ==> interval.value >= 1)
    requires state.heartbeatCount == 0
    modifies host`now, host`waits, host`beats, host`waited, host`drained, host`said, host`returncode, host`raised,
      host`steps, state
    ensures old(host.now) <= start <= host.now
    ensures host.drained == (old(host.drained) || c.Output?)
    ensures host.waits == old(host.waits) + waits && host.beats == old(host.beats) + beats
    ensures state.heartbeatCount == |beats| && OnlyWaits(old(host.steps), host.steps)
    ensures if callback && interval.Some? then
              QuietNoted(c, state.quietSeconds, beats, old(state.quietSeconds), start, host.now)
            else state.quietSeconds == old(state.quietSeconds)
    ensures callback && interval.Some? ==>
              HeartbeatLog(waits, beats, start, timeout as real, interval.value as real, input)
    ensures !(callback && interval.Some?) ==>
              beats == [] && waits == [Wait(start, timeout as real, input)]
    ensures host.waited == old(host.waited) + Total(waits) && Total(waits) <= timeout as real
    ensures c.TimedOut? ==> start + timeout as real <= host.now
    ensures c.Output? ==> host.said == (c.stdout, c.stderr)
    ensures old(host.raised) <= host.raised && (c.Raised? <==> host.raised != old(host.raised))
  {
    if !callback || interval.None? {
      start := host.now;
      NothingAddedYet(host.steps);
      c := host.Communicate(input, timeout as real, host.now);
      OneMoreWaited(old(host.steps), old(host.steps), timeout as real, c);
      waits, beats := [Wait(start, timeout as real, input)], [];
      assert waits[..0] == [];
      return;
    }
    FewIntervals(timeout as real, interval.value as real, timeout, interval.value);
    c, start, waits, beats := HeartbeatLoop(host, state, input, timeout as real, interval.value as real, timeout);
    TotalWithinTimeout(waits, beats, start, timeout as real, interval.value as real, input);
  }

  method HeartbeatLoop(host: Host, state: HeartbeatState, input: Option<string>, timeout: real, interval: real,
                       ghost bound: nat)
    returns (c: Comm, start: real, ghost waits: seq<Wait>, ghost beats: seq<Heartbeat>)
    requires timeout > 0.0 && interval >= 1.0 && state.heartbeatCount == 0
    requires forall n: nat :: EndBeforeDeadline(n, interval, timeout) ==> n < bound
    modifies host`now, host`waits, host`beats, host`waited, host`drained, host`said, host`returncode, host`raised,
      host`steps, state
    ensures old(host.now) <= start <= host.now
    ensures host.drained == (old(host.drained) || c.Output?)
    ensures host.waits == old(host.waits) + waits && host.beats == old(host.beats) + beats
    ensures state.heartbeatCount == |beats| && OnlyWaits(old(host.steps), host.steps)
    ensures QuietNoted(c, state.quietSeconds, beats, old(state.quietSeconds), start, host.now)
    ensures HeartbeatLog(waits, beats, start, timeout, interval, input)
    ensures host.waited == old(host.waited) + Total(waits)
    ensures c.TimedOut? ==> start + timeout <= host.now
    ensures c.Output? ==> host.said == (c.stdout, c.stderr)
    ensures old(host.raised) <= host.raised && (c.Raised? <==> host.raised != old(host.raised))
  {
    hide *;
    waits, beats := [], [];
    ghost var logged, before := (host.waits, host.beats, host.steps), state.quietSeconds;
    start := host.Monotonic();
    var deadline := start + timeout;
    var next := start + interval;
    var pending := input;
    var running := true;
    c := Raised;
    AtTheStart(start, timeout, interval, input, before, host.now);
    NothingAddedYet(host.steps);
    while running
      invariant old(host.now) <= start <= host.now
      invariant host.waits == logged.0 + waits && host.beats == logged.1 + beats
      invariant OnlyWaits(logged.2, host.steps)
      invariant |beats| == state.heartbeatCount && host.waited == old(host.waited) + Total(waits)
      invariant HeartbeatLog(waits, beats, start, timeout, interval, input)
      invariant running ==> state.quietSeconds == Noted(beats, before)
      invariant !running ==> QuietNoted(c, state.quietSeconds, beats, before, start, host.now)
      invariant host.drained == (old(host.drained) || c.Output?)
      invariant running ==> !c.Output? && InStep(waits, beats, start, timeout, interval, next, host.now)
      invariant running ==> pending == if waits == [] then input else None
      invariant !running && c.TimedOut? ==> deadline <= host.now
      invariant old(host.raised) <= host.raised
      invariant if running then host.raised == old(host.raised) else c.Raised? <==> host.raised != old(host.raised)
      invariant !running && c.Output? ==> host.said == (c.stdout, c.stderr)
      decreases running, bound - |beats|
    {
      InStepMeans(waits, beats, start, timeout, interval, next, host.now);
      c, running, next, waits, beats :=
        HeartbeatTurn(host, state, pending, start, deadline, next, interval, timeout, input, before, waits, beats,
          logged);
      pending := None;
    }
  }

  /** Between turns: every wait has been answered, and the next heartbeat lies
      at least one whole interval after the last one's. */
  ghost predicate InStep(waits: seq<Wait>, beats: seq<Heartbeat>, start: real, timeout: real, interval: real,
                         next: real, now: real) {
    && |waits| == |beats|
    && EndBeforeDeadline(|beats|, interval, timeout)
    && start + Ticks(|beats|, interval) + interval <= next
    && next - interval < start + timeout
    && (beats != [] ==> beats[|beats| - 1].at <= now)
  }

  lemma NothingAddedYet(steps: seq<Step>)
    ensures OnlyWaits(steps, steps)
  {
  }

  lemma AtTheStart(start: real, timeout: real, interval: real, input: Option<string>, before: int, now: real)
    requires timeout > 0.0
    ensures HeartbeatLog([], [], start, timeout, interval, input) && Total([]) == 0.0
    ensures InStep([], [], start, timeout, interval, start + interval, now) && Noted([], before) == before
  {
  }

  lemma FewIntervals(timeout: real, interval: real, timeoutSeconds: int, intervalSeconds: int)
    requires intervalSeconds >= 1 && timeout == timeoutSeconds as real && interval == intervalSeconds as real
    ensures forall n: nat :: EndBeforeDeadline(n, interval, timeout) ==> n < timeoutSeconds
  {
    forall n: nat | EndBeforeDeadline(n, interval, timeout) ensures n < timeoutSeconds {
      TicksIsProduct(n, intervalSeconds);
    }
  }

  /** How long the next wait is: to the next heartbeat or the deadline, and one
      interval when the heartbeat is overdue. */
  method ChooseWait(remaining: real, untilNext: real, interval: real) returns (length: real)
    requires remaining > 0.0 && interval > 0.0
    ensures 0.0 < length <= remaining
    ensures length == remaining || untilNext <= length
  {
    length := MinReal(remaining, MaxReal(0.0, untilNext));
    if length <= 0.0 {
      length := MinReal(remaining, interval);
    }
  }

  /** One turn of the loop: a wait, and the heartbeat it may have run into. */
  method HeartbeatTurn(host: Host, state: HeartbeatState, pending: Option<string>, start: real, deadline: real,
                       next0: real, interval: real, ghost timeout: real, ghost input: Option<string>,
                       ghost before: int, ghost waits0: seq<Wait>, ghost beats0: seq<Heartbeat>,
                       ghost logged: (seq<Wait>, seq<Heartbeat>, seq<Step>))
    returns (c: Comm, running: bool, next: real, ghost waits: seq<Wait>, ghost beats: seq<Heartbeat>)
    requires interval >= 1.0 && deadline == start + timeout && start <= host.now
    requires host.waits == logged.0 + waits0 && host.beats == logged.1 + beats0 && OnlyWaits(logged.2, host.steps)
    requires HeartbeatLog(waits0, beats0, start, timeout, interval, input)
    requires InStep(waits0, beats0, start, timeout, interval, next0, host.now)
    requires state.heartbeatCount == |beats0| && state.quietSeconds == Noted(beats0, before)
    requires pending == if waits0 == [] then input else None
    modifies host`now, host`waits, host`beats, host`waited, host`drained, host`said, host`returncode, host`raised,
      host`steps, state
    ensures old(host.now) <= host.now
    ensures host.waits == logged.0 + waits && host.beats == logged.1 + beats && OnlyWaits(logged.2, host.steps)
    ensures state.heartbeatCount == |beats|
    ensures HeartbeatLog(waits, beats, start, timeout, interval, input)
    ensures host.drained == (old(host.drained) || c.Output?)
    ensures host.waited == old(host.waited) + (Total(waits) - Total(waits0))
    ensures running ==> c.TimedOut? && |beats| == |beats0| + 1 && waits != []
    ensures running ==> InStep(waits, beats, start, timeout, interval, next, host.now)
    ensures running ==> state.quietSeconds == Noted(beats, before)
    ensures !running ==> QuietNoted(c, state.quietSeconds, beats, before, start, host.now)
    ensures !running && c.TimedOut? ==> deadline <= host.now
    ensures c.Output? ==> host.said == (c.stdout, c.stderr)
    ensures old(host.raised) <= host.raised && (c.Raised? <==> host.raised != old(host.raised))
  {
    hide *;
    waits, beats, next := waits0, beats0, next0;
    InStepMeans(waits0, beats0, start, timeout, interval, next0, host.now);
    var now := host.Monotonic();
    var remaining := deadline - now;
    if remaining <= 0.0 {
      NothingNew(TimedOut("", ""), state.quietSeconds, beats, before, start, host.now);
      return TimedOut("", ""), false, next, waits, beats;
    }
    var length := ChooseWait(remaining, next - now, interval);
    ghost var steps := host.steps;
    c := host.Communicate(pending, length, now);
    OneMoreWaited(logged.2, steps, length, c);
    ghost var w := Wait(now, length, pending);
    ThisWaitFits(w, start, timeout);
    AddWait(waits, beats, start, timeout, interval, input, w);
    OneMoreWait(waits, w);
    waits := waits + [w];
    assert host.waits == logged.0 + waits;
    if c.Output? {
      if c.stdout == "" && c.stderr == "" {
        var t := host.Monotonic();
        state.quietSeconds := MaxReal(0.0, t - start).Floor;
        QuietToTheEnd(c, state.quietSeconds, beats, before, start, t);
      } else {
        NothingNew(c, state.quietSeconds, beats, before, start, host.now);
      }
      return c, false, next, waits, beats;
    }
    if c.Raised? {
      NothingNew(c, state.quietSeconds, beats, before, start, host.now);
      return c, false, next, waits, beats;
    }
    var seen := host.Monotonic();
    var raised;
    running, raised, next, beats :=
      HeartbeatIfDue(host, state, start, deadline, seen, next, interval, timeout, input, before, waits, beats,
                     logged.1);
    if raised { c := Raised; }
    NothingNew(c, state.quietSeconds, beats, before, start, host.now);
  }

  lemma NothingNew(c: Comm, noted: int, beats: seq<Heartbeat>, before: int, start: real, now: real)
    requires noted == Noted(beats, before) && !(c.Output? && c.stdout == "" && c.stderr == "")
    ensures QuietNoted(c, noted, beats, before, start, now)
  {
  }

  lemma QuietToTheEnd(c: Comm, noted: int, beats: seq<Heartbeat>, before: int, start: real, now: real)
    requires noted == (now - start).Floor && c.Output? && c.stdout == "" && c.stderr == ""
    ensures QuietNoted(c, noted, beats, before, start, now)
  {
  }

  lemma InStepMeans(waits: seq<Wait>, beats: seq<Heartbeat>, start: real, timeout: real, interval: real, next: real,
                    now: real)
    requires InStep(waits, beats, start, timeout, interval, next, now)
    ensures |waits| == |beats| && (beats != [] ==> beats[|beats| - 1].at <= now)
    ensures EndBeforeDeadline(|beats|, interval, timeout) && start + Ticks(|beats|, interval) + interval <= next
  {
  }

  lemma ThisWaitFits(w: Wait, start: real, timeout: real)
    requires 0.0 < w.length <= start + timeout - w.reading && start <= w.reading
    ensures WaitFits(w, start, timeout)
  {
  }

  /** What follows a wait that timed out: the heartbeat, if it is due, and
      whether the deadline leaves another turn. */
  method HeartbeatIfDue(host: Host, state: HeartbeatState, start: real, deadline: real, seen: real, next0: real,
                        interval: real, ghost timeout: real, ghost input: Option<string>, ghost before: int,
                        ghost waits: seq<Wait>, ghost beats0: seq<Heartbeat>, ghost logged: seq<Heartbeat>)
    returns (running: bool, raised: bool, next: real, ghost beats: seq<Heartbeat>)
    requires interval >= 1.0 && deadline == start + timeout && start <= seen <= host.now && host.beats == logged
             + beats0
    requires HeartbeatLog(waits, beats0, start, timeout, interval, input) && |waits| == |beats0| + 1
    requires state.heartbeatCount == |beats0| && waits[|beats0|].reading + waits[|beats0|].length <= seen
    requires EndBeforeDeadline(|beats0|, interval, timeout) && start + Ticks(|beats0|, interval) + interval <= next0
    requires state.quietSeconds == Noted(beats0, before) && (next0 <= seen || deadline <= seen)
    modifies host`now, host`beats, host`raised, state
    ensures old(host.now) <= host.now && host.beats == logged + beats
    ensures HeartbeatLog(waits, beats, start, timeout, interval, input) && state.heartbeatCount == |beats|
    ensures running ==> !raised && |beats| == |beats0| + 1
    ensures running ==> InStep(waits, beats, start, timeout, interval, next, host.now)
    ensures state.quietSeconds == Noted(beats, before)
    ensures !running && !raised ==> deadline <= host.now
    ensures old(host.raised) <= host.raised && (raised <==> host.raised != old(host.raised))
  {
    hide *;
    running, raised, next, beats := seen < deadline, false, next0, beats0;
    if seen >= next {
      var ok;
      ok, next, beats :=
        EmitHeartbeat(host, state, start, seen, next, interval, timeout, input, before, waits, beats, logged);
      if !ok { return false, true, next, beats; }
      if seen < deadline { StillInStep(waits, beats, start, timeout, interval, next, seen, host.now); }
    }
  }

  lemma StillInStep(waits: seq<Wait>, beats: seq<Heartbeat>, start: real, timeout: real, interval: real, next: real,
                    seen: real, now: real)
    requires |waits| == |beats| > 0 && beats[|beats| - 1].at == seen <= now && seen < start + timeout
    requires start + Ticks(|beats|, interval) <= seen && start + Ticks(|beats|, interval) + interval <= next
    requires next - interval <= seen
    ensures InStep(waits, beats, start, timeout, interval, next, now)
  {
  }

  /** Counts and reports a heartbeat that is due, and schedules the next one. */
  method EmitHeartbeat(host: Host, state: HeartbeatState, start: real, seen: real, next0: real, interval: real,
                       ghost timeout: real, ghost input: Option<string>, ghost before: int, ghost waits: seq<Wait>,
                       ghost beats0: seq<Heartbeat>, ghost logged: seq<Heartbeat>)
    returns (ok: bool, next: real, ghost beats: seq<Heartbeat>)
    requires interval >= 1.0 && start <= seen <= host.now && next0 <= seen && host.beats == logged + beats0
    requires HeartbeatLog(waits, beats0, start, timeout, interval, input) && |waits| == |beats0| + 1
    requires state.heartbeatCount == |beats0| && waits[|beats0|].reading + waits[|beats0|].length <= seen
    requires EndBeforeDeadline(|beats0|, interval, timeout) && start + Ticks(|beats0|, interval) + interval <= next0
    modifies host`now, host`beats, host`raised, state
    ensures old(host.now) <= host.now && host.beats == logged + beats
    ensures HeartbeatLog(waits, beats, start, timeout, interval, input)
    ensures state.heartbeatCount == |beats| == |beats0| + 1 && beats[|beats0|].at == seen
    ensures state.quietSeconds == Noted(beats, before)
    ensures ok ==> start + Ticks(|beats|, interval) <= seen && start + Ticks(|beats|, interval) + interval <= next
    ensures ok ==> next - interval <= seen
    ensures old(host.raised) <= host.raised && (!ok <==> host.raised != old(host.raised))
  {
    hide HeartbeatLog;
    next := next0;
    state.heartbeatCount := state.heartbeatCount + 1;
    state.quietSeconds := MaxReal(0.0, seen - start).Floor;
    var beat := Heartbeat(state.heartbeatCount, seen, seen - start, state.quietSeconds);
    AddBeat(waits, beats0, start, timeout, interval, input, beat);
    beats := beats0 + [beat];
    ok := host.HeartbeatCallback(beat);
    assert host.beats == logged + beats;
    if ok { next := PassTicks(next0, seen, interval); }
  }

  /** Moves the next heartbeat past the clock reading, one interval at a time. */
  method PassTicks(next0: real, seen: real, interval: real) returns (next: real)
    requires interval >= 1.0 && next0 <= seen
    ensures next - interval <= seen < next
    ensures next0 + interval <= next
  {
    next := next0;
    while next <= seen
      invariant next == next0 || (next - interval <= seen && next0 + interval <= next)
      decreases (seen - next).Floor
    {
      next := next + interval;
    }
  }

  lemma {:induction false} AddWait(waits: seq<Wait>, beats: seq<Heartbeat>, start: real, timeout: real, interval: real,
                                   input: Option<string>, w: Wait)
    requires HeartbeatLog(waits, beats, start, timeout, interval, input) && |waits| == |beats|
    requires WaitFits(w, start, timeout) && w.input == if waits == [] then input else None
    requires beats != [] ==> beats[|beats| - 1].at <= w.reading
    ensures HeartbeatLog(waits + [w], beats, start, timeout, interval, input)
  {
    hide WaitFits, BeatInOrder, Answers;
    var more := waits + [w];
    assert forall k :: 0 <= k < |waits| ==> more[k] == waits[k];
    assert more[|waits|] == w;
  }

  lemma {:induction false} AddBeat(waits: seq<Wait>, beats: seq<Heartbeat>, start: real, timeout: real, interval: real,
                                   input: Option<string>, b: Heartbeat)
    requires HeartbeatLog(waits, beats, start, timeout, interval, input) && |waits| == |beats| + 1
    requires BeatInOrder(b, |beats|, start, timeout, interval) && Answers(b, waits[|beats|])
    ensures HeartbeatLog(waits, beats + [b], start, timeout, interval, input)
  {
    hide WaitFits, BeatInOrder, Answers;
    var more := beats + [b];
    forall k | 0 < k < |waits| ensures more[k - 1].at <= waits[k].reading {
      assert more[k - 1] == beats[k - 1];
    }
    forall k | 0 <= k < |more|
      ensures BeatInOrder(more[k], k, start, timeout, interval)
      ensures Answers(more[k], waits[k])
    {
      if k < |beats| { assert more[k] == beats[k]; }
    }
  }

  // ---- escalation -------------------------------------------------------

  datatype FinalState =
    | Communicated
    | PollBeforeSignal
    | SignalRaceRecovered
    | DrainAfterSignal
    | PollAfterGrace
    | DrainAfterKill
    | OutputDrainTimeout

  datatype Finalized =
    | Finalized(stdout: string, stderr: string, sent: string, state: FinalState)
    | Broke

  /** The signals that lead to each final state. */
  function SignalsFor(state: FinalState): seq<Sig> {
    match state
    case Communicated => []
    case PollBeforeSignal => []
    case SignalRaceRecovered => []
    case DrainAfterSignal => [Term]
    case PollAfterGrace => [Term]
    case DrainAfterKill => [Term, Kill]
    case OutputDrainTimeout => [Term, Kill]
  }

  /** The grace periods spent on the way to each final state: at most two. */
  function GraceFor(state: FinalState, grace: real): real {
    if |SignalsFor(state)| == 0 then 0.0 else if |SignalsFor(state)| == 1 then grace else grace + grace
  }

  /** What `signal_sent` reports: the answer to the last signal that reached a
      child, "none" when none did. */
  ghost function LastSent(steps: seq<Step>): string {
    if steps == [] then "none"
    else
      var last := steps[|steps| - 1];
      if last.Signalled? && last.answer.Some? && last.answer.value != "none" then last.answer.value
      else LastSent(steps[..|steps| - 1])
  }

  ghost predicate Finished(step: Step, length: real) {
    step.Waited? && step.length == length && step.result.Output?
  }

  ghost predicate RanOut(step: Step, length: real) {
    step.Waited? && step.length == length && step.result.TimedOut?
  }

  ghost predicate SawExit(step: Step) {
    step.Polled? && step.code.Some?
  }

  ghost predicate Attempted(step: Step, sig: Sig) {
    step.Signalled? && step.sig == sig
  }

  /** The steps in which each final state was settled. */
  ghost predicate Evidence(state: FinalState, steps: seq<Step>, grace: real) {
    var n := |steps|;
    state == Communicated
    || (n >= 2
        && match state
           case Communicated => true
           case PollBeforeSignal => SawExit(steps[n - 2]) && Finished(steps[n - 1], 0.0)
           case SignalRaceRecovered => steps[n - 2] == Polled(None) && Finished(steps[n - 1], 0.0)
           case DrainAfterSignal => Attempted(steps[n - 2], Term) && Finished(steps[n - 1], grace)
           case PollAfterGrace =>
             && n >= 4 && Attempted(steps[n - 4], Term) && RanOut(steps[n - 3], grace)
             && SawExit(steps[n - 2]) && Finished(steps[n - 1], 0.0)
           case DrainAfterKill => Attempted(steps[n - 2], Kill) && Finished(steps[n - 1], grace)
           case OutputDrainTimeout => Attempted(steps[n - 2], Kill) && RanOut(steps[n - 1], grace))
  }

  /** The child is still there for all one can tell: the last poll found it
      running, or its output was not ready when a poll found it gone. */
  ghost predicate StillThere(steps: seq<Step>) {
    var n := |steps|;
    || (n >= 1 && steps[n - 1] == Polled(None))
    || (n >= 2 && SawExit(steps[n - 2]) && RanOut(steps[n - 1], 0.0))
  }

  /** TERM has been tried, its grace period has run out, and the child is still there. */
  ghost predicate OutlivedTerm(steps: seq<Step>, grace: real) {
    var n := |steps|;
    || (n >= 3 && Attempted(steps[n - 3], Term) && RanOut(steps[n - 2], grace) && steps[n - 1] == Polled(None))
    || (n >= 4 && Attempted(steps[n - 4], Term) && RanOut(steps[n - 3], grace)
        && SawExit(steps[n - 2]) && RanOut(steps[n - 1], 0.0))
  }

  /** Every signal from step `from` on had to be sent. */
  ghost predicate SignalsJustified(steps: seq<Step>, from: nat, grace: real) {
    forall i :: from <= i < |steps| && steps[i].Signalled? ==>
      if steps[i].sig == Term then StillThere(steps[..i]) else OutlivedTerm(steps[..i], grace)
  }

  /** One more step: what it does to the two statements about a stretch of steps. */
  lemma StepTaken(steps: seq<Step>, from: nat, step: Step, grace: real)
    requires from <= |steps| && SignalsJustified(steps, from, grace)
    requires step.Signalled? ==> if step.sig == Term then StillThere(steps) else OutlivedTerm(steps, grace)
    ensures SignalsJustified(steps + [step], from, grace)
    ensures LastSent((steps + [step])[from..]) ==
            if step.Signalled? && step.answer.Some? && step.answer.value != "none" then step.answer.value
            else LastSent(steps[from..])
  {
    hide StillThere, OutlivedTerm;
    var more := steps + [step];
    assert more[..|steps|] == steps;
    forall i | from <= i < |steps| ensures more[..i] == steps[..i] && more[i] == steps[i] {
    }
    assert more[from..] == steps[from..] + [step];
    assert more[from..][..|more[from..]| - 1] == steps[from..];
  }

  /** A poll, and when it finds the child gone a look at its output. */
  ghost predicate Looked(before: seq<Step>, after: seq<Step>, c: Comm) {
    || (c.TimedOut? && after == before + [Polled(None)])
    || (|after| == |before| + 2 && SawExit(after[|before|]) && after == before + [after[|before|], Waited(0.0, c)])
  }

  lemma AfterLook(before: seq<Step>, after: seq<Step>, c: Comm, from: nat, grace: real)
    requires from <= |before| && SignalsJustified(before, from, grace) && Looked(before, after, c)
    ensures before <= after && SignalsJustified(after, from, grace)
    ensures LastSent(after[from..]) == LastSent(before[from..])
    ensures c.Output? ==> Evidence(PollBeforeSignal, after, grace)
    ensures c.TimedOut? ==> StillThere(after)
    ensures GraceIsOver(before, grace) ==>
              && (c.Output? ==> Evidence(PollAfterGrace, after, grace))
              && (c.TimedOut? ==> OutlivedTerm(after, grace))
  {
    hide SignalsJustified, LastSent;
    if c.TimedOut? && after == before + [Polled(None)] {
      StepTaken(before, from, Polled(None), grace);
    } else {
      var polled := before + [after[|before|]];
      assert after == polled + [Waited(0.0, c)];
      StepTaken(before, from, after[|before|], grace);
      StepTaken(polled, from, Waited(0.0, c), grace);
    }
  }

  ghost predicate GraceIsOver(steps: seq<Step>, grace: real) {
    |steps| >= 2 && Attempted(steps[|steps| - 2], Term) && RanOut(steps[|steps| - 1], grace)
  }

  lemma StepsTaken(steps: seq<Step>, from: nat, mid: nat, grace: real)
    requires from <= mid <= |steps|
    requires SignalsJustified(steps[..mid], from, grace) && SignalsJustified(steps, mid, grace)
    ensures SignalsJustified(steps, from, grace)
  {
    hide StillThere, OutlivedTerm;
    forall i | from <= i < mid ensures steps[..mid][..i] == steps[..i] && steps[..mid][i] == steps[i] {
    }
  }

  lemma {:induction false} LastSentOfBoth(before: seq<Step>, later: seq<Step>)
    ensures LastSent(before + later) == if LastSent(later) != "none" then LastSent(later) else LastSent(before)
  {
    if later == [] {
      assert before + later == before;
    } else {
      LastSentOfBoth(before, later[..|later| - 1]);
      assert (before + later)[..|before + later| - 1] == before + later[..|later| - 1];
    }
  }

  /** Two stretches of steps, the first without an effective signal. */
  lemma StepsJoined(before: seq<Step>, mid: seq<Step>, after: seq<Step>, grace: real)
    requires before <= mid <= after && LastSent(mid[|before|..]) == "none"
    requires SignalsJustified(mid, |before|, grace) && SignalsJustified(after, |mid|, grace)
    ensures SignalsJustified(after, |before|, grace)
    ensures LastSent(after[|before|..]) == LastSent(after[|mid|..])
  {
    hide SignalsJustified;
    assert after[..|mid|] == mid;
    StepsTaken(after, |before|, |mid|, grace);
    LastSentOfBoth(mid[|before|..], after[|mid|..]);
    assert after[|before|..] == mid[|before|..] + after[|mid|..];
  }

  /** Only waits have been added. */
  ghost predicate OnlyWaits(before: seq<Step>, after: seq<Step>) {
    before <= after && forall i :: |before| <= i < |after| ==> after[i].Waited?
  }

  lemma OneMoreWaited(before: seq<Step>, mid: seq<Step>, length: real, c: Comm)
    requires OnlyWaits(before, mid)
    ensures OnlyWaits(before, mid + [Waited(length, c)]) && OnlyWaits(mid, mid)
  {
  }

  lemma {:induction false} WaitsSendNothing(before: seq<Step>, after: seq<Step>, grace: real)
    requires OnlyWaits(before, after)
    ensures SignalsJustified(after, |before|, grace) && LastSent(after[|before|..]) == "none"
  {
    if before == after {
      NoStepsYet(before, grace);
    } else {
      var init, last := after[..|after| - 1], after[|after| - 1];
      WaitsSendNothing(before, init, grace);
      StepTaken(init, |before|, last, grace);
      assert after == init + [last];
    }
  }

  /** The signal reported is one that was attempted on the way to the final state. */
  ghost predicate NamesSignal(state: FinalState, sent: string) {
    || sent == "none"
    || (sent == "sigterm" && Term in SignalsFor(state))
    || (sent == "sigkill" && Kill in SignalsFor(state))
  }

  /** Every signal from number n on was attempted at time t or later. */
  ghost predicate NotBefore(times: seq<real>, n: nat, t: real) {
    forall k :: n <= k < |times| ==> t <= times[k]
  }

  ghost predicate Escalated(before: seq<Sig>, after: seq<Sig>) {
    after == before || after == before + [Term] || after == before + [Term, Kill]
  }

  method ReadyOutput(host: Host) returns (c: Comm)
    modifies host`now, host`waits, host`waited, host`drained, host`said, host`returncode, host`raised, host`steps
    ensures old(host.now) <= host.now && host.waited == old(host.waited)
    ensures host.steps == old(host.steps) + [Waited(0.0, c)]
    ensures exists t :: host.waits == old(host.waits) + [Wait(t, 0.0, None)]
    ensures host.drained == (old(host.drained) || c.Output?)
    ensures c.Output? ==> host.said == (c.stdout, c.stderr)
    ensures old(host.raised) <= host.raised && (c.Raised? <==> host.raised != old(host.raised))
  {
    ghost var t := host.now;
    c := host.Communicate(None, 0.0, t);
    assert host.waits == old(host.waits) + [Wait(t, 0.0, None)];
  }

  /** The output of a child that a poll finds gone, when it is ready. */
  method OutputIfExited(host: Host) returns (c: Comm)
    modifies host`now, host`waits, host`waited, host`drained, host`said, host`returncode, host`raised, host`steps
    ensures old(host.now) <= host.now && host.waited == old(host.waited) && old(host.waits) <= host.waits
    ensures host.drained == (old(host.drained) || c.Output?)
    ensures Looked(old(host.steps), host.steps, c)
    ensures c.Output? ==> host.said == (c.stdout, c.stderr)
    ensures old(host.raised) <= host.raised && (c.Raised? <==> host.raised != old(host.raised))
  {
    var returncode := host.Poll();
    if returncode.None? { return TimedOut("", ""); }
    c := ReadyOutput(host);
  }

  method FinalizeTimedOutProcess(host: Host, grace: real) returns (f: Finalized)
    modifies host`now, host`waits, host`waited, host`drained, host`said, host`returncode, host`raised, host`signals,
      host`signalTimes, host`steps
    ensures old(host.now) <= host.now
    ensures f.Finalized? ==> host.signals == old(host.signals) + SignalsFor(f.state)
    ensures f.Broke? ==> Escalated(old(host.signals), host.signals)
    ensures f.Finalized? ==> host.waited == old(host.waited) + GraceFor(f.state, grace)
    ensures grace >= 0.0 ==> old(host.waited) <= host.waited <= old(host.waited) + grace + grace
    ensures old(host.waits) <= host.waits
    ensures f.Finalized? ==> f.state != Communicated
    ensures f.Finalized? ==> host.drained == (old(host.drained) || f.state != OutputDrainTimeout)
    ensures f.Finalized? ==> host.said == (f.stdout, f.stderr)
    ensures old(host.steps) <= host.steps && SignalsJustified(host.steps, |old(host.steps)|, grace)
    ensures f.Finalized? ==> f.sent == LastSent(host.steps[|old(host.steps)|..]) && NamesSignal(f.state, f.sent)
    ensures f.Finalized? ==> Evidence(f.state, host.steps, grace)
    ensures f.Broke? <==> host.raised != old(host.raised)
    ensures old(host.raised) <= host.raised
    ensures old(host.signalTimes) <= host.signalTimes
    ensures |host.signalTimes| - |old(host.signalTimes)| == |host.signals| - |old(host.signals)|
    ensures NotBefore(host.signalTimes, |old(host.signalTimes)|, old(host.now))
  {
    hide StillThere, OutlivedTerm, SignalsJustified, LastSent, Evidence;
    ghost var from, before := |host.steps|, host.steps;
    var returncode := host.Poll();
    var c := ReadyOutput(host);
    FirstLook(before, returncode, c, grace);
    assert host.steps == before + [Polled(returncode)] + [Waited(0.0, c)];
    if c.Raised? { return Broke; }
    if c.Output? {
      return Finalized(c.stdout, c.stderr, "none", if returncode.Some? then PollBeforeSignal else SignalRaceRecovered);
    }
    ghost var looked := host.steps;
    if returncode.None? {
      c := OutputIfExited(host);
      AfterLook(looked, host.steps, c, from, grace);
      if c.Raised? { return Broke; }
      if c.Output? { return Finalized(c.stdout, c.stderr, "none", PollBeforeSignal); }
    }
    looked := host.steps;
    f := TerminateAndDrain(host, grace);
    StepsJoined(before, looked, host.steps, grace);
  }

  lemma FirstLook(before: seq<Step>, returncode: Option<int>, c: Comm, grace: real)
    ensures var after := before + [Polled(returncode)] + [Waited(0.0, c)];
            && SignalsJustified(after, |before|, grace) && LastSent(after[|before|..]) == "none"
            && (c.Output? ==>
                  Evidence(if returncode.Some? then PollBeforeSignal else SignalRaceRecovered, after, grace))
            && (c.TimedOut? && returncode.Some? ==> StillThere(after))
  {
    hide SignalsJustified;
    NoStepsYet(before, grace);
    StepTaken(before, |before|, Polled(returncode), grace);
    StepTaken(before + [Polled(returncode)], |before|, Waited(0.0, c), grace);
  }

  lemma NoStepsYet(steps: seq<Step>, grace: real)
    ensures SignalsJustified(steps, |steps|, grace) && LastSent(steps[|steps|..]) == "none"
  {
  }

  /** TERM, a grace period, and if need be KILL and another grace period. */
  method TerminateAndDrain(host: Host, grace: real) returns (f: Finalized)
    requires StillThere(host.steps)
    modifies host`now, host`waits, host`waited, host`drained, host`said, host`returncode, host`raised, host`signals,
      host`signalTimes, host`steps
    ensures old(host.now) <= host.now
    ensures f.Finalized? ==> SignalsFor(f.state) != []
    ensures f.Finalized? ==> host.signals == old(host.signals) + SignalsFor(f.state)
    ensures f.Broke? ==> Escalated(old(host.signals), host.signals)
    ensures f.Finalized? ==> host.waited == old(host.waited) + GraceFor(f.state, grace)
    ensures grace >= 0.0 ==> old(host.waited) <= host.waited <= old(host.waited) + grace + grace
    ensures old(host.waits) <= host.waits
    ensures f.Finalized? ==> host.drained == (old(host.drained) || f.state != OutputDrainTimeout)
    ensures f.Finalized? ==> host.said == (f.stdout, f.stderr)
    ensures old(host.steps) <= host.steps && SignalsJustified(host.steps, |old(host.steps)|, grace)
    ensures f.Finalized? ==> f.sent == LastSent(host.steps[|old(host.steps)|..]) && NamesSignal(f.state, f.sent)
    ensures f.Finalized? ==> Evidence(f.state, host.steps, grace)
    ensures f.Broke? <==> host.raised != old(host.raised)
    ensures old(host.raised) <= host.raised
    ensures old(host.signalTimes) <= host.signalTimes
    ensures |host.signalTimes| - |old(host.signalTimes)| == |host.signals| - |old(host.signals)|
    ensures NotBefore(host.signalTimes, |old(host.signalTimes)|, old(host.now))
  {
    hide StillThere, OutlivedTerm, SignalsJustified, LastSent, Evidence, Escalated, GraceIsOver;
    ghost var from, s0 := |host.steps|, host.steps;
    NoStepsYet(s0, grace);
    var term := host.SendSignal(Term);
    StepTaken(s0, from, Signalled(Term, term), grace);
    OnTheWay(old(host.signals));
    if term.None? { return Broke; }
    ghost var s1 := host.steps;
    var c := host.Communicate(None, grace, host.now);
    StepTaken(s1, from, Waited(grace, c), grace);
    if c.Raised? { return Broke; }
    DrainedAfter(s0, Signalled(Term, term), Waited(grace, c), grace);
    if c.Output? { return Finalized(c.stdout, c.stderr, term.value, DrainAfterSignal); }
    f := AfterGrace(host, grace, term.value, from);
    assert old(host.signals) + [Term] + [Kill] == old(host.signals) + [Term, Kill];
  }

  lemma OnTheWay(before: seq<Sig>)
    ensures Escalated(before, before) && Escalated(before, before + [Term]) && Escalated(before, before + [Term, Kill])
  {
  }

  lemma DrainedAfter(before: seq<Step>, sent: Step, waited: Step, grace: real)
    requires sent.Signalled? && waited.Waited? && waited.length == grace
    ensures var after := before + [sent] + [waited];
            && (sent.sig == Term && waited.result.Output? ==> Evidence(DrainAfterSignal, after, grace))
            && (sent.sig == Term && waited.result.TimedOut? ==> GraceIsOver(after, grace))
            && (sent.sig == Kill && waited.result.Output? ==> Evidence(DrainAfterKill, after, grace))
            && (sent.sig == Kill && waited.result.TimedOut? ==> Evidence(OutputDrainTimeout, after, grace))
  {
  }

  /** The grace period has run out: a child that is gone by now is not killed. */
  method AfterGrace(host: Host, grace: real, termSent: string, ghost from: nat) returns (f: Finalized)
    requires from <= |host.steps| && SignalsJustified(host.steps, from, grace) && GraceIsOver(host.steps, grace)
    requires termSent == LastSent(host.steps[from..]) && termSent in {"none", "sigterm"}
    modifies host`now, host`waits, host`waited, host`drained, host`said, host`returncode, host`raised, host`signals,
      host`signalTimes, host`steps
    ensures old(host.now) <= host.now && old(host.waits) <= host.waits
    ensures f.Finalized? ==> f.state in {PollAfterGrace, DrainAfterKill, OutputDrainTimeout}
    ensures f.Finalized? ==> host.signals == old(host.signals) + if f.state == PollAfterGrace then [] else [Kill]
    ensures host.signals == old(host.signals) || host.signals == old(host.signals) + [Kill]
    ensures f.Finalized? ==> host.waited == old(host.waited) + if f.state == PollAfterGrace then 0.0 else grace
    ensures grace >= 0.0 ==> old(host.waited) <= host.waited <= old(host.waited) + grace
    ensures f.Finalized? ==> host.drained == (old(host.drained) || f.state != OutputDrainTimeout)
    ensures f.Finalized? ==> host.said == (f.stdout, f.stderr)
    ensures old(host.steps) <= host.steps && SignalsJustified(host.steps, from, grace)
    ensures f.Finalized? ==> f.sent == LastSent(host.steps[from..]) && NamesSignal(f.state, f.sent)
    ensures f.Finalized? ==> Evidence(f.state, host.steps, grace)
    ensures old(host.raised) <= host.raised && (f.Broke? <==> host.raised != old(host.raised))
    ensures old(host.signalTimes) <= host.signalTimes
            && NotBefore(host.signalTimes, |old(host.signalTimes)|, old(host.now))
    ensures |host.signalTimes| - |old(host.signalTimes)| == |host.signals| - |old(host.signals)|
  {
    hide StillThere, OutlivedTerm, SignalsJustified, LastSent, Evidence, GraceIsOver;
    ghost var before := host.steps;
    var c := OutputIfExited(host);
    AfterLook(before, host.steps, c, from, grace);
    if c.Raised? { return Broke; }
    if c.Output? { return Finalized(c.stdout, c.stderr, termSent, PollAfterGrace); }
    f := KillAndDrain(host, grace, termSent, from);
  }

  /** The last resort; what is not drained after it is given up. */
  method KillAndDrain(host: Host, grace: real, termSent: string, ghost from: nat) returns (f: Finalized)
    requires from <= |host.steps| && SignalsJustified(host.steps, from, grace) && OutlivedTerm(host.steps, grace)
    requires termSent == LastSent(host.steps[from..]) && termSent in {"none", "sigterm"}
    modifies host`now, host`waits, host`waited, host`drained, host`said, host`returncode, host`raised, host`signals,
      host`signalTimes, host`steps
    ensures old(host.now) <= host.now && old(host.waits) <= host.waits
    ensures host.signals == old(host.signals) + [Kill] && host.signalTimes == old(host.signalTimes) + [old(host.now)]
    ensures f.Finalized? ==> f.state == DrainAfterKill || f.state == OutputDrainTimeout
    ensures f.Finalized? ==> host.waited == old(host.waited) + grace
    ensures grace >= 0.0 ==> old(host.waited) <= host.waited <= old(host.waited) + grace
    ensures f.Finalized? ==> host.drained == (old(host.drained) || f.state != OutputDrainTimeout)
    ensures f.Finalized? ==> host.said == (f.stdout, f.stderr)
    ensures old(host.steps) <= host.steps && SignalsJustified(host.steps, from, grace)
    ensures f.Finalized? ==> f.sent == LastSent(host.steps[from..]) && NamesSignal(f.state, f.sent)
    ensures f.Finalized? ==> Evidence(f.state, host.steps, grace)
    ensures old(host.raised) <= host.raised && (f.Broke? <==> host.raised != old(host.raised))
  {
    hide StillThere, OutlivedTerm, SignalsJustified, LastSent, Evidence;
    ghost var s0 := host.steps;
    var kill := host.SendSignal(Kill);
    StepTaken(s0, from, Signalled(Kill, kill), grace);
    if kill.None? { return Broke; }
    var sent := if kill.value != "none" then kill.value else termSent;
    ghost var s1 := host.steps;
    var c := host.Communicate(None, grace, host.now);
    StepTaken(s1, from, Waited(grace, c), grace);
    if c.Raised? { return Broke; }
    DrainedAfter(s0, Signalled(Kill, kill), Waited(grace, c), grace);
    f := Finalized(c.stdout, c.stderr, sent, if c.Output? then DrainAfterKill else OutputDrainTimeout);
  }

  datatype RunResult = RunResult(
    returncode: int,
    stdout: string,
    stderr: string,
    timedOut: bool,
    reason: string,
    signalSent: string,
    state: FinalState,
    heartbeatCount: nat,
    quietSeconds: int)

  datatype RunOutcome = Returned(result: RunResult) | Escaped

  function TimeoutTerminationReason(timedOut: bool, state: FinalState, stdout: string, stderr: string,
                                    launchLatency: real, timeout: int): string {
    if !timedOut then (if state.SignalRaceRecovered? then "signal_race_recovered" else "completed")
    else if launchLatency >= timeout as real then "startup_timeout"
    else if stdout != "" || stderr != "" then "timeout_after_output"
    else "execution_timeout"
  }

  function CompletedResult(returncode: Option<int>, stdout: string, stderr: string, timeout: int, timedOut: bool,
                           reason: string, sent: string, state: FinalState, heartbeats: nat, quiet: int): RunResult {
    RunResult(
      if timedOut then (if returncode == Some(0) || returncode.None? then -1 else returncode.value)
      else (if returncode.Some? then returncode.value else -1),
      stdout, stderr, timedOut, reason, sent, state, heartbeats,
      if quiet == 0 && timedOut && stdout == "" && stderr == "" then timeout else quiet)
  }

  /** What a caller may read off a result: `sent` are the signals attempted on its behalf. */
  ghost predicate HonestResult(r: RunResult, sent: seq<Sig>) {
    && sent == SignalsFor(r.state)
    && (r.timedOut <==> sent != [])
    && (r.timedOut ==> r.returncode != 0)
    && NamesSignal(r.state, r.signalSent)
  }

  /** Each reason is given exactly when it applies. */
  ghost predicate ReasonFits(r: RunResult, launchLatency: real, timeout: int) {
    var started := launchLatency < timeout as real;
    var silent := r.stdout == "" && r.stderr == "";
    && (r.reason == "startup_timeout" <==> r.timedOut && !started)
    && (r.reason == "timeout_after_output" <==> r.timedOut && started && !silent)
    && (r.reason == "execution_timeout" <==> r.timedOut && started && silent)
    && (r.reason == "signal_race_recovered" <==> r.state.SignalRaceRecovered?)
    && (r.reason == "completed" <==> !r.timedOut && !r.state.SignalRaceRecovered?)
  }

  /** The quiet time is the one last noted, but a run that timed out without
      any output and without a note was quiet all along. */
  ghost predicate QuietTime(r: RunResult, noted: int, timeout: int) {
    && (r.timedOut && r.stdout == "" && r.stderr == "" && noted == 0 ==> r.quietSeconds == timeout)
    && (!r.timedOut || r.stdout != "" || r.stderr != "" || noted != 0 ==> r.quietSeconds == noted)
  }

  /** The output is what the child last handed over, and the return code is
      the child's own unless a timeout would make it look like a success. */
  ghost predicate Reports(r: RunResult, host: Host)
    reads host
  {
    && (r.stdout, r.stderr) == host.said
    && (host.returncode.Some? && !(r.timedOut && host.returncode == Some(0)) ==> r.returncode == host.returncode.value)
    && (host.returncode.None? || (r.timedOut && host.returncode == Some(0)) ==> r.returncode == -1)
  }

  lemma ResultSays(host: Host, timeout: int, timedOut: bool, reason: string, sent: string, state: FinalState,
                   heartbeats: nat, quiet: int, launchLatency: real)
    requires timedOut <==> SignalsFor(state) != []
    requires NamesSignal(state, sent)
    requires var (stdout, stderr) := host.said;
             reason == TimeoutTerminationReason(timedOut, state, stdout, stderr, launchLatency, timeout)
    ensures var (stdout, stderr) := host.said;
            var r := CompletedResult(host.returncode, stdout, stderr, timeout, timedOut, reason, sent, state,
                                     heartbeats, quiet);
            && ReasonFits(r, launchLatency, timeout) && QuietTime(r, quiet, timeout)
            && HonestResult(r, SignalsFor(state)) && Reports(r, host)
            && r.state == state && r.heartbeatCount == heartbeats && r.signalSent == sent
  {
  }

  method TimeoutExpiredRunResult(host: Host, state: HeartbeatState, grace: real, launchLatency: real, timeout: int)
    returns (r: RunOutcome)
    modifies host`now, host`waits, host`waited, host`drained, host`said, host`returncode, host`raised, host`signals,
      host`signalTimes, host`steps
    ensures old(host.now) <= host.now
    ensures old(host.steps) < host.steps && SignalsJustified(host.steps, |old(host.steps)|, grace)
    ensures r.Returned? ==>
              && old(host.signals) <= host.signals
              && HonestResult(r.result, host.signals[|old(host.signals)|..]) && Reports(r.result, host)
              && host.waited == old(host.waited) + GraceFor(r.result.state, grace)
              && host.drained == (old(host.drained) || r.result.state != OutputDrainTimeout)
              && r.result.heartbeatCount == old(state.heartbeatCount)
              && ReasonFits(r.result, launchLatency, timeout) && QuietTime(r.result, old(state.quietSeconds), timeout)
              && r.result.signalSent == LastSent(host.steps[|old(host.steps)|..])
              && r.result.state != Communicated && Evidence(r.result.state, host.steps, grace)
    ensures grace >= 0.0 ==> old(host.waited) <= host.waited <= old(host.waited) + grace + grace
    ensures old(host.waits) <= host.waits
    ensures r.Escaped? ==> Escalated(old(host.signals), host.signals)
    ensures r.Escaped? <==> host.raised != old(host.raised)
    ensures old(host.signalTimes) <= host.signalTimes
    ensures |host.signalTimes| - |old(host.signalTimes)| == |host.signals| - |old(host.signals)|
    ensures NotBefore(host.signalTimes, |old(host.signalTimes)|, old(host.now))
  {
    hide ReasonFits, QuietTime, HonestResult, Reports, CompletedResult, StillThere, OutlivedTerm, SignalsJustified,
         LastSent, Evidence;
    ghost var before := host.steps;
    NoStepsYet(before, grace);
    var c := OutputIfExited(host);
    AfterLook(before, host.steps, c, |before|, grace);
    ghost var looked := host.steps;
    if c.Raised? { return Escaped; }
    if c.Output? {
      ResultSays(host, timeout, false, "completed", "none", PollBeforeSignal, state.heartbeatCount, state.quietSeconds,
                 launchLatency);
      assert host.signals[|old(host.signals)|..] == SignalsFor(PollBeforeSignal);
      return Returned(CompletedResult(host.returncode, c.stdout, c.stderr, timeout, false, "completed", "none",
                                      PollBeforeSignal, state.heartbeatCount, state.quietSeconds));
    }
    var f := FinalizeTimedOutProcess(host, grace);
    StepsJoined(before, looked, host.steps, grace);
    if f.Broke? { return Escaped; }
    var timedOut := f.state != PollBeforeSignal && f.state != SignalRaceRecovered;
    var reason := TimeoutTerminationReason(timedOut, f.state, f.stdout, f.stderr, launchLatency, timeout);
    ResultSays(host, timeout, timedOut, reason, f.sent, f.state, state.heartbeatCount, state.quietSeconds,
               launchLatency);
    assert host.signals[|old(host.signals)|..] == SignalsFor(f.state);
    return Returned(CompletedResult(host.returncode, f.stdout, f.stderr, timeout, timedOut, reason, f.sent, f.state,
                                    state.heartbeatCount, state.quietSeconds));
  }

  /** The supervised run. `waits` are the waits up to the deadline, and
      `expired` is the time waited by then; all later waits together last at
      most two grace periods, whatever the outcome. */
  method CommunicateRunWithTimeout(host: Host, state: HeartbeatState, input: Option<string>, timeout: int,
                                   interval: Option<int>, callback: bool, grace: real, launchLatency: real)
    returns (r: RunOutcome, ghost start: real, ghost waits: seq<Wait>, ghost expired: real)
    requires timeout >= 1 && (interval.Some? ==> interval.value >= 1) && state.heartbeatCount == 0
    modifies host, state
    ensures old(host.now) <= start <= host.now
    ensures old(host.waits) + waits <= host.waits && old(host.beats) <= host.beats
    ensures callback && interval.Some? ==>
              HeartbeatLog(waits, host.beats[|old(host.beats)|..], start, timeout as real, interval.value as real,
                input)
    ensures !(callback && interval.Some?) ==>
              host.beats == old(host.beats) && waits == [Wait(start, timeout as real, input)]
    ensures r.Returned? && r.result.state == Communicated ==> host.waits == old(host.waits) + waits
    ensures r.Returned? && r.result.state != Communicated ==>
              state.quietSeconds == Noted(host.beats[|old(host.beats)|..], old(state.quietSeconds))
    ensures expired == old(host.waited) + Total(waits)
    ensures Total(waits) <= timeout as real
    ensures grace >= 0.0 ==> expired <= host.waited <= expired + grace + grace
    ensures r.Returned? ==> host.waited == expired + GraceFor(r.result.state, grace)
    ensures old(host.steps) <= host.steps && SignalsJustified(host.steps, |old(host.steps)|, grace)
    ensures r.Returned? ==>
              && old(host.signals) <= host.signals
              && HonestResult(r.result, host.signals[|old(host.signals)|..]) && Reports(r.result, host)
              && (host.drained || r.result.state == OutputDrainTimeout)
              && (r.result.state != Communicated ==> start + timeout as real <= host.now)
              && r.result.heartbeatCount == |host.beats| - |old(host.beats)|
              && ReasonFits(r.result, launchLatency, timeout) && QuietTime(r.result, state.quietSeconds, timeout)
              && r.result.signalSent == LastSent(host.steps[|old(host.steps)|..])
              && Evidence(r.result.state, host.steps, grace)
    ensures r.Escaped? ==> Escalated(old(host.signals), host.signals)
    ensures r.Escaped? <==> host.raised != old(host.raised)
    ensures NotBefore(host.signalTimes, |old(host.signalTimes)|, start + timeout as real)
    ensures old(host.signalTimes) <= host.signalTimes
    ensures |host.signalTimes| - |old(host.signalTimes)| == |host.signals| - |old(host.signals)|
  {
    var c;
    ghost var beats;
    c, start, waits, beats := CommunicateWithOptionalHeartbeats(host, state, input, timeout, interval, callback);
    expired := host.waited;
    ghost var waited := host.steps;
    WaitsSendNothing(old(host.steps), waited, grace);
    assert host.beats[|old(host.beats)|..] == beats;
    if c.Raised? { return Escaped, start, waits, expired; }
    if c.Output? {
      r := Returned(CompletedResult(host.returncode, c.stdout, c.stderr, timeout, false, "completed", "none",
                                    Communicated, state.heartbeatCount, state.quietSeconds));
      return;
    }
    r := TimeoutExpiredRunResult(host, state, grace, launchLatency, timeout);
    StepsJoined(old(host.steps), waited, host.steps, grace);
  }
}
