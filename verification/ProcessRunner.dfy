/** Bounded execution of a child command (`run_command`) and the teardown of its process group, as
    a timed model: only waits and sleeps take time, a wait or sleep for `t` overshoots by at most
    `slack`, and one that times out has lasted at least `t`. */
module ProcessRunner {

  datatype Wait = Finished | TimedOut | Broken

  /** What a teardown does: it sends a signal, SIGTERM or SIGKILL, looks for the group, or waits. */
  datatype Step = Sent(kill: bool, at: real) | Saw(group: bool) | Waited(result: Wait)

  /** The child has been reaped and, next to that, the group was not there. */
  predicate Together(a: Step, b: Step) {
    (a == Saw(false) && b == Waited(Finished)) || (a == Waited(Finished) && b == Saw(false))
  }

  predicate TogetherAt(steps: seq<Step>, i: nat) { i + 1 < |steps| && Together(steps[i], steps[i + 1]) }

  /** This has happened among the steps from `from` on. */
  ghost predicate SeenGone(steps: seq<Step>, from: nat) { exists i: nat :: from <= i && TogetherAt(steps, i) }

  lemma SeenGoneAppend(steps: seq<Step>, from: nat, step: Step)
    requires from <= |steps|
    ensures SeenGone(steps + [step], from) <==>
              SeenGone(steps, from) || (from < |steps| && Together(steps[|steps| - 1], step))
  {
    var more := steps + [step];
    forall i: nat ensures TogetherAt(more, i) <==>
                            TogetherAt(steps, i) || (i == |steps| - 1 && Together(steps[i], step)) {}
    if from < |steps| && Together(steps[|steps| - 1], step) { assert TogetherAt(more, |steps| - 1); }
  }

  /** The group has not been seen gone, and the next step alone cannot change that. */
  ghost predicate Undecided(steps: seq<Step>, from: nat) {
    from <= |steps| && !SeenGone(steps,
                                 from) && (|steps| > from ==> steps[|steps| - 1] in {Saw(true), Waited(TimedOut)})
  }

  lemma NothingSeen(steps: seq<Step>)
    ensures !SeenGone(steps, |steps|)
  {
  }

  lemma AfterSignal(steps: seq<Step>, from: nat, to: nat)
    requires from < to == from + 1 <= |steps| && steps[from].Sent?
    ensures SeenGone(steps, from) <==> SeenGone(steps, to)
  {
    assert !TogetherAt(steps, from);
  }

  /** Nothing was seen up to and including a signal: what counts is seen after it. */
  lemma SeenLater(before: seq<Step>, steps: seq<Step>, from: nat)
    requires before <= steps && from < |before| && before[|before| - 1].Sent? && !SeenGone(before, from)
    ensures SeenGone(steps, from) <==> SeenGone(steps, |before|)
  {
    assert !TogetherAt(steps, |before| - 1);
    forall i: nat | from <= i < |before| - 1 ensures !TogetherAt(steps, i) { assert !TogetherAt(before, i); }
  }

  datatype RunExit =
    | Rejected          // ValueError: no arguments, or a bound is not positive
    | Returned          // normal return
    | NonZero           // the command failed with a status
    | DeadlineExceeded  // the work deadline passed
    | Raised            // the wait raised something else
    | CleanupExceeded   // the group outlived the teardown budget

  function Min(a: real, b: real): real { if a <= b then a else b }

  function Max(a: real, b: real): real { if a <= b then b else a }

  /** How many advances of a hundredth of a second fit into the remaining time. */
  function Ticks(remaining: real): (n: nat)
    ensures remaining > 0.0 ==> n > 0
  {
    if remaining <= 0.0 then 0 else (remaining * 100.0).Floor + 1
  }

  lemma TicksDecrease(remaining: real, passed: real)
    requires remaining > 0.0 && (passed >= remaining || passed >= 0.01)
    ensures Ticks(remaining - passed) < Ticks(remaining)
  {
    if remaining - passed > 0.0 {
      assert (remaining - passed) * 100.0 <= remaining * 100.0 - 1.0;
    }
  }

  function Previous(beats: seq<real>, i: nat, from: real): real
    requires i <= |beats|
  {
    if i == 0 then from else beats[i - 1]
  }

  /** Consecutive heartbeats are at least `gap` apart, the first from `from`, and at most `delay` more. */
  ghost predicate Spaced(beats: seq<real>, from: real, gap: real, delay: real) {
    forall i :: 0 <= i < |beats| ==> gap <= beats[i] - Previous(beats, i, from) <= gap + delay
  }

  lemma SpacedAppend(beats: seq<real>, from: real, gap: real, delay: real, at: real)
    requires Spaced(beats, from, gap, delay) && gap <= at - Previous(beats, |beats|, from) <= gap + delay
    ensures Spaced(beats + [at], from, gap, delay)
  {
    var more := beats + [at];
    forall i | 0 <= i < |more| ensures gap <= more[i] - Previous(more, i, from) <= gap + delay {
      assert Previous(more, i, from) == Previous(beats, i, from);
      if i < |beats| { assert gap <= beats[i] - Previous(beats, i, from) <= gap + delay; }
    }
  }

  /** The child, its process group, and the clock. */
  class Child {
    const slack: real
    const status: int       // the exit status of the command, once it ends
    const waits: nat -> Wait // how the waits for it end, in turn
    var waited: nat         // how many there have been
    var now: real
    var gone: bool          // every process of the group has ended
    var delivered: nat      // how often input was handed to the child
    ghost var steps: seq<Step>

    constructor (slack: real, started: real, status: int, waits: nat -> Wait)
      requires slack >= 0.0
      ensures this.slack == slack && this.status == status && this.waits == waits
      ensures now == started && !gone && delivered == 0 && waited == 0
    {
      this.slack, this.status, this.waits := slack, status, waits;
      now, gone, delivered, waited, steps := started, false, 0, 0, [];
    }

    /** One of these waits ended neither with the command nor in time. */
    ghost predicate BrokenIn(from: nat, to: nat) { exists k :: from <= k < to && waits(k) == Broken }

    /** The group may end at any time and never comes back. */
    method Age()
      modifies this`gone
      ensures old(gone) ==> gone
    {
      var ended: bool := *;
      gone := gone || ended;
    }

    /** `_process_group_exists`: a negative answer is certain, a positive one may be stale. */
    method GroupExists() returns (exists_: bool)
      modifies this`gone, this`steps
      ensures old(gone) ==> gone
      ensures !exists_ ==> gone
      ensures steps == old(steps) + [Saw(exists_)]
    {
      Age();
      exists_ := *;
      exists_ := exists_ || !gone;
      steps := steps + [Saw(exists_)];
    }

    /** `os.killpg`, whether or not it gets through. */
    method Send(kill: bool)
      modifies this`gone, this`steps
      ensures old(gone) ==> gone
      ensures steps == old(steps) + [Sent(kill, now)]
    {
      Age();
      steps := steps + [Sent(kill, now)];
    }

    method Elapse(atLeast: real, atMost: real)
      requires 0.0 <= atLeast <= atMost
      modifies this`now, this`gone
      ensures old(now) + atLeast <= now <= old(now) + atMost
      ensures old(gone) ==> gone
    {
      var passed: real := *;
      passed := if atLeast <= passed <= atMost then passed else atMost;
      now := now + passed;
      Age();
    }

    method Communicate(hasInput: bool, timeout: real) returns (result: Wait)
      requires timeout > 0.0 && slack >= 0.0
      modifies this`now, this`gone, this`delivered, this`waited, this`steps
      ensures result == waits(old(waited)) && waited == old(waited) + 1
      ensures steps == old(steps) + [Waited(result)]
      ensures old(now) <= now <= old(now) + timeout + slack
      ensures result == TimedOut ==> now >= old(now) + timeout
      ensures old(gone) ==> gone
      ensures delivered == old(delivered) + if hasInput then 1 else 0
    {
      result, waited := waits(waited), waited + 1;
      Elapse(if result == TimedOut then timeout else 0.0, timeout + slack);
      if hasInput { delivered := delivered + 1; }
      steps := steps + [Waited(result)];
    }

    method Sleep(t: real)
      requires t > 0.0 && slack >= 0.0
      modifies this`now, this`gone
      ensures old(now) + t <= now <= old(now) + t + slack
      ensures old(gone) ==> gone
    {
      Elapse(t, t + slack);
    }

    /** One look at the group around one wait for the child. */
    method Look(timeout: real, ghost from: nat) returns (result: Wait, seen: bool)
      requires timeout > 0.0 && slack >= 0.0 && Undecided(steps, from)
      modifies this`now, this`gone, this`delivered, this`waited, this`steps
      ensures old(steps) <= steps && forall i :: |old(steps)| <= i < |steps| ==> !steps[i].Sent?
      ensures seen <==> SeenGone(steps, from)
      ensures !seen && result != Broken ==> Undecided(steps, from)
      ensures seen ==> gone && result == Finished
      ensures result == waits(old(waited)) && waited == old(waited) + 1
      ensures old(now) <= now <= old(now) + timeout + slack
      ensures result == TimedOut ==> now >= old(now) + timeout
      ensures delivered == old(delivered) && (old(gone) ==> gone)
    {
      hide SeenGone;
      ghost var before := steps;
      var existed := GroupExists();
      SeenGoneAppend(before, from, Saw(existed));
      ghost var looked := steps;
      result := Communicate(false, timeout);
      SeenGoneAppend(looked, from, Waited(result));
      if result != Finished { return result, false; }
      if !existed { return result, true; }
      ghost var reaped := steps;
      var still := GroupExists();
      SeenGoneAppend(reaped, from, Saw(still));
      seen := !still;
    }

    /** `_wait_for_process_group`. */
    method WaitForGroup(deadline: real) returns (ok: bool)
      requires slack >= 0.0
      modifies this`now, this`gone, this`delivered, this`waited, this`steps
      ensures ok ==> gone
      // the answer is positive exactly when the child was reaped and, next to that, the group not seen
      ensures old(steps) <= steps && (ok <==> SeenGone(steps, |old(steps)|))
      ensures forall i :: |old(steps)| <= i < |steps| ==> !steps[i].Sent?
      ensures waited >= old(waited)
      ensures !ok ==> now >= deadline || BrokenIn(old(waited), waited)
      ensures old(now) <= now <= Max(old(now), deadline + slack)
      ensures delivered == old(delivered) && (old(gone) ==> gone)
    {
      hide Ticks, SeenGone;
      NothingSeen(steps);
      while true
        invariant old(now) <= now <= Max(old(now), deadline + slack)
        invariant old(steps) <= steps && Undecided(steps, |old(steps)|)
        invariant forall i :: |old(steps)| <= i < |steps| ==> !steps[i].Sent?
        invariant delivered == old(delivered) && (old(gone) ==> gone) && waited >= old(waited)
        decreases Ticks(deadline - now)
      {
        var remaining := deadline - now;
        if remaining <= 0.0 { return false; }
        ghost var before := now;
        var result;
        result, ok := Look(Min(remaining, 0.05), |old(steps)|);
        if result == Broken || ok { return; }
        if result == Finished {
          remaining := deadline - now;
          if remaining <= 0.0 { return false; }
          Sleep(Min(remaining, 0.01));
        }
        TicksDecrease(deadline - before, now - before);
        assert deadline - before - (now - before) == deadline - now;
      }
    }

    /** `terminate_process_group`: the positive answer means the group was seen gone, and it comes
        within the teardown budget. */
    method Terminate(teardown: real) returns (ok: bool)
      requires teardown > 0.0 && slack >= 0.0
      modifies this`now, this`gone, this`delivered, this`waited, this`steps
      ensures ok ==> gone
      ensures old(now) <= now <= old(now) + teardown + slack
      ensures delivered == old(delivered) && waited >= old(waited)
      ensures !ok ==> now >= old(now) + teardown || BrokenIn(old(waited), waited)
      ensures old(steps) <= steps && (ok <==> SeenGone(steps, |old(steps)|))
      // SIGTERM first; SIGKILL only if the group was not seen gone, and then after half the budget, unless
      // a wait broke
      ensures |steps| > |old(steps)| && steps[|old(steps)|] == Sent(false, old(now))
      ensures forall i :: |old(steps)| < i < |steps| && steps[i].Sent? ==>
                && steps[i].kill && !SeenGone(steps[..i], |old(steps)|)
                && steps[i].at <= old(now) + teardown / 2.0 + slack
                && (steps[i].at >= old(now) + teardown / 2.0 || BrokenIn(old(waited), waited))
      ensures !ok ==> exists i :: |old(steps)| < i < |steps| && steps[i].Sent?
    {
      hide SeenGone;
      var deadline, termDeadline := now + teardown, now + teardown / 2.0;
      ghost var from := |steps|;
      Send(false);
      ghost var first := |steps|;
      ok := WaitForGroup(termDeadline);
      AfterSignal(steps, from, first);
      if ok { return; }
      ghost var waiting := steps;
      Send(true);
      ghost var killed := steps;
      SeenGoneAppend(waiting, from, killed[|waiting|]);
      ok := WaitForGroup(deadline);
      SeenLater(killed, steps, from);
      assert steps[..|waiting|] == waiting;
    }

    /** The work loop: `Finished` when the command ended, otherwise why it did not. */
    method Work(hasInput: bool, deadline: real, heartbeatSeconds: real)
      returns (result: Wait, ghost beats: seq<real>)
      requires slack >= 0.0 && deadline > now && heartbeatSeconds > 0.0
      modifies this`now, this`gone, this`delivered, this`waited, this`steps
      ensures old(now) <= now <= deadline + slack
      ensures result == TimedOut ==> now >= deadline
      ensures delivered == old(delivered) + if hasInput then 1 else 0
      // all waits but the last one time out; the last one tells, unless it timed out too
      ensures waited > old(waited) && waits(waited - 1) == result
      ensures forall k :: old(waited) <= k < waited - 1 ==> waits(k) == TimedOut
      // heartbeats are `heartbeatSeconds` apart, late by no more than one shortest wait; and none is missing
      ensures Spaced(beats, old(now), heartbeatSeconds, 0.1 + slack) && (beats != [] ==> beats[|beats| - 1] <= now)
      ensures now <= Previous(beats, |beats|, old(now)) + heartbeatSeconds + 0.1 + slack
    {
      hide Ticks;
      beats := [];
      var pending := hasInput;
      var heartbeat := now + heartbeatSeconds;
      while true
        invariant old(now) <= now <= deadline + slack
        invariant delivered == old(delivered) + if hasInput && !pending then 1 else 0
        invariant pending ==> hasInput && now < deadline
        invariant waited >= old(waited) && (waited == old(waited) ==> now < deadline)
        invariant forall k :: old(waited) <= k < waited ==> waits(k) == TimedOut
        invariant heartbeat == Previous(beats, |beats|, old(now)) + heartbeatSeconds
        invariant Spaced(beats, old(now), heartbeatSeconds, 0.1 + slack)
        invariant (beats != [] ==> beats[|beats| - 1] <= now) && now < heartbeat
        decreases Ticks(deadline - now)
      {
        var remaining := deadline - now;
        if remaining <= 0.0 { return TimedOut, beats; }
        ghost var before := now;
        result := Communicate(pending, Min(remaining, Max(0.1, heartbeat - now)));
        pending := false;
        if result != TimedOut { return; }
        if now >= heartbeat {
          SpacedAppend(beats, old(now), heartbeatSeconds, 0.1 + slack, now);
          beats := beats + [now];
          heartbeat := now + heartbeatSeconds;
        }
        TicksDecrease(deadline - before, now - before);
        assert deadline - before - (now - before) == deadline - now;
      }
    }

    /** `run_command`: it always ends, within the work and the teardown budget; a normal return
        means the process group was seen gone; and the input is handed over exactly once. */
    method RunCommand(arguments: seq<string>, hasInput: bool, timeout: real, heartbeatSeconds: real,
                      teardown: real)
      returns (exit: RunExit, ghost worked: nat)
      requires slack >= 0.0
      modifies this`now, this`gone, this`delivered, this`waited, this`steps
      ensures exit == Rejected <==>
              (arguments == [] || timeout <= 0.0 || heartbeatSeconds <= 0.0 || teardown <= 0.0)
      ensures exit == Rejected ==> now == old(now) && delivered == old(delivered)
      ensures exit != Rejected ==> old(now) <= now <= old(now) + timeout + teardown + 2.0 * slack
      ensures exit in {Returned, NonZero} ==> gone && (exit == Returned <==> status == 0)
      ensures exit == DeadlineExceeded ==> now >= old(now) + timeout
      // `worked` waits are for the command: all but the last of them time out, and the last decides
      ensures exit == CleanupExceeded ==>
                now >= old(now) + teardown || BrokenIn(old(waited) + worked, waited)
      ensures exit != Rejected ==>
                && worked > 0 && old(waited) + worked <= waited
                && forall k :: old(waited) <= k < old(waited) + worked - 1 ==> waits(k) == TimedOut
      ensures exit != Rejected ==>
                match waits(old(waited) + worked - 1)
                case Finished => exit in {Returned, NonZero, CleanupExceeded}
                case TimedOut => exit == DeadlineExceeded
                case Broken => exit == Raised
      ensures exit != Rejected ==> delivered == old(delivered) + if hasInput then 1 else 0
    {
      if arguments == [] || timeout <= 0.0 || heartbeatSeconds <= 0.0 || teardown <= 0.0 {
        return Rejected, 0;
      }
      var result;
      ghost var beats;
      result, beats := Work(hasInput, now + timeout, heartbeatSeconds);
      worked := waited - old(waited);
      if result != Finished {
        var _ := Terminate(teardown);
        return if result == TimedOut then DeadlineExceeded else Raised, worked;
      }
      var left := GroupExists();
      if left {
        var ended := Terminate(teardown);
        if !ended { return CleanupExceeded, worked; }
      }
      return if status == 0 then Returned else NonZero, worked;
    }
  }
}
