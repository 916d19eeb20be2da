/** The QA snapshot command (`snapshot_nodes`): pause the running VMs, snapshot every VM, and resume
    what was paused, whatever fails on the way. */
module VmSnapshot {
  import opened Common

  type Node = string

  datatype Status = Running | Frozen | Stopped

  /** When a snapshot was taken, and which VMs were running then. */
  datatype Taken = Taken(step: nat, running: set<Node>)

  datatype Vm = Vm(status: Status, snapshots: map<string, Taken>)

  type Vms = map<Node, Vm>

  function RunningIn(vms: Vms): set<Node> { set n | n in vms && vms[n].status == Running }

  /** One `lxc` command completes, fails, or is cut short by a signal; in the last two cases it may
      or may not have taken effect. */
  datatype Reply = Done | Errs(applied: bool) | Signals(applied: bool)

  datatype Raise = Calm | Error | Signal

  function RaiseOf(reply: Reply): Raise {
    match reply case Done => Calm case Errs(_) => Error case Signals(_) => Signal
  }

  function Applied(reply: Reply): bool {
    match reply case Done => true case Errs(a) => a case Signals(a) => a
  }

  datatype SnapshotExit =
    | Normal                                    // normal return
    | Refused                                   // raised while listing nodes, before any change
    | AdminError(resumeFailed: seq<Node>)       // AdminError naming the nodes that did not resume
    | Interrupted(resumeFailed: seq<Node>)      // a signal, re-raised after the clean-up with a note
    | CleanupInterrupted                        // a signal during the clean-up itself

  ghost predicate SameStatusExcept(before: Vms, after: Vms, nodes: set<Node>) {
    && after.Keys == before.Keys
    && (forall n :: n in after ==> after[n].snapshots == before[n].snapshots)
    && (forall n :: n in after && n !in nodes ==> after[n].status == before[n].status)
  }

  /** Statuses alone do not change, and no snapshot under another name does. */
  ghost predicate SameExceptSnapshot(before: Vms, after: Vms, name: string) {
    && after.Keys == before.Keys
    && (forall n :: n in after ==> after[n].status == before[n].status)
    && (forall n :: n in after ==> after[n].snapshots - {name} == before[n].snapshots - {name})
  }

  ghost predicate Has(vms: Vms, n: Node, name: string, from: nat) {
    n in vms && name in vms[n].snapshots && vms[n].snapshots[name].step >= from
  }

  /** Every snapshot under that name was taken before. */
  ghost predicate Past(vms: Vms, name: string, step: nat) {
    forall n :: n in vms && name in vms[n].snapshots ==> vms[n].snapshots[name].step < step
  }

  /** Every snapshot under that name stood before, or was taken while exactly those VMs ran. */
  ghost predicate TakenWhile(before: Vms, after: Vms, name: string, running: set<Node>) {
    forall n :: n in after && name in after[n].snapshots ==>
      || (n in before && name in before[n].snapshots && after[n].snapshots[name] == before[n].snapshots[name])
      || after[n].snapshots[name].running == running
  }

  /** Every snapshot under that name stood before, or was taken of one of the VMs while none of them ran. */
  ghost predicate TakenQuietly(before: Vms, after: Vms, name: string, nodes: set<Node>) {
    forall n :: n in after && name in after[n].snapshots ==>
      || (n in before && name in before[n].snapshots && after[n].snapshots[name] == before[n].snapshots[name])
      || (n in nodes && after[n].snapshots[name].running !! nodes)
  }

  /** No VM is lost, nor a snapshot under another name, and a VM that was not running is as it was. */
  ghost predicate Kept(before: Vms, after: Vms, name: string) {
    && after.Keys == before.Keys
    && (forall n :: n in after ==> after[n].snapshots - {name} == before[n].snapshots - {name})
    && (forall n :: n in after && before[n].status != Running ==> after[n].status == before[n].status)
  }

  /** Whoever ran runs again, or is named as a resume failure; only a clean-up cut short leaves it open. */
  ghost predicate BackRunning(before: Vms, after: Vms, exit: SnapshotExit) {
    forall n :: n in before && n in after && before[n].status == Running ==>
      || after[n].status == Running || exit == CleanupInterrupted
      || ((exit.AdminError? || exit.Interrupted?) && n in exit.resumeFailed)
  }

  ghost function Members(s: seq<Node>): set<Node> { set n | n in s }

  class Fleet {
    const replies: nat -> Reply
    var step: nat
    var vms: Vms

    constructor (replies: nat -> Reply, vms: Vms)
      ensures this.replies == replies && step == 0 && this.vms == vms
    {
      this.replies, step, this.vms := replies, 0, vms;
    }

    /** Some command from `from` up to `to` failed or was cut short. */
    ghost predicate Disturbed(from: nat, to: nat) { exists k :: from <= k < to && replies(k) != Done }

    lemma Unmoved(at: nat)
      ensures !Disturbed(at, at)
    {
    }

    lemma Joined(from: nat, mid: nat, to: nat)
      requires from <= mid <= to
      ensures Disturbed(from, to) <==> Disturbed(from, mid) || Disturbed(mid, to)
    {
    }

    /** One of these commands was cut short by a signal. */
    ghost predicate Signalled(from: nat, to: nat) { exists k :: from <= k < to && replies(k).Signals? }

    /** A query about one VM; it fails on a VM that does not exist. */
    method Query(n: Node) returns (raised: Raise)
      modifies this`step
      ensures step == old(step) + 1
      ensures raised == if n !in vms && replies(old(step)).Done? then Error else RaiseOf(replies(old(step)))
      ensures n in vms ==> (raised == Calm <==> !Disturbed(old(step), step))
    {
      raised := if n !in vms && replies(step).Done? then Error else RaiseOf(replies(step));
      step := step + 1;
    }

    /** A command that gives one VM the value `vm`. */
    method Command(n: Node, vm: Vm) returns (raised: Raise)
      requires n in vms
      modifies this`step, this`vms
      ensures step == old(step) + 1 && raised == RaiseOf(replies(old(step)))
      ensures raised == Calm <==> !Disturbed(old(step), step)
      ensures vms == if Applied(replies(old(step))) then old(vms)[n := vm] else old(vms)
    {
      raised := RaiseOf(replies(step));
      if Applied(replies(step)) { vms := vms[n := vm]; }
      step := step + 1;
    }

    /** The VMs that answer.  A query that fails makes the node count as absent. */
    method Existing(all: seq<Node>) returns (raised: Raise, existing: seq<Node>)
      requires Distinct(all)
      modifies this`step
      ensures step >= old(step)
      ensures raised != Error
      ensures raised == Calm ==> step == old(step) + |all|
      ensures raised == Calm <==> !Signalled(old(step), old(step) + |all|)
      ensures forall n :: n in existing ==> n in all && n in vms
      ensures raised == Calm ==> forall i :: 0 <= i < |all| ==>
                (all[i] in existing <==> all[i] in vms && replies(old(step) + i).Done?)
      ensures Distinct(existing)
    {
      existing, raised := [], Calm;
      var i := 0;
      while i < |all|
        invariant 0 <= i <= |all| && step == old(step) + i && raised == Calm
        invariant forall n :: n in existing ==> n in all[..i] && n in vms
        invariant forall j :: 0 <= j < i ==> (all[j] in existing <==> all[j] in vms && replies(old(step) + j).Done?)
        invariant !Signalled(old(step), step)
        invariant Distinct(existing)
      {
        NotYet(all, i);
        raised := Query(all[i]);
        if raised == Signal { return; }
        assert all[..i + 1] == all[..i] + [all[i]];
        if raised == Calm { existing := existing + [all[i]]; }
        raised := Calm;
        i := i + 1;
      }
    }

    /** Those of them that run. */
    method RunningAmong(existing: seq<Node>) returns (raised: Raise, running: seq<Node>)
      requires forall n :: n in existing ==> n in vms
      modifies this`step
      ensures step >= old(step) && (raised == Calm <==> !Disturbed(old(step), step))
      ensures raised == Calm ==> step == old(step) + |existing|
      ensures raised == Calm ==> forall n :: n in running <==> n in existing && vms[n].status == Running
    {
      running, raised := [], Calm;
      var i := 0;
      while i < |existing|
        invariant 0 <= i <= |existing| && step == old(step) + i && raised == Calm && !Disturbed(old(step), step)
        invariant forall n :: n in running <==> n in existing[..i] && vms[n].status == Running
      {
        raised := Query(existing[i]);
        if raised != Calm { return; }
        assert existing[..i + 1] == existing[..i] + [existing[i]];
        if vms[existing[i]].status == Running { running := running + [existing[i]]; }
        i := i + 1;
      }
      assert existing[..i] == existing;
    }

    /** The pause loop: a node enters `paused` before its command is issued. */
    method PauseAll(running: seq<Node>) returns (raised: Raise, paused: seq<Node>)
      requires forall n :: n in running ==> n in vms
      modifies this`step, this`vms
      ensures step >= old(step) && (raised == Calm <==> !Disturbed(old(step), step))
      ensures SameStatusExcept(old(vms), vms, Members(paused))
      ensures forall n :: n in paused ==> n in running
      ensures raised == Calm ==> forall n :: n in running ==> vms[n].status == Frozen
    {
      paused, raised := [], Calm;
      var i := 0;
      while i < |running|
        invariant 0 <= i <= |running| && step >= old(step) && raised == Calm && !Disturbed(old(step), step)
        invariant SameStatusExcept(old(vms), vms, Members(paused))
        invariant forall n :: n in paused ==> n in running
        invariant forall k :: 0 <= k < i ==> vms[running[k]].status == Frozen
      {
        var n := running[i];
        paused := paused + [n];
        raised := Command(n, vms[n].(status := Frozen));
        if raised != Calm { return; }
        i := i + 1;
      }
    }

    /** `lxc delete` of a snapshot. */
    method DeleteSnapshot(n: Node, name: string) returns (raised: Raise)
      requires n in vms
      modifies this`step, this`vms
      ensures step == old(step) + 1 && raised == RaiseOf(replies(old(step)))
      ensures raised == Calm <==> !Disturbed(old(step), step)
      ensures SameExceptSnapshot(old(vms), vms, name)
      ensures forall other :: other in vms && other != n ==> vms[other] == old(vms)[other]
      ensures vms[n] ==
                if Applied(replies(old(step))) then old(vms)[n].(snapshots := old(vms)[n].snapshots - {name})
                else old(vms)[n]
    {
      raised := Command(n, vms[n].(snapshots := vms[n].snapshots - {name}));
    }

    /** `lxc snapshot`: the VMs are recorded as they are. */
    method TakeSnapshot(n: Node, name: string) returns (raised: Raise)
      requires n in vms
      modifies this`step, this`vms
      ensures step == old(step) + 1 && raised == RaiseOf(replies(old(step)))
      ensures raised == Calm <==> !Disturbed(old(step), step)
      ensures SameExceptSnapshot(old(vms), vms, name)
      ensures forall other :: other in vms && other != n ==> vms[other] == old(vms)[other]
      ensures vms[n] ==
                if Applied(replies(old(step)))
                then old(vms)[n].(snapshots :=
                                  old(vms)[n].snapshots[name := Taken(old(step), RunningIn(old(vms)))])
                else old(vms)[n]
    {
      raised := Command(n, vms[n].(snapshots := vms[n].snapshots[name := Taken(step, RunningIn(vms))]));
    }

    /** One node of the snapshot loop. */
    method SnapshotOne(n: Node, name: string) returns (raised: Raise, replaced: bool)
      requires n in vms
      modifies this`step, this`vms
      ensures step >= old(step) && (raised == Calm <==> !Disturbed(old(step), step))
      ensures SameExceptSnapshot(old(vms), vms, name)
      ensures forall other :: other in vms && other != n ==> vms[other] == old(vms)[other]
      ensures TakenWhile(old(vms), vms, name, RunningIn(old(vms)))
      // two inventories, the snapshot, and the deletion of an earlier one
      ensures raised == Calm ==> step == old(step) + if replaced then 4 else 3
      ensures raised == Calm ==> Has(vms, n, name, old(step)) && (replaced <==> name in old(vms)[n].snapshots)
      ensures replaced ==> name in old(vms)[n].snapshots
      // an earlier snapshot is gone unreported only when its deletion raised after taking effect
      ensures name in old(vms)[n].snapshots && vms[n] != old(vms)[n] && !replaced ==>
                raised != Calm && exists k :: old(step) <= k < step && replies(k) != Done && Applied(replies(k))
    {
      hide Fleet.Disturbed;
      replaced := false;
      ghost var s0 := step;
      raised := Query(n);
      if raised != Calm { return; }
      ghost var first, s1 := vms, step;
      if name in vms[n].snapshots {
        raised := DeleteSnapshot(n, name);
        Joined(s0, s1, step);
        if raised != Calm { return; }
        replaced := true;
      }
      ghost var second, s2 := vms, step;
      raised := TakeSnapshot(n, name);
      Joined(s0, s2, step);
      SameExceptTransitive(first, second, vms, name);
      hide SameExceptSnapshot;
      if raised != Calm { return; }
      ghost var s3 := step;
      raised := Query(n);
      Joined(s0, s3, step);
      if raised == Calm && name !in vms[n].snapshots { raised := Error; }
    }

    /** The snapshot loop. */
    method SnapshotAll(existing: seq<Node>, name: string)
      returns (raised: Raise, replaced: seq<Node>, created: seq<Node>)
      requires (forall n :: n in existing ==> n in vms) && Distinct(existing)
      modifies this`step, this`vms
      ensures step >= old(step) && (raised == Calm <==> !Disturbed(old(step), step))
      ensures SameExceptSnapshot(old(vms), vms, name)
      ensures TakenWhile(old(vms), vms, name, RunningIn(old(vms)))
      ensures forall n :: n in created ==> n in existing && Has(vms, n, name, old(step))
      ensures raised == Calm ==> created == existing
      ensures forall n :: n in replaced ==> n in existing && name in old(vms)[n].snapshots
      ensures forall n :: n in vms && n !in existing ==> vms[n] == old(vms)[n]
      ensures forall n :: n in vms && name in old(vms)[n].snapshots && vms[n] != old(vms)[n] && n !in replaced ==>
                raised != Calm && exists k :: old(step) <= k < step && replies(k) != Done && Applied(replies(k))
    {
      hide Fleet.Disturbed;
      Unmoved(step);
      replaced, created, raised := [], [], Calm;
      var i := 0;
      while i < |existing|
        invariant 0 <= i <= |existing| && step >= old(step) && raised == Calm && !Disturbed(old(step), step)
        invariant SameExceptSnapshot(old(vms), vms, name)
        invariant TakenWhile(old(vms), vms, name, RunningIn(old(vms)))
        invariant created == existing[..i]
        invariant forall n :: n in existing[..i] ==> Has(vms, n, name, old(step))
        invariant forall n :: n in replaced ==> n in existing[..i] && name in old(vms)[n].snapshots
        invariant forall n :: n in vms && n !in existing[..i] ==> vms[n] == old(vms)[n]
        invariant forall n :: n in existing[..i] && name in old(vms)[n].snapshots ==> n in replaced
      {
        var n, was := existing[i], false;
        ghost var before := vms;
        NotYet(existing, i);
        ghost var from := step;
        raised, was := SnapshotOne(n, name);
        Joined(old(step), from, step);
        SameExceptTransitive(old(vms), before, vms, name);
        TakenAlong(old(vms), before, vms, name);
        if was { replaced := replaced + [n]; }
        if raised != Calm { return; }
        created := created + [n];
        assert existing[..i + 1] == existing[..i] + [n];
        i := i + 1;
      }
      assert existing[..i] == existing;
    }

    /** One node of the resume loop. */
    method Resume(n: Node) returns (raised: Raise)
      requires n in vms
      modifies this`step, this`vms
      ensures step >= old(step) && (raised == Calm <==> !Disturbed(old(step), step))
      ensures vms == old(vms) || vms == old(vms)[n := old(vms)[n].(status := Running)]
      ensures raised == Calm ==> vms[n].status == Running
    {
      raised := Query(n);
      if raised == Calm && vms[n].status != Running {
        hide Fleet.Disturbed;
        ghost var asked := step;
        raised := Command(n, vms[n].(status := Running));
        Joined(old(step), asked, step);
      }
    }

    /** The `finally` loop: newest first, every paused node is looked at and started if need be;
        failures are collected, only a signal ends the loop early. */
    method ResumeAll(paused: seq<Node>) returns (signalled: bool, failed: seq<Node>)
      requires forall n :: n in paused ==> n in vms
      modifies this`step, this`vms
      ensures step >= old(step) && (signalled || failed != [] <==> Disturbed(old(step), step))
      ensures SameStatusExcept(old(vms), vms, Members(paused))
      ensures forall n :: n in vms ==> vms[n].status == old(vms)[n].status || vms[n].status == Running
      ensures forall n :: n in failed ==> n in paused
      ensures !signalled ==> forall n :: n in paused ==> vms[n].status == Running || n in failed
    {
      hide Fleet.Disturbed;
      Unmoved(step);
      failed := [];
      var i := |paused|;
      while i > 0
        invariant 0 <= i <= |paused| && step >= old(step)
        invariant SameStatusExcept(old(vms), vms, Members(paused))
        invariant forall n :: n in vms ==> vms[n].status == old(vms)[n].status || vms[n].status == Running
        invariant (forall n :: n in failed ==> n in paused) && (failed != [] <==> Disturbed(old(step), step))
        invariant forall k :: i <= k < |paused| ==> vms[paused[k]].status == Running || paused[k] in failed
      {
        i := i - 1;
        var n := paused[i];
        ghost var before := step;
        var raised := Resume(n);
        Joined(old(step), before, step);
        if raised == Signal { return true, failed; }
        if raised == Error { failed := failed + [n]; }
      }
      return false, failed;
    }

    /** The protected part. */
    method PauseAndSnapshot(existing: seq<Node>, running: seq<Node>, name: string)
      returns (raised: Raise, paused: seq<Node>, replaced: seq<Node>, created: seq<Node>, ghost between: Vms)
      requires (forall n :: n in existing ==> n in vms) && Distinct(existing)
      requires forall n :: n in running <==> n in existing && vms[n].status == Running
      modifies this`step, this`vms
      ensures step >= old(step) && (raised == Calm <==> !Disturbed(old(step), step))
      ensures SameStatusExcept(old(vms), between, Members(paused)) && SameExceptSnapshot(between, vms, name)
      ensures forall n :: n in paused ==> n in running
      ensures forall n :: n in created ==> Has(vms, n, name, old(step))
      ensures raised == Calm ==> created == existing
      ensures TakenQuietly(old(vms), vms, name, Members(existing))
      ensures forall n :: n in vms && n !in existing ==> vms[n].snapshots == old(vms)[n].snapshots
      ensures forall n :: n in vms && name in old(vms)[n].snapshots && name !in vms[n].snapshots && n !in replaced ==>
                raised != Calm && exists k :: old(step) <= k < step && replies(k) != Done && Applied(replies(k))
    {
      replaced, created := [], [];
      raised, paused := PauseAll(running);
      between := vms;
      if raised == Calm { raised, replaced, created := SnapshotAll(existing, name); }
    }

    /** The snapshots taken from that step on are of VMs that were not running, and no VM was whose
        existence query, issued in turn from that step on, got through. */
    ghost predicate TakenAtRest(vms: Vms, name: string, from: nat, all: seq<Node>) {
      forall n :: Has(vms, n, name, from) ==>
        && n !in vms[n].snapshots[name].running
        && forall i :: 0 <= i < |all| && all[i] in vms && replies(from + i).Done? ==>
             all[i] !in vms[n].snapshots[name].running
    }

    lemma NothingTaken(vms: Vms, name: string, from: nat, all: seq<Node>)
      requires Past(vms, name, from)
      ensures TakenAtRest(vms, name, from, all)
    {
    }

    lemma AtRest(first: Vms, last: Vms, name: string, from: nat, all: seq<Node>, nodes: set<Node>)
      requires Past(first, name, from) && TakenQuietly(first, last, name, nodes) && Kept(first, last, name)
      requires forall i :: 0 <= i < |all| && all[i] in first && replies(from + i).Done? ==> all[i] in nodes
      ensures TakenAtRest(last, name, from, all)
    {
    }

    /** A snapshot under that name that is gone without being reported as replaced: its deletion raised
        after taking effect. */
    ghost predicate LostOnlyByFailure(before: Vms, after: Vms, name: string, replaced: seq<Node>, from: nat, to: nat) {
      (exists n :: n in after && n in before && name in before[n].snapshots && name !in after[n].snapshots
                   && n !in replaced) ==>
        exists k :: from <= k < to && replies(k) != Done && Applied(replies(k))
    }

    /** From the first pause to the last resume. */
    method PauseSnapshotResume(existing: seq<Node>, running: seq<Node>, name: string)
      returns (exit: SnapshotExit, replaced: seq<Node>, created: seq<Node>)
      requires (forall n :: n in existing ==> n in vms) && Distinct(existing)
      requires forall n :: n in running <==> n in existing && vms[n].status == Running
      modifies this`step, this`vms
      ensures step >= old(step) && exit != Refused && (exit == Normal <==> !Disturbed(old(step), step))
      ensures Kept(old(vms), vms, name) && BackRunning(old(vms), vms, exit)
      ensures TakenQuietly(old(vms), vms, name, Members(existing))
      ensures forall n :: n in created ==> Has(vms, n, name, old(step))
      ensures exit == Normal ==> created == existing
      ensures forall n :: n in vms && n !in existing ==> vms[n].snapshots == old(vms)[n].snapshots
      ensures LostOnlyByFailure(old(vms), vms, name, replaced, old(step), step)
      ensures exit == Normal ==> forall n :: n in vms && name in old(vms)[n].snapshots ==>
                name in vms[n].snapshots || n in replaced
    {
      hide SameStatusExcept, SameExceptSnapshot, TakenQuietly, Kept, BackRunning, Fleet.Disturbed;
      var raised, paused;
      ghost var first, between, from := vms, vms, step;
      raised, paused, replaced, created, between := PauseAndSnapshot(existing, running, name);
      ghost var snapshotted, mid := vms, step;
      var signalled, failed := ResumeAll(paused);
      Joined(from, mid, step);
      Resumed(first, between, snapshotted, vms, Members(paused), name);
      SameTaken(first, snapshotted, vms, name, Members(existing));
      exit := if signalled then CleanupInterrupted
              else if raised == Signal then Interrupted(failed)
              else if raised == Error || failed != [] then AdminError(failed)
              else Normal;
      RunsAgain(first, vms, paused, exit, failed);
    }

    /** `snapshot_nodes`, for every pattern of failures and signals. */
    method SnapshotNodes(all: seq<Node>, name: string)
      returns (exit: SnapshotExit, replaced: seq<Node>, created: seq<Node>)
      requires Distinct(all) && Past(vms, name, step)
      modifies this`step, this`vms
      ensures exit == Refused ==> vms == old(vms)
      // it returns normally exactly when no existence query is cut short and every later command
      // completes: an existence query that merely fails does not show
      ensures exit == Normal <==> !Signalled(old(step), old(step) + |all|) && !Disturbed(old(step) + |all|, step)
      // no exit loses a VM, a snapshot under another name, or touches a VM that was not running
      ensures Kept(old(vms), vms, name)
      // resume: whoever ran runs again, unless named as a resume failure
      ensures BackRunning(old(vms), vms, exit)
      // a normal return has snapshotted exactly the VMs whose existence query got through
      ensures exit == Normal ==> forall i :: 0 <= i < |all| && all[i] in old(vms) ==>
                (Has(vms, all[i], name, old(step)) <==> replies(old(step) + i).Done?)
      // no snapshot is taken of a running VM, or while another VM runs whose existence query got through
      ensures TakenAtRest(vms, name, old(step), all)
      // reported snapshots exist
      ensures forall n :: n in created ==> Has(vms, n, name, old(step))
      // a previous snapshot disappears unreported only from an abnormal exit, and only when its deletion
      // raised after taking effect
      ensures LostOnlyByFailure(old(vms), vms, name, replaced, old(step), step)
      ensures exit == Normal ==> forall n :: n in vms && name in old(vms)[n].snapshots ==>
                name in vms[n].snapshots || n in replaced
    {
      hide Kept, BackRunning, TakenQuietly, Fleet.TakenAtRest;
      NothingTaken(vms, name, step, all);
      Untouched(vms, name);
      ghost var first, from := vms, step;
      var raised, existing := Existing(all);
      if raised != Calm { return Refused, [], []; }
      var running;
      raised, running := RunningAmong(existing);
      if raised != Calm { return Refused, [], []; }
      ghost var listed := step;
      exit, replaced, created := PauseSnapshotResume(existing, running, name);
      AtRest(first, vms, name, from, all, Members(existing));
    }
  }

  /** A running VM whose existence query fails is skipped: the command returns normally, and the VM
      has no snapshot. */
  method QueryFailureSkips(name: string) returns (exit: SnapshotExit, fleet: Fleet)
    ensures exit == Normal && fleet.vms.Keys == {"vm"} && name !in fleet.vms["vm"].snapshots
  {
    fleet := new Fleet(n => if n == 0 then Errs(false) else Done, map["vm" := Vm(Running, map[])]);
    var all := ["vm"];
    ghost var before := fleet.vms;
    var replaced, created;
    exit, replaced, created := fleet.SnapshotNodes(all, name);
    assert all[0] in before && fleet.replies(0 + 0) != Done;
    assert !Has(fleet.vms, all[0], name, 0);
  }

  lemma Untouched(vms: Vms, name: string)
    ensures Kept(vms, vms, name) && BackRunning(vms, vms, Refused)
  {
  }

  /** What pausing some running VMs, snapshotting and resuming amount to. */
  lemma Resumed(first: Vms, between: Vms, snapshotted: Vms, last: Vms, paused: set<Node>, name: string)
    requires SameStatusExcept(first, between, paused) && SameExceptSnapshot(between, snapshotted, name)
    requires SameStatusExcept(snapshotted, last, paused)
    requires forall n :: n in paused ==> n in first && first[n].status == Running
    ensures last.Keys == snapshotted.Keys == first.Keys && Kept(first, last, name)
    ensures forall n :: n in last ==> last[n].snapshots == snapshotted[n].snapshots
    ensures forall n :: n in last && n !in paused ==> last[n].status == first[n].status
  {
  }

  lemma SameTaken(first: Vms, snapshotted: Vms, last: Vms, name: string, nodes: set<Node>)
    requires TakenQuietly(first, snapshotted, name, nodes) && last.Keys == snapshotted.Keys
    requires forall n :: n in last ==> last[n].snapshots == snapshotted[n].snapshots
    ensures TakenQuietly(first, last, name, nodes)
  {
  }

  lemma RunsAgain(first: Vms, last: Vms, paused: seq<Node>, exit: SnapshotExit, failed: seq<Node>)
    requires last.Keys == first.Keys
    requires forall n :: n in last && n !in paused ==> last[n].status == first[n].status
    requires exit != CleanupInterrupted ==> forall n :: n in paused && n in last ==>
               last[n].status == Running || n in failed
    requires exit.AdminError? || exit.Interrupted? ==> exit.resumeFailed == failed
    requires exit == Normal ==> failed == []
    requires exit != Refused
    ensures BackRunning(first, last, exit)
  {
  }

  lemma TakenAlong(a: Vms, b: Vms, c: Vms, name: string)
    requires SameExceptSnapshot(a, b, name)
    requires TakenWhile(a, b, name, RunningIn(a)) && TakenWhile(b, c, name, RunningIn(b))
    ensures TakenWhile(a, c, name, RunningIn(a))
  {
    assert RunningIn(a) == RunningIn(b);
  }

  lemma NotYet(s: seq<Node>, i: nat)
    requires Distinct(s) && i < |s|
    ensures s[i] !in s[..i]
  {
  }

  lemma SameExceptTransitive(a: Vms, b: Vms, c: Vms, name: string)
    requires SameExceptSnapshot(a, b, name) && SameExceptSnapshot(b, c, name)
    ensures SameExceptSnapshot(a, c, name)
  {
  }
}
