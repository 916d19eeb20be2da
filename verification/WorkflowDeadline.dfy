/** The overall work deadline of an administrative workflow (`WorkflowDeadline`), handed down to
    nested processes through the environment, and the command adapter that obeys it
    (`Commands`). */
module WorkflowDeadline {
  import opened Common
  import opened ProcessRunner

  datatype Deadline = Deadline(name: string, expiresAt: real)

  /** The deadline variables of an environment, as `start` reads them. */
  datatype Inherited =
    | Absent                     // unset or empty
    | Unusable                   // not a number, not positive, or not finite
    | Given(deadline: Deadline)

  datatype Started = InvalidBudget | InvalidInherited | Started(deadline: Deadline)

  /** `WorkflowDeadline.start` at time `now`. */
  function Start(name: string, budget: real, inherited: Inherited, now: real): Started {
    if budget <= 0.0 then InvalidBudget
    else
      var own := Deadline(name, now + budget);
      match inherited
      case Absent => Started(own)
      case Unusable => InvalidInherited
      case Given(d) =>
        if d.expiresAt <= 0.0 then InvalidInherited
        else Started(if d.expiresAt <= own.expiresAt then d else own)
  }

  // ------------------------------------------------------------------ nested workflows

  /** One process of a chain: what it calls itself, its budget, and when it starts. */
  datatype Process = Process(name: string, budget: real, at: real)

  function Own(p: Process): Deadline { Deadline(p.name, p.at + p.budget) }

  ghost predicate Proper(chain: seq<Process>) {
    forall i :: 0 <= i < |chain| ==> chain[i].budget > 0.0 && chain[i].at >= 0.0
  }

  /** The deadline of the innermost process when each one starts in the environment exported by the
      one before it. */
  function Effective(chain: seq<Process>, inherited: Inherited): Started
    requires chain != []
    decreases chain
  {
    var p := chain[|chain| - 1];
    if |chain| == 1 then Start(p.name, p.budget, inherited, p.at)
    else
      match Effective(chain[..|chain| - 1], inherited)
      case Started(outer) => Start(p.name, p.budget, Given(outer), p.at)
      case failed => failed
  }

  /** `i` is the outermost process whose own deadline is the earliest of the chain. */
  ghost predicate FirstEarliest(chain: seq<Process>, i: nat) {
    i < |chain|
    && (forall j :: 0 <= j < |chain| ==> Own(chain[i]).expiresAt <= Own(chain[j]).expiresAt)
    && (forall j :: 0 <= j < i ==> Own(chain[i]).expiresAt < Own(chain[j]).expiresAt)
  }

  /** However deep workflows nest, the deadline in force is the earliest one of the whole chain, and
      it is reported under the name of the outermost workflow that set it. */
  lemma {:induction false} NestingTakesTheEarliest(chain: seq<Process>) returns (i: nat)
    requires chain != [] && Proper(chain)
    ensures FirstEarliest(chain, i)
    ensures Effective(chain, Absent) == Started(Own(chain[i]))
  {
    var last := |chain| - 1;
    if last == 0 { return 0; }
    var outer := chain[..last];
    assert Proper(outer) by {
      forall j | 0 <= j < |outer| ensures outer[j].budget > 0.0 && outer[j].at >= 0.0 {
        assert outer[j] == chain[j];
      }
    }
    i := NestingTakesTheEarliest(outer);
    assert forall j :: 0 <= j < last ==> outer[j] == chain[j];
    if Own(chain[last]).expiresAt < Own(chain[i]).expiresAt { i := last; }
  }

  // ------------------------------------------------------------------ the command adapter

  datatype CommandExit =
    | Output                // normal return
    | WorkflowExpired       // WorkflowDeadlineError
    | CommandFailed         // CommandError
    | Refused               // a budget is not positive, or there is no command
    | Other                 // the wait raised something else

  /** What a workflow does: commands, whose failure ends it unless it is tolerated (`succeeds`),
      and protected cleanups, which may nest. */
  datatype Task =
    | Command(arguments: seq<string>, timeout: real, tolerated: bool)
    | Cleanup(name: string, seconds: real, body: seq<Task>)

  const Teardown: real := 10.0

  /** What one command may take beyond its deadline. */
  function Grace(slack: real): real { Teardown + 2.0 * slack }

  /** The time that cleanups may add to the workflow they are called from: theirs, not that of their
      commands, however many these are and whatever time limits they ask for. */
  function CleanupTime(tasks: seq<Task>, slack: real): (t: real)
    requires slack >= 0.0
    ensures t >= 0.0
  {
    if tasks == [] then 0.0 else TaskTime(tasks[0], slack) + CleanupTime(tasks[1..], slack)
  }

  function TaskTime(task: Task, slack: real): (t: real)
    requires slack >= 0.0
    ensures t >= 0.0
  {
    match task
    case Command(_, _, _) => 0.0
    case Cleanup(_, seconds, body) =>
      if seconds <= 0.0 then 0.0 else seconds + Grace(slack) + CleanupTime(body, slack)
  }

  /** The commands of a workflow, in order, those of its cleanups among them. */
  function AllCommands(tasks: seq<Task>): seq<Task> {
    if tasks == [] then [] else CommandsOf(tasks[0]) + AllCommands(tasks[1..])
  }

  function CommandsOf(task: Task): seq<Task> {
    match task
    case Command(_, _, _) => [task]
    case Cleanup(_, _, body) => AllCommands(body)
  }

  /** Every cleanup has a budget. */
  predicate Budgeted(tasks: seq<Task>) {
    tasks == [] || (BudgetedTask(tasks[0]) && Budgeted(tasks[1..]))
  }

  predicate BudgetedTask(task: Task) {
    match task
    case Command(_, _, _) => true
    case Cleanup(_, seconds, body) => seconds > 0.0 && Budgeted(body)
  }

  /** A command that was run, and how it ended. */
  datatype Performed = Performed(task: Task, exit: CommandExit)

  predicate Passed(p: Performed) {
    p.task.Command? && (p.exit == Output || (p.task.tolerated && p.exit == CommandFailed))
  }

  /** The commands performed are the first of those asked for, all but the last passed, and the last one
      too exactly when the whole succeeded; unless a cleanup had no budget, success is all of them. */
  ghost predicate InOrder(done: seq<Performed>, commands: seq<Task>, budgeted: bool, ok: bool) {
    && |done| <= |commands| && (forall i :: 0 <= i < |done| ==> done[i].task == commands[i])
    && (forall i :: 0 <= i < |done| - 1 ==> Passed(done[i]))
    && (ok ==> budgeted && |done| == |commands| && forall i :: 0 <= i < |done| ==> Passed(done[i]))
    && (!ok && budgeted ==> done != [] && !Passed(done[|done| - 1]))
  }

  lemma NothingPerformed()
    ensures InOrder([], [], true, true)
  {
  }

  lemma InOrderAppend(first: seq<Performed>, rest: seq<Performed>, a: seq<Task>, b: seq<Task>, budgeted: bool,
                      budgeted': bool, ok: bool)
    requires InOrder(first, a, budgeted, true) && InOrder(rest, b, budgeted', ok)
    ensures InOrder(first + rest, a + b, budgeted && budgeted', ok)
  {
  }

  lemma InOrderStopped(done: seq<Performed>, a: seq<Task>, b: seq<Task>, budgeted: bool, budgeted': bool)
    requires InOrder(done, a, budgeted, false)
    ensures InOrder(done, a + b, budgeted && budgeted', false)
  {
  }

  /** Without cleanups nothing is added to the deadline's grace. */
  lemma {:induction false} CommandsAddNothing(tasks: seq<Task>, slack: real)
    requires slack >= 0.0 && forall i :: 0 <= i < |tasks| ==> tasks[i].Command?
    ensures CleanupTime(tasks, slack) == 0.0
  {
    if tasks != [] { CommandsAddNothing(tasks[1..], slack); }
  }

  class Commands {
    const slack: real
    var now: real
    var deadline: Option<Deadline>
    var exported: Inherited            // what a child process finds in its environment
    ghost var log: seq<Performed>      // the commands of workflows, as they were run

    function Export(d: Option<Deadline>): Inherited {
      if d.Some? then Given(d.value) else Absent
    }

    /** The environment of a child carries the deadline in force, and no other. */
    ghost predicate Valid() reads this {
      slack >= 0.0 && now >= 0.0 && exported == Export(deadline)
    }

    /** The environment handed to the constructor may hold another workflow's deadline; it does
        not survive. */
    constructor (slack: real, now: real, inherited: Inherited, deadline: Option<Deadline>)
      requires slack >= 0.0 && now >= 0.0
      ensures Valid() && this.slack == slack && this.now == now && this.deadline == deadline
    {
      this.slack, this.now, this.deadline := slack, now, deadline;
      exported, log := inherited, [];
      new;
      ExportDeadline(deadline);
    }

    /** `_export_deadline`. */
    method ExportDeadline(d: Option<Deadline>)
      modifies this`exported
      ensures exported == Export(d)
    {
      exported := Absent;
      if d.Some? { exported := Given(d.value); }
    }

    /** `remaining_timeout`; without a value it raises. */
    method RemainingTimeout(phaseLimit: real) returns (selected: Option<real>, expired: bool)
      requires Valid()
      ensures selected.None? <==>
              (deadline.Some? && (phaseLimit <= 0.0 || deadline.value.expiresAt <= now))
      ensures selected.Some? ==> selected.value <= phaseLimit
      ensures selected.Some? && deadline.Some? ==>
                0.0 < selected.value <= deadline.value.expiresAt - now
      ensures selected.Some? ==>
                (selected.value == phaseLimit
                 || (deadline.Some? && selected.value == deadline.value.expiresAt - now))
      ensures expired <==>
              (deadline.Some? && phaseLimit > 0.0 && deadline.value.expiresAt <= now)
    {
      if deadline.None? { return Some(phaseLimit), false; }
      if phaseLimit <= 0.0 { return None, false; }
      var remaining := deadline.value.expiresAt - now;
      if remaining <= 0.0 { return None, true; }
      return Some(Min(phaseLimit, remaining)), false;
    }

    /** `run`: no command starts after the deadline, none ends later than the grace period after it
        or after its own limit, a command that is cut off by the workflow's deadline is reported as
        such and never as a mere command failure, and output means that nothing of the command is
        left running. */
    method Run(arguments: seq<string>, hasInput: bool, timeout: real)
      returns (exit: CommandExit, child: Child?, ghost worked: nat)
      requires Valid()
      modifies this`now
      ensures Valid()
      ensures old(now) <= now
      ensures deadline.Some? && deadline.value.expiresAt <= old(now) ==>
                now == old(now) && exit == if timeout <= 0.0 then Refused else WorkflowExpired
      ensures exit != Refused && now != old(now) ==> now <= old(now) + timeout + Grace(slack)
      ensures now != old(now) && deadline.Some? ==> now <= deadline.value.expiresAt + Grace(slack)
      ensures exit == Refused <==> (timeout <= 0.0
                                    || (arguments == [] && (deadline.None? || old(now) < deadline.value.expiresAt)))
      ensures exit == Refused ==> now == old(now)
      ensures exit == WorkflowExpired ==> deadline.Some? && deadline.value.expiresAt <= now
      ensures exit == CommandFailed && deadline.Some? ==> now < deadline.value.expiresAt
      // the child that was started, if any: output is that of a command that succeeded and of whose
      // process group nothing is left, and it was handed its input once
      ensures child == null <==> exit == Refused || (deadline.Some? && deadline.value.expiresAt <= old(now))
      ensures child == null ==> now == old(now)
      ensures child != null ==> fresh(child) && child.now == now && child.delivered == if hasInput then 1 else 0
      ensures exit == Output ==> child != null && child.gone && child.status == 0
      // the last of the waits for the command decides, the others having timed out: a command that has
      // finished with status zero is output, unless its teardown broke or used up its budget
      ensures child != null ==>
                && 0 < worked <= child.waited && (forall k :: 0 <= k < worked - 1 ==> child.waits(k) == TimedOut)
                && match child.waits(worked - 1)
                   case Finished =>
                     exit in {Output, CommandFailed, WorkflowExpired}
                     && (child.status == 0 && exit != Output ==>
                         child.BrokenIn(worked, child.waited) || now >= old(now) + Teardown)
                   case TimedOut => exit in {CommandFailed, WorkflowExpired}
                   case Broken => exit == Other
    {
      child, worked := null, 0;
      var selected, expired := RemainingTimeout(timeout);
      if selected.None? { return if expired then WorkflowExpired else Refused, null, 0; }
      var status: int := *;
      var waits: nat -> Wait := *;
      var started := new Child(slack, now, status, waits);
      var result;
      result, worked := started.RunCommand(arguments, hasInput, selected.value, 30.0, Teardown);
      now := started.now;
      if result != Rejected { child := started; }
      match result {
        case Rejected => exit := Refused;
        case Returned => exit := Output;
        case Raised => exit := Other;
        case NonZero | DeadlineExceeded | CleanupExceeded =>
          exit := if deadline.Some? && deadline.value.expiresAt <= now then WorkflowExpired
                  else CommandFailed;
      }
    }

    /** A workflow's steps under a deadline end within the grace period after it, plus the budgets
        of the cleanups they start; whatever happens, the deadline and its export are the ones
        found. */
    method PerformAll(tasks: seq<Task>) returns (ok: bool)
      requires Valid() && deadline.Some?
      modifies this
      ensures Valid() && deadline == old(deadline)
      ensures old(now) <= now
      ensures now <= Max(old(now), deadline.value.expiresAt + Grace(slack)) + CleanupTime(tasks, slack)
      // the commands are run in order until one does not pass
      ensures old(log) <= log && InOrder(log[|old(log)|..], AllCommands(tasks), Budgeted(tasks), ok)
      decreases tasks, 0
    {
      hide InOrder;
      if tasks == [] {
        NothingPerformed();
        assert log[|old(log)|..] == [];
        return true;
      }
      ok := Perform(tasks[0]);
      ghost var first := log[|old(log)|..];
      if ok {
        ghost var mid := |log|;
        ok := PerformAll(tasks[1..]);
        InOrderAppend(first, log[mid..], CommandsOf(tasks[0]), AllCommands(tasks[1..]), BudgetedTask(tasks[0]),
                      Budgeted(tasks[1..]), ok);
        assert log[|old(log)|..] == first + log[mid..];
      } else {
        InOrderStopped(first, CommandsOf(tasks[0]), AllCommands(tasks[1..]), BudgetedTask(tasks[0]),
                       Budgeted(tasks[1..]));
      }
    }

    method Perform(task: Task) returns (ok: bool)
      requires Valid() && deadline.Some?
      modifies this
      ensures Valid() && deadline == old(deadline)
      ensures old(now) <= now
      ensures now <= Max(old(now), deadline.value.expiresAt + Grace(slack)) + TaskTime(task, slack)
      ensures old(log) <= log && InOrder(log[|old(log)|..], CommandsOf(task), BudgetedTask(task), ok)
      decreases task
    {
      match task
      case Command(arguments, timeout, tolerated) =>
        var exit, child, worked := Run(arguments, false, timeout);
        ok := exit == Output || (tolerated && exit == CommandFailed);
        ghost var entry := Performed(task, exit);
        log := log + [entry];
        assert log[|old(log)|..] == [entry];
      case Cleanup(name, seconds, body) =>
        ok := WithCleanupBudget(name, seconds, body);
    }

    /** `cleanup_budget` around a body: even when the workflow's own deadline has passed, the body
        gets its budget, and no more than it (with one command's grace, and the budgets of cleanups
        nested in it), no matter how many commands it holds; afterwards the previous deadline is in
        force and exported again. */
    method WithCleanupBudget(name: string, seconds: real, body: seq<Task>) returns (ok: bool)
      requires Valid()
      modifies this
      ensures Valid() && deadline == old(deadline)
      ensures old(now) <= now <= old(now) + TaskTime(Cleanup(name, seconds, body), slack)
      ensures seconds <= 0.0 ==> !ok && now == old(now)
      ensures old(log) <= log && InOrder(log[|old(log)|..], AllCommands(body), seconds > 0.0 && Budgeted(body), ok)
      decreases body, 1
    {
      var previous := deadline;
      var cleanup := Start(name, seconds, Absent, now);
      if !cleanup.Started? { return false; }
      deadline := Some(cleanup.deadline);
      ExportDeadline(deadline);
      ok := PerformAll(body);
      deadline := previous;
      ExportDeadline(previous);
    }
  }
}
