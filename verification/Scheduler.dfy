/** The scheduler (src/threading/scheduler.rs): its operations as steps, each ending where the
    next task is activated, and the class that performs them. */
module Scheduler {
  import opened Wrappers
  import opened RoundRobin

  const QUANTUM: nat := 20

  datatype Sched = Sched(tasks: seq<Task>, ticks: nat, nextId: nat, cur: Cursor, enabled: bool) {
    predicate HasCurrent() {
      cur < |tasks|
    }

    /** The current task, if there is one, put into another state. */
    function Mark(state: TaskState): Sched {
      if HasCurrent() then this.(tasks := tasks[cur := tasks[cur].(state := state)]) else this
    }

    /** `deactivate` on the current task, if there is one. */
    function Save(context: Context): Sched {
      if HasCurrent() then this.(tasks := tasks[cur := tasks[cur].(saved := Some(context))]) else this
    }
  }

  const INITIAL: Sched := Sched([], 0, 0, WORD - 2, false)

  /** What happens to the tasks: one is pushed with its entry point, a context is saved, one is
      started at its entry point, one is resumed from a context. */
  datatype Event =
    | Spawned(pid: nat, entry: nat)
    | Saved(pid: nat, context: Context)
    | Entered(pid: nat, entry: nat)
    | Resumed(pid: nat, context: Context)

  datatype Outcome = Next(s: Sched, events: seq<Event>) | Spins | Panics

  function ActivateEvent(t: Task): Event {
    match t.saved
    case None => Entered(t.pid, t.entry)
    case Some(context) => Resumed(t.pid, context)
  }

  function SaveEvents(s: Sched, context: Context): seq<Event> {
    if s.HasCurrent() then [Saved(s.tasks[s.cur].pid, context)] else []
  }

  /** `swap_tasks`: save the current task, select, mark and activate. */
  function Swap(s: Sched, context: Context): Outcome
    requires |s.tasks| < WORD
  {
    var s1 := s.Save(context).(ticks := 0);
    if s.tasks == [] then Next(s1, [])
    else
      match Select(s1.tasks, s1.cur)
      case Endless => Spins
      case Panicked => Panics
      case Selected(tasks, at) =>
        SelectOnRing(s1.tasks, s1.cur);
        Next(s1.(tasks := tasks, cur := at).Mark(RUNNING), SaveEvents(s, context) + [ActivateEvent(tasks[at])])
  }

  function FindPid(tasks: seq<Task>, pid: nat): (i: nat)
    ensures i <= |tasks|
    ensures i < |tasks| ==> tasks[i].pid == pid
    ensures forall j :: 0 <= j < i ==> tasks[j].pid != pid
  {
    if tasks == [] || tasks[0].pid == pid then 0 else 1 + FindPid(tasks[1..], pid)
  }

  datatype Op =
    | Enable
    | Tick(context: Context)
    | BlockCurrent(context: Context)
    | PushTask(entry: nat)
    | EndTask(pid: nat)
    | EndCurrent(context: Context)

  /** The contexts are what the registers hold when `deactivate` runs. */
  function Step(s: Sched, op: Op): Outcome
    requires |s.tasks| < WORD
  {
    match op
    case Enable => Next(s.(enabled := true), [])
    case Tick(context) =>
      if !s.enabled then Next(s, [])
      else if s.ticks + 1 < QUANTUM then Next(s.(ticks := s.ticks + 1), [])
      else Swap(s.(ticks := s.ticks + 1).Mark(READY), context)
    case BlockCurrent(context) => Swap(s.Mark(WAITING), context)
    case PushTask(entry) =>
      if |s.tasks| >= WORD - 2 then Panics
      else
        var t := Task(READY, s.nextId + 1, entry, None);
        Next(s.(tasks := s.tasks + [t], nextId := s.nextId + 2), [Spawned(t.pid, entry)])
    case EndTask(pid) =>
      var i := FindPid(s.tasks, pid);
      Next(if i < |s.tasks| then s.(tasks := s.tasks[i := s.tasks[i].(state := DONE)]) else s, [])
    case EndCurrent(context) =>
      if !s.HasCurrent() then Panics else Swap(s.Mark(DONE), context)
  }

  /** The invariant of every reachable state: pids increase along the deque, at most the task
      under the cursor is RUNNING, and that task is RUNNING or has been ended. */
  ghost predicate Inv(s: Sched) {
    && |s.tasks| <= WORD - 2
    && PidsIncrease(s.tasks)
    && (forall i :: 0 <= i < |s.tasks| ==> s.tasks[i].pid < s.nextId)
    && s.ticks < QUANTUM
    && (forall i :: 0 <= i < |s.tasks| && s.tasks[i].state.RUNNING? ==> i == s.cur)
    && (s.HasCurrent() ==> s.tasks[s.cur].state.RUNNING? || s.tasks[s.cur].state.DONE?)
    && (!s.HasCurrent() ==> s.cur == WORD - 2)
  }

  /** A state in the middle of an operation: the current task has just left RUNNING. */
  ghost predicate Switching(s: Sched) {
    && |s.tasks| <= WORD - 2
    && PidsIncrease(s.tasks)
    && (forall i :: 0 <= i < |s.tasks| ==> s.tasks[i].pid < s.nextId)
    && (forall i :: 0 <= i < |s.tasks| ==> !s.tasks[i].state.RUNNING?)
    && (!s.HasCurrent() ==> s.cur == WORD - 2)
  }

  lemma SaveSwitches(s: Sched, context: Context)
    requires Switching(s)
    ensures var s1 := s.Save(context).(ticks := 0);
            && Switching(s1) && |s1.tasks| == |s.tasks|
            && forall i :: 0 <= i < |s.tasks| ==>
                s1.tasks[i].state == s.tasks[i].state && s1.tasks[i].pid == s.tasks[i].pid
  {
  }

  lemma DispatchRestores(s: Sched, tasks: seq<Task>, at: nat)
    requires Switching(s) && s.ticks == 0
    requires at < |tasks| <= |s.tasks| && PidsIncrease(tasks)
    requires forall t :: t in tasks ==> t in s.tasks
    ensures Inv(s.(tasks := tasks, cur := at).Mark(RUNNING))
  {
    forall i | 0 <= i < |tasks| ensures tasks[i].pid < s.nextId && !tasks[i].state.RUNNING? {
      assert tasks[i] in tasks;
    }
  }

  ghost predicate SomeReady(s: Sched) {
    exists i :: 0 <= i < |s.tasks| && s.tasks[i].state.READY?
  }

  /** Switching never panics, spins exactly when no task is READY, and otherwise restores the
      invariant with the chosen task RUNNING under the cursor. */
  lemma SwapOutcome(s: Sched, context: Context)
    requires Switching(s)
    ensures match Swap(s, context)
            case Panics => false
            case Spins => s.tasks != [] && !SomeReady(s)
            case Next(s', events) =>
              && (s.tasks == [] ==> s' == s.(ticks := 0))
              && (s.tasks != [] ==> SomeReady(s) && Inv(s') && s'.HasCurrent() && s'.tasks[s'.cur].state.RUNNING?)
  {
    if s.tasks != [] {
      var s1 := s.Save(context).(ticks := 0);
      SaveSwitches(s, context);
      assert forall t :: t in s1.tasks ==> !t.state.RUNNING?;
      SelectOutcome(s1.tasks, s1.cur);
      var sel := Select(s1.tasks, s1.cur);
      if sel.Selected? {
        DispatchRestores(s1, sel.tasks, sel.at);
        hide Inv, Switching, Select;
        var i :| 0 <= i < |s1.tasks| && s1.tasks[i] == sel.tasks[sel.at];
        assert s.tasks[i].state.READY?;
      } else {
        hide Inv, Switching, Select;
        forall i | 0 <= i < |s.tasks| ensures !s.tasks[i].state.READY? {
          assert s1.tasks[i] in s1.tasks;
        }
      }
    }
  }

  predicate Switches(s: Sched, op: Op) {
    match op
    case Tick(_) => s.enabled && s.ticks + 1 >= QUANTUM
    case BlockCurrent(_) => true
    case EndCurrent(_) => s.HasCurrent()
    case _ => false
  }

  /** A quantum can end in an endless selection only before anything has run; blocking or ending
      the current task does so whenever no other task is READY. */
  ghost predicate LeavesNobody(s: Sched, op: Op) {
    Switches(s, op) && s.tasks != [] && !SomeReady(s) && !(op.Tick? && s.HasCurrent())
  }

  function MarkOf(op: Op): TaskState {
    match op
    case Tick(_) => READY
    case BlockCurrent(_) => WAITING
    case _ => DONE
  }

  /** The state `swap_tasks` is called in. */
  function Marked(s: Sched, op: Op): Sched {
    s.(ticks := if op.Tick? then s.ticks + 1 else s.ticks).Mark(MarkOf(op))
  }

  lemma SwitchIsSwap(s: Sched, op: Op)
    requires Inv(s) && Switches(s, op)
    ensures Switching(Marked(s, op)) && |Marked(s, op).tasks| == |s.tasks|
    ensures Step(s, op) == Swap(Marked(s, op), op.context)
    ensures SomeReady(Marked(s, op)) <==> SomeReady(s) || (op.Tick? && s.HasCurrent())
  {
    var s1 := Marked(s, op);
    assert s1.HasCurrent() ==> s1.tasks[s1.cur].state == MarkOf(op);
    assert forall i :: 0 <= i < |s.tasks| && i != s.cur ==> s1.tasks[i] == s.tasks[i];
    hide Swap;
    if SomeReady(s) {
      var i :| 0 <= i < |s.tasks| && s.tasks[i].state.READY?;
      assert s1.tasks[i].state.READY?;
    }
  }

  lemma PushKeepsInv(s: Sched, entry: nat)
    requires Inv(s) && |s.tasks| < WORD - 2
    ensures Inv(s.(tasks := s.tasks + [Task(READY, s.nextId + 1, entry, None)], nextId := s.nextId + 2))
  {
  }

  lemma EndTaskKeepsInv(s: Sched, pid: nat)
    requires Inv(s)
    ensures var i := FindPid(s.tasks, pid);
            i < |s.tasks| ==> Inv(s.(tasks := s.tasks[i := s.tasks[i].(state := DONE)]))
  {
  }

  lemma QuietStepKeepsInv(s: Sched, op: Op)
    requires Inv(s) && !Switches(s, op)
    ensures match Step(s, op)
            case Next(s', _) => Inv(s')
            case Spins => false
            case Panics => (op.EndCurrent? && !s.HasCurrent()) || (op.PushTask? && |s.tasks| == WORD - 2)
  {
    hide Swap;
    if op.EndTask? {
      EndTaskKeepsInv(s, op.pid);
      hide Inv;
    } else if op.PushTask? && |s.tasks| < WORD - 2 {
      PushKeepsInv(s, op.entry);
      hide Inv;
    }
  }

  /** In every reachable state: the invariant is kept, the panic on a falsely RUNNING task is never
      reached, and a step fails to return exactly when it leaves nobody to run. */
  lemma StepKeepsInv(s: Sched, op: Op)
    requires Inv(s)
    ensures match Step(s, op)
            case Next(s', _) => Inv(s') &&
                (Switches(s, op) && s.tasks != [] ==> s'.HasCurrent() && s'.tasks[s'.cur].state.RUNNING?)
            case Spins => LeavesNobody(s, op)
            case Panics => (op.EndCurrent? && !s.HasCurrent()) || (op.PushTask? && |s.tasks| == WORD - 2)
    ensures Step(s, op).Spins? <==> LeavesNobody(s, op)
  {
    if Switches(s, op) {
      SwitchIsSwap(s, op);
      SwapOutcome(Marked(s, op), op.context);
      hide Swap, Step, SomeReady;
    } else {
      QuietStepKeepsInv(s, op);
      hide Step, SomeReady;
    }
  }

  /** How a call of the selection loop ends: it returns, it panics, or it is still turning. */
  datatype Exit = Returned | Failed | Turning

  /** The scheduler as the source keeps it. The selection loop need not end; `turns` is how many turns
      of it are watched. */
  class TaskScheduler {
    var tasks: seq<Task>
    var currentTaskTicks: nat
    var nextTaskId: nat
    var currentTask: Cursor
    var isEnabled: bool

    ghost function Model(): Sched
      reads this
    {
      Sched(tasks, currentTaskTicks, nextTaskId, currentTask, isEnabled)
    }

    constructor ()
      ensures Model() == INITIAL && Inv(Model())
    {
      tasks, currentTaskTicks, nextTaskId, currentTask, isEnabled := [], 0, 0, WORD - 2, false;
    }

    method EnableTicks()
      requires Inv(Model())
      modifies this
      ensures Next(Model(), []) == Step(old(Model()), Enable) && Inv(Model())
    {
      isEnabled := true;
    }

    /** One turn of the selection loop. */
    method TakeTurn() returns (exit: Exit)
      requires |tasks| < WORD
      modifies this`tasks, this`currentTask
      ensures match old(TurnOf(tasks, currentTask))
              case Chosen(at) => exit == Returned && tasks == old(tasks) && currentTask == at
              case Panic => exit == Failed
              case Continue(left, cursor) => exit == Turning && tasks == left && currentTask == cursor
    {
      exit := Turning;
      currentTask := (currentTask + 1) % WORD;
      if currentTask >= |tasks| {
        currentTask := 0;
      }
      if currentTask < |tasks| {
        match tasks[currentTask].state {
          case DONE =>
            tasks := Remove(tasks, currentTask);
            currentTask := (currentTask + WORD - 1) % WORD;
          case WAITING =>
            // left where it is
          case RUNNING =>
            exit := Failed;
          case READY =>
            exit := Returned;
        }
      }
    }

    /** The selection loop. After as many turns as there are tasks it has ended, if it ends at all. */
    method GetNextTask(turns: nat) returns (exit: Exit)
      requires |tasks| < WORD
      modifies this`tasks, this`currentTask
      ensures old(tasks) == [] ==> exit == Returned && tasks == [] && currentTask == old(currentTask)
      ensures old(tasks) != [] ==>
                var whole := old(Select(tasks, currentTask));
                && (match exit
                    case Returned => whole == Selected(tasks, currentTask)
                    case Failed => whole == Panicked
                    case Turning => old(Turns(tasks, currentTask, turns)) == Continue(tasks, currentTask))
                && (turns >= |old(tasks)| ==> (exit == Turning <==> whole == Endless))
    {
      hide Select, Ring, FirstRunnable;
      if tasks == [] {
        return Returned;
      }
      ghost var whole, first := Select(tasks, currentTask), FirstRunnable(Ring(tasks, currentTask));
      EndlessIff(tasks, currentTask);
      for n := 0 to turns
        invariant |tasks| < WORD
        invariant old(Turns(tasks, currentTask, turns)) == Turns(tasks, currentTask, turns - n)
        invariant if tasks == [] then whole == Endless else Select(tasks, currentTask) == whole
        invariant whole != Endless ==> FirstRunnable(Ring(tasks, currentTask)) <= first - n
      {
        if tasks != [] {
          SelectTurn(tasks, currentTask);
        } else {
          EmptyTurn(currentTask);
        }
        hide TurnOf, Slot;
        exit := TakeTurn();
        if exit != Turning {
          return;
        }
      }
      exit := Turning;
    }

    /** `swap_tasks`, up to the activation of the task it picks. */
    method SwapTasks(context: Context, turns: nat) returns (exit: Exit, events: seq<Event>)
      requires |tasks| < WORD
      modifies this`tasks, this`currentTask, this`currentTaskTicks
      ensures match exit
              case Returned => old(Swap(Model(), context)) == Next(Model(), events)
              case Failed => old(Swap(Model(), context)) == Panics
              case Turning => turns >= |old(tasks)| ==> old(Swap(Model(), context)) == Spins
    {
      hide Select;
      ghost var s := Model();
      events := [];
      if currentTask < |tasks| {
        events := [Saved(tasks[currentTask].pid, context)];
        tasks := tasks[currentTask := tasks[currentTask].(saved := Some(context))];
      }
      currentTaskTicks := 0;
      ghost var s1 := Model();
      assert s1 == s.Save(context).(ticks := 0) && events == SaveEvents(s, context);
      if s1.tasks != [] {
        SelectInRange(s1.tasks, s1.cur);
      }
      exit := GetNextTask(turns);
      if exit == Returned && tasks != [] {
        ghost var chosen := s1.(tasks := tasks, cur := currentTask);
        events := events + [ActivateEvent(tasks[currentTask])];
        tasks := tasks[currentTask := tasks[currentTask].(state := RUNNING)];
        assert Model() == chosen.Mark(RUNNING);
      }
    }

    method Tick(context: Context, turns: nat) returns (exit: Exit, events: seq<Event>)
      requires Inv(Model())
      modifies this
      ensures exit == Returned ==> Step(old(Model()), Op.Tick(context)) == Next(Model(), events) && Inv(Model())
      ensures exit != Failed
      ensures turns >= |old(tasks)| ==> (exit == Turning <==> Step(old(Model()), Op.Tick(context)) == Spins)
    {
      ghost var s := Model();
      StepKeepsInv(s, Op.Tick(context));
      if !isEnabled {
        return Returned, [];
      }
      currentTaskTicks := currentTaskTicks + 1;
      if currentTaskTicks >= QUANTUM {
        SwitchIsSwap(s, Op.Tick(context));
        if currentTask < |tasks| {
          tasks := tasks[currentTask := tasks[currentTask].(state := READY)];
        }
        assert Model() == Marked(s, Op.Tick(context));
        hide Swap, Step, Inv, Switching;
        exit, events := SwapTasks(context, turns);
      } else {
        return Returned, [];
      }
    }

    method BlockCurrent(context: Context, turns: nat) returns (exit: Exit, events: seq<Event>)
      requires Inv(Model())
      modifies this
      ensures exit == Returned ==> Step(old(Model()), Op.BlockCurrent(context)) == Next(Model(), events) && Inv(Model())
      ensures exit != Failed
      ensures turns >= |old(tasks)| ==> (exit == Turning <==> Step(old(Model()), Op.BlockCurrent(context)) == Spins)
    {
      ghost var s := Model();
      StepKeepsInv(s, Op.BlockCurrent(context));
      SwitchIsSwap(s, Op.BlockCurrent(context));
      if currentTask < |tasks| {
        tasks := tasks[currentTask := tasks[currentTask].(state := WAITING)];
      }
      assert Model() == Marked(s, Op.BlockCurrent(context));
      hide Swap, Step, Inv, Switching;
      exit, events := SwapTasks(context, turns);
    }

    method PushTask(entry: nat) returns (pid: nat)
      requires Inv(Model()) && |tasks| < WORD - 2
      modifies this
      ensures Step(old(Model()), Op.PushTask(entry)) == Next(Model(), [Spawned(pid, entry)]) && Inv(Model())
      ensures pid == old(nextTaskId) + 1 && nextTaskId == old(nextTaskId) + 2
      ensures tasks == old(tasks) + [Task(READY, pid, entry, None)] && currentTask == old(currentTask)
    {
      nextTaskId := nextTaskId + 1;
      pid := nextTaskId;
      tasks := tasks + [Task(READY, pid, entry, None)];
      nextTaskId := nextTaskId + 1;
    }

    method EndTask(pid: nat) returns (found: bool)
      requires Inv(Model())
      modifies this
      ensures Step(old(Model()), Op.EndTask(pid)) == Next(Model(), []) && Inv(Model())
      ensures found <==> exists i :: 0 <= i < |tasks| && tasks[i].pid == pid
    {
      StepKeepsInv(Model(), Op.EndTask(pid));
      var i := FindPid(tasks, pid);
      found := i < |tasks|;
      if found {
        tasks := tasks[i := tasks[i].(state := DONE)];
        assert tasks[i].pid == pid;
      }
    }

    /** Panics exactly when there is no current task; it does not get to the end of its body. */
    method EndCurrentTask(context: Context, turns: nat) returns (exit: Exit, events: seq<Event>)
      requires Inv(Model())
      modifies this
      ensures exit == Returned ==> Step(old(Model()), Op.EndCurrent(context)) == Next(Model(), events) && Inv(Model())
      ensures exit == Failed <==> old(currentTask >= |tasks|)
      ensures turns >= |old(tasks)| ==> (exit == Turning <==> Step(old(Model()), Op.EndCurrent(context)) == Spins)
    {
      if currentTask >= |tasks| {
        return Failed, [];
      }
      ghost var s := Model();
      StepKeepsInv(s, Op.EndCurrent(context));
      SwitchIsSwap(s, Op.EndCurrent(context));
      tasks := tasks[currentTask := tasks[currentTask].(state := DONE)];
      assert Model() == Marked(s, Op.EndCurrent(context));
      hide Swap, Step, Inv, Switching;
      exit, events := SwapTasks(context, turns);
    }
  }

  lemma EmptyTurn(cur: Cursor)
    ensures TurnOf([], cur) == Continue([], 0)
  {
  }

  lemma EndlessIff(tasks: seq<Task>, cur: Cursor)
    requires 0 < |tasks| < WORD
    ensures Select(tasks, cur) == Endless <==> FirstRunnable(Ring(tasks, cur)) == |tasks|
  {
    SelectOnRing(tasks, cur);
  }

  lemma SelectInRange(tasks: seq<Task>, cur: Cursor)
    requires 0 < |tasks| < WORD
    ensures Select(tasks, cur).Selected? ==> Select(tasks, cur).at < |Select(tasks, cur).tasks|
  {
    SelectOnRing(tasks, cur);
  }
}
