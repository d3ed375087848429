/** What holds over whole runs of the scheduler: who can run again, which contexts are resumed,
    and how long a READY task can wait. */
module SchedulerRuns {
  import opened Wrappers
  import opened RoundRobin
  import opened Scheduler

  /** A run of operations; it is cut short by an operation that does not return. */
  ghost function Run(s: Sched, ops: seq<Op>): Outcome
    requires Inv(s)
    decreases |ops|
  {
    if ops == [] then Next(s, [])
    else
      StepKeepsInv(s, ops[0]);
      match Step(s, ops[0])
      case Next(s1, events) =>
        (match Run(s1, ops[1..])
         case Next(s2, more) => Next(s2, events + more)
         case other => other)
      case other => other
  }

  lemma {:induction false} RunKeepsInv(s: Sched, ops: seq<Op>)
    requires Inv(s)
    ensures Run(s, ops).Next? ==> Inv(Run(s, ops).s)
    decreases |ops|
  {
    if ops != [] {
      StepKeepsInv(s, ops[0]);
      var o := Step(s, ops[0]);
      hide Inv, Step;
      if o.Next? {
        RunKeepsInv(o.s, ops[1..]);
      }
    }
  }

  predicate IsActivation(e: Event, p: nat) {
    (e.Entered? || e.Resumed?) && e.pid == p
  }

  predicate Activates(events: seq<Event>, p: nat) {
    exists e :: e in events && IsActivation(e, p)
  }

  predicate OutOfPlay(t: Task) {
    t.state.WAITING? || t.state.DONE?
  }

  /** No task `p` is left that could be chosen. */
  ghost predicate Retired(s: Sched, p: nat) {
    p < s.nextId && forall i :: 0 <= i < |s.tasks| && s.tasks[i].pid == p ==> OutOfPlay(s.tasks[i])
  }

  /** ... and none is under the cursor, where a tick would make it READY again. */
  ghost predicate Parked(s: Sched, p: nat) {
    Retired(s, p) && (s.HasCurrent() ==> s.tasks[s.cur].pid != p)
  }

  /** `swap_tasks` spelled out, for a deque that is not empty. */
  ghost predicate SwapsTo(s1: Sched, sel: Selection, saves: seq<Event>, o: Outcome) {
    && sel.Selected? && sel.at < |sel.tasks| && sel.tasks[sel.at] in s1.tasks && sel.tasks[sel.at].state.READY?
    && (forall t :: t in sel.tasks ==> t in s1.tasks)
    && PidsIncrease(sel.tasks)
    && o.Next? && o.s == s1.(tasks := sel.tasks[sel.at := sel.tasks[sel.at].(state := RUNNING)], cur := sel.at)
    && o.events == saves + [ActivateEvent(sel.tasks[sel.at])]
  }

  lemma SwapUnfolds(s: Sched, context: Context)
    requires Switching(s) && s.tasks != [] && Swap(s, context).Next?
    ensures var s1 := s.Save(context).(ticks := 0);
            SwapsTo(s1, Select(s1.tasks, s1.cur), SaveEvents(s, context), Swap(s, context))
  {
    var s1 := s.Save(context).(ticks := 0);
    SaveSwitches(s, context);
    assert forall t :: t in s1.tasks ==> !t.state.RUNNING?;
    SelectOutcome(s1.tasks, s1.cur);
    hide Select, Switching;
  }

  lemma SwapsToParks(s1: Sched, sel: Selection, saves: seq<Event>, o: Outcome, p: nat)
    requires SwapsTo(s1, sel, saves, o) && p < s1.nextId
    requires forall t :: t in s1.tasks && t.pid == p ==> OutOfPlay(t)
    requires forall e :: e in saves ==> e.Saved?
    ensures Parked(o.s, p) && !Activates(o.events, p)
  {
    assert sel.tasks[sel.at].pid != p;
    forall i | 0 <= i < |o.s.tasks| && o.s.tasks[i].pid == p ensures OutOfPlay(o.s.tasks[i]) {
      assert sel.tasks[i] in sel.tasks;
    }
  }

  /** A task that is WAITING or DONE when `swap_tasks` runs is not what it activates. */
  lemma SwapParks(s: Sched, context: Context, p: nat)
    requires Switching(s) && Retired(s, p)
    ensures Swap(s, context).Next? ==> Parked(Swap(s, context).s, p) && !Activates(Swap(s, context).events, p)
  {
    var o := Swap(s, context);
    if s.tasks != [] && o.Next? {
      SwapUnfolds(s, context);
      var s1 := s.Save(context).(ticks := 0);
      assert forall t :: t in s1.tasks && t.pid == p ==> OutOfPlay(t);
      hide *;
      SwapsToParks(s1, Select(s1.tasks, s1.cur), SaveEvents(s, context), o, p);
    }
  }

  lemma StepKeepsParked(s: Sched, op: Op, p: nat)
    requires Inv(s) && Parked(s, p)
    ensures Step(s, op).Next? ==> Parked(Step(s, op).s, p) && !Activates(Step(s, op).events, p)
  {
    if Switches(s, op) {
      SwitchIsSwap(s, op);
      assert Retired(Marked(s, op), p);
      SwapParks(Marked(s, op), op.context, p);
      hide Swap, Step;
    } else {
      hide Swap;
    }
  }

  /** Nothing ever brings a parked task back: the kernel has no operation that readies a WAITING
      task, and a DONE mark off the cursor is final. */
  lemma {:induction false} ParkedForever(s: Sched, ops: seq<Op>, p: nat)
    requires Inv(s) && Parked(s, p)
    ensures Run(s, ops).Next? ==> Parked(Run(s, ops).s, p) && !Activates(Run(s, ops).events, p)
    decreases |ops|
  {
    if ops != [] {
      StepKeepsInv(s, ops[0]);
      StepKeepsParked(s, ops[0], p);
      var o := Step(s, ops[0]);
      hide Inv, Step, Parked;
      if o.Next? {
        ParkedForever(o.s, ops[1..], p);
      }
    }
  }

  /** Blocking or ending the current task parks it for good, as soon as the call gets anywhere:
      what runs next is another task, so nothing after `swap_tasks` in `end_current_task` is
      reached. */
  lemma LeavingParks(s: Sched, op: Op)
    requires Inv(s) && s.HasCurrent() && (op.BlockCurrent? || op.EndCurrent?)
    ensures var p := s.tasks[s.cur].pid;
            match Step(s, op)
            case Next(s', events) => Parked(s', p) && s'.HasCurrent() && events != [] &&
                IsActivation(events[|events| - 1], s'.tasks[s'.cur].pid)
            case Spins => !SomeReady(s)
            case Panics => false
  {
    var p, m := s.tasks[s.cur].pid, Marked(s, op);
    StepKeepsInv(s, op);
    SwitchIsSwap(s, op);
    assert Retired(m, p);
    SwapParks(m, op.context, p);
    if Swap(m, op.context).Next? {
      SwapActivates(m, op.context);
    }
    hide Step, Swap, Inv, Switching, Parked, Retired;
  }

  lemma SwapActivates(s: Sched, context: Context)
    requires Switching(s) && s.tasks != [] && Swap(s, context).Next?
    ensures var o := Swap(s, context);
            o.s.HasCurrent() && o.events != [] && IsActivation(o.events[|o.events| - 1], o.s.tasks[o.s.cur].pid)
  {
    SwapUnfolds(s, context);
    hide Swap, Select, Switching;
  }

  /** `end_task` marks exactly the task it names. */
  lemma EndTaskMarksOne(s: Sched, p: nat)
    requires Inv(s) && exists i :: 0 <= i < |s.tasks| && s.tasks[i].pid == p
    ensures var s' := Step(s, EndTask(p)).s;
            |s'.tasks| == |s.tasks| && forall i :: 0 <= i < |s.tasks| ==>
              s'.tasks[i] == if s.tasks[i].pid == p then s.tasks[i].(state := DONE) else s.tasks[i]
  {
    var k := FindPid(s.tasks, p);
    assert k < |s.tasks|;
  }

  ghost predicate StillInPlay(s: Sched, p: nat) {
    exists i :: 0 <= i < |s.tasks| && s.tasks[i].pid == p && s.tasks[i].Runnable()
  }

  lemma TickKeepsCurrent(s: Sched, context: Context)
    requires Inv(s) && s.HasCurrent() && s.enabled && s.ticks == QUANTUM - 1
    ensures Step(s, Tick(context)).Next? && StillInPlay(Step(s, Tick(context)).s, s.tasks[s.cur].pid)
  {
    var op := Tick(context);
    StepKeepsInv(s, op);
    SwitchIsSwap(s, op);
    SwapUnfolds(Marked(s, op), context);
    var s1 := Marked(s, op).Save(context).(ticks := 0);
    var t := s1.tasks[s1.cur];
    SelectMembers(s1.tasks, s1.cur, t);
    var sel, o := Select(s1.tasks, s1.cur), Step(s, op);
    hide Select, Inv, Switching, Step, Swap;
    var i :| 0 <= i < |sel.tasks| && sel.tasks[i] == t;
    assert o.s.tasks[i].pid == t.pid;
  }

  /** The revival: ending the current task from outside and then letting its quantum run out
      leaves it in the deque, READY or RUNNING. */
  lemma EndedCurrentRevives(s: Sched, context: Context)
    requires Inv(s) && s.HasCurrent() && s.enabled && s.ticks == QUANTUM - 1
    ensures var s1 := Step(s, EndTask(s.tasks[s.cur].pid)).s;
            && s1.tasks[s1.cur].state.DONE? && s1.tasks[s1.cur].pid == s.tasks[s.cur].pid
            && Inv(s1) && Step(s1, Tick(context)).Next?
            && StillInPlay(Step(s1, Tick(context)).s, s.tasks[s.cur].pid)
  {
    var p := s.tasks[s.cur].pid;
    QuietStepKeepsInv(s, EndTask(p));
    var s1 := Step(s, EndTask(p)).s;
    assert FindPid(s.tasks, p) == s.cur;
    TickKeepsCurrent(s1, context);
  }

  ghost predicate NotDone(tasks: seq<Task>, p: nat) {
    exists j :: 0 <= j < |tasks| && tasks[j].pid == p && !tasks[j].state.DONE?
  }

  lemma SwapsToNotDone(s1: Sched, sel: Selection, saves: seq<Event>, o: Outcome, i: nat)
    requires SwapsTo(s1, sel, saves, o) && PidsIncrease(s1.tasks) && i < |s1.tasks|
    requires !s1.tasks[i].state.DONE? ==> s1.tasks[i] in sel.tasks
    ensures NotDone(o.s.tasks, s1.tasks[i].pid) <==> !s1.tasks[i].state.DONE?
  {
    var t := s1.tasks[i];
    if t.state.DONE? {
      forall j | 0 <= j < |o.s.tasks| && o.s.tasks[j].pid == t.pid ensures o.s.tasks[j].state.DONE? {
        assert sel.tasks[j] in s1.tasks;
        var k :| 0 <= k < |s1.tasks| && s1.tasks[k] == sel.tasks[j];
        assert k == i;
      }
    } else {
      var j :| 0 <= j < |sel.tasks| && sel.tasks[j] == t;
      assert o.s.tasks[j].pid == t.pid && !o.s.tasks[j].state.DONE?;
    }
  }

  lemma QuietKeepsDone(s: Sched, op: Op, i: nat)
    requires Inv(s) && i < |s.tasks| && s.tasks[i].state.DONE? && !Switches(s, op) && Step(s, op).Next?
    ensures !NotDone(Step(s, op).s.tasks, s.tasks[i].pid)
  {
    hide Swap;
  }

  lemma SwapUndoes(s: Sched, context: Context, i: nat)
    requires Switching(s) && i < |s.tasks| && Swap(s, context).Next?
    ensures NotDone(Swap(s, context).s.tasks, s.tasks[i].pid) <==> !s.tasks[i].state.DONE?
  {
    SwapUnfolds(s, context);
    SaveSwitches(s, context);
    var s1, saves, o := s.Save(context).(ticks := 0), SaveEvents(s, context), Swap(s, context);
    SelectMembers(s1.tasks, s1.cur, s1.tasks[i]);
    var sel := Select(s1.tasks, s1.cur);
    assert PidsIncrease(s1.tasks) && sel.Selected?;
    hide *;
    SwapsToNotDone(s1, sel, saves, o, i);
  }

  /** A DONE mark is undone by an operation if and only if it is the current task's and the
      operation is a preempting tick or `block_current`. */
  lemma DoneUndoneIff(s: Sched, op: Op, i: nat)
    requires Inv(s) && i < |s.tasks| && s.tasks[i].state.DONE? && Step(s, op).Next?
    ensures NotDone(Step(s, op).s.tasks, s.tasks[i].pid) <==> i == s.cur && Switches(s, op) && !op.EndCurrent?
  {
    if Switches(s, op) {
      SwitchIsSwap(s, op);
      hide Step, Swap, Inv, Switching;
      SwapUndoes(Marked(s, op), op.context, i);
    } else {
      QuietKeepsDone(s, op, i);
      hide Step, Swap, Inv;
    }
  }

  /** The context task `p` was last saved with, by a log of events. */
  function LastSaved(log: seq<Event>, p: nat): Option<Context> {
    if log == [] then None
    else
      var e := log[|log| - 1];
      if e.Saved? && e.pid == p then Some(e.context) else LastSaved(log[..|log| - 1], p)
  }

  predicate HasEntered(log: seq<Event>, p: nat) {
    exists e :: e in log && e.Entered? && e.pid == p
  }

  /** A pid is given out once; a task is entered at most once, at the entry point it was pushed with,
      saved only when it has been entered, and resumed only from the context it was last saved with. */
  predicate Lawful(before: seq<Event>, e: Event) {
    match e
    case Spawned(p, _) => forall d :: d in before ==> d.pid != p
    case Saved(p, _) => HasEntered(before, p)
    case Entered(p, entry) => !HasEntered(before, p) && Spawned(p, entry) in before
    case Resumed(p, context) => LastSaved(before, p) == Some(context)
  }

  predicate LawfulLog(log: seq<Event>) {
    forall n :: 0 <= n < |log| ==> Lawful(log[..n], log[n])
  }

  ghost predicate TaskLogged(log: seq<Event>, t: Task) {
    t.saved == LastSaved(log, t.pid) && Spawned(t.pid, t.entry) in log
  }

  ghost predicate Resumable(log: seq<Event>, t: Task) {
    HasEntered(log, t.pid) ==> t.saved.Some?
  }

  /** How the log and the deque agree; only the current task may be running unsaved. */
  ghost predicate Logged(s: Sched, log: seq<Event>) {
    && LawfulLog(log)
    && (forall e :: e in log ==> e.pid < s.nextId)
    && (forall i :: 0 <= i < |s.tasks| ==> TaskLogged(log, s.tasks[i]))
    && (forall i :: 0 <= i < |s.tasks| && i != s.cur ==> Resumable(log, s.tasks[i]))
    && (s.HasCurrent() ==> HasEntered(log, s.tasks[s.cur].pid))
  }

  /** A saved context means the task has been entered. */
  lemma {:induction false} SavedWasEntered(log: seq<Event>, p: nat)
    requires LawfulLog(log) && LastSaved(log, p).Some?
    ensures HasEntered(log, p)
    decreases |log|
  {
    var n := |log| - 1;
    var e, before := log[n], log[..n];
    assert Lawful(before, e);
    if !(e.Saved? && e.pid == p) {
      assert LawfulLog(before) by {
        forall k | 0 <= k < n ensures Lawful(before[..k], before[k]) {
          assert before[..k] == log[..k];
        }
      }
      SavedWasEntered(before, p);
    }
    var d :| d in before && d.Entered? && d.pid == p;
    assert d in log;
  }

  lemma LogGrows(log: seq<Event>, e: Event, p: nat)
    ensures LastSaved(log + [e], p) == if e.Saved? && e.pid == p then Some(e.context) else LastSaved(log, p)
    ensures HasEntered(log + [e], p) <==> HasEntered(log, p) || (e.Entered? && e.pid == p)
    ensures LawfulLog(log) && Lawful(log, e) ==> LawfulLog(log + [e])
  {
    assert (log + [e])[..|log|] == log;
    if LawfulLog(log) && Lawful(log, e) {
      forall n | 0 <= n < |log + [e]| ensures Lawful((log + [e])[..n], (log + [e])[n]) {
        if n < |log| {
          assert (log + [e])[..n] == log[..n];
        }
      }
    }
  }

  lemma NothingLogged(log: seq<Event>, p: nat)
    requires forall e :: e in log ==> e.pid != p
    ensures LastSaved(log, p) == None && !HasEntered(log, p)
  {
  }

  /** After the save in `swap_tasks` every task, the current one included, can be resumed. */
  ghost predicate AllResumable(s: Sched, log: seq<Event>) {
    && LawfulLog(log)
    && (forall e :: e in log ==> e.pid < s.nextId)
    && (forall t :: t in s.tasks ==> TaskLogged(log, t) && Resumable(log, t))
  }

  lemma SaveLogs(s: Sched, context: Context, log: seq<Event>)
    requires Switching(s) && Logged(s, log)
    ensures AllResumable(s.Save(context).(ticks := 0), log + SaveEvents(s, context))
  {
    var s1, log1 := s.Save(context).(ticks := 0), log + SaveEvents(s, context);
    if s.HasCurrent() {
      var e := Saved(s.tasks[s.cur].pid, context);
      assert log1 == log + [e];
      LogGrows(log, e, 0);
      forall i | 0 <= i < |s1.tasks| ensures TaskLogged(log1, s1.tasks[i]) && Resumable(log1, s1.tasks[i]) {
        LogGrows(log, e, s1.tasks[i].pid);
        assert TaskLogged(log, s.tasks[i]) && (i != s.cur ==> Resumable(log, s.tasks[i]));
        assert i != s.cur ==> s.tasks[i].pid != s.tasks[s.cur].pid;
      }
    } else {
      assert log1 == log;
      forall i | 0 <= i < |s1.tasks| ensures TaskLogged(log1, s1.tasks[i]) && Resumable(log1, s1.tasks[i]) {
        assert TaskLogged(log, s.tasks[i]) && Resumable(log, s.tasks[i]);
      }
    }
  }

  lemma ActivateLogs(s1: Sched, sel: Selection, saves: seq<Event>, o: Outcome, log1: seq<Event>)
    requires SwapsTo(s1, sel, saves, o) && AllResumable(s1, log1)
    requires forall i :: 0 <= i < |s1.tasks| ==> s1.tasks[i].pid < s1.nextId
    ensures Logged(o.s, log1 + [ActivateEvent(sel.tasks[sel.at])])
  {
    var t := sel.tasks[sel.at];
    var e := ActivateEvent(t);
    assert TaskLogged(log1, t) && Resumable(log1, t);
    if t.saved.Some? {
      SavedWasEntered(log1, t.pid);
    }
    LogGrows(log1, e, t.pid);
    LogGrows(log1, e, 0);
    forall i | 0 <= i < |o.s.tasks|
      ensures TaskLogged(log1 + [e], o.s.tasks[i])
      ensures i != o.s.cur ==> Resumable(log1 + [e], o.s.tasks[i])
    {
      LogGrows(log1, e, o.s.tasks[i].pid);
      assert sel.tasks[i] in sel.tasks;
      assert TaskLogged(log1, sel.tasks[i]) && Resumable(log1, sel.tasks[i]);
      assert i != o.s.cur ==> sel.tasks[i].pid != t.pid;
    }
  }

  lemma SwapsToLogs(s1: Sched, sel: Selection, saves: seq<Event>, o: Outcome, log: seq<Event>)
    requires SwapsTo(s1, sel, saves, o) && AllResumable(s1, log + saves) && Switching(s1)
    ensures Logged(o.s, log + o.events)
  {
    hide Logged, AllResumable, PidsIncrease;
    ActivateLogs(s1, sel, saves, o, log + saves);
    var last := [ActivateEvent(sel.tasks[sel.at])];
    assert log + (saves + last) == (log + saves) + last;
  }

  lemma SwapLogs(s: Sched, context: Context, log: seq<Event>)
    requires Switching(s) && Logged(s, log) && Swap(s, context).Next?
    ensures Logged(Swap(s, context).s, log + Swap(s, context).events)
  {
    hide *;
    if s.tasks == [] {
      EmptySwapLogs(s, context, log);
    } else {
      var s1 := s.Save(context).(ticks := 0);
      SaveSwitches(s, context);
      SaveLogs(s, context, log);
      SwapUnfolds(s, context);
      SwapsToLogs(s1, Select(s1.tasks, s1.cur), SaveEvents(s, context), Swap(s, context), log);
    }
  }

  lemma EmptySwapLogs(s: Sched, context: Context, log: seq<Event>)
    requires Switching(s) && Logged(s, log) && s.tasks == []
    ensures Logged(Swap(s, context).s, log + Swap(s, context).events)
  {
    hide LawfulLog, TaskLogged, Resumable, Select;
    assert log + [] == log;
  }

  lemma MarkLogs(s: Sched, op: Op, log: seq<Event>)
    requires Logged(s, log)
    ensures Logged(Marked(s, op), log)
  {
    var s1 := Marked(s, op);
    forall i | 0 <= i < |s1.tasks| ensures TaskLogged(log, s1.tasks[i]) &&
        (i != s1.cur ==> Resumable(log, s1.tasks[i])) {
      assert TaskLogged(log, s.tasks[i]) && (i != s.cur ==> Resumable(log, s.tasks[i]));
    }
  }

  lemma QuietStepLogs(s: Sched, op: Op, log: seq<Event>)
    requires Inv(s) && Logged(s, log) && !Switches(s, op) && !op.PushTask? && Step(s, op).Next?
    ensures Logged(Step(s, op).s, log) && Step(s, op).events == []
  {
    hide Swap;
    var s1 := Step(s, op).s;
    forall i | 0 <= i < |s1.tasks| ensures TaskLogged(log, s1.tasks[i]) &&
        (i != s1.cur ==> Resumable(log, s1.tasks[i])) {
      assert TaskLogged(log, s.tasks[i]) && (i != s.cur ==> Resumable(log, s.tasks[i]));
    }
  }

  lemma PushLogs(s: Sched, entry: nat, log: seq<Event>)
    requires Inv(s) && Logged(s, log) && Step(s, PushTask(entry)).Next?
    ensures Logged(Step(s, PushTask(entry)).s, log + Step(s, PushTask(entry)).events)
  {
    hide Logged;
    var s1, t := Step(s, PushTask(entry)).s, Task(READY, s.nextId + 1, entry, None);
    assert s1 == s.(tasks := s.tasks + [t], nextId := s.nextId + 2);
    assert Step(s, PushTask(entry)).events == [Spawned(s.nextId + 1, entry)];
    assert s.HasCurrent() || s.cur == WORD - 2;
    assert |s.tasks| < WORD - 2;
    hide Step, Inv;
    PushedLogs(s, t, log);
  }

  lemma PushedLogs(s: Sched, t: Task, log: seq<Event>)
    requires Logged(s, log) && t.pid == s.nextId + 1 && t.saved == None && |s.tasks| < WORD - 2
    requires s.HasCurrent() || s.cur == WORD - 2
    ensures Logged(s.(tasks := s.tasks + [t], nextId := s.nextId + 2), log + [Spawned(t.pid, t.entry)])
  {
    hide LawfulLog, TaskLogged, Resumable, HasEntered;
    var s1, e := s.(tasks := s.tasks + [t], nextId := s.nextId + 2), Spawned(t.pid, t.entry);
    PushIsLawful(s, t, log);
    forall i | 0 <= i < |s1.tasks|
      ensures TaskLogged(log + [e], s1.tasks[i]) && (i != s1.cur ==> Resumable(log + [e], s1.tasks[i]))
    {
      if i < |s.tasks| {
        assert TaskLogged(log, s.tasks[i]) && (i != s.cur ==> Resumable(log, s.tasks[i]));
        StaysLogged(log, e, s.tasks[i]);
      }
    }
    if s1.HasCurrent() {
      LogGrows(log, e, s1.tasks[s1.cur].pid);
    }
  }

  lemma PushIsLawful(s: Sched, t: Task, log: seq<Event>)
    requires Logged(s, log) && t.pid == s.nextId + 1 && t.saved == None
    ensures var log1 := log + [Spawned(t.pid, t.entry)];
            LawfulLog(log1) && TaskLogged(log1, t) && Resumable(log1, t)
  {
    var e := Spawned(t.pid, t.entry);
    assert forall d :: d in log ==> d.pid != t.pid;
    assert Lawful(log, e) && LawfulLog(log);
    hide LawfulLog, Lawful, LastSaved, HasEntered, Logged;
    NothingLogged(log, t.pid);
    LogGrows(log, e, t.pid);
  }

  lemma StaysLogged(log: seq<Event>, e: Event, t: Task)
    requires TaskLogged(log, t) && e.Spawned?
    ensures TaskLogged(log + [e], t) && (Resumable(log, t) ==> Resumable(log + [e], t))
  {
    hide LawfulLog, LastSaved, HasEntered;
    LogGrows(log, e, t.pid);
  }

  lemma StepLogs(s: Sched, op: Op, log: seq<Event>)
    requires Inv(s) && Logged(s, log) && Step(s, op).Next?
    ensures Logged(Step(s, op).s, log + Step(s, op).events)
  {
    hide Logged, Swap, Step;
    if Switches(s, op) {
      SwitchIsSwap(s, op);
      MarkLogs(s, op, log);
      SwapLogs(Marked(s, op), op.context, log);
    } else if op.PushTask? {
      PushLogs(s, op.entry, log);
    } else {
      QuietStepLogs(s, op, log);
      assert log + [] == log;
    }
  }

  lemma {:induction false} RunLogs(s: Sched, ops: seq<Op>, log: seq<Event>)
    requires Inv(s) && Logged(s, log)
    ensures Run(s, ops).Next? ==> Logged(Run(s, ops).s, log + Run(s, ops).events)
    decreases |ops|
  {
    hide Step, Logged;
    if ops == [] {
      assert log + [] == log;
    } else {
      StepKeepsInv(s, ops[0]);
      var o := Step(s, ops[0]);
      if o.Next? {
        StepLogs(s, ops[0], log);
        hide Inv;
        RunLogs(o.s, ops[1..], log + o.events);
        var rest := Run(o.s, ops[1..]);
        if rest.Next? {
          assert (log + o.events) + rest.events == log + (o.events + rest.events);
        }
      }
    }
  }

  /** From boot on, in every run: a task starts at most once, at the entry point it was pushed with,
      and every later activation resumes the context saved by its latest deactivation. */
  lemma ContextsAreLawful(ops: seq<Op>)
    ensures Inv(INITIAL)
    ensures Run(INITIAL, ops).Next? ==> LawfulLog(Run(INITIAL, ops).events)
  {
    RunLogs(INITIAL, ops, []);
    if Run(INITIAL, ops).Next? {
      assert [] + Run(INITIAL, ops).events == Run(INITIAL, ops).events;
    }
  }

  /** Task `p` is READY, `d` places from the front of the visiting order. */
  ghost predicate Waits(s: Sched, p: nat, d: nat) {
    d < |s.tasks| && Ring(s.tasks, s.cur)[d].pid == p && Ring(s.tasks, s.cur)[d].state.READY?
  }

  /** Ticks left until `p` must have run, if nothing is pushed meanwhile. */
  function Patience(s: Sched, d: nat): int {
    QUANTUM * (d + 1) - s.ticks
  }

  lemma SaveKeepsWait(s: Sched, context: Context, p: nat, d: nat)
    requires |s.tasks| < WORD && Waits(s, p, d)
    ensures Waits(s.Save(context).(ticks := 0), p, d) && SomeReady(s)
  {
    var s1 := s.Save(context).(ticks := 0);
    var t := Ring(s.tasks, s.cur)[d];
    RingMembers(s.tasks, s.cur, t);
    hide Ring;
    if s.HasCurrent() {
      CurrentIsLast(s.tasks, s.cur, s1.tasks[s.cur]);
    }
  }

  /** The rotation of SelectOnRing, seen from a READY task behind the chosen one. */
  lemma RotationAdvances(tasks: seq<Task>, cur: Cursor, d: nat)
    requires 0 < |tasks| < WORD && Select(tasks, cur).Selected?
    requires d < |tasks| && Ring(tasks, cur)[d].state.READY?
    ensures var sel, t := Select(tasks, cur), Ring(tasks, cur)[d];
            && sel.at < |sel.tasks|
            && (|| sel.tasks[sel.at] == t
                || exists d' :: 0 <= d' < d && d' < |sel.tasks| - 1 && Ring(sel.tasks, sel.at)[d'] == t)
  {
    SelectOnRing(tasks, cur);
    var sel, ring := Select(tasks, cur), Ring(tasks, cur);
    var k := FirstRunnable(ring);
    assert k <= d;
    hide Select, Ring, Unreaped;
    if k < d {
      assert Ring(sel.tasks, sel.at)[d - k - 1] == ring[d];
    }
  }

  /** The same, once the chosen task is marked RUNNING. */
  lemma SwapsToAdvances(s1: Sched, sel: Selection, saves: seq<Event>, o: Outcome, t: Task, d: nat)
    requires SwapsTo(s1, sel, saves, o) && |sel.tasks| < WORD && t.state.READY?
    requires || sel.tasks[sel.at] == t
             || exists d' :: 0 <= d' < d && d' < |sel.tasks| - 1 && Ring(sel.tasks, sel.at)[d'] == t
    ensures Activates(o.events, t.pid) || exists d' :: 0 <= d' < d && Waits(o.s, t.pid, d')
  {
    var at := sel.tasks[sel.at];
    CurrentIsLast(sel.tasks, sel.at, at.(state := RUNNING));
    hide Ring;
    if at == t {
      assert o.events[|o.events| - 1] == ActivateEvent(t);
      assert IsActivation(ActivateEvent(t), t.pid);
    } else {
      var d' :| 0 <= d' < d && d' < |sel.tasks| - 1 && Ring(sel.tasks, sel.at)[d'] == t;
      assert Ring(o.s.tasks, o.s.cur)[d'] == t;
      assert Waits(o.s, t.pid, d');
    }
  }

  /** A switch dispatches the waiting task or brings it strictly closer. */
  lemma SwapAdvances(s: Sched, context: Context, p: nat, d: nat)
    requires Switching(s) && Waits(s, p, d)
    ensures Swap(s, context).Next?
    ensures var o := Swap(s, context);
            Activates(o.events, p) || exists d' :: 0 <= d' < d && Waits(o.s, p, d')
  {
    var s1, o := s.Save(context).(ticks := 0), Swap(s, context);
    SaveKeepsWait(s, context, p, d);
    SwapOutcome(s, context);
    assert s.tasks != [] && o.Next? && 0 < |s1.tasks| < WORD by {
      hide Swap, SomeReady, Inv;
    }
    SwapUnfolds(s, context);
    var sel := Select(s1.tasks, s1.cur);
    hide Swap, Select, Ring, Switching, SwapsTo, SomeReady, Inv;
    assert sel.Selected? by {
      hide Sched.Save;
    }
    RotationAdvances(s1.tasks, s1.cur, d);
    SelectOutcomeSize(s1.tasks, s1.cur);
    SwapsToAdvances(s1, sel, SaveEvents(s, context), o, Ring(s1.tasks, s1.cur)[d], d);
  }

  lemma SelectOutcomeSize(tasks: seq<Task>, cur: Cursor)
    requires 0 < |tasks| < WORD
    ensures Select(tasks, cur).Selected? ==> |Select(tasks, cur).tasks| <= |tasks|
  {
    SelectOnRing(tasks, cur);
  }

  /** The visiting order, place by place. */
  lemma RingAt(tasks: seq<Task>, cur: Cursor, j: nat)
    requires j < |tasks| < WORD
    ensures var c := Slot(cur, |tasks|);
            c < |tasks| && Ring(tasks, cur)[j] == tasks[if j < |tasks| - c then c + j else j - (|tasks| - c)]
  {
    SlotInRange(cur, |tasks|);
  }

  /** The place of slot `i` in the visiting order. */
  function RingPlace(cur: Cursor, len: nat, i: nat): nat
    requires i < len
  {
    var c := Slot(cur, len); if i >= c then i - c else if c <= len then len - c + i else 0
  }

  lemma RingUpdateAt(tasks: seq<Task>, cur: Cursor, i: nat, t: Task, k: nat)
    requires i < |tasks| < WORD && k < |tasks|
    ensures var j := RingPlace(cur, |tasks|, i);
            && j < |tasks| && Ring(tasks, cur)[j] == tasks[i]
            && Ring(tasks[i := t], cur)[k] == if k == j then t else Ring(tasks, cur)[k]
  {
    SlotInRange(cur, |tasks|);
    RingAt(tasks, cur, k);
    RingAt(tasks, cur, RingPlace(cur, |tasks|, i));
    RingAt(tasks[i := t], cur, k);
    hide Slot, Ring;
  }

  lemma RingUpdate(tasks: seq<Task>, cur: Cursor, i: nat, t: Task)
    requires i < |tasks| < WORD
    ensures exists j ::
              && 0 <= j < |tasks| && Ring(tasks, cur)[j] == tasks[i]
              && Ring(tasks[i := t], cur) == Ring(tasks, cur)[j := t]
  {
    hide Ring, RingPlace;
    var before, after, j := Ring(tasks, cur), Ring(tasks[i := t], cur), RingPlace(cur, |tasks|, i);
    RingUpdateAt(tasks, cur, i, t, 0);
    forall k | 0 <= k < |tasks| ensures after[k] == before[j := t][k] {
      RingUpdateAt(tasks, cur, i, t, k);
    }
    assert after == before[j := t];
  }

  /** A push lands behind everyone or puts one more task in front. */
  lemma RingPush(tasks: seq<Task>, cur: Cursor, t: Task, d: nat)
    requires d < |tasks| < WORD - 2 && (cur < |tasks| || cur == WORD - 2)
    ensures Ring(tasks + [t], cur)[d] == Ring(tasks, cur)[d] || Ring(tasks + [t], cur)[d + 1] == Ring(tasks, cur)[d]
  {
    SlotInRange(cur, |tasks|);
    SlotInRange(cur, |tasks| + 1);
    RingAt(tasks, cur, d);
    RingAt(tasks + [t], cur, d);
    RingAt(tasks + [t], cur, d + 1);
    var c, c' := Slot(cur, |tasks|), Slot(cur, |tasks| + 1);
    assert c' == c || (c == 0 && c' == |tasks|);
    hide Slot, Ring;
  }

  ghost predicate CloserBy(s: Sched, s': Sched, p: nat, d: nat, slack: int) {
    exists d' :: Waits(s', p, d') && Patience(s', d') <= Patience(s, d) + slack
  }

  lemma QuietWait(s: Sched, op: Op, p: nat, d: nat)
    requires Inv(s) && Waits(s, p, d) && op != EndTask(p) && !Switches(s, op) && Step(s, op).Next?
    ensures CloserBy(s, Step(s, op).s, p, d, if op.PushTask? then QUANTUM else if op.Tick? && s.enabled then -1 else 0)
  {
    hide Swap, Ring;
    var s1 := Step(s, op).s;
    if op.PushTask? {
      var t := Task(READY, s.nextId + 1, op.entry, None);
      RingPush(s.tasks, s.cur, t, d);
      if Ring(s1.tasks, s1.cur)[d] == Ring(s.tasks, s.cur)[d] {
        assert Waits(s1, p, d);
      } else {
        assert Waits(s1, p, d + 1);
      }
    } else if op.EndTask? && FindPid(s.tasks, op.pid) < |s.tasks| {
      var i := FindPid(s.tasks, op.pid);
      RingUpdate(s.tasks, s.cur, i, s.tasks[i].(state := DONE));
      assert Waits(s1, p, d);
    } else {
      assert Waits(s1, p, d);
    }
  }

  lemma SwitchWait(s: Sched, op: Op, p: nat, d: nat)
    requires Inv(s) && Waits(s, p, d) && Switches(s, op)
    ensures Step(s, op).Next?
    ensures Activates(Step(s, op).events, p) || CloserBy(s, Step(s, op).s, p, d, -1)
  {
    var s1 := Marked(s, op);
    SwitchIsSwap(s, op);
    if s.HasCurrent() {
      CurrentIsLast(s.tasks, s.cur, s1.tasks[s.cur]);
    }
    assert Waits(s1, p, d);
    SwapAdvances(s1, op.context, p, d);
    StepKeepsInv(s, op);
    var o := Step(s, op);
    SwapResets(s1, op.context);
    hide Step, Swap, Waits;
    if !Activates(o.events, p) {
      var d' :| 0 <= d' < d && Waits(o.s, p, d');
      assert Patience(o.s, d') <= Patience(s, d) - 1;
    }
  }

  lemma SwapResets(s: Sched, context: Context)
    requires |s.tasks| < WORD
    ensures Swap(s, context).Next? ==> Swap(s, context).s.ticks == 0 && Swap(s, context).s.enabled == s.enabled
  {
    hide Select;
  }

  /** One operation: the waiting task is activated, or its patience shrinks with every enabled
      tick and grows by at most one quantum with a push. */
  lemma WaitStep(s: Sched, op: Op, p: nat, d: nat)
    requires Inv(s) && Waits(s, p, d) && op != EndTask(p) && Step(s, op).Next?
    ensures Activates(Step(s, op).events, p) ||
            CloserBy(s, Step(s, op).s, p, d, if op.PushTask? then QUANTUM else if op.Tick? && s.enabled then -1 else 0)
    ensures Step(s, op).s.enabled <==> s.enabled || op.Enable?
  {
    if Switches(s, op) {
      SwitchWait(s, op, p, d);
      SwitchIsSwap(s, op);
      SwapResets(Marked(s, op), op.context);
      hide Step, Swap, Waits;
    } else {
      QuietWait(s, op, p, d);
      hide Swap, Waits;
    }
  }

  /** How many ticks come while ticks count. */
  function TickCount(enabled: bool, ops: seq<Op>): nat
    decreases |ops|
  {
    if ops == [] then 0
    else (if ops[0].Tick? && enabled then 1 else 0) + TickCount(enabled || ops[0].Enable?, ops[1..])
  }

  function PushCount(ops: seq<Op>): nat {
    if ops == [] then 0 else (if ops[0].PushTask? then 1 else 0) + PushCount(ops[1..])
  }

  /** Bounded waiting: a READY task `d` places ahead of the cursor has run before the
      20 * (d + 1 + pushes)-th enabled tick, whatever the other tasks do, unless it is itself ended. */
  lemma {:induction false} BoundedWaiting(s: Sched, ops: seq<Op>, p: nat, d: nat)
    requires Inv(s) && Waits(s, p, d)
    requires EndTask(p) !in ops && Run(s, ops).Next?
    requires TickCount(s.enabled, ops) >= Patience(s, d) + QUANTUM * PushCount(ops)
    ensures Activates(Run(s, ops).events, p)
    decreases |ops|
  {
    if ops != [] {
      var op := ops[0];
      StepKeepsInv(s, op);
      WaitStep(s, op, p, d);
      var o := Step(s, op);
      var rest := Run(o.s, ops[1..]);
      hide Step, Waits, Inv;
      if Activates(o.events, p) {
        var e :| e in o.events && IsActivation(e, p);
        assert e in o.events + rest.events;
      } else {
        var d' :| Waits(o.s, p, d') &&
            Patience(o.s, d') <= Patience(s, d) + (if op.PushTask? then QUANTUM else if op.Tick? && s.enabled then -1
            else 0);
        BoundedWaiting(o.s, ops[1..], p, d');
        var e :| e in rest.events && IsActivation(e, p);
        assert e in o.events + rest.events;
      }
    }
  }

  /** Two runs, one after the other. */
  lemma {:induction false} RunConcat(s: Sched, a: seq<Op>, b: seq<Op>)
    requires Inv(s) && Run(s, a).Next? && Inv(Run(s, a).s)
    requires Run(Run(s, a).s, b).Next?
    ensures Run(s, a + b) == Next(Run(Run(s, a).s, b).s, Run(s, a).events + Run(Run(s, a).s, b).events)
    decreases |a|
  {
    hide Step;
    if a == [] {
      assert a + b == b;
      var r := Run(s, b);
      assert [] + r.events == r.events;
    } else {
      StepKeepsInv(s, a[0]);
      hide Inv;
      assert (a + b)[0] == a[0] && (a + b)[1..] == a[1..] + b;
      var o := Step(s, a[0]);
      var r, q := Run(o.s, a[1..]), Run(Run(s, a).s, b);
      RunConcat(o.s, a[1..], b);
      assert (o.events + r.events) + q.events == o.events + (r.events + q.events);
    }
  }

  function Ticks(n: nat, context: Context): (ops: seq<Op>)
    ensures |ops| == n && forall i :: 0 <= i < n ==> ops[i] == Tick(context)
  {
    seq(n, _ => Tick(context))
  }

  lemma {:induction false} TicksCount(n: nat, context: Context)
    ensures TickCount(true, Ticks(n, context)) == n && PushCount(Ticks(n, context)) == 0
    ensures forall p :: EndTask(p) !in Ticks(n, context)
    decreases n
  {
    if n > 0 {
      TicksCount(n - 1, context);
      assert Ticks(n, context)[1..] == Ticks(n - 1, context);
    }
  }

  /** While there is a current task, a tick returns and leaves one. */
  lemma TickReturns(s: Sched, context: Context)
    requires Inv(s) && s.HasCurrent() && s.enabled
    ensures var o := Step(s, Tick(context)); o.Next? && Inv(o.s) && o.s.HasCurrent() && o.s.enabled
    ensures s.ticks + 1 < QUANTUM ==> Step(s, Tick(context)) == Next(s.(ticks := s.ticks + 1), [])
  {
    var op := Tick(context);
    StepKeepsInv(s, op);
    if Switches(s, op) {
      SwitchIsSwap(s, op);
      SwapResets(Marked(s, op), context);
      hide Step, Swap, Inv, Switching, SomeReady;
    } else {
      hide Swap, SomeReady;
    }
  }

  lemma TicksUnfold(s: Sched, n: nat, context: Context)
    requires n > 0 && Inv(s) && s.HasCurrent() && s.enabled
    ensures var o := Step(s, Tick(context));
            && o.Next? && Inv(o.s)
            && Run(s, Ticks(n, context)) ==
               match Run(o.s, Ticks(n - 1, context))
               case Next(s2, more) => Next(s2, o.events + more)
               case other => other
  {
    TickReturns(s, context);
    assert Ticks(n, context)[0] == Tick(context) && Ticks(n, context)[1..] == Ticks(n - 1, context);
    hide Step, Inv, Ticks;
  }

  /** While there is a current task, ticks always return. */
  lemma {:induction false} TicksReturn(s: Sched, n: nat, context: Context)
    requires Inv(s) && s.HasCurrent() && s.enabled
    ensures var r := Run(s, Ticks(n, context)); r.Next? && Inv(r.s) && r.s.HasCurrent() && r.s.enabled
    ensures n <= QUANTUM - 1 - s.ticks ==> Run(s, Ticks(n, context)) == Next(s.(ticks := s.ticks + n), [])
    decreases n
  {
    assert |s.tasks| < WORD;
    hide Step, Inv;
    if n > 0 {
      TickReturns(s, context);
      TicksUnfold(s, n, context);
      hide Run, Ticks;
      TicksReturn(Step(s, Tick(context)).s, n - 1, context);
    }
  }

  lemma ActivatesIn(a: seq<Event>, b: seq<Event>, p: nat)
    ensures Activates(a, p) || Activates(b, p) ==> Activates(a + b, p)
  {
    if Activates(a, p) {
      var e :| e in a && IsActivation(e, p);
      assert e in a + b;
    } else if Activates(b, p) {
      var e :| e in b && IsActivation(e, p);
      assert e in a + b;
    }
  }

  /** The tick that ends a quantum puts the current task back in the queue, whatever its state. */
  lemma PreemptionReadies(s: Sched, context: Context)
    requires Inv(s) && s.HasCurrent() && s.enabled && s.ticks == QUANTUM - 1
    ensures var o, p := Step(s, Tick(context)), s.tasks[s.cur].pid;
            && o.Next? && Inv(o.s) && o.s.HasCurrent() && o.s.enabled
            && (Activates(o.events, p) || exists d :: d >= 0 && Waits(o.s, p, d))
  {
    hide Step, Swap, Inv, Waits, Switching, Ring;
    var op := Tick(context);
    TickReturns(s, context);
    SwitchIsSwap(s, op);
    MarkedWaits(s, context);
    SwapAdvances(Marked(s, op), context, s.tasks[s.cur].pid, |s.tasks| - 1);
  }

  lemma MarkedWaits(s: Sched, context: Context)
    requires Inv(s) && s.HasCurrent()
    ensures Waits(Marked(s, Tick(context)), s.tasks[s.cur].pid, |s.tasks| - 1)
  {
    var m := Marked(s, Tick(context));
    CurrentIsLast(m.tasks, m.cur, m.tasks[m.cur]);
    hide Ring;
  }

  /** From the end of a quantum, ticks alone bring the current task back. */
  lemma ComesBack(s: Sched, context: Context) returns (ops: seq<Op>)
    requires Inv(s) && s.HasCurrent() && s.enabled && s.ticks == QUANTUM - 1
    ensures Run(s, ops).Next? && Activates(Run(s, ops).events, s.tasks[s.cur].pid)
  {
    var p, tick := s.tasks[s.cur].pid, Ticks(1, context);
    PreemptionReadies(s, context);
    var o := Step(s, Tick(context));
    hide Step, Inv, Waits;
    assert Run(s, tick) == Next(o.s, o.events) by {
      assert tick[0] == Tick(context) && tick[1..] == [];
      assert Run(o.s, []) == Next(o.s, []);
      assert o.events + [] == o.events;
    }
    if Activates(o.events, p) {
      ops := tick;
    } else {
      var d :| d >= 0 && Waits(o.s, p, d);
      var n: nat := QUANTUM * (d + 1);
      var more := Ticks(n, context);
      TicksReturn(o.s, n, context);
      TicksCount(n, context);
      BoundedWaiting(o.s, more, p, d);
      RunConcat(s, tick, more);
      ActivatesIn(o.events, Run(o.s, more).events, p);
      ops := tick + more;
    }
  }

  /** Enabling ticks and letting the quantum run out brings the current task back. */
  lemma CurrentComesBack(s: Sched, context: Context) returns (ops: seq<Op>)
    requires Inv(s) && s.HasCurrent()
    ensures Run(s, ops).Next? && Activates(Run(s, ops).events, s.tasks[s.cur].pid)
  {
    var s1, n: nat := s.(enabled := true), QUANTUM - 1 - s.ticks;
    assert Step(s, Enable) == Next(s1, []) && Inv(s1);
    var start, wait := [Enable], Ticks(n, context);
    hide Step;
    assert Run(s, start) == Next(s1, []) by {
      assert start[1..] == [] && Run(s1, []) == Next(s1, []);
    }
    TicksReturn(s1, n, context);
    var s2 := Run(s1, wait).s;
    var rest := ComesBack(s2, context);
    hide Inv;
    RunConcat(s, start, wait);
    assert Run(s, start + wait) == Next(s2, []);
    RunConcat(s, start + wait, rest);
    ActivatesIn([], Run(s2, rest).events, s.tasks[s.cur].pid);
    ops := start + wait + rest;
  }

  /** Some continuation activates `p`. */
  ghost predicate CanRunAgain(s: Sched, p: nat)
    requires Inv(s)
  {
    exists ops :: Run(s, ops).Next? && Activates(Run(s, ops).events, p)
  }

  /** A task ended by `end_task` can run again, in some run, if and only if it is the current task. */
  lemma EndedRunsAgainIff(s: Sched, p: nat)
    requires Inv(s) && exists i :: 0 <= i < |s.tasks| && s.tasks[i].pid == p
    ensures Step(s, EndTask(p)).Next? && Inv(Step(s, EndTask(p)).s)
    ensures CanRunAgain(Step(s, EndTask(p)).s, p) <==> s.HasCurrent() && s.tasks[s.cur].pid == p
  {
    QuietStepKeepsInv(s, EndTask(p));
    EndTaskMarksOne(s, p);
    var s' := Step(s, EndTask(p)).s;
    assert s'.cur == s.cur && s'.nextId == s.nextId;
    if s.HasCurrent() && s.tasks[s.cur].pid == p {
      var ops := CurrentComesBack(s', Context(0, 0, 0, 0, 0, 0, 0));
    } else {
      assert Parked(s', p);
      hide Step, Inv, Parked;
      forall ops ensures !(Run(s', ops).Next? && Activates(Run(s', ops).events, p)) {
        ParkedForever(s', ops, p);
      }
    }
  }
}
