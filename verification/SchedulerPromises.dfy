/** What the scheduler (src/threading/scheduler.rs) promises the processes it is given: that a pushed
    one is started, when the others are switched, and what becomes of one that leaves. */
module SchedulerPromises {
  import opened Wrappers
  import opened RoundRobin
  import opened Scheduler
  import opened SchedulerRuns

  /** From boot the first process pushed is the first in the visiting order. */
  lemma BootOrder(tasks: seq<Task>)
    requires |tasks| < WORD - 1
    ensures Ring(tasks, INITIAL.cur) == tasks
  {
    if tasks != [] {
      assert Slot(INITIAL.cur, |tasks|) == 0;
      assert tasks[0..] + tasks[..0] == tasks;
    }
  }

  /** A pushed process waits in the queue at once, with at most all the others in front of it. */
  lemma PushWaits(s: Sched, entry: nat)
    requires Inv(s) && Step(s, PushTask(entry)).Next?
    ensures var s', p := Step(s, PushTask(entry)).s, s.nextId + 1;
            && s'.ticks == s.ticks && s'.enabled == s.enabled
            && exists d :: 0 <= d <= |s.tasks| && Waits(s', p, d)
  {
    hide Swap;
    var s', i := Step(s, PushTask(entry)).s, |s.tasks|;
    var d := RingPlace(s'.cur, |s'.tasks|, i);
    RingUpdateAt(s'.tasks, s'.cur, i, s'.tasks[i], 0);
    assert s'.tasks[i] == Task(READY, s.nextId + 1, entry, None);
    hide Step, Ring, RingPlace;
    assert Waits(s', s.nextId + 1, d);
  }

  /** In a lawful log an activated task has been entered. */
  lemma ActivatedWasEntered(log: seq<Event>, p: nat)
    requires LawfulLog(log) && Activates(log, p)
    ensures HasEntered(log, p)
  {
    var e :| e in log && IsActivation(e, p);
    if e.Resumed? {
      var n :| 0 <= n < |log| && log[n] == e;
      var before := log[..n];
      assert Lawful(before, e);
      assert LawfulLog(before) by {
        forall k | 0 <= k < n ensures Lawful(before[..k], before[k]) {
          assert before[..k] == log[..k];
        }
      }
      SavedWasEntered(before, p);
      var d :| d in before && d.Entered? && d.pid == p;
      assert d in log;
    }
  }

  /** ... at the entry point it was pushed with, the only one there is. */
  lemma EnteredAsPushed(log: seq<Event>, p: nat, entry: nat)
    requires LawfulLog(log) && HasEntered(log, p) && Spawned(p, entry) in log
    ensures Entered(p, entry) in log
  {
    hide LawfulLog;
    var e :| e in log && e.Entered? && e.pid == p;
    var i := EnteredAfterPush(log, e);
    var j :| 0 <= j < |log| && log[j] == Spawned(p, entry);
    LaterNotSpawned(log, i, j);
    LaterNotSpawned(log, j, i);
  }

  lemma EnteredAfterPush(log: seq<Event>, e: Event) returns (i: nat)
    requires LawfulLog(log) && e in log && e.Entered?
    ensures i < |log| && log[i] == Spawned(e.pid, e.entry)
  {
    var n :| 0 <= n < |log| && log[n] == e;
    assert Lawful(log[..n], log[n]);
    hide LawfulLog;
    i :| 0 <= i < n && log[..n][i] == Spawned(e.pid, e.entry);
  }

  lemma LaterNotSpawned(log: seq<Event>, i: int, j: int)
    requires LawfulLog(log) && 0 <= i < |log| && 0 <= j < |log|
    ensures i < j && log[j].Spawned? ==> log[i].pid != log[j].pid
  {
    assert Lawful(log[..j], log[j]);
    if i < j {
      assert log[..j][i] == log[i];
    }
  }

  lemma PushThenRun(s: Sched, log0: seq<Event>, entry: nat, ops: seq<Op>)
    requires Inv(s) && Logged(s, log0) && Step(s, PushTask(entry)).Next?
    requires Inv(Step(s, PushTask(entry)).s) && Run(Step(s, PushTask(entry)).s, ops).Next?
    requires EndTask(s.nextId + 1) !in ops && TickCount(s.enabled, ops) >= 20 * (|s.tasks| + 1 + PushCount(ops))
    ensures Entered(s.nextId + 1, entry) in Run(Step(s, PushTask(entry)).s, ops).events
  {
    FewTasks(s);
    hide Step, Inv, Run, Waits, Logged, TickCount, PushCount, LawfulLog;
    var s', p, e := Step(s, PushTask(entry)).s, s.nextId + 1, Spawned(s.nextId + 1, entry);
    PushEvent(s, log0, entry);
    PushLogs(s, entry, log0);
    PushWaits(s, entry);
    var events := Run(s', ops).events;
    RunLogs(s', ops, log0 + [e]);
    var d :| 0 <= d <= |s.tasks| && Waits(s', p, d);
    assert Patience(s', d) <= 20 * (|s.tasks| + 1);
    BoundedWaiting(s', ops, p, d);
    LoggedIsLawful(Run(s', ops).s, log0 + [e] + events);
    EnteredIn(log0, e, events, p, entry);
  }

  lemma PushEvent(s: Sched, log: seq<Event>, entry: nat)
    requires Inv(s) && Logged(s, log) && Step(s, PushTask(entry)).Next?
    ensures Step(s, PushTask(entry)).events == [Spawned(s.nextId + 1, entry)]
    ensures forall d :: d in log ==> d.pid < s.nextId + 1
  {
    hide Swap, LawfulLog, TaskLogged, Resumable;
  }

  lemma LoggedIsLawful(s: Sched, log: seq<Event>)
    requires Logged(s, log)
    ensures LawfulLog(log)
  {
  }

  /** From boot on, a pushed process is started, at its entry point, in every run with enabled ticks enough
      that does not end it: twenty for each process before it and for each one pushed after it. */
  lemma PushedIsEntered(boot: seq<Op>, entry: nat, ops: seq<Op>)
    requires Inv(INITIAL) && Run(INITIAL, boot).Next?
    requires Inv(Run(INITIAL, boot).s) && Step(Run(INITIAL, boot).s, PushTask(entry)).Next?
    requires Inv(Step(Run(INITIAL, boot).s, PushTask(entry)).s)
    requires var s := Run(INITIAL, boot).s;
             && EndTask(s.nextId + 1) !in ops && Run(Step(s, PushTask(entry)).s, ops).Next?
             && TickCount(s.enabled, ops) >= 20 * (|s.tasks| + 1 + PushCount(ops))
    ensures var s := Run(INITIAL, boot).s;
            Entered(s.nextId + 1, entry) in Run(Step(s, PushTask(entry)).s, ops).events
  {
    hide *;
    FewTasks(Run(INITIAL, boot).s);
    NothingYet();
    RunLogs(INITIAL, boot, []);
    var log0 := Run(INITIAL, boot).events;
    assert [] + log0 == log0;
    PushThenRun(Run(INITIAL, boot).s, log0, entry, ops);
  }

  lemma FewTasks(s: Sched)
    requires Inv(s)
    ensures |s.tasks| < WORD
  {
  }

  lemma NothingYet()
    ensures Logged(INITIAL, [])
  {
  }

  lemma EnteredIn(log0: seq<Event>, e: Event, events: seq<Event>, p: nat, entry: nat)
    requires LawfulLog(log0 + [e] + events) && e == Spawned(p, entry) && Activates(events, p)
    requires forall d :: d in log0 ==> d.pid < p
    ensures Entered(p, entry) in events
  {
    var log := log0 + [e] + events;
    var a :| a in events && IsActivation(a, p);
    assert a in log && e in log;
    ActivatedWasEntered(log, p);
    EnteredAsPushed(log, p, entry);
    assert Entered(p, entry) !in log0;
  }

  /** A disabled tick changes nothing. */
  lemma DisabledTick(s: Sched, context: Context)
    requires Inv(s) && !s.enabled
    ensures Step(s, Tick(context)) == Next(s, [])
  {
    hide Swap;
  }

  /** After a switch nineteen enabled ticks only count, and the twentieth switches. */
  lemma QuantumIsTwenty(s: Sched, context: Context)
    requires Inv(s) && s.HasCurrent() && s.enabled && s.ticks == 0
    ensures Run(s, Ticks(19, context)) == Next(s.(ticks := 19), [])
    ensures var o := Run(s, Ticks(20, context));
            && o.Next? && Inv(o.s) && o.s.HasCurrent() && o.s.ticks == 0 && o.events != []
            && o.events[0] == Saved(s.tasks[s.cur].pid, context)
            && IsActivation(o.events[|o.events| - 1], o.s.tasks[o.s.cur].pid)
  {
    TicksReturn(s, 19, context);
    var s1 := Run(s, Ticks(19, context)).s;
    LastTick(s1, context);
    assert Ticks(20, context) == Ticks(19, context) + [Tick(context)];
    var o := Step(s1, Tick(context));
    hide Step, Inv, Ticks;
    assert Run(s1, [Tick(context)]) == Next(o.s, o.events) by {
      OneStep(s1, Tick(context));
    }
    RunConcat(s, Ticks(19, context), [Tick(context)]);
    assert [] + o.events == o.events;
  }

  lemma OneStep(s: Sched, op: Op)
    requires Inv(s) && Step(s, op).Next? && Inv(Step(s, op).s)
    ensures Run(s, [op]) == Step(s, op)
  {
    assert |s.tasks| < WORD;
    hide Step, Inv;
    var o := Step(s, op);
    assert [op][0] == op && [op][1..] == [];
    assert Run(o.s, []) == Next(o.s, []);
    assert o.events + [] == o.events;
  }

  lemma LastTick(s: Sched, context: Context)
    requires Inv(s) && s.HasCurrent() && s.enabled && s.ticks == 19
    ensures var o := Step(s, Tick(context));
            && o.Next? && Inv(o.s) && o.s.HasCurrent() && o.s.ticks == 0 && o.events != []
            && o.events[0] == Saved(s.tasks[s.cur].pid, context)
            && IsActivation(o.events[|o.events| - 1], o.s.tasks[o.s.cur].pid)
  {
    var op := Tick(context);
    TickReturns(s, context);
    SwitchIsSwap(s, op);
    var m := Marked(s, op);
    assert m.HasCurrent() && m.tasks[m.cur].pid == s.tasks[s.cur].pid;
    SwapResets(m, context);
    SwapActivates(m, context);
    SwapUnfolds(m, context);
    hide Step, Swap, Inv, Switching, Select;
  }

  ghost predicate AllAre(tasks: seq<Task>, p: nat, state: TaskState) {
    forall i :: 0 <= i < |tasks| && tasks[i].pid == p ==> tasks[i].state == state
  }

  /** A process that blocks is kept, WAITING; one that ends is DONE, if it is still there. */
  lemma LeavingState(s: Sched, op: Op)
    requires Inv(s) && s.HasCurrent() && (op.BlockCurrent? || op.EndCurrent?) && Step(s, op).Next?
    ensures var tasks, p := Step(s, op).s.tasks, s.tasks[s.cur].pid;
            && AllAre(tasks, p, if op.BlockCurrent? then WAITING else DONE)
            && (op.BlockCurrent? ==> exists i :: 0 <= i < |tasks| && tasks[i].pid == p)
  {
    SwitchIsSwap(s, op);
    var m := Marked(s, op);
    SwapUnfolds(m, op.context);
    SaveSwitches(m, op.context);
    var s1 := m.Save(op.context).(ticks := 0);
    var t := s1.tasks[s1.cur];
    assert t.state == (if op.BlockCurrent? then WAITING else DONE) && t.pid == s.tasks[s.cur].pid;
    SelectMembers(s1.tasks, s1.cur, t);
    var sel, saves, o := Select(s1.tasks, s1.cur), SaveEvents(m, op.context), Step(s, op);
    assert PidsIncrease(s1.tasks);
    hide *;
    KeptAs(s1, sel, saves, o, t);
  }

  lemma KeptAs(s1: Sched, sel: Selection, saves: seq<Event>, o: Outcome, t: Task)
    requires SwapsTo(s1, sel, saves, o) && PidsIncrease(s1.tasks) && t in s1.tasks && !t.Runnable()
    ensures AllAre(o.s.tasks, t.pid, t.state)
    ensures t in sel.tasks ==> exists i :: 0 <= i < |o.s.tasks| && o.s.tasks[i].pid == t.pid
  {
    forall i | 0 <= i < |o.s.tasks| && o.s.tasks[i].pid == t.pid ensures o.s.tasks[i].state == t.state {
      assert sel.tasks[i] in s1.tasks;
      var j :| 0 <= j < |s1.tasks| && s1.tasks[j] == sel.tasks[i];
      var k :| 0 <= k < |s1.tasks| && s1.tasks[k] == t;
      assert j == k;
    }
    if t in sel.tasks {
      var i :| 0 <= i < |sel.tasks| && sel.tasks[i] == t;
      assert o.s.tasks[i].pid == t.pid;
    }
  }

  /** An operation panics only where there is no current task to end, or no room for another task. */
  lemma PanicsIff(s: Sched, op: Op)
    requires Inv(s)
    ensures Step(s, op).Panics? <==>
            (op.EndCurrent? && !s.HasCurrent()) || (op.PushTask? && |s.tasks| == 0xFFFF_FFFF_FFFF_FFFE)
  {
    StepKeepsInv(s, op);
    hide Inv, Swap;
  }
}
