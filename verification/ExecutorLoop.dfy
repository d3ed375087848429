/** The executor's loop (src/task/executor.rs) as it runs, against an account of which tasks it polls
    and in what order. */
module ExecutorLoop {
  import opened Wrappers
  import opened Executor

  /** What one poll does as far as the executor can tell: which wakers are called while it runs,
      and whether the task finishes. */
  datatype PollResult = PollResult(wakes: seq<TaskId>, finishes: bool)

  /** How `run_ready_tasks` ends: the state it leaves, the ids it polled, how many it popped, whether a
      wake found the queue full, and its run of the machine. */
  datatype Ending = Ending(
    tasks: set<TaskId>, queue: seq<TaskId>, cache: set<TaskId>,
    polled: seq<TaskId>, popped: nat, panicked: bool, actions: seq<Action>)
  {
    function After(polled: seq<TaskId>, popped: nat, actions: seq<Action>): Ending {
      this.(polled := polled + this.polled, popped := popped + this.popped, actions := actions + this.actions)
    }
  }

  function Wakes(ids: seq<TaskId>): (a: seq<Action>)
    ensures |a| == |ids| && forall i :: 0 <= i < |ids| ==> a[i] == Wake(ids[i])
  {
    seq(|ids|, i requires 0 <= i < |ids| => Wake(ids[i]))
  }

  /** The loop, for as many polls as the script describes. */
  function RunLoop(tasks: set<TaskId>, queue: seq<TaskId>, cache: set<TaskId>, script: seq<PollResult>): Ending
    requires |queue| <= TASK_QUEUE_SIZE
    decreases |script|, |queue|
  {
    if queue == [] || script == [] then Ending(tasks, queue, cache, [], 0, false, [])
    else
      var id, left, wakes := queue[0], queue[1..], script[0].wakes;
      if id !in tasks then RunLoop(tasks, left, cache, script).After([], 1, [Pop])
      else if |left| + |wakes| > TASK_QUEUE_SIZE then
        var fit := wakes[..TASK_QUEUE_SIZE - |left|];
        Ending(tasks, left + fit, cache + {id}, [id], 1, true, [Pop] + Wakes(fit))
      else if script[0].finishes then
        RunLoop(tasks - {id}, left + wakes, cache + {id} - {id}, script[1..]).
          After([id], 1, [Pop] + Wakes(wakes) + [ReturnReady])
      else
        RunLoop(tasks, left + wakes, cache + {id}, script[1..]).
          After([id], 1, [Pop] + Wakes(wakes) + [ReturnPending])
  }

  /** It goes on until the queue is empty or the script is used up; it panics only at a full queue. */
  lemma {:induction false} LoopStops(
    tasks: set<TaskId>, queue: seq<TaskId>, cache: set<TaskId>, script: seq<PollResult>)
    requires |queue| <= 100
    ensures var r := RunLoop(tasks, queue, cache, script);
            && |r.polled| <= |script| && |r.queue| <= 100
            && (!r.panicked ==> r.queue == [] || |r.polled| == |script|)
            && (r.panicked ==> |r.queue| == 100 && r.polled != [])
    decreases |script|, |queue|
  {
    if queue != [] && script != [] {
      var id, left, wakes := queue[0], queue[1..], script[0].wakes;
      if id !in tasks {
        LoopStops(tasks, left, cache, script);
      } else if |left| + |wakes| <= 100 {
        if script[0].finishes {
          LoopStops(tasks - {id}, left + wakes, cache + {id} - {id}, script[1..]);
        } else {
          LoopStops(tasks, left + wakes, cache + {id}, script[1..]);
        }
      }
    }
  }

  function TasksAfter(ids: set<TaskId>, id: TaskId, result: PollResult): set<TaskId> {
    if result.finishes then ids - {id} else ids
  }

  /** A poll of its own: its wakes in order, and its return. */
  function Own(result: PollResult): seq<Action> {
    Wakes(result.wakes) + [if result.finishes then ReturnReady else ReturnPending]
  }

  function TurnOf(result: PollResult): seq<Action> {
    [Pop] + Own(result)
  }

  lemma PollUnfolds(tasks: set<TaskId>, queue: seq<TaskId>, cache: set<TaskId>, script: seq<PollResult>)
    requires 0 < |queue| <= 100 && script != [] && queue[0] in tasks && |queue[1..]| + |script[0].wakes| <= 100
    ensures var id, result := queue[0], script[0];
            var tasks', cache' := TasksAfter(tasks, id, result), TasksAfter(cache + {id}, id, result);
            RunLoop(tasks, queue, cache, script) ==
            RunLoop(tasks', queue[1..] + result.wakes, cache', script[1..]).After([id], 1, TurnOf(result))
  {
    var wakes := Wakes(script[0].wakes);
    assert [Pop] + wakes + [ReturnReady] == [Pop] + (wakes + [ReturnReady]);
    assert [Pop] + wakes + [ReturnPending] == [Pop] + (wakes + [ReturnPending]);
  }

  function AllWakes(script: seq<PollResult>): seq<TaskId> {
    if script == [] then [] else script[0].wakes + AllWakes(script[1..])
  }

  /** Everything that is in the queue at some time, in order of arrival: what was there, and then the
      wakes of each poll made. */
  function Arrivals(queue: seq<TaskId>, script: seq<PollResult>, polls: nat): seq<TaskId>
    requires polls <= |script|
  {
    queue + AllWakes(script[..polls])
  }

  lemma ArrivalsCons(queue: seq<TaskId>, script: seq<PollResult>, polls: nat)
    requires queue != [] && 0 < polls <= |script|
    ensures Arrivals(queue, script, polls) ==
            [queue[0]] + Arrivals(queue[1..] + script[0].wakes, script[1..], polls - 1)
  {
    assert script[..polls][1..] == script[1..][..polls - 1];
    var more := AllWakes(script[1..][..polls - 1]);
    assert queue + (script[0].wakes + more) == [queue[0]] + ((queue[1..] + script[0].wakes) + more);
  }

  /** What is left in the queue is what arrived last, without a gap, and all of it unless a wake was
      refused. */
  ghost predicate Fifo(queue: seq<TaskId>, script: seq<PollResult>, r: Ending) {
    && |r.polled| <= |script|
    && var all := Arrivals(queue, script, |r.polled|);
       && r.popped + |r.queue| <= |all|
       && r.queue == all[r.popped..r.popped + |r.queue|]
       && (!r.panicked ==> r.popped + |r.queue| == |all|)
  }

  lemma FifoSkip(queue: seq<TaskId>, script: seq<PollResult>, q: Ending, a: seq<Action>)
    requires queue != [] && Fifo(queue[1..], script, q)
    ensures Fifo(queue, script, q.After([], 1, a))
  {
    assert [] + q.polled == q.polled;
    var rest := Arrivals(queue[1..], script, |q.polled|);
    assert Arrivals(queue, script, |q.polled|) == [queue[0]] + rest;
    SliceCons(queue[0], rest, q.popped, |q.queue|);
  }

  lemma SliceCons(x: TaskId, rest: seq<TaskId>, p: nat, n: nat)
    requires p + n <= |rest|
    ensures ([x] + rest)[1 + p..1 + p + n] == rest[p..p + n]
  {
    var a, b := ([x] + rest)[1 + p..1 + p + n], rest[p..p + n];
    forall i | 0 <= i < n ensures a[i] == b[i] {
      assert a[i] == ([x] + rest)[1 + p + i];
    }
  }

  lemma FifoPoll(queue: seq<TaskId>, script: seq<PollResult>, q: Ending, a: seq<Action>)
    requires queue != [] && script != [] && Fifo(queue[1..] + script[0].wakes, script[1..], q)
    ensures Fifo(queue, script, q.After([queue[0]], 1, a))
  {
    hide Arrivals;
    var rest := Arrivals(queue[1..] + script[0].wakes, script[1..], |q.polled|);
    ArrivalsCons(queue, script, 1 + |q.polled|);
    SliceCons(queue[0], rest, q.popped, |q.queue|);
  }

  lemma FifoPanic(queue: seq<TaskId>, script: seq<PollResult>, r: Ending, k: nat)
    requires queue != [] && script != [] && k <= |script[0].wakes|
    requires r.polled == [queue[0]] && r.popped == 1 && r.panicked && r.queue == queue[1..] + script[0].wakes[..k]
    ensures Fifo(queue, script, r)
  {
    ArrivalsCons(queue, script, 1);
    assert script[1..][..0] == [];
    assert Arrivals(queue[1..] + script[0].wakes, script[1..], 0) == queue[1..] + script[0].wakes;
  }

  /** The queue is first in, first out. */
  lemma {:induction false} LoopIsFifo(
    tasks: set<TaskId>, queue: seq<TaskId>, cache: set<TaskId>, script: seq<PollResult>)
    requires |queue| <= 100
    ensures Fifo(queue, script, RunLoop(tasks, queue, cache, script))
    decreases |script|, |queue|
  {
    if queue == [] || script == [] {
      assert script[..0] == [] && queue + [] == queue;
    } else {
      var id, left, wakes := queue[0], queue[1..], script[0].wakes;
      hide Fifo, Ending.After;
      if id !in tasks {
        LoopIsFifo(tasks, left, cache, script);
        FifoSkip(queue, script, RunLoop(tasks, left, cache, script), [Pop]);
      } else if |left| + |wakes| > 100 {
        FifoPanic(queue, script, RunLoop(tasks, queue, cache, script), 100 - |left|);
      } else {
        var tasks', cache' := TasksAfter(tasks, id, script[0]), TasksAfter(cache + {id}, id, script[0]);
        var q, a := RunLoop(tasks', left + wakes, cache', script[1..]), TurnOf(script[0]);
        LoopIsFifo(tasks', left + wakes, cache', script[1..]);
        FifoPoll(queue, script, q, a);
        PollUnfolds(tasks, queue, cache, script);
      }
    }
  }

  /** Which of the ids popped are polled: those of tasks that have not finished by then. */
  function LiveOnes(popped: seq<TaskId>, tasks: set<TaskId>, script: seq<PollResult>): seq<TaskId>
    decreases |popped|
  {
    if popped == [] || script == [] then []
    else if popped[0] !in tasks then LiveOnes(popped[1..], tasks, script)
    else [popped[0]] + LiveOnes(popped[1..], TasksAfter(tasks, popped[0], script[0]), script[1..])
  }

  ghost predicate PollsLive(tasks: set<TaskId>, queue: seq<TaskId>, script: seq<PollResult>, r: Ending) {
    && |r.polled| <= |script| && r.popped <= |Arrivals(queue, script, |r.polled|)|
    && r.polled == LiveOnes(Arrivals(queue, script, |r.polled|)[..r.popped], tasks, script)
  }

  lemma PollsSkip(tasks: set<TaskId>, queue: seq<TaskId>, script: seq<PollResult>, q: Ending, a: seq<Action>)
    requires queue != [] && script != [] && queue[0] !in tasks && PollsLive(tasks, queue[1..], script, q)
    ensures PollsLive(tasks, queue, script, q.After([], 1, a))
  {
    var rest, r := Arrivals(queue[1..], script, |q.polled|), q.After([], 1, a);
    assert [] + q.polled == q.polled;
    assert Arrivals(queue, script, |q.polled|) == [queue[0]] + rest;
    var popped := Arrivals(queue, script, |q.polled|)[..r.popped];
    assert popped[0] == queue[0] && popped[1..] == rest[..q.popped];
  }

  lemma PollsPoll(tasks: set<TaskId>, queue: seq<TaskId>, script: seq<PollResult>, q: Ending, a: seq<Action>)
    requires queue != [] && script != [] && queue[0] in tasks
    requires PollsLive(TasksAfter(tasks, queue[0], script[0]), queue[1..] + script[0].wakes, script[1..], q)
    ensures PollsLive(tasks, queue, script, q.After([queue[0]], 1, a))
  {
    ArrivalsCons(queue, script, 1 + |q.polled|);
    var rest, r := Arrivals(queue[1..] + script[0].wakes, script[1..], |q.polled|), q.After([queue[0]], 1, a);
    var popped := Arrivals(queue, script, 1 + |q.polled|)[..r.popped];
    assert popped[0] == queue[0] && popped[1..] == rest[..q.popped];
  }

  lemma PollsPanic(tasks: set<TaskId>, queue: seq<TaskId>, script: seq<PollResult>, r: Ending)
    requires queue != [] && script != [] && queue[0] in tasks && r.polled == [queue[0]] && r.popped == 1
    ensures PollsLive(tasks, queue, script, r)
  {
    var popped := Arrivals(queue, script, 1)[..1];
    assert popped == [queue[0]] && popped[1..] == [];
    var rest := LiveOnes(popped[1..], TasksAfter(tasks, queue[0], script[0]), script[1..]);
    assert rest == [] && LiveOnes(popped, tasks, script) == [popped[0]] + rest;
  }

  /** The i-th poll is of the oldest id in the queue whose task is live. */
  lemma {:induction false} PollsOldestLive(
    tasks: set<TaskId>, queue: seq<TaskId>, cache: set<TaskId>, script: seq<PollResult>)
    requires |queue| <= 100
    ensures PollsLive(tasks, queue, script, RunLoop(tasks, queue, cache, script))
    decreases |script|, |queue|
  {
    if queue == [] || script == [] {
      assert script[..0] == [];
    } else {
      var id, left, wakes := queue[0], queue[1..], script[0].wakes;
      if id !in tasks {
        hide PollsLive, Ending.After;
        PollsOldestLive(tasks, left, cache, script);
        PollsSkip(tasks, queue, script, RunLoop(tasks, left, cache, script), [Pop]);
      } else if |left| + |wakes| > 100 {
        PollsPanic(tasks, queue, script, RunLoop(tasks, queue, cache, script));
      } else {
        hide PollsLive, Ending.After;
        var tasks', cache' := TasksAfter(tasks, id, script[0]), TasksAfter(cache + {id}, id, script[0]);
        PollsOldestLive(tasks', left + wakes, cache', script[1..]);
        PollsPoll(tasks, queue, script, RunLoop(tasks', left + wakes, cache', script[1..]), TurnOf(script[0]));
        PollUnfolds(tasks, queue, cache, script);
      }
    }
  }

  /** The run without its pops. */
  function Deeds(actions: seq<Action>): seq<Action> {
    if actions == [] then [] else (if actions[0] == Pop then [] else [actions[0]]) + Deeds(actions[1..])
  }

  lemma {:induction false} DeedsConcat(a: seq<Action>, b: seq<Action>)
    ensures Deeds(a + b) == Deeds(a) + Deeds(b)
    decreases |a|
  {
    if a == [] {
      assert a + b == b;
    } else {
      assert (a + b)[1..] == a[1..] + b;
      DeedsConcat(a[1..], b);
    }
  }

  lemma {:induction false} DeedsKept(a: seq<Action>)
    requires Pop !in a
    ensures Deeds(a) == a && Deeds([Pop] + a) == a
    decreases |a|
  {
    assert ([Pop] + a)[1..] == a;
    if a != [] {
      DeedsKept(a[1..]);
    }
  }

  /** What the polls do, one after the other: each calls its wakers in order and then returns. */
  function Scripted(script: seq<PollResult>): seq<Action> {
    if script == [] then []
    else Own(script[0]) + Scripted(script[1..])
  }

  ghost predicate DoesScript(script: seq<PollResult>, r: Ending) {
    && |r.polled| <= |script| && |r.actions| == r.popped + |Deeds(r.actions)|
    && Deeds(r.actions) <= Scripted(script[..|r.polled|])
    && (!r.panicked ==> Deeds(r.actions) == Scripted(script[..|r.polled|]))
  }

  lemma DoesSkip(script: seq<PollResult>, q: Ending)
    requires DoesScript(script, q)
    ensures DoesScript(script, q.After([], 1, [Pop]))
  {
    assert [] + q.polled == q.polled && ([Pop] + q.actions)[1..] == q.actions;
  }

  lemma DoesPoll(script: seq<PollResult>, q: Ending, id: TaskId)
    requires script != [] && DoesScript(script[1..], q)
    ensures DoesScript(script, q.After([id], 1, TurnOf(script[0])))
  {
    hide Deeds, Own;
    var made := script[..1 + |q.polled|];
    assert made[0] == script[0] && made[1..] == script[1..][..|q.polled|];
    TurnDeeds(script[0], q.actions);
    var own, rest, left := Own(script[0]), Deeds(q.actions), Scripted(made[1..]);
    assert own + rest <= own + left;
  }

  lemma TurnDeeds(result: PollResult, rest: seq<Action>)
    ensures Deeds(TurnOf(result) + rest) == Own(result) + Deeds(rest) && |TurnOf(result)| == 1 + |Own(result)|
  {
    assert Pop !in Own(result);
    DeedsKept(Own(result));
    DeedsConcat(TurnOf(result), rest);
  }

  lemma DoesPanic(script: seq<PollResult>, r: Ending, k: nat)
    requires script != [] && k <= |script[0].wakes| && |r.polled| == 1 && r.popped == 1 && r.panicked
    requires r.actions == [Pop] + Wakes(script[0].wakes[..k])
    ensures DoesScript(script, r)
  {
    var some := Wakes(script[0].wakes[..k]);
    DeedsKept(some);
    var made := script[..1];
    assert made[0] == script[0] && made[1..] == [];
    assert some <= Own(script[0]) && Scripted(made) == Own(script[0]) + Scripted(made[1..]);
  }

  /** Every poll makes the wakes its script says, in order, and ends Ready just when the script says so; a
      panic cuts this short, and besides there are only the pops. */
  lemma {:induction false} LoopDoesScript(
    tasks: set<TaskId>, queue: seq<TaskId>, cache: set<TaskId>, script: seq<PollResult>)
    requires |queue| <= 100
    ensures DoesScript(script, RunLoop(tasks, queue, cache, script))
    decreases |script|, |queue|
  {
    if queue == [] || script == [] {
      assert script[..0] == [];
    } else {
      var id, left, wakes := queue[0], queue[1..], script[0].wakes;
      hide DoesScript, Ending.After;
      if id !in tasks {
        LoopDoesScript(tasks, left, cache, script);
        DoesSkip(script, RunLoop(tasks, left, cache, script));
      } else if |left| + |wakes| > 100 {
        DoesPanic(script, RunLoop(tasks, queue, cache, script), 100 - |left|);
      } else {
        var tasks', cache' := TasksAfter(tasks, id, script[0]), TasksAfter(cache + {id}, id, script[0]);
        LoopDoesScript(tasks', left + wakes, cache', script[1..]);
        DoesPoll(script, RunLoop(tasks', left + wakes, cache', script[1..]), id);
        PollUnfolds(tasks, queue, cache, script);
      }
    }
  }

  /** A poll that has ended, and ended Ready. */
  predicate Finished(r: Ending, script: seq<PollResult>, i: nat) {
    i < |r.polled| && i < |script| && script[i].finishes && (r.panicked ==> i + 1 < |r.polled|)
  }

  /** The tasks left are those there were, without the ones whose poll ended Ready. */
  lemma {:induction false} LoopRemovesFinished(
    tasks: set<TaskId>, queue: seq<TaskId>, cache: set<TaskId>, script: seq<PollResult>, id: TaskId)
    requires |queue| <= 100
    ensures var r := RunLoop(tasks, queue, cache, script);
            id in r.tasks <==>
            && id in tasks
            && forall i :: 0 <= i < |r.polled| && r.polled[i] == id ==> !Finished(r, script, i)
    decreases |script|, |queue|
  {
    var r := RunLoop(tasks, queue, cache, script);
    if queue != [] && script != [] {
      var head, left, wakes := queue[0], queue[1..], script[0].wakes;
      if head !in tasks {
        LoopRemovesFinished(tasks, left, cache, script, id);
        var q := RunLoop(tasks, left, cache, script);
        assert r.polled == q.polled;
        assert forall i :: 0 <= i < |r.polled| ==> (Finished(r, script, i) <==> Finished(q, script, i));
      } else if |left| + |wakes| <= 100 {
        var tasks', cache' := TasksAfter(tasks, head, script[0]), TasksAfter(cache + {head}, head, script[0]);
        LoopRemovesFinished(tasks', left + wakes, cache', script[1..], id);
        LoopStops(tasks', left + wakes, cache', script[1..]);
        RemovesCons(r, RunLoop(tasks', left + wakes, cache', script[1..]), script, head, id);
      }
    }
  }

  lemma RemovesCons(r: Ending, q: Ending, script: seq<PollResult>, head: TaskId, id: TaskId)
    requires script != [] && r.polled == [head] + q.polled && r.panicked == q.panicked
    requires q.panicked ==> q.polled != []
    ensures (forall i :: 0 <= i < |r.polled| && r.polled[i] == id ==> !Finished(r, script, i)) <==>
            && (head == id ==> !script[0].finishes)
            && (forall i :: 0 <= i < |q.polled| && q.polled[i] == id ==> !Finished(q, script[1..], i))
  {
    assert r.polled[0] == head && (Finished(r, script, 0) <==> script[0].finishes);
    forall i | 0 <= i < |q.polled|
      ensures r.polled[i + 1] == q.polled[i] && (Finished(r, script, i + 1) <==> Finished(q, script[1..], i))
    {
    }
  }

  /** The executor's own data; the machine beside it is the state machine of Executor, without a
      keyboard task, kept in step. */
  class TaskExecutor {
    var tasks: set<TaskId>
    var taskQueue: seq<TaskId>
    var wakerCache: set<TaskId>
    var nextId: TaskId
    ghost var machine: State

    ghost predicate Valid()
      reads this
    {
      && Inv(machine) && machine.keyboard == None
      && machine.tasks == tasks && machine.queue == taskQueue && machine.cache == wakerCache && machine.nextId == nextId
    }

    constructor ()
      ensures Valid() && machine == INITIAL
    {
      tasks, taskQueue, wakerCache, nextId, machine := {}, [], {}, 0, INITIAL;
    }

    method SpawnTask() returns (ok: bool)
      requires Valid() && machine.phase.Setup?
      modifies this
      ensures Valid()
      ensures ok <==> |old(taskQueue)| < 100
      ensures ok ==> tasks == old(tasks) + {old(nextId)} && taskQueue == old(taskQueue) + [old(nextId)]
      ensures if ok then Some(machine) == old(Step(machine, Spawn(false))) else machine == old(machine)
    {
      ok := |taskQueue| < TASK_QUEUE_SIZE;
      if ok {
        StepKeepsInv(machine, Spawn(false));
        tasks, taskQueue := tasks + {nextId}, taskQueue + [nextId];
        nextId := nextId + 1;
        machine := Step(machine, Spawn(false)).value;
      }
    }

    /** `TaskWaker::wake_task` for every waker called, in order, up to the panic at a full queue. */
    method WakeAll(wakes: seq<TaskId>, ghost start: State, ghost before: seq<Action>)
      returns (panicked: bool, ghost actions: seq<Action>)
      requires Valid() && machine.phase.Poll? && Run(start, before) == Some(machine)
      requires forall id :: id in wakes ==> id < nextId
      modifies this`taskQueue, this`machine
      ensures Valid() && Run(start, actions) == Some(machine) && machine.phase == old(machine.phase)
      ensures panicked <==> |old(taskQueue)| + |wakes| > 100
      ensures var fit := if panicked then wakes[..100 - |old(taskQueue)|] else wakes;
              taskQueue == old(taskQueue) + fit && actions == before + Wakes(fit)
    {
      actions := before;
      ghost var queue := taskQueue;
      assert wakes[..0] == [] && queue + [] == queue && before + Wakes([]) == before;
      for i := 0 to |wakes|
        invariant Valid() && Run(start, actions) == Some(machine) && machine.phase == old(machine.phase)
        invariant taskQueue == queue + wakes[..i] && actions == before + Wakes(wakes[..i])
      {
        hide Inv;
        if |taskQueue| >= TASK_QUEUE_SIZE {
          QueueBounded(machine);
          return true, actions;
        }
        assert wakes[i] in wakes;
        assert wakes[..i + 1] == wakes[..i] + [wakes[i]];
        assert Wakes(wakes[..i + 1]) == Wakes(wakes[..i]) + [Wake(wakes[i])];
        RunAppends(start, actions, Wake(wakes[i]));
        StepKeepsInv(machine, Wake(wakes[i]));
        actions := actions + [Wake(wakes[i])];
        taskQueue := taskQueue + [wakes[i]];
        machine := Step(machine, Wake(wakes[i])).value;
      }
      assert wakes[..|wakes|] == wakes;
      QueueBounded(machine);
      panicked := false;
    }

    /** `task_queue.pop`, and the look-ups of the task and its waker. */
    method PopTask(ghost start: State, ghost before: seq<Action>) returns (id: TaskId, ghost actions: seq<Action>)
      requires Valid() && machine.phase.Loop? && taskQueue != [] && Run(start, before) == Some(machine)
      modifies this`taskQueue, this`wakerCache, this`machine
      ensures Valid() && Run(start, actions) == Some(machine) && actions == before + [Pop]
      ensures id == old(taskQueue[0]) && taskQueue == old(taskQueue[1..])
      ensures wakerCache == if id in tasks then old(wakerCache) + {id} else old(wakerCache)
      ensures machine.phase == if id in tasks then Poll(id) else Loop
    {
      hide Inv;
      RunAppends(start, before, Pop);
      StepKeepsInv(machine, Pop);
      id, actions := taskQueue[0], before + [Pop];
      taskQueue := taskQueue[1..];
      if id in tasks {
        wakerCache := wakerCache + {id};
      }
      machine := Step(machine, Pop).value;
    }

    /** A poll of the task just popped, and what the loop does with its result. */
    method PollTask(id: TaskId, result: PollResult, ghost start: State, ghost before: seq<Action>)
      returns (panicked: bool, ghost actions: seq<Action>)
      requires Valid() && machine.phase == Poll(id) && Run(start, before) == Some(machine)
      requires forall w :: w in result.wakes ==> w < nextId
      modifies this`tasks, this`taskQueue, this`wakerCache, this`machine
      ensures Valid() && Run(start, actions) == Some(machine)
      ensures panicked <==> |old(taskQueue)| + |result.wakes| > 100
      ensures var fit := if panicked then result.wakes[..100 - |old(taskQueue)|] else result.wakes;
              && taskQueue == old(taskQueue) + fit
              && actions == before + Wakes(fit) +
                            if panicked then [] else [if result.finishes then ReturnReady else ReturnPending]
      ensures tasks == if panicked then old(tasks) else TasksAfter(old(tasks), id, result)
      ensures wakerCache == if panicked then old(wakerCache) else TasksAfter(old(wakerCache), id, result)
      ensures !panicked ==> machine.phase.Loop?
    {
      hide Inv;
      panicked, actions := WakeAll(result.wakes, start, before);
      if panicked {
        assert actions + [] == actions;
        return;
      }
      ghost var done := if result.finishes then ReturnReady else ReturnPending;
      RunAppends(start, actions, done);
      StepKeepsInv(machine, done);
      actions := actions + [done];
      if result.finishes {
        tasks, wakerCache := tasks - {id}, wakerCache - {id};
      }
      machine := Step(machine, done).value;
    }

    /** One turn of the loop, with `n` polls made so far. */
    method TakeTurn(
      script: seq<PollResult>, n: nat, polled: seq<TaskId>, ghost popped: nat, ghost start: State,
      ghost before: seq<Action>)
      returns (panicked: bool, next: nat, now: seq<TaskId>, ghost actions: seq<Action>)
      requires Valid() && machine.phase.Loop? && 0 < |taskQueue| <= TASK_QUEUE_SIZE && n < |script|
      requires Run(start, before) == Some(machine)
      requires forall w :: w in script[n].wakes ==> w < nextId
      modifies this`tasks, this`taskQueue, this`wakerCache, this`machine
      ensures Valid() && Run(start, actions) == Some(machine) && n <= next <= n + 1
      ensures next == n ==> !panicked && |taskQueue| < |old(taskQueue)|
      ensures |taskQueue| <= TASK_QUEUE_SIZE && (!panicked ==> machine.phase.Loop?)
      ensures old(RunLoop(tasks, taskQueue, wakerCache, script[n..])).After(polled, popped, before) ==
              if panicked then Ending(tasks, taskQueue, wakerCache, now, popped + 1, true, actions)
              else RunLoop(tasks, taskQueue, wakerCache, script[next..]).After(now, popped + 1, actions)
    {
      hide Inv, RunLoop, Ending.After, Run;
      LoopTurn(tasks, taskQueue, wakerCache, script, n, polled, popped, before);
      panicked, next, now := false, n, polled;
      var id;
      id, actions := PopTask(start, before);
      if id in tasks {
        next, now := n + 1, polled + [id];
        panicked, actions := PollTask(id, script[n], start, actions);
        QueueBounded(machine);
        if panicked {
          assert actions + [] == actions;
        }
      }
    }

    /** `run_ready_tasks`, for as many polls as the script describes: it does what RunLoop says, which is a
        run of the machine, and when it returns for want of work every live task is waiting for a
        wake. */
    method RunReadyTasks(script: seq<PollResult>)
      returns (panicked: bool, polled: seq<TaskId>, popped: nat, ghost actions: seq<Action>)
      requires Valid() && machine.phase.Loop?
      requires forall r, id :: r in script && id in r.wakes ==> id < nextId
      modifies this`tasks, this`taskQueue, this`wakerCache, this`machine
      ensures Valid() && Run(old(machine), actions) == Some(machine)
      ensures |old(taskQueue)| <= 100
      ensures Ending(tasks, taskQueue, wakerCache, polled, popped, panicked, actions) ==
              old(RunLoop(tasks, taskQueue, wakerCache, script))
      ensures !panicked && taskQueue == [] ==>
                forall id :: id in tasks ==> id in machine.pending && id !in machine.woken
    {
      assert Run(machine, []) == Some(machine);
      hide Inv, RunLoop, Ending.After, Run, Step;
      ghost var start := machine;
      QueueBounded(machine);
      ghost var whole := RunLoop(tasks, taskQueue, wakerCache, script);
      panicked, actions, polled, popped := false, [], [], 0;
      var n := 0;
      assert script[0..] == script;
      NothingAfter(whole);
      while taskQueue != [] && n < |script|
        invariant 0 <= n <= |script| && |taskQueue| <= TASK_QUEUE_SIZE
        invariant Valid() && machine.phase.Loop? && Run(start, actions) == Some(machine)
        invariant whole == RunLoop(tasks, taskQueue, wakerCache, script[n..]).After(polled, popped, actions)
        decreases |script| - n, |taskQueue|
      {
        assert script[n] in script;
        panicked, n, polled, actions := TakeTurn(script, n, polled, popped, start, actions);
        popped := popped + 1;
        if panicked {
          return;
        }
      }
      panicked := false;
      LoopEnds(tasks, taskQueue, wakerCache, script[n..], polled, popped, actions);
      if taskQueue == [] {
        EmptyQueueWaits(machine);
      }
    }
  }

  lemma EmptyQueueWaits(s: State)
    requires Inv(s) && s.queue == [] && s.phase.Loop?
    ensures forall id :: id in s.tasks ==> id in s.pending && id !in s.woken
  {
    forall id | id in s.tasks ensures id in s.pending && id !in s.woken {
      assert Tracked(s, id);
    }
  }

  lemma QueueBounded(s: State)
    requires Inv(s)
    ensures |s.queue| <= 100
  {
  }

  lemma NothingAfter(r: Ending)
    ensures r.After([], 0, []) == r
  {
    assert [] + r.polled == r.polled && [] + r.actions == r.actions;
  }

  lemma LoopEnds(
    tasks: set<TaskId>, queue: seq<TaskId>, cache: set<TaskId>, script: seq<PollResult>,
    polled: seq<TaskId>, popped: nat, actions: seq<Action>)
    requires |queue| <= TASK_QUEUE_SIZE && (queue == [] || script == [])
    ensures RunLoop(tasks, queue, cache, script).After(polled, popped, actions) ==
            Ending(tasks, queue, cache, polled, popped, false, actions)
  {
    assert polled + [] == polled && actions + [] == actions;
  }

  lemma AfterAfter(r: Ending, p1: seq<TaskId>, n1: nat, a1: seq<Action>, p2: seq<TaskId>, n2: nat, a2: seq<Action>)
    ensures r.After(p2, n2, a2).After(p1, n1, a1) == r.After(p1 + p2, n1 + n2, a1 + a2)
  {
    assert p1 + (p2 + r.polled) == (p1 + p2) + r.polled && a1 + (a2 + r.actions) == (a1 + a2) + r.actions;
  }

  lemma SkipUnfolds(tasks: set<TaskId>, queue: seq<TaskId>, cache: set<TaskId>, script: seq<PollResult>)
    requires 0 < |queue| <= 100 && script != [] && queue[0] !in tasks
    ensures RunLoop(tasks, queue, cache, script) == RunLoop(tasks, queue[1..], cache, script).After([], 1, [Pop])
  {
  }

  lemma PanicUnfolds(tasks: set<TaskId>, queue: seq<TaskId>, cache: set<TaskId>, script: seq<PollResult>)
    requires 0 < |queue| <= 100 && script != [] && queue[0] in tasks && |queue[1..]| + |script[0].wakes| > 100
    ensures var id, left := queue[0], queue[1..];
            var fit := script[0].wakes[..100 - |left|];
            RunLoop(tasks, queue, cache, script) ==
            Ending(tasks, left + fit, cache + {id}, [id], 1, true, [Pop] + Wakes(fit))
  {
  }

  lemma TurnAppended(actions: seq<Action>, result: PollResult)
    ensures actions + TurnOf(result) ==
            actions + [Pop] + Wakes(result.wakes) + [if result.finishes then ReturnReady else ReturnPending]
  {
  }

  /** One turn of the loop, seen from what has been done so far. */
  lemma LoopTurn(
    tasks: set<TaskId>, queue: seq<TaskId>, cache: set<TaskId>, script: seq<PollResult>, n: nat,
    polled: seq<TaskId>, popped: nat, actions: seq<Action>)
    requires 0 < |queue| <= TASK_QUEUE_SIZE && n < |script|
    ensures var whole := RunLoop(tasks, queue, cache, script[n..]).After(polled, popped, actions);
            var id, left, wakes := queue[0], queue[1..], script[n].wakes;
            var fit := if |left| + |wakes| > 100 then wakes[..100 - |left|] else wakes;
            var done := actions + [Pop] + Wakes(fit);
            if id !in tasks then
              whole == RunLoop(tasks, left, cache, script[n..]).After(polled, popped + 1, actions + [Pop])
            else if |left| + |wakes| > 100 then
              whole == Ending(tasks, left + fit, cache + {id}, polled + [id], popped + 1, true, done)
            else
              whole == RunLoop(TasksAfter(tasks, id, script[n]), left + wakes,
                               TasksAfter(cache + {id}, id, script[n]), script[n + 1..]).
                         After(polled + [id], popped + 1,
                               done + [if script[n].finishes then ReturnReady else ReturnPending])
  {
    hide RunLoop, Ending.After, TurnOf, Own, TasksAfter;
    var rest := script[n..];
    assert rest[0] == script[n] && rest[1..] == script[n + 1..];
    var id, left, wakes := queue[0], queue[1..], script[n].wakes;
    if id !in tasks {
      SkipUnfolds(tasks, queue, cache, rest);
      AfterAfter(RunLoop(tasks, left, cache, rest), polled, popped, actions, [], 1, [Pop]);
      assert polled + [] == polled;
    } else if |left| + |wakes| > 100 {
      PanicUnfolds(tasks, queue, cache, rest);
      var fit := wakes[..100 - |left|];
      var e := Ending(tasks, left + fit, cache + {id}, [id], 1, true, [Pop] + Wakes(fit));
      assert actions + ([Pop] + Wakes(fit)) == actions + [Pop] + Wakes(fit);
      Appended(e, polled, popped, actions);
    } else {
      PollUnfolds(tasks, queue, cache, rest);
      var q := RunLoop(TasksAfter(tasks, id, script[n]), left + wakes, TasksAfter(cache + {id}, id, script[n]),
                       script[n + 1..]);
      AfterAfter(q, polled, popped, actions, [id], 1, TurnOf(script[n]));
      TurnAppended(actions, script[n]);
    }
  }

  lemma Appended(e: Ending, polled: seq<TaskId>, popped: nat, actions: seq<Action>)
    ensures e.After(polled, popped, actions) ==
            Ending(e.tasks, e.queue, e.cache, polled + e.polled, popped + e.popped, e.panicked, actions + e.actions)
  {
  }
}
