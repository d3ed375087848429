/** The async executor and the keyboard stream (src/task/executor.rs, src/task/keyboard.rs) as one
    interleaved machine: the executor's loop, the steps of `poll_next`, and the keyboard interrupt
    racing with them through a bounded queue and a one-slot waker. */
module Executor {
  import opened Wrappers

  type TaskId = nat

  const TASK_QUEUE_SIZE: nat := 100
  const SCANCODE_QUEUE_SIZE: nat := 100

  /** Where `poll_next` is. */
  datatype StreamStep = FirstPop | Register | SecondPop | TakeWaker

  /** Where the executor is: before `run`, at the `while let` of `run_ready_tasks`, inside a poll,
      after the loop, in `sleep_if_idle` with interrupts off, or halted. */
  datatype Phase = Setup | Loop | Poll(id: TaskId) | Stream(id: TaskId, step: StreamStep) | Idle | Masked | Halted {
    predicate Polling(id: TaskId) {
      this == Poll(id) || (Stream? && this.id == id)
    }
  }

  /** Where the keyboard interrupt is: `WAKER.wake()` first takes the waker, then pushes its task. */
  datatype Producer = Quiet | Pushed | Waking(id: TaskId)

  datatype State = State(
    tasks: set<TaskId>, queue: seq<TaskId>, cache: set<TaskId>, nextId: TaskId, completed: set<TaskId>,
    pending: set<TaskId>,   // last poll returned Pending
    woken: set<TaskId>,     // woken since the last poll began
    phase: Phase,
    keyboard: Option<TaskId>, ready: bool,   // the keyboard task; the scancode queue is initialised
    scancodes: seq<nat>, waker: Option<TaskId>, producer: Producer,
    accepted: seq<nat>, consumed: seq<nat>)

  const INITIAL: State := State({}, [], {}, 0, {}, {}, {}, Setup, None, false, [], None, Quiet, [], [])

  datatype Action =
    | Spawn(isKeyboard: bool)
    | Start
    | Pop
    | ReturnReady
    | ReturnPending
    | StreamStep
    | Mask
    | SleepOrGo
    | LeaveHalt
    | Wake(id: TaskId)      // some holder of the task's waker calls it
    | KeyArrives(scancode: nat)
    | ProducerTakes
    | ProducerWakes

  /** Pushing a task id; a full queue is the source's panic. */
  function Enqueue(s: State, id: TaskId): Option<State> {
    if |s.queue| < TASK_QUEUE_SIZE then Some(s.(queue := s.queue + [id], woken := s.woken + {id})) else None
  }

  function PopTask(s: State): State {
    if s.queue == [] then s.(phase := Idle)
    else
      var id, s1 := s.queue[0], s.(queue := s.queue[1..]);
      if id !in s.tasks then s1
      else
        var s2 := s1.(cache := s1.cache + {id}, pending := s1.pending - {id}, woken := s1.woken - {id});
        if s.keyboard == Some(id) then s2.(phase := Stream(id, FirstPop), ready := true) else s2.(phase := Poll(id))
  }

  function StreamTurn(s: State): State
    requires s.phase.Stream?
  {
    var id := s.phase.id;
    match s.phase.step
    case FirstPop =>
      if s.scancodes != [] then s.(scancodes := s.scancodes[1..], consumed := s.consumed + [s.scancodes[0]])
      else s.(phase := Stream(id, Register))
    case Register => s.(waker := Some(id), phase := Stream(id, SecondPop))
    case SecondPop =>
      if s.scancodes != [] then
        s.(scancodes := s.scancodes[1..], consumed := s.consumed + [s.scancodes[0]], phase := Stream(id, TakeWaker))
      else s.(pending := s.pending + {id}, phase := Loop)
    case TakeWaker => s.(waker := None, phase := Stream(id, FirstPop))
  }

  /** One atomic step; None where the action is not possible or panics. Interrupts can begin unless
      masked, and nothing else runs between `cli` and the halt decision. */
  function Step(s: State, a: Action): Option<State> {
    match a
    case Spawn(isKeyboard) =>
      if !s.phase.Setup? || |s.queue| >= TASK_QUEUE_SIZE || (isKeyboard && s.keyboard.Some?) then None
      else Some(s.(tasks := s.tasks + {s.nextId}, queue := s.queue + [s.nextId], nextId := s.nextId + 1,
                   keyboard := if isKeyboard then Some(s.nextId) else s.keyboard))
    case Start => if s.phase.Setup? then Some(s.(phase := Loop)) else None
    case Pop => if s.phase.Loop? then Some(PopTask(s)) else None
    case ReturnReady =>
      if !s.phase.Poll? then None
      else Some(s.(tasks := s.tasks - {s.phase.id}, cache := s.cache - {s.phase.id}, completed :=
          s.completed + {s.phase.id}, phase := Loop))
    case ReturnPending =>
      if !s.phase.Poll? then None else Some(s.(pending := s.pending + {s.phase.id}, phase := Loop))
    case StreamStep => if s.phase.Stream? then Some(StreamTurn(s)) else None
    case Mask => if s.phase.Idle? && s.producer.Quiet? then Some(s.(phase := Masked)) else None
    case SleepOrGo => if s.phase.Masked? then Some(s.(phase := if s.queue == [] then Halted else Loop)) else None
    case LeaveHalt => if s.phase.Halted? then Some(s.(phase := Loop)) else None
    case Wake(id) => if s.phase.Masked? || id >= s.nextId then None else Enqueue(s, id)
    case KeyArrives(code) =>
      if s.phase.Masked? || !s.producer.Quiet? then None
      else if !s.ready || |s.scancodes| >= SCANCODE_QUEUE_SIZE then Some(s)
      else Some(s.(scancodes := s.scancodes + [code], accepted := s.accepted + [code], producer := Pushed))
    case ProducerTakes =>
      if !s.producer.Pushed? then None
      else if s.waker.None? then Some(s.(producer := Quiet))
      else Some(s.(waker := None, producer := Waking(s.waker.value)))
    case ProducerWakes =>
      if !s.producer.Waking? then None
      else
        var s1 := Enqueue(s, s.producer.id);
        if s1.None? then None else Some(s1.value.(producer := Quiet))
  }

  function Run(s: State, actions: seq<Action>): Option<State>
    decreases |actions|
  {
    if actions == [] then Some(s)
    else
      var s1 := Step(s, actions[0]);
      if s1.None? then None else Run(s1.value, actions[1..])
  }

  /** A live task is queued, is being polled, or last returned Pending and has not been woken since
      that poll began. */
  predicate Tracked(s: State, id: TaskId) {
    id in s.queue || s.phase.Polling(id) || (id in s.pending && id !in s.woken)
  }

  ghost predicate ExecutorInv(s: State) {
    && (forall id: TaskId :: (id in s.tasks || id in s.completed) <==> id < s.nextId)
    && s.tasks !! s.completed && |s.queue| <= TASK_QUEUE_SIZE
    && s.cache <= s.tasks
    && (forall id :: s.phase.Polling(id) ==> id in s.tasks)
    && (forall id :: id in s.tasks ==> Tracked(s, id))
    && (forall id :: id in s.tasks && id in s.woken ==> id in s.queue)
  }

  /** The wake-up that a waiting keyboard task `k` can count on. */
  predicate WakeupInHand(s: State, k: TaskId) {
    k in s.queue || s.producer == Waking(k) || s.waker == Some(k)
  }

  ghost predicate KeyboardInv(s: State) {
    && s.accepted == s.consumed + s.scancodes && |s.scancodes| <= SCANCODE_QUEUE_SIZE
    && (s.waker.Some? ==> s.waker == s.keyboard)
    && (s.producer.Waking? ==> Some(s.producer.id) == s.keyboard)
    && (s.phase.Stream? ==> s.keyboard == Some(s.phase.id) && s.ready)
    && (s.phase.Poll? ==> s.keyboard != Some(s.phase.id))
    && (!s.ready ==> s.scancodes == [] && s.producer.Quiet?)
    && (s.ready ==> s.keyboard.Some?)
    && (s.phase.Masked? ==> s.producer.Quiet?)
    && (s.keyboard.Some? ==> s.keyboard.value in s.tasks)
    && (s.phase.Stream? && s.phase.step.SecondPop? ==> WakeupInHand(s, s.phase.id))
    && (s.keyboard.Some? && !s.phase.Stream? ==> Served(s, s.keyboard.value))
  }

  /** Between polls: the task is queued, or is about to be pushed by the interrupt, or its waker is
      in place and any scancode in the queue has its interrupt still on the way to it. */
  predicate Served(s: State, k: TaskId) {
    k in s.queue || s.producer == Waking(k) || (s.waker == Some(k) && (s.scancodes == [] || s.producer.Pushed?))
  }

  ghost predicate Inv(s: State) {
    ExecutorInv(s) && KeyboardInv(s)
  }

  lemma PopKeepsExecutorInv(s: State)
    requires Inv(s) && s.phase.Loop? && s.queue != []
    requires forall id :: id in s.queue ==> id == s.queue[0] || id in s.queue[1..]
    ensures ExecutorInv(PopTask(s))
  {
    hide KeyboardInv;
  }

  lemma PopKeepsKeyboardInv(s: State)
    requires Inv(s) && s.phase.Loop? && s.queue != []
    requires forall id :: id in s.queue ==> id == s.queue[0] || id in s.queue[1..]
    ensures KeyboardInv(PopTask(s))
  {
    hide ExecutorInv;
  }

  lemma PopKeepsInv(s: State)
    requires Inv(s) && s.phase.Loop?
    ensures Inv(PopTask(s))
  {
    if s.queue != [] {
      assert s.queue == [s.queue[0]] + s.queue[1..];
      PopKeepsExecutorInv(s);
      PopKeepsKeyboardInv(s);
      hide *;
    }
  }

  lemma StreamKeepsInv(s: State)
    requires Inv(s) && s.phase.Stream?
    ensures Inv(StreamTurn(s))
  {
    if s.scancodes != [] {
      assert s.consumed + s.scancodes == (s.consumed + [s.scancodes[0]]) + s.scancodes[1..];
    }
  }

  lemma EnqueueKeepsInv(s: State, id: TaskId)
    requires Inv(s) && Enqueue(s, id).Some?
    ensures Inv(Enqueue(s, id).value) && id in Enqueue(s, id).value.queue
  {
  }

  lemma InterruptKeepsInv(s: State, a: Action)
    requires Inv(s) && Step(s, a).Some? && (a.KeyArrives? || a.ProducerTakes? || a.ProducerWakes?)
    ensures Inv(Step(s, a).value)
  {
    match a {
      case KeyArrives(code) =>
        assert s.consumed + (s.scancodes + [code]) == (s.consumed + s.scancodes) + [code];
      case ProducerTakes =>
      case ProducerWakes =>
        EnqueueKeepsInv(s, s.producer.id);
    }
  }

  lemma ReturnKeepsInv(s: State, a: Action)
    requires Inv(s) && Step(s, a).Some? && (a.ReturnReady? || a.ReturnPending?)
    ensures Inv(Step(s, a).value)
  {
  }

  lemma SpawnKeepsInv(s: State, isKeyboard: bool)
    requires Inv(s) && Step(s, Spawn(isKeyboard)).Some?
    ensures Inv(Step(s, Spawn(isKeyboard)).value)
  {
  }

  /** Every step of every interleaving keeps the invariant. */
  lemma StepKeepsInv(s: State, a: Action)
    requires Inv(s) && Step(s, a).Some?
    ensures Inv(Step(s, a).value)
  {
    match a {
      case Spawn(isKeyboard) => SpawnKeepsInv(s, isKeyboard);
      case Pop => PopKeepsInv(s);
      case ReturnReady => ReturnKeepsInv(s, a);
      case ReturnPending => ReturnKeepsInv(s, a);
      case StreamStep => StreamKeepsInv(s);
      case Wake(id) => EnqueueKeepsInv(s, id);
      case KeyArrives(_) => InterruptKeepsInv(s, a);
      case ProducerTakes => InterruptKeepsInv(s, a);
      case ProducerWakes => InterruptKeepsInv(s, a);
      case _ => hide PopTask, StreamTurn, Enqueue;
    }
  }

  lemma {:induction false} RunKeepsInv(s: State, actions: seq<Action>)
    requires Inv(s)
    ensures Run(s, actions).Some? ==> Inv(Run(s, actions).value)
    decreases |actions|
  {
    hide Inv, Step;
    if actions != [] && Step(s, actions[0]).Some? {
      StepKeepsInv(s, actions[0]);
      RunKeepsInv(Step(s, actions[0]).value, actions[1..]);
    }
  }

  /** A state some run from boot reaches. */
  ghost predicate Reachable(s: State) {
    exists actions :: Run(INITIAL, actions) == Some(s)
  }

  lemma ReachableInv(s: State)
    requires Reachable(s)
    ensures Inv(s)
  {
    var actions :| Run(INITIAL, actions) == Some(s);
    RunKeepsInv(INITIAL, actions);
  }

  /** No lost wake-up: whenever the keyboard task is neither running nor queued, the scancode queue
      is empty, or the interrupt that filled it has yet to take the waker and the waker is there,
      or has taken it and is about to queue the task. */
  lemma NoLostWakeup(s: State, k: TaskId)
    requires Reachable(s) && s.keyboard == Some(k)
    requires !s.phase.Polling(k) && k !in s.queue
    ensures s.scancodes == [] || (s.producer.Pushed? && s.waker == Some(k)) || s.producer == Waking(k)
  {
    ReachableInv(s);
  }

  /** The executor halts only when no live task is runnable and every scancode accepted so far has
      been handed to the keyboard task. */
  lemma HaltOnlyWhenNothingToDo(s: State)
    requires Reachable(s) && Step(s, SleepOrGo).Some? && Step(s, SleepOrGo).value.phase.Halted?
    ensures forall id :: id in s.tasks ==> id in s.pending && id !in s.woken
    ensures s.consumed == s.accepted
  {
    ReachableInv(s);
    forall id | id in s.tasks ensures id in s.pending && id !in s.woken {
      assert Tracked(s, id);
    }
  }

  /** Scancodes reach the stream in arrival order, none lost but those refused at the door, none
      twice; cached wakers belong to live tasks only. */
  lemma ScancodesInOrder(s: State)
    requires Reachable(s)
    ensures s.consumed <= s.accepted && s.accepted == s.consumed + s.scancodes
    ensures s.cache <= s.tasks
  {
    ReachableInv(s);
  }

  /** Every task ever spawned is live or completed, and not both; the queue never holds more than 100. */
  lemma TasksConserved(s: State, id: TaskId)
    requires Reachable(s)
    ensures id < s.nextId <==> id in s.tasks || id in s.completed
    ensures !(id in s.tasks && id in s.completed) && |s.queue| <= 100
  {
    ReachableInv(s);
  }

  /** A completed task is never polled again, in any continuation. */
  lemma {:induction false} CompletedNeverPolled(s: State, actions: seq<Action>, id: TaskId)
    requires Inv(s) && id in s.completed && Run(s, actions).Some?
    ensures id in Run(s, actions).value.completed && !Run(s, actions).value.phase.Polling(id)
    decreases |actions|
  {
    if actions != [] {
      var s1 := Step(s, actions[0]).value;
      StepKeepsInv(s, actions[0]);
      assert id in s1.completed;
      hide Inv, Step;
      CompletedNeverPolled(s1, actions[1..], id);
    }
  }

  lemma {:induction false} RunAppends(s: State, actions: seq<Action>, a: Action)
    requires Run(s, actions).Some?
    ensures Run(s, actions + [a]) == Step(Run(s, actions).value, a)
    decreases |actions|
  {
    hide Step;
    if actions == [] {
      assert [a][1..] == [];
      assert Run(s, [a]) == if Step(s, a).None? then None else Run(Step(s, a).value, []);
    } else {
      assert (actions + [a])[1..] == actions[1..] + [a];
      RunAppends(Step(s, actions[0]).value, actions[1..], a);
    }
  }
}
