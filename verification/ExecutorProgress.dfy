/** What the executor and the keyboard stream get done (src/task/executor.rs, src/task/keyboard.rs): a
    scancode let in is handed on, and the machine sleeps when there is nothing to do. */
module ExecutorProgress {
  import opened Wrappers
  import opened Executor

  lemma RunCons(s: State, a: Action, rest: seq<Action>)
    requires Step(s, a).Some?
    ensures Run(s, [a] + rest) == Run(Step(s, a).value, rest)
  {
    assert ([a] + rest)[1..] == rest;
  }

  /** Every scancode accepted so far has been handed to the keyboard task. */
  ghost predicate AllHanded(s: State, actions: seq<Action>) {
    Run(s, actions).Some? && Run(s, actions).value.consumed == s.accepted
  }

  lemma HandedCons(s: State, a: Action, rest: seq<Action>)
    requires Step(s, a).Some? && Step(s, a).value.accepted == s.accepted && AllHanded(Step(s, a).value, rest)
    ensures AllHanded(s, [a] + rest)
  {
    hide Step;
    RunCons(s, a, rest);
  }

  lemma NothingLeft(s: State)
    requires Inv(s) && s.scancodes == []
    ensures AllHanded(s, [])
  {
    assert s.consumed + [] == s.consumed;
  }

  function StreamRank(step: StreamStep): nat {
    if step.Register? || step.TakeWaker? then 1 else 0
  }

  lemma StreamStepOn(s: State)
    requires Inv(s) && s.phase.Stream? && s.scancodes != []
    ensures Step(s, StreamStep) == Some(StreamTurn(s)) && Inv(StreamTurn(s))
    ensures var t := StreamTurn(s);
            && t.phase.Stream? && t.accepted == s.accepted
            && if StreamRank(s.phase.step) == 0 then |t.scancodes| < |s.scancodes|
               else t.scancodes == s.scancodes && StreamRank(t.phase.step) == 0
  {
    StreamKeepsInv(s);
  }

  lemma {:induction false} StreamDrains(s: State) returns (actions: seq<Action>)
    requires Inv(s) && s.phase.Stream?
    ensures AllHanded(s, actions)
    decreases |s.scancodes|, StreamRank(s.phase.step)
  {
    if s.scancodes == [] {
      NothingLeft(s);
      actions := [];
    } else {
      StreamStepOn(s);
      hide Step, StreamTurn, Inv, AllHanded;
      var rest := StreamDrains(StreamTurn(s));
      HandedCons(s, StreamStep, rest);
      actions := [StreamStep] + rest;
    }
  }

  /** With scancodes waiting and no interrupt under way the keyboard task is in the queue. */
  lemma KeyboardIsQueued(s: State)
    requires Inv(s) && s.phase.Loop? && s.producer.Quiet? && s.scancodes != []
    ensures s.queue != []
  {
  }

  lemma PopOn(s: State)
    requires Inv(s) && s.phase.Loop? && s.queue != []
    ensures Step(s, Pop) == Some(PopTask(s)) && Inv(PopTask(s))
    ensures var t := PopTask(s);
            && |t.queue| < |s.queue| && t.accepted == s.accepted && t.producer == s.producer
            && (t.phase.Loop? || t.phase.Poll? || t.phase.Stream?)
  {
    PopKeepsInv(s);
  }

  lemma PendingOn(s: State)
    requires Inv(s) && s.phase.Poll?
    ensures var r := Step(s, ReturnPending);
            && r.Some? && Inv(r.value) && r.value.phase.Loop?
            && r.value.accepted == s.accepted && r.value.producer == s.producer && r.value.queue == s.queue
  {
    ReturnKeepsInv(s, ReturnPending);
  }

  lemma {:induction false} LoopDrains(s: State) returns (actions: seq<Action>)
    requires Inv(s) && s.phase.Loop? && s.producer.Quiet?
    ensures AllHanded(s, actions)
    decreases |s.queue|
  {
    if s.scancodes == [] {
      NothingLeft(s);
      actions := [];
    } else {
      KeyboardIsQueued(s);
      PopOn(s);
      hide Inv, Step, PopTask, AllHanded;
      var t, rest := PopTask(s), [];
      if t.phase.Loop? {
        rest := LoopDrains(t);
      } else if t.phase.Stream? {
        rest := StreamDrains(t);
      } else {
        PendingOn(t);
        rest := LoopDrains(Step(t, ReturnPending).value);
        HandedCons(t, ReturnPending, rest);
        rest := [ReturnPending] + rest;
      }
      HandedCons(s, Pop, rest);
      actions := [Pop] + rest;
    }
  }

  /** The step that takes the executor towards its loop, when it is not in it. */
  function Onward(s: State): Action {
    match s.phase
    case Setup => Start
    case Loop => Pop
    case Poll(_) => ReturnPending
    case Stream(_, _) => StreamStep
    case Idle => Mask
    case Masked => SleepOrGo
    case Halted => LeaveHalt
  }

  function PhaseRank(s: State): nat {
    if s.phase.Idle? then 3 else if s.phase.Masked? then 2 else if s.phase.Loop? then 0 else 1
  }

  lemma OnwardOn(s: State)
    requires Inv(s) && s.producer.Quiet? && !s.phase.Loop? && !s.phase.Stream?
    ensures var r := Step(s, Onward(s));
            && r.Some? && Inv(r.value) && r.value.accepted == s.accepted && r.value.producer.Quiet?
            && PhaseRank(r.value) < PhaseRank(s) && !r.value.phase.Stream?
  {
    StepKeepsInv(s, Onward(s));
    hide Inv;
  }

  lemma {:induction false} QuietDrains(s: State) returns (actions: seq<Action>)
    requires Inv(s) && s.producer.Quiet?
    ensures AllHanded(s, actions)
    decreases PhaseRank(s)
  {
    if s.phase.Loop? {
      actions := LoopDrains(s);
    } else if s.phase.Stream? {
      actions := StreamDrains(s);
    } else {
      OnwardOn(s);
      hide Inv, Step, AllHanded, Onward;
      var rest := QuietDrains(Step(s, Onward(s)).value);
      HandedCons(s, Onward(s), rest);
      actions := [Onward(s)] + rest;
    }
  }

  function ProducerRank(p: Producer): nat {
    match p case Quiet => 0 case Waking(_) => 1 case Pushed => 2
  }

  lemma ProducerOn(s: State)
    requires Inv(s) && !s.producer.Quiet? && |s.queue| < 100
    ensures var r := Step(s, if s.producer.Pushed? then ProducerTakes else ProducerWakes);
            && r.Some? && Inv(r.value) && r.value.accepted == s.accepted
            && ProducerRank(r.value.producer) < ProducerRank(s.producer)
            && (s.producer.Pushed? ==> r.value.queue == s.queue)
            && (s.producer.Waking? ==> r.value.producer.Quiet?)
  {
    InterruptKeepsInv(s, if s.producer.Pushed? then ProducerTakes else ProducerWakes);
    hide Inv;
  }

  /** From every reachable state with room in the task queue there is a continuation in which the keyboard
      task is handed everything accepted so far. */
  lemma {:induction false} ScancodesAreHanded(s: State) returns (actions: seq<Action>)
    requires Inv(s) && |s.queue| < 100
    ensures Run(s, actions).Some? && Run(s, actions).value.consumed == s.accepted
    decreases ProducerRank(s.producer)
  {
    if s.producer.Quiet? {
      actions := QuietDrains(s);
    } else {
      var a := if s.producer.Pushed? then ProducerTakes else ProducerWakes;
      ProducerOn(s);
      var t, rest := Step(s, a).value, [];
      if t.producer.Quiet? {
        rest := QuietDrains(t);
      } else {
        rest := ScancodesAreHanded(t);
      }
      assert AllHanded(t, rest);
      hide Inv, Step;
      HandedCons(s, a, rest);
      actions := [a] + rest;
    }
  }

  /** A scancode that arrives is let in if the keyboard task has set up the queue and the queue holds fewer
      than 100; otherwise it is dropped and nothing else happens. */
  lemma KeyAccepted(s: State, code: nat)
    requires !s.phase.Masked? && s.producer.Quiet?
    ensures var r := Step(s, KeyArrives(code));
            && r.Some? && r.value.queue == s.queue && r.value.consumed == s.consumed
            && (s.ready && |s.scancodes| < 100 ==>
                  r.value.accepted == s.accepted + [code] && r.value.scancodes == s.scancodes + [code])
            && (!s.ready || |s.scancodes| >= 100 ==> r.value == s)
  {
  }

  /** A scancode let in is handed to the keyboard task in some continuation, as the last of those accepted. */
  lemma KeyIsHanded(s: State, code: nat) returns (actions: seq<Action>)
    requires Reachable(s) && !s.phase.Masked? && s.producer.Quiet? && s.ready
    requires |s.scancodes| < 100 && |s.queue| < 100
    ensures var r := Run(s, [KeyArrives(code)] + actions);
            r.Some? && r.value.consumed == s.accepted + [code]
  {
    ReachableInv(s);
    KeyAccepted(s, code);
    StepKeepsInv(s, KeyArrives(code));
    hide Inv, Step;
    actions := ScancodesAreHanded(Step(s, KeyArrives(code)).value);
    RunCons(s, KeyArrives(code), actions);
  }

  /** With nothing in the task queue the executor goes to sleep, and changes nothing else. */
  lemma IdleHalts(s: State)
    requires s.phase.Loop? && s.queue == [] && s.producer.Quiet?
    ensures Run(s, [Pop, Mask, SleepOrGo]) == Some(s.(phase := Halted))
  {
    var idle := s.(phase := Idle);
    var masked := s.(phase := Masked);
    RunCons(s, Pop, [Mask, SleepOrGo]);
    RunCons(idle, Mask, [SleepOrGo]);
    RunCons(masked, SleepOrGo, []);
    assert [Pop] + [Mask, SleepOrGo] == [Pop, Mask, SleepOrGo] && [Mask] + [SleepOrGo] == [Mask, SleepOrGo];
    assert [SleepOrGo] + [] == [SleepOrGo];
  }

  /** The decision to halt, made with interrupts off, looks at the task queue alone. */
  lemma SleepsIff(s: State)
    requires s.phase.Masked?
    ensures Step(s, SleepOrGo) == Some(s.(phase := if s.queue == [] then Halted else Loop))
  {
  }

  lemma {:induction false} RunConcat(s: State, a: seq<Action>, rest: seq<Action>)
    requires Run(s, a).Some?
    ensures Run(s, a + rest) == Run(Run(s, a).value, rest)
    decreases |a|
  {
    hide Step;
    if a == [] {
      assert a + rest == rest;
    } else {
      assert (a + rest)[1..] == a[1..] + rest && (a + rest)[0] == a[0];
      RunConcat(Step(s, a[0]).value, a[1..], rest);
    }
  }

  lemma RunThree(s: State, s1: State, s2: State, s3: State, a: Action, b: Action, c: Action)
    requires Step(s, a) == Some(s1) && Step(s1, b) == Some(s2) && Step(s2, c) == Some(s3)
    ensures Run(s, [a, b, c]) == Some(s3)
  {
    hide Step;
    RunCons(s2, c, []);
    RunCons(s1, b, [c]);
    RunCons(s, a, [b, c]);
    assert [c] + [] == [c] && [b] + [c] == [b, c] && [a] + [b, c] == [a, b, c];
  }

  /** The whole interrupt, when the waker is in place: the scancode is queued and so is its task. */
  lemma InterruptWakes(s: State, code: nat, k: TaskId)
    requires !s.phase.Masked? && s.producer.Quiet? && s.ready && s.waker == Some(k)
    requires |s.scancodes| < 100 && |s.queue| < 100
    ensures Run(s, [KeyArrives(code), ProducerTakes, ProducerWakes]) ==
            Some(s.(scancodes := s.scancodes + [code], accepted := s.accepted + [code],
                    waker := None, queue := s.queue + [k], woken := s.woken + {k}))
  {
    hide Run;
    var s1 := s.(scancodes := s.scancodes + [code], accepted := s.accepted + [code], producer := Pushed);
    var s2 := s1.(waker := None, producer := Waking(k));
    var s3 := s2.(queue := s.queue + [k], woken := s.woken + {k}, producer := Quiet);
    RunThree(s, s1, s2, s3, KeyArrives(code), ProducerTakes, ProducerWakes);
  }

  /** Out of the halt, the keyboard task is polled and its first pop takes the oldest scancode. */
  lemma WokenTakesScancode(s: State, k: TaskId)
    requires s.phase.Halted? && s.queue == [k] && s.keyboard == Some(k) && k in s.tasks && s.scancodes != []
    ensures var r := Run(s, [LeaveHalt, Pop, StreamStep]);
            && r.Some? && r.value.consumed == s.consumed + [s.scancodes[0]]
            && r.value.scancodes == s.scancodes[1..] && r.value.phase == Stream(k, FirstPop)
  {
    hide Run;
    var s1 := s.(phase := Loop);
    var s2 := PopTask(s1);
    RunThree(s, s1, s2, StreamTurn(s2), LeaveHalt, Pop, StreamStep);
  }

  /** A key pressed while the machine sleeps gets it going: the interrupt wakes the keyboard task, the
      executor leaves the halt and polls it, and it takes the scancode. */
  lemma KeyEndsSleep(s: State, code: nat)
    requires Reachable(s) && s.phase.Halted? && s.ready && s.queue == [] && s.producer.Quiet?
    ensures var r := Run(s, [KeyArrives(code), ProducerTakes, ProducerWakes] + [LeaveHalt, Pop, StreamStep]);
            r.Some? && r.value.consumed == s.consumed + [code] && r.value.scancodes == [] && r.value.phase.Stream?
  {
    ReachableInv(s);
    var k := s.keyboard.value;
    assert s.scancodes == [] && s.waker == Some(k) && k in s.tasks;
    hide Inv, Run;
    InterruptWakes(s, code, k);
    var t := Run(s, [KeyArrives(code), ProducerTakes, ProducerWakes]).value;
    assert t.scancodes == [code] && t.queue == [k];
    WokenTakesScancode(t, k);
    RunConcat(s, [KeyArrives(code), ProducerTakes, ProducerWakes], [LeaveHalt, Pop, StreamStep]);
  }

  /** The keyboard task's first poll, when nothing has been typed: it registers its waker and waits. */
  lemma FirstPollWaits(s: State, k: TaskId)
    requires s.phase.Setup? && s.keyboard == Some(k) && s.tasks == {k} && s.queue == [k] && s.scancodes == []
    ensures var r := Run(s, [Start, Pop, StreamStep, StreamStep, StreamStep]);
            && r.Some? && r.value.phase.Loop? && r.value.ready && r.value.queue == []
            && r.value.producer == s.producer && r.value.waker == Some(k) && r.value.tasks == {k}
            && k in r.value.pending
  {
    var s1 := s.(phase := Loop);
    var s2 := PopTask(s1);
    var s3 := s2.(phase := Stream(k, Register));
    var s4 := s3.(waker := Some(k), phase := Stream(k, SecondPop));
    var s5 := s4.(pending := s4.pending + {k}, phase := Loop);
    RunCons(s, Start, [Pop, StreamStep, StreamStep, StreamStep]);
    RunCons(s1, Pop, [StreamStep, StreamStep, StreamStep]);
    RunCons(s2, StreamStep, [StreamStep, StreamStep]);
    RunCons(s3, StreamStep, [StreamStep]);
    RunCons(s4, StreamStep, []);
    hide PopTask, Step;
    assert [Start] + [Pop, StreamStep, StreamStep, StreamStep] == [Start, Pop, StreamStep, StreamStep, StreamStep];
    assert [Pop] + [StreamStep, StreamStep, StreamStep] == [Pop, StreamStep, StreamStep, StreamStep];
    assert [StreamStep] + [StreamStep, StreamStep] == [StreamStep, StreamStep, StreamStep];
    assert [StreamStep] + [StreamStep] == [StreamStep, StreamStep] && [StreamStep] + [] == [StreamStep];
  }

  /** From boot with the keyboard task alone the machine comes to sleep with its waker in place. */
  lemma BootComesToSleep(actions: seq<Action>)
    requires actions ==
             [Spawn(true)] + ([Start, Pop, StreamStep, StreamStep, StreamStep] + [Pop, Mask, SleepOrGo])
    ensures var r := Run(INITIAL, actions);
            && r.Some? && r.value.phase.Halted? && r.value.ready && r.value.queue == [] && r.value.producer.Quiet?
            && r.value.waker == Some(0) && r.value.tasks == {0} && 0 in r.value.pending
  {
    var s1 := Step(INITIAL, Spawn(true)).value;
    assert s1.tasks == {0} && s1.queue == [0];
    var poll := [Start, Pop, StreamStep, StreamStep, StreamStep];
    FirstPollWaits(s1, 0);
    RunCons(INITIAL, Spawn(true), poll + [Pop, Mask, SleepOrGo]);
    RunConcat(s1, poll, [Pop, Mask, SleepOrGo]);
    IdleHalts(Run(s1, poll).value);
    hide Run, Step;
  }
}
