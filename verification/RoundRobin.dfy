/** The selection loop of src/threading/scheduler.rs: a cursor moving over a deque that is
    reaped while it is scanned, and the rotating queue it implements. */
module RoundRobin {
  import opened Wrappers

  datatype TaskState = READY | RUNNING | WAITING | DONE

  /** The registers `deactivate` saves. */
  datatype Context = Context(rbx: nat, rbp: nat, r12: nat, r13: nat, r14: nat, r15: nat, rsp: nat)

  datatype Task = Task(state: TaskState, pid: nat, entry: nat, saved: Option<Context>) {
    predicate Runnable() {
      state.READY? || state.RUNNING?
    }
  }

  /** The number of `usize` values; index arithmetic wraps at it. */
  const WORD: nat := 0x1_0000_0000_0000_0000

  type Cursor = c: nat | c < WORD

  /** The slot the next turn of the loop examines. */
  function Slot(cur: Cursor, len: nat): nat {
    var c := (cur + 1) % WORD;
    if c >= len then 0 else c
  }

  /** The tasks in the order the loop will visit them. */
  function Ring(tasks: seq<Task>, cur: Cursor): (r: seq<Task>)
    ensures |r| == |tasks|
  {
    if tasks == [] then [] else var s := Slot(cur, |tasks|); tasks[s..] + tasks[..s]
  }

  function FirstRunnable(ring: seq<Task>): (k: nat)
    ensures k <= |ring|
    ensures forall i :: 0 <= i < k ==> !ring[i].Runnable()
    ensures k < |ring| ==> ring[k].Runnable()
  {
    if ring == [] || ring[0].Runnable() then 0 else 1 + FirstRunnable(ring[1..])
  }

  /** The tasks of a scanned stretch that survive it. */
  function Unreaped(ts: seq<Task>): seq<Task> {
    if ts == [] then [] else (if ts[0].state.DONE? then [] else [ts[0]]) + Unreaped(ts[1..])
  }

  function Remove(tasks: seq<Task>, i: nat): seq<Task>
    requires i < |tasks|
  {
    tasks[..i] + tasks[i + 1..]
  }

  datatype Turn = Chosen(at: Cursor) | Panic | Continue(tasks: seq<Task>, cur: Cursor)

  /** One turn of the loop, wrapping arithmetic included. */
  function TurnOf(tasks: seq<Task>, cur: Cursor): Turn
    requires |tasks| < WORD
  {
    var c := Slot(cur, |tasks|);
    if c >= |tasks| then Continue(tasks, c)
    else match tasks[c].state
      case DONE => Continue(Remove(tasks, c), (c + WORD - 1) % WORD)
      case WAITING => Continue(tasks, c)
      case RUNNING => Panic
      case READY => Chosen(c)
  }

  lemma FirstRunnableIs(ring: seq<Task>, k: nat)
    requires k <= |ring|
    requires forall i :: 0 <= i < k ==> !ring[i].Runnable()
    requires k < |ring| ==> ring[k].Runnable()
    ensures FirstRunnable(ring) == k
  {
  }

  /** The decrement at slot 0 wraps to the largest index, and the next increment undoes it. */
  lemma StepBack(c: Cursor, len: nat)
    ensures Slot((c + WORD - 1) % WORD, len) == if c < len then c else 0
  {
    if c == 0 {
      assert (c + WORD - 1) % WORD == WORD - 1;
    } else {
      assert (c + WORD - 1) % WORD == c - 1;
    }
  }

  lemma ReapHead(tasks: seq<Task>, cur: Cursor)
    requires 0 < |tasks| < WORD
    ensures var c := Slot(cur, |tasks|);
            Ring(Remove(tasks, c), (c + WORD - 1) % WORD) == Ring(tasks, cur)[1..]
  {
    hide Slot;
    var c := Slot(cur, |tasks|);
    SlotInRange(cur, |tasks|);
    var tasks' := Remove(tasks, c);
    StepBack(c, |tasks'|);
    if tasks' != [] {
      assert tasks'[c..] == tasks[c + 1..] && tasks'[..c] == tasks[..c];
      if c == |tasks'| {
        assert tasks' == tasks[..c];
      }
    }
  }

  lemma SlotInRange(cur: Cursor, len: nat)
    requires 0 < len < WORD
    ensures Slot(cur, len) < len
    ensures cur + 1 < len ==> Slot(cur, len) == cur + 1
    ensures cur + 1 == len ==> Slot(cur, len) == 0
  {
  }

  lemma PassHead(tasks: seq<Task>, cur: Cursor)
    requires 0 < |tasks| < WORD
    ensures var ring := Ring(tasks, cur);
            Ring(tasks, Slot(cur, |tasks|)) == ring[1..] + [ring[0]]
  {
    hide Slot;
    var c := Slot(cur, |tasks|);
    SlotInRange(cur, |tasks|);
    SlotInRange(c, |tasks|);
  }

  /** A turn of the loop is a step of the rotating queue: a DONE head is dropped, a WAITING head
      goes to the back, anything else stops the scan at the head. */
  lemma TurnRotates(tasks: seq<Task>, cur: Cursor)
    requires 0 < |tasks| < WORD
    ensures var ring := Ring(tasks, cur);
            match TurnOf(tasks, cur)
            case Chosen(at) => at < |tasks| && ring[0] == tasks[at] && tasks[at].state.READY?
            case Panic => ring[0].state.RUNNING?
            case Continue(tasks', cur') =>
              && |tasks'| < WORD
              && Ring(tasks', cur') == ring[1..] + Unreaped([ring[0]])
              && !ring[0].Runnable()
  {
    SlotInRange(cur, |tasks|);
    ReapHead(tasks, cur);
    PassHead(tasks, cur);
    hide Slot;
    var ring := Ring(tasks, cur);
    assert ring[0] == tasks[Slot(cur, |tasks|)];
    assert Unreaped([ring[0]]) == if ring[0].state.DONE? then [] else [ring[0]];
    assert ring[1..] + [] == ring[1..];
  }

  lemma FirstRunnableAfter(ring: seq<Task>)
    requires ring != [] && !ring[0].Runnable()
    ensures FirstRunnable(ring) < |ring| ==>
              FirstRunnable(ring[1..] + Unreaped([ring[0]])) ==
                  FirstRunnable(ring) - 1 < |ring[1..] + Unreaped([ring[0]])|
  {
    var k := FirstRunnable(ring);
    if k < |ring| {
      var next := ring[1..] + Unreaped([ring[0]]);
      assert next[k - 1] == ring[k];
      FirstRunnableIs(next, k - 1);
    }
  }

  datatype Selection = Selected(tasks: seq<Task>, at: Cursor) | Panicked | Endless

  /** Where the loop ends up. */
  function Select(tasks: seq<Task>, cur: Cursor): Selection
    requires 0 < |tasks| < WORD
    decreases FirstRunnable(Ring(tasks, cur))
  {
    if FirstRunnable(Ring(tasks, cur)) == |tasks| then Endless
    else
      TurnRotates(tasks, cur);
      match TurnOf(tasks, cur)
      case Chosen(at) => Selected(tasks, at)
      case Panic => Panicked
      case Continue(tasks', cur') =>
        FirstRunnableAfter(Ring(tasks, cur));
        Select(tasks', cur')
  }

  /** The loop returns the first READY task in cyclic order, having dropped exactly the DONE
      tasks it passed and kept the others in order: the queue restarts behind the task it chose. */
  lemma {:induction false} SelectOnRing(tasks: seq<Task>, cur: Cursor)
    requires 0 < |tasks| < WORD
    ensures var ring := Ring(tasks, cur);
            var k := FirstRunnable(ring);
            match Select(tasks, cur)
            case Endless => k == |ring|
            case Panicked => k < |ring| && ring[k].state.RUNNING?
            case Selected(tasks', at) =>
              && k < |ring| && ring[k].state.READY? && at < |tasks'| <= |tasks|
              && tasks'[at] == ring[k]
              && Ring(tasks', at) == ring[k + 1..] + Unreaped(ring[..k]) + [ring[k]]
    decreases FirstRunnable(Ring(tasks, cur))
  {
    var ring := Ring(tasks, cur);
    var k := FirstRunnable(ring);
    if k < |ring| {
      TurnRotates(tasks, cur);
      match TurnOf(tasks, cur) {
        case Chosen(at) =>
          FirstRunnableIs(ring, 0);
          ChosenGoesLast(tasks, cur);
          assert Unreaped(ring[..0]) == [];
        case Panic =>
          FirstRunnableIs(ring, 0);
        case Continue(tasks', cur') =>
          FirstRunnableAfter(ring);
          SelectOnRing(tasks', cur');
          RotationComposes(ring, k);
      }
    }
  }

  lemma ChosenGoesLast(tasks: seq<Task>, cur: Cursor)
    requires 0 < |tasks| < WORD
    ensures var ring := Ring(tasks, cur);
            Ring(tasks, Slot(cur, |tasks|)) == ring[1..] + [] + [ring[0]]
  {
    PassHead(tasks, cur);
    var ring := Ring(tasks, cur);
    assert ring[1..] + [] == ring[1..];
  }

  lemma RotationComposes(ring: seq<Task>, k: nat)
    requires 0 < k < |ring|
    ensures var next := ring[1..] + Unreaped([ring[0]]);
            k - 1 < |next| && next[k - 1] == ring[k] &&
            next[k..] + Unreaped(next[..k - 1]) + [next[k - 1]] == ring[k + 1..] + Unreaped(ring[..k]) + [ring[k]]
  {
    var next := ring[1..] + Unreaped([ring[0]]);
    assert next[..k - 1] == ring[1..k];
    assert next[k..] == ring[k + 1..] + Unreaped([ring[0]]);
    assert ring[..k] == [ring[0]] + ring[1..k];
    UnreapedConcat([ring[0]], ring[1..k]);
  }

  lemma UnreapedConcat(a: seq<Task>, b: seq<Task>)
    ensures Unreaped(a + b) == Unreaped(a) + Unreaped(b)
  {
    if a == [] {
      assert a + b == b;
    } else {
      assert (a + b)[1..] == a[1..] + b;
      UnreapedConcat(a[1..], b);
    }
  }

  ghost predicate PidsIncrease(tasks: seq<Task>) {
    forall i, j :: 0 <= i < j < |tasks| ==> tasks[i].pid < tasks[j].pid
  }

  lemma TurnKeepsOrder(tasks: seq<Task>, cur: Cursor)
    requires 0 < |tasks| < WORD && PidsIncrease(tasks)
    ensures TurnOf(tasks, cur).Continue? ==> PidsIncrease(TurnOf(tasks, cur).tasks)
  {
  }

  /** Reaping keeps the deque in pid order. */
  lemma {:induction false} SelectKeepsOrder(tasks: seq<Task>, cur: Cursor)
    requires 0 < |tasks| < WORD && PidsIncrease(tasks)
    ensures Select(tasks, cur).Selected? ==> PidsIncrease(Select(tasks, cur).tasks)
    decreases FirstRunnable(Ring(tasks, cur))
  {
    var ring := Ring(tasks, cur);
    if FirstRunnable(ring) < |ring| {
      TurnRotates(tasks, cur);
      var turn := TurnOf(tasks, cur);
      if turn.Continue? {
        TurnKeepsOrder(tasks, cur);
        hide TurnOf, Ring, PidsIncrease;
        FirstRunnableAfter(ring);
        SelectKeepsOrder(turn.tasks, turn.cur);
      }
    }
  }

  /** The loop turned `n` times, or stopped earlier. */
  function Turns(tasks: seq<Task>, cur: Cursor, n: nat): Turn
    requires |tasks| < WORD
    decreases n
  {
    if n == 0 then Continue(tasks, cur)
    else
      var turn := TurnOf(tasks, cur);
      if turn.Continue? then Turns(turn.tasks, turn.cur, n - 1) else turn
  }

  /** With no READY or RUNNING task the loop never stops, however often it turns; not even after
      it has reaped the whole deque, because emptiness is tested before the loop only. */
  lemma {:induction false} NoRunnableNeverReturns(tasks: seq<Task>, cur: Cursor, n: nat)
    requires |tasks| < WORD
    requires forall i :: 0 <= i < |tasks| ==> !tasks[i].Runnable()
    ensures Turns(tasks, cur, n).Continue?
    decreases n
  {
    if n > 0 {
      var turn := TurnOf(tasks, cur);
      NoRunnableNeverReturns(turn.tasks, turn.cur, n - 1);
    }
  }

  /** With one, it stops within as many turns as there are tasks. */
  lemma {:induction false} RunnableReturns(tasks: seq<Task>, cur: Cursor)
    requires 0 < |tasks| < WORD
    requires FirstRunnable(Ring(tasks, cur)) < |tasks|
    ensures !Turns(tasks, cur, FirstRunnable(Ring(tasks, cur)) + 1).Continue?
    decreases FirstRunnable(Ring(tasks, cur))
  {
    var ring := Ring(tasks, cur);
    TurnRotates(tasks, cur);
    var turn := TurnOf(tasks, cur);
    if turn.Continue? {
      FirstRunnableAfter(ring);
      RunnableReturns(turn.tasks, turn.cur);
    }
  }

  /** The same loop under checked arithmetic: does `current_task -= 1` underflow within `n` turns? */
  predicate Underflows(tasks: seq<Task>, cur: Cursor, n: nat)
    requires |tasks| < WORD
    decreases n
  {
    && n > 0 && tasks != []
    && var c, turn := Slot(cur, |tasks|), TurnOf(tasks, cur);
       (c == 0 && tasks[0].state.DONE?) || (turn.Continue? && Underflows(turn.tasks, turn.cur, n - 1))
  }

  /** Where slot 0 stands in the visiting order. */
  function ZeroPosition(tasks: seq<Task>, cur: Cursor): nat
    requires tasks != []
  {
    if Slot(cur, |tasks|) == 0 then 0 else |tasks| - Slot(cur, |tasks|)
  }

  lemma ZeroAfterTurn(tasks: seq<Task>, cur: Cursor)
    requires 0 < |tasks| < WORD && TurnOf(tasks, cur).Continue?
    ensures var turn, c := TurnOf(tasks, cur), Slot(cur, |tasks|);
            && c < |tasks|
            && (c != 0 && turn.tasks != [] ==>
                turn.tasks[0] == tasks[0] && ZeroPosition(turn.tasks, turn.cur) == ZeroPosition(tasks, cur) - 1)
            && (c == 0 ==> ZeroPosition(tasks, cur) == 0)
            && (c == 0 && !tasks[0].state.DONE? ==> turn.tasks == tasks)
  {
    var turn, c := TurnOf(tasks, cur), Slot(cur, |tasks|);
    SlotInRange(cur, |tasks|);
    SlotInRange(c, |tasks|);
    StepBack(c, |turn.tasks|);
  }

  lemma NoneRunnableAfter(ring: seq<Task>)
    requires ring != [] && FirstRunnable(ring) == |ring|
    ensures var next := ring[1..] + Unreaped([ring[0]]); FirstRunnable(next) == |next|
  {
    var next := ring[1..] + Unreaped([ring[0]]);
    assert Unreaped([ring[0]]) == if ring[0].state.DONE? then [] else [ring[0]];
    FirstRunnableIs(next, |next|);
  }

  /** Slot 0 holds a DONE task and the scan reaches it before a runnable one. */
  predicate ZeroAhead(tasks: seq<Task>, cur: Cursor)
    requires tasks != []
  {
    tasks[0].state.DONE? && ZeroPosition(tasks, cur) < FirstRunnable(Ring(tasks, cur))
  }

  lemma ZeroHere(tasks: seq<Task>, cur: Cursor)
    requires 0 < |tasks| < WORD && (Slot(cur, |tasks|) == 0 || !TurnOf(tasks, cur).Continue?)
    ensures ZeroAhead(tasks, cur) <==> Slot(cur, |tasks|) == 0 && tasks[0].state.DONE?
  {
    SlotInRange(cur, |tasks|);
    assert Ring(tasks, cur)[0] == tasks[Slot(cur, |tasks|)];
  }

  lemma ZeroCloser(tasks: seq<Task>, cur: Cursor)
    requires 0 < |tasks| < WORD && Slot(cur, |tasks|) != 0 && TurnOf(tasks, cur).Continue?
    ensures var turn := TurnOf(tasks, cur);
            && 0 < |turn.tasks| < WORD
            && (ZeroAhead(turn.tasks, turn.cur) <==> ZeroAhead(tasks, cur))
            && ZeroPosition(turn.tasks, turn.cur) == ZeroPosition(tasks, cur) - 1
  {
    var ring, turn := Ring(tasks, cur), TurnOf(tasks, cur);
    TurnRotates(tasks, cur);
    SlotInRange(cur, |tasks|);
    assert turn.tasks != [];
    ZeroAfterTurn(tasks, cur);
    FirstRunnableAfter(ring);
    hide TurnOf, Slot, Unreaped;
    if FirstRunnable(ring) == |ring| {
      NoneRunnableAfter(ring);
      ZeroInRing(tasks, cur);
      ZeroInRing(turn.tasks, turn.cur);
    }
  }

  lemma ZeroInRing(tasks: seq<Task>, cur: Cursor)
    requires 0 < |tasks| < WORD
    ensures ZeroPosition(tasks, cur) < |Ring(tasks, cur)|
  {
    SlotInRange(cur, |tasks|);
  }

  /** Checked arithmetic fails, sooner or later, exactly when slot 0 holds a DONE task and the scan
      reaches it before a runnable one; it does so on the turn that visits slot 0. */
  lemma {:induction false} UnderflowsIff(tasks: seq<Task>, cur: Cursor, n: nat)
    requires 0 < |tasks| < WORD
    ensures Underflows(tasks, cur, n) <==> ZeroAhead(tasks, cur) && ZeroPosition(tasks, cur) < n
    decreases n
  {
    if n > 0 {
      var turn := TurnOf(tasks, cur);
      if Slot(cur, |tasks|) != 0 && turn.Continue? {
        ZeroCloser(tasks, cur);
        hide TurnOf, Slot, ZeroAhead, ZeroPosition;
        UnderflowsIff(turn.tasks, turn.cur, n - 1);
      } else {
        ZeroHere(tasks, cur);
        if turn.Continue? && !tasks[0].state.DONE? {
          assert turn.tasks == tasks;
          UnderflowsIff(turn.tasks, turn.cur, n - 1);
        }
      }
    }
  }

  /** One turn of the loop against where it ends up. */
  lemma SelectUnfolds(tasks: seq<Task>, cur: Cursor)
    requires 0 < |tasks| < WORD && FirstRunnable(Ring(tasks, cur)) < |tasks|
    ensures Slot(cur, |tasks|) < |tasks|
    ensures match TurnOf(tasks, cur)
            case Chosen(at) => Select(tasks, cur) == Selected(tasks, at)
            case Panic => Select(tasks, cur) == Panicked
            case Continue(tasks', cur') =>
              && 0 < |tasks'| < WORD && FirstRunnable(Ring(tasks', cur')) < |tasks'|
              && FirstRunnable(Ring(tasks', cur')) < FirstRunnable(Ring(tasks, cur))
              && Select(tasks', cur') == Select(tasks, cur)
  {
    SlotInRange(cur, |tasks|);
    TurnRotates(tasks, cur);
    var turn := TurnOf(tasks, cur);
    if turn.Continue? {
      FirstRunnableAfter(Ring(tasks, cur));
    }
  }

  /** The same for any deque, runnable tasks or not. */
  lemma SelectTurn(tasks: seq<Task>, cur: Cursor)
    requires 0 < |tasks| < WORD
    ensures Slot(cur, |tasks|) < |tasks|
    ensures var whole := Select(tasks, cur);
            match TurnOf(tasks, cur)
            case Chosen(at) => whole == Selected(tasks, at)
            case Panic => whole == Panicked
            case Continue(tasks', cur') =>
              && |tasks'| < WORD
              && (if tasks' == [] then whole == Endless else Select(tasks', cur') == whole)
              && (whole != Endless ==> FirstRunnable(Ring(tasks', cur')) < FirstRunnable(Ring(tasks, cur)))
  {
    var ring := Ring(tasks, cur);
    SlotInRange(cur, |tasks|);
    if FirstRunnable(ring) < |tasks| {
      SelectUnfolds(tasks, cur);
      SelectOnRing(tasks, cur);
    } else {
      TurnRotates(tasks, cur);
      NoneRunnableAfter(ring);
    }
  }

  lemma RingMembers(tasks: seq<Task>, cur: Cursor, t: Task)
    ensures t in Ring(tasks, cur) <==> t in tasks
  {
    if tasks != [] {
      var c := Slot(cur, |tasks|);
      assert tasks == tasks[..c] + tasks[c..];
    }
  }

  lemma UnreapedMembers(ts: seq<Task>, t: Task)
    ensures t in Unreaped(ts) <==> t in ts && !t.state.DONE?
  {
  }

  lemma MembersAround(ts: seq<Task>, k: nat, t: Task)
    requires k < |ts|
    ensures t in ts <==> t in ts[..k] || t == ts[k] || t in ts[k + 1..]
  {
    assert ts == ts[..k] + [ts[k]] + ts[k + 1..];
  }

  /** Selection invents no task, and drops only DONE ones. */
  lemma SelectMembers(tasks: seq<Task>, cur: Cursor, t: Task)
    requires 0 < |tasks| < WORD
    ensures Select(tasks, cur).Selected? ==>
              && (t in Select(tasks, cur).tasks ==> t in tasks)
              && (t in tasks && !t.state.DONE? ==> t in Select(tasks, cur).tasks)
  {
    SelectOnRing(tasks, cur);
    var sel := Select(tasks, cur);
    hide Select, Ring, Unreaped;
    if sel.Selected? {
      var ring := Ring(tasks, cur);
      var k := FirstRunnable(ring);
      RingMembers(tasks, cur, t);
      RingMembers(sel.tasks, sel.at, t);
      UnreapedMembers(ring[..k], t);
      MembersAround(ring, k, t);
      assert t in sel.tasks <==> t in ring[k + 1..] || t in Unreaped(ring[..k]) || t == ring[k];
    }
  }

  /** Selection among tasks none of which is RUNNING: it cannot panic, it is endless exactly when
      no task is READY, and otherwise it finds a READY task and keeps the deque in pid order. */
  lemma SelectOutcome(tasks: seq<Task>, cur: Cursor)
    requires 0 < |tasks| < WORD && PidsIncrease(tasks)
    requires forall t :: t in tasks ==> !t.state.RUNNING?
    ensures match Select(tasks, cur)
            case Panicked => false
            case Endless => forall t :: t in tasks ==> !t.state.READY?
            case Selected(tasks', at) =>
              && at < |tasks'| <= |tasks| && PidsIncrease(tasks')
              && tasks'[at] in tasks && tasks'[at].state.READY?
              && forall t :: t in tasks' ==> t in tasks
  {
    SelectOnRing(tasks, cur);
    SelectKeepsOrder(tasks, cur);
    var ring, sel := Ring(tasks, cur), Select(tasks, cur);
    hide Select, Ring, PidsIncrease;
    forall t ensures t in ring <==> t in tasks {
      RingMembers(tasks, cur, t);
    }
    forall t ensures sel.Selected? && t in sel.tasks ==> t in tasks {
      SelectMembers(tasks, cur, t);
    }
  }

  /** The task under the cursor is the last one the loop would visit. */
  lemma CurrentIsLast(tasks: seq<Task>, cur: Cursor, t: Task)
    requires cur < |tasks| < WORD
    ensures Ring(tasks, cur)[|tasks| - 1] == tasks[cur]
    ensures Ring(tasks[cur := t], cur) == Ring(tasks, cur)[|tasks| - 1 := t]
  {
    SlotInRange(cur, |tasks|);
  }
}
