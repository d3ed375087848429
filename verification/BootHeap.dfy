/** `init_heap` (src/allocator.rs) run on the linear allocator, and what the hand-off of
    src/lib.rs then does to the heap it has just mapped. */
module BootHeap {
  import opened Wrappers
  import opened Paging
  import opened AddressSpace
  import opened FrameAllocators

  const HEAP_START: nat := 0x4444_4444_0000

  function HeapPage(i: nat): (v: VAddr)
    requires i < 256
    ensures v == VAddr(136, 273, 34, 64 + i, 0)
  {
    Split(HEAP_START + i * 0x1000)
  }

  /** The 256 pages of the kernel heap. */
  function HeapPages(): (ps: seq<VAddr>)
    ensures |ps| == 256 && forall i :: 0 <= i < 256 ==> ps[i] == HeapPage(i)
  {
    seq(256, i requires 0 <= i < 256 => HeapPage(i))
  }

  /** The tables under which the heap lives, with every slot from `from` on unused. */
  ghost predicate HeapPath(m: Memory, root: nat, t3: nat, t2: nat, t1: nat, from: nat) {
    && Distinct([root, t3, t2, t1])
    && At(m, root)[136].LeadsTo(t3) && At(m, t3)[273].LeadsTo(t2) && At(m, t2)[34].LeadsTo(t1)
    && forall i: Index :: from <= i ==> At(m, t1)[i] == UNUSED
  }

  lemma Distinct4(a: nat, b: nat, c: nat, d: nat)
    ensures Distinct([a, b, c, d]) <==> a != b && a != c && a != d && b != c && b != d && c != d
  {
    var s := [a, b, c, d];
    assert s[0] == a && s[1] == b && s[2] == c && s[3] == d;
    if Distinct(s) {
      assert s[0] != s[1] && s[0] != s[2] && s[0] != s[3] && s[1] != s[2] && s[1] != s[3] && s[2] != s[3];
    }
  }

  lemma HeapWalk(m: Memory, root: nat, t3: nat, t2: nat, t1: nat, from: nat, i: nat)
    requires i < 256 && HeapPath(m, root, t3, t2, t1, from) && At(m, t1)[64 + i].present
    ensures Translate(m, root, HeapPage(i)) == Some(At(m, t1)[64 + i].frame * 0x1000)
  {
    var v := HeapPage(i);
    assert Walk(m, root, 4, v) == Walk(m, t3, 3, v) == Walk(m, t2, 2, v) == Walk(m, t1, 1, v);
  }

  /** The first heap page: three tables come out of the supply. */
  lemma FirstHeapPage(m: Memory, root: nat, f: nat, supply: seq<nat>)
    requires At(m, root)[136] == UNUSED
    requires |supply| >= 3 && Distinct([root, supply[0], supply[1], supply[2]])
    ensures var r := MapTo(m, root, HeapPage(0), f, false, supply);
            && r.result == Ok(()) && r.supply == supply[3..]
            && HeapPath(r.mem, root, supply[0], supply[1], supply[2], 65)
            && At(r.mem, supply[2])[64] == Entry(f, true, true, false, false, 0)
  {
    Distinct4(root, supply[0], supply[1], supply[2]);
    var c3 := CreateNext(m, root, 136, false, supply);
    var c2 := CreateNext(c3.mem, supply[0], 273, false, c3.supply);
    var c1 := CreateNext(c2.mem, supply[1], 34, false, c2.supply);
    assert c1.supply == supply[3..] && At(c1.mem, supply[2]) == ZeroTable();
  }

  lemma FirstHeapPageStarves(m: Memory, root: nat, f: nat, supply: seq<nat>)
    requires At(m, root)[136] == UNUSED && |supply| < 3
    ensures MapTo(m, root, HeapPage(0), f, false, supply).result.Err?
  {
    var c3 := CreateNext(m, root, 136, false, supply);
    if supply != [] {
      assert At(c3.mem, supply[0]) == ZeroTable();
      var c2 := CreateNext(c3.mem, supply[0], 273, false, c3.supply);
      if |supply| == 2 {
        assert At(c2.mem, supply[1]) == ZeroTable();
      }
    }
  }

  /** Every further heap page: no table is created, and only its own slot is written. */
  lemma HeapStep(m: Memory, root: nat, t3: nat, t2: nat, t1: nat, i: nat, f: nat, supply: seq<nat>)
    requires i < 256 && HeapPath(m, root, t3, t2, t1, 64 + i)
    ensures var r := MapTo(m, root, HeapPage(i), f, false, supply);
            && r.result == Ok(()) && r.supply == supply
            && HeapPath(r.mem, root, t3, t2, t1, 65 + i)
            && At(r.mem, t1) == At(m, t1)[64 + i := Entry(f, true, true, false, false, 0)]
  {
    Distinct4(root, t3, t2, t1);
    var c3 := CreateNext(m, root, 136, false, supply);
    var c2 := CreateNext(c3.mem, t3, 273, false, supply);
    var c1 := CreateNext(c2.mem, t2, 34, false, supply);
    assert c1.supply == supply && At(c1.mem, t1) == At(m, t1);
  }

  /** Heap slots `from` on hold `fs`, in order, and the ones before are as in `was`. */
  ghost predicate Filled(now: Table, was: Table, from: nat, fs: seq<nat>) {
    && from + |fs| <= 256
    && (forall j: Index :: 64 <= j < 64 + from ==> now[j] == was[j])
    && (forall j :: 0 <= j < |fs| ==> now[64 + from + j] == Entry(fs[j], true, true, false, false, 0))
  }

  lemma FilledCons(now: Table, mid: Table, was: Table, from: nat, f: nat, fs: seq<nat>)
    requires from < 256 && mid == was[64 + from := Entry(f, true, true, false, false, 0)]
    requires Filled(now, mid, from + 1, fs)
    ensures Filled(now, was, from, [f] + fs)
  {
    forall j | 0 <= j < |[f] + fs|
      ensures now[64 + from + j] == Entry(([f] + fs)[j], true, true, false, false, 0)
    {
      if j > 0 {
        assert 64 + from + j == 64 + (from + 1) + (j - 1);
      } else {
        assert now[64 + from] == mid[64 + from];
      }
    }
  }

  lemma {:induction false} HeapRun(m: Memory, root: nat, t3: nat, t2: nat, t1: nat, i: nat, supply: seq<nat>)
    requires i <= 256 && HeapPath(m, root, t3, t2, t1, 64 + i)
    ensures var r := MapPages(m, root, HeapPages()[i..], false, supply);
            && (r.result.Ok? <==> |supply| >= 256 - i)
            && (r.result.Ok? ==>
                  && r.supply == supply[256 - i..]
                  && HeapPath(r.mem, root, t3, t2, t1, 320)
                  && Filled(At(r.mem, t1), At(m, t1), i, supply[..256 - i]))
    decreases 256 - i
  {
    hide MapTo, HeapPath, MapPages;
    var pages := HeapPages();
    if i == 256 {
      assert pages[i..] == [] && supply[..0] == [];
      EmptyRun(m, root, false, supply);
    } else {
      MapPagesUnfolds(m, root, pages, i, false, supply);
      if supply != [] {
        HeapStep(m, root, t3, t2, t1, i, supply[0], supply[1..]);
        var r := MapTo(m, root, HeapPage(i), supply[0], false, supply[1..]);
        HeapRun(r.mem, root, t3, t2, t1, i + 1, supply[1..]);
        if |supply| >= 256 - i {
          var end := MapPages(r.mem, root, pages[i + 1..], false, supply[1..]);
          var fs := supply[1..][..255 - i];
          FilledCons(At(end.mem, t1), At(r.mem, t1), At(m, t1), i, supply[0], fs);
          assert [supply[0]] + fs == supply[..256 - i];
        }
      }
    }
  }

  /** The frame behind heap page `i`: the page tables' frames come between the first page's and the second's. */
  function HeapFrame(frames: seq<nat>, i: nat): nat
    requires i < 256 && |frames| >= 260
  {
    if i == 0 then frames[1] else frames[i + 4]
  }

  /** Booting with the heap's L4 slot free, `init_heap` succeeds exactly when there are 260 usable
      frames, and uses 259 of them after the one it passes over: three for the heap's tables, and one
      behind each of its pages. */
  lemma HeapUses259Frames(m: Memory, root: nat, frames: seq<nat>)
    requires Distinct(frames) && root !in frames && frames != []
    requires At(m, root)[136] == UNUSED
    ensures var r := MapPages(m, root, HeapPages(), false, frames[1..]);
            && (r.result.Ok? <==> |frames| >= 260)
            && (r.result.Ok? ==>
                  && r.supply == frames[260..]
                  && HeapPath(r.mem, root, frames[2], frames[3], frames[4], 320)
                  && forall i :: 0 <= i < 256 ==>
                       Translate(r.mem, root, HeapPage(i)) == Some(HeapFrame(frames, i) * 0x1000))
  {
    hide MapTo, HeapPath, Translate, MapPages;
    var supply, pages := frames[1..], HeapPages();
    assert pages[0..] == pages && pages[0] == HeapPage(0);
    MapPagesUnfolds(m, root, pages, 0, false, supply);
    if |supply| >= 4 {
      var rest := supply[1..];
      assert rest[0] == frames[2] && rest[1] == frames[3] && rest[2] == frames[4];
      Distinct4(root, rest[0], rest[1], rest[2]);
      FirstHeapPage(m, root, supply[0], rest);
      var r := MapTo(m, root, HeapPage(0), supply[0], false, rest);
      HeapRun(r.mem, root, rest[0], rest[1], rest[2], 1, rest[3..]);
      assert rest[3..] == frames[5..];
      if |frames| >= 260 {
        assert frames[5..][255..] == frames[260..];
        var end := MapPages(r.mem, root, pages[1..], false, frames[5..]);
        AllHeapPages(end.mem, root, frames, At(r.mem, frames[4]));
      }
    } else if supply != [] {
      FirstHeapPageStarves(m, root, supply[0], supply[1..]);
    }
  }

  lemma AllHeapPages(m: Memory, root: nat, frames: seq<nat>, first: Table)
    requires |frames| >= 260 && HeapPath(m, root, frames[2], frames[3], frames[4], 320)
    requires first[64].present && first[64].frame == frames[1]
    requires Filled(At(m, frames[4]), first, 1, frames[5..][..255])
    ensures forall i :: 0 <= i < 256 ==> Translate(m, root, HeapPage(i)) == Some(HeapFrame(frames, i) * 0x1000)
  {
    hide Translate, HeapPath;
    forall i | 0 <= i < 256 ensures Translate(m, root, HeapPage(i)) == Some(HeapFrame(frames, i) * 0x1000) {
      if i > 0 {
        assert frames[5..][..255][i - 1] == frames[i + 4];
        assert At(m, frames[4])[64 + 1 + (i - 1)].frame == frames[i + 4];
      } else {
        assert At(m, frames[4])[64] == first[64];
      }
      HeapWalk(m, root, frames[2], frames[3], frames[4], 320, i);
    }
  }

  /** Over a memory map in address order the first two heap pages are never next to each other in
      physical memory, so a transfer that goes on from one into the other as `read_sectors` sets it
      up, from one translated address, does not land in the heap. */
  lemma HeapNotContiguous(regions: seq<Region>)
    requires InOrder(regions) && |UsableFrames(regions)| >= 260
    ensures HeapFrame(UsableFrames(regions), 1) >= HeapFrame(UsableFrames(regions), 0) + 4
  {
    var frames := UsableFrames(regions);
    UsableFramesIncrease(regions);
    assert frames[1] < frames[2] < frames[3] < frames[4] < frames[5];
  }

  /** The frames the linear allocator has not yet handed out. */
  function Remaining(frames: seq<nat>, next: nat): seq<nat> {
    frames[Clip(next + 1, |frames|)..]
  }

  predicate IsTail(left: seq<nat>, supply: seq<nat>) {
    |left| <= |supply| && left == supply[|supply| - |left|..]
  }

  lemma TailOfTail(a: seq<nat>, b: seq<nat>, c: seq<nat>)
    requires IsTail(a, b) && IsTail(b, c)
    ensures IsTail(a, c)
  {
  }

  lemma CreateTakesPrefix(m: Memory, t: nat, i: Index, supply: seq<nat>)
    ensures IsTail(CreateNext(m, t, i, false, supply).supply, supply)
  {
  }

  /** `map_to` takes frames from the front of the supply and leaves the rest. */
  lemma MapToTakesPrefix(m: Memory, root: nat, v: VAddr, f: nat, supply: seq<nat>)
    ensures IsTail(MapTo(m, root, v, f, false, supply).supply, supply)
  {
    hide CreateNext, IsTail;
    var c3 := CreateNext(m, root, v.i4, false, supply);
    CreateTakesPrefix(m, root, v.i4, supply);
    if c3.next.Ok? {
      var c2 := CreateNext(c3.mem, c3.next.value, v.i3, false, c3.supply);
      CreateTakesPrefix(c3.mem, c3.next.value, v.i3, c3.supply);
      TailOfTail(c2.supply, c3.supply, supply);
      if c2.next.Ok? {
        var c1 := CreateNext(c2.mem, c2.next.value, v.i2, false, c2.supply);
        CreateTakesPrefix(c2.mem, c2.next.value, v.i2, c2.supply);
        TailOfTail(c1.supply, c2.supply, supply);
      }
    }
  }

  predicate SameEnd(a: MapRun, b: MapRun) {
    a.mem == b.mem && a.supply == b.supply && a.result == b.result
  }

  /** `init_heap`: a frame and a `map_to` per heap page, both from the linear allocator; on
      success the allocator's count is what the hand-off will skip. */
  method InitHeap(m: Memory, root: nat, linear: LinearFrameAllocator) returns (m': Memory, ok: bool)
    requires linear.next == 0
    modifies linear
    ensures var frames := UsableFrames(linear.regions);
            var r := MapPages(m, root, HeapPages(), false, Remaining(frames, 0));
            && ok == r.result.Ok?
            && (ok ==>
                  && m' == r.mem && r.supply == Remaining(frames, linear.next)
                  && linear.next == |frames| - 1 - |r.supply|)
  {
    hide MapTo, UsableFrames, HeapPages;
    var frames, pages := UsableFrames(linear.regions), HeapPages();
    m' := m;
    ghost var whole := MapPages(m, root, pages, false, Remaining(frames, 0));
    for i := 0 to |pages|
      invariant SameEnd(whole, MapPages(m', root, pages[i..], false, Remaining(frames, linear.next)))
      invariant linear.next < |frames| || (i == 0 && frames == [])
    {
      ghost var before := Remaining(frames, linear.next);
      var frame := linear.AllocateFrame();
      if frame.None? {
        return m', false;
      }
      var supply := Remaining(frames, linear.next);
      assert before[0] == frame.value && before[1..] == supply;
      MapPagesUnfolds(m', root, pages, i, false, before);
      var mapped := MapTo(m', root, pages[i], frame.value, false, supply);
      MapToTakesPrefix(m', root, pages[i], frame.value, supply);
      linear.next := linear.next + (|supply| - |mapped.supply|);
      assert Remaining(frames, linear.next) == mapped.supply;
      m' := mapped.mem;
      if mapped.result.Err? {
        return m', false;
      }
    }
    ok := true;
  }

  /** Boot as src/lib.rs does it: the heap on the linear allocator, the hand-off by the allocator's own
      count, and the first frame its successor issues. That frame is the one behind the heap's
      last page: its next owner shares it with the heap. */
  method BootAndAllocate(m: Memory, root: nat, regions: seq<Region>)
    returns (m': Memory, ok: bool, next: Option<nat>)
    requires Distinct(UsableFrames(regions)) && root !in UsableFrames(regions) && At(m, root)[136] == UNUSED
    ensures ok <==> |UsableFrames(regions)| >= 260
    ensures ok ==> next.Some? && Translate(m', root, HeapPage(255)) == Some(next.value * 0x1000)
  {
    ghost var frames := UsableFrames(regions);
    hide UsableFrames, MapPages, Translate;
    var linear := new LinearFrameAllocator(regions);
    m', ok := InitHeap(m, root, linear);
    next := None;
    assert frames != [] ==> Remaining(frames, 0) == frames[1..];
    if frames == [] {
      EmptySupply(m, root);
    } else {
      HeapUses259Frames(m, root, frames);
    }
    if ok {
      var used := linear.GetUsed();
      assert used == 259;
      var buddy := new BuddyAllocator(regions, used);
      next := buddy.AllocateFrame();
    }
  }

  lemma EmptySupply(m: Memory, root: nat)
    ensures MapPages(m, root, HeapPages(), false, Remaining([], 0)).result.Err?
  {
  }
}
