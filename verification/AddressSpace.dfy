/** Process address spaces (src/process.rs): a new level-4 table that shares the kernel's
    subtrees by pointer and owns only the L4[0] -> L3[0] path, and the mappings made in it. */
module AddressSpace {
  import opened Wrappers
  import opened Paging

  /** The tables `new_page_table` writes: `page_table`, `page_table_0` and `page_table_0_0`. */
  datatype Space = Space(root: nat, low: nat, window: nat) {
    predicate Has(f: nat) {
      f == root || f == low || f == window
    }
  }

  function KernelLow(m: Memory, k: nat): nat {
    At(m, k)[0].frame
  }

  function KernelLow0(m: Memory, k: nat): nat {
    At(m, KernelLow(m, k))[0].frame
  }

  /** What `new_page_table` takes for granted: the kernel's L4[0] and L3[0] are tables. */
  predicate KernelHasLowTables(m: Memory, k: nat) {
    At(m, k)[0].LeadsTo(KernelLow(m, k)) && At(m, KernelLow(m, k))[0].LeadsTo(KernelLow0(m, k))
  }

  /** The tables the process's own three tables are copied from are among the kernel's. */
  ghost predicate KernelOk(m: Memory, k: nat, kt: iset<nat>) {
    KernelHasLowTables(m, k) && k in kt && KernelLow(m, k) in kt && KernelLow0(m, k) in kt
  }

  ghost predicate Foreign(kt: iset<nat>, s: Space, f: nat) {
    f !in kt && !s.Has(f)
  }

  /** A level-1 entry the mapper wrote or left alone. */
  predicate LeafEntry(e: Entry) {
    e == UNUSED || e.present
  }

  /** Slot `i` of the window table is unused or names a level-1 table nobody else has. */
  ghost predicate WindowSlot(m: Memory, kt: iset<nat>, s: Space, i: Index) {
    var e := At(m, s.window)[i];
    e == UNUSED ||
    (e.LeadsTo(e.frame) && Foreign(kt, s, e.frame) && forall j: Index :: LeafEntry(At(m, e.frame)[j]))
  }

  ghost predicate SharesKernel(m: Memory, k: nat, s: Space) {
    && At(m, s.root)[0].LeadsTo(s.low)
    && (forall i: Index :: i != 0 ==> At(m, s.root)[i] == At(m, k)[i])
    && At(m, s.low)[0].LeadsTo(s.window)
    && (forall i: Index :: i != 0 ==> At(m, s.low)[i] == At(m, KernelLow(m, k))[i])
    && At(m, s.window)[0] == At(m, KernelLow0(m, k))[0]
  }

  ghost predicate SlotsDistinct(m: Memory, s: Space) {
    forall i: Index, j: Index :: 0 < i < j && At(m, s.window)[i] != UNUSED && At(m, s.window)[j] != UNUSED
      ==> At(m, s.window)[i].frame != At(m, s.window)[j].frame
  }

  ghost predicate OwnTables(kt: iset<nat>, s: Space) {
    && s.root != s.low && s.root != s.window && s.low != s.window
    && s.root !in kt && s.low !in kt && s.window !in kt
  }

  /** The invariant of a process address space next to the kernel's tables `kt`. */
  ghost predicate Isolated(m: Memory, k: nat, kt: iset<nat>, s: Space) {
    && KernelOk(m, k, kt)
    && OwnTables(kt, s)
    && SharesKernel(m, k, s)
    && (forall i: Index :: i != 0 ==> WindowSlot(m, kt, s, i))
    && SlotsDistinct(m, s)
  }

  /** The frames still to be issued are distinct and in nobody's use as a table. */
  ghost predicate FreshSupply(m: Memory, kt: iset<nat>, s: Space, supply: seq<nat>) {
    && (forall i, j :: 0 <= i < j < |supply| ==> supply[i] != supply[j])
    && (forall i :: 0 <= i < |supply| ==> Foreign(kt, s, supply[i]))
    && (forall i, j: Index :: 0 <= i < |supply| && j != 0 && At(m, s.window)[j] != UNUSED ==>
        At(m, s.window)[j].frame != supply[i])
  }

  /** Outside 2 MiB..1 GiB the process sees exactly the kernel's translation. */
  lemma OutsideWindowIsKernel(m: Memory, k: nat, kt: iset<nat>, s: Space, v: VAddr)
    requires Isolated(m, k, kt, s)
    requires !InWindow(v)
    ensures Translate(m, s.root, v) == Translate(m, k, v)
  {
    if v.i4 == 0 && v.i3 == 0 {
      assert Walk(m, s.root, 4, v) == Walk(m, s.low, 3, v) == Walk(m, s.window, 2, v);
      assert Walk(m, k, 4, v) == Walk(m, KernelLow(m, k), 3, v) == Walk(m, KernelLow0(m, k), 2, v);
    }
  }

  /** Inside the window a translation is decided by the window table and one level-1 table. */
  function WindowLookup(m: Memory, s: Space, v: VAddr): Option<nat> {
    var e := At(m, s.window)[v.i2];
    if e == UNUSED then None
    else if !At(m, e.frame)[v.i1].present then None
    else Some(At(m, e.frame)[v.i1].frame * 0x1000 + v.off)
  }

  lemma WindowTranslate(m: Memory, k: nat, kt: iset<nat>, s: Space, v: VAddr)
    requires Isolated(m, k, kt, s) && InWindow(v)
    ensures Translate(m, s.root, v) == WindowLookup(m, s, v)
  {
    assert Walk(m, s.root, 4, v) == Walk(m, s.low, 3, v) == Walk(m, s.window, 2, v);
    assert WindowSlot(m, kt, s, v.i2);
  }

  /** A slot stays good while its level-1 table gains only leaf entries. */
  lemma SlotKept(m: Memory, m': Memory, kt: iset<nat>, s: Space, i: Index)
    requires WindowSlot(m, kt, s, i)
    requires At(m', s.window)[i] == At(m, s.window)[i] ||
        At(m', s.window)[i] == At(m, s.window)[i].WithParentFlags(true)
    requires At(m', s.window)[i] == UNUSED || At(m, s.window)[i] != UNUSED
    requires At(m, s.window)[i] != UNUSED ==>
               forall j: Index :: At(m', At(m, s.window)[i].frame)[j] == At(m, At(m, s.window)[i].frame)[j] ||
                   At(m', At(m, s.window)[i].frame)[j].present
    ensures WindowSlot(m', kt, s, i)
  {
    var f := At(m, s.window)[i].frame;
    if At(m', s.window)[i] != UNUSED {
      forall j: Index ensures LeafEntry(At(m', f)[j]) {
        assert LeafEntry(At(m, f)[j]);
      }
    }
  }

  /** The mapper ORing parent flags into an entry of the process's own upper tables. */
  lemma RelabelKeepsIsolation(m: Memory, k: nat, kt: iset<nat>, s: Space, f: nat, i: Index)
    requires Isolated(m, k, kt, s)
    requires (f == s.root && i == 0) || (f == s.low && i == 0) || (f == s.window && i != 0 && At(m, f)[i] != UNUSED)
    ensures var m' := SetEntry(m, f, i, At(m, f)[i].WithParentFlags(true));
            && Isolated(m', k, kt, s) && SameOn(m, m', kt)
            && (forall j: Index ::
                  At(m', s.window)[j] ==
                  if j == i && f == s.window then At(m, s.window)[j].WithParentFlags(true) else At(m, s.window)[j])
            && (forall g :: !s.Has(g) ==> At(m', g) == At(m, g))
  {
    var m' := SetEntry(m, f, i, At(m, f)[i].WithParentFlags(true));
    forall j: Index | j != 0 ensures WindowSlot(m', kt, s, j) {
      SlotKept(m, m', kt, s, j);
    }
    assert WindowSlot(m, kt, s, i) || i == 0;
  }

  /** The mapper giving an unused window slot a zeroed level-1 table from the supply. */
  lemma NewTableKeepsIsolation(m: Memory, k: nat, kt: iset<nat>, s: Space, i: Index, t: nat)
    requires Isolated(m, k, kt, s) && FreshSupply(m, kt, s, [t])
    requires i != 0 && At(m, s.window)[i] == UNUSED
    ensures var m' := SetEntry(m, s.window, i, Entry(t, true, true, true, false, 0))[t := ZeroTable()];
            && Isolated(m', k, kt, s) && SameOn(m, m', kt)
  {
    var m' := SetEntry(m, s.window, i, Entry(t, true, true, true, false, 0))[t := ZeroTable()];
    assert [t][0] == t;
    forall j: Index | j != 0 ensures WindowSlot(m', kt, s, j) {
      if j != i {
        SlotKept(m, m', kt, s, j);
      }
    }
  }

  /** The leaf write of a mapping whose level-1 table exists. */
  lemma LeafKeepsIsolation(m: Memory, k: nat, kt: iset<nat>, s: Space, i2: Index, i1: Index, e: Entry)
    requires Isolated(m, k, kt, s)
    requires i2 != 0 && At(m, s.window)[i2] != UNUSED && e.present
    ensures var m' := SetEntry(m, At(m, s.window)[i2].frame, i1, e);
            && Isolated(m', k, kt, s) && SameOn(m, m', kt)
  {
    var m' := SetEntry(m, At(m, s.window)[i2].frame, i1, e);
    assert WindowSlot(m, kt, s, i2);
    forall j: Index | j != 0 ensures WindowSlot(m', kt, s, j) {
      SlotKept(m, m', kt, s, j);
    }
  }

  /** The memory after a window mapping, entry by entry: flags on the path, perhaps a new
      level-1 table, and the leaf. */
  ghost predicate WindowEffect(m: Memory, r: Mapped, kt: iset<nat>, s: Space, v: VAddr, frame: nat, supply: seq<nat>) {
    var slot := At(m, s.window)[v.i2];
    var slot' := At(r.mem, s.window)[v.i2];
    && SameOn(m, r.mem, kt)
    && r.supply == (if slot == UNUSED && supply != [] then supply[1..] else supply)
    && (r.result.Ok? <==> if slot == UNUSED then supply != [] else At(m, slot.frame)[v.i1] == UNUSED)
    && (forall i: Index :: i != v.i2 ==> At(r.mem, s.window)[i] == At(m, s.window)[i])
    && slot'.frame == (if slot == UNUSED && supply != [] then supply[0] else slot.frame)
    && (slot' == UNUSED <==> slot == UNUSED && supply == [])
    && (forall f :: Foreign(kt, s, f) && (slot' == UNUSED || f != slot'.frame) ==> At(r.mem, f) == At(m, f))
    && (slot' != UNUSED ==>
          var before := if slot == UNUSED then ZeroTable() else At(m, slot.frame);
          At(r.mem, slot'.frame) == if r.result.Ok? then before[v.i1 := Entry(frame, true, true, true, false, 0)]
              else before)
  }

  /** The last part of a window mapping: the window table, perhaps a new level-1 table, and the leaf. */
  function MapBelow(m: Memory, window: nat, v: VAddr, frame: nat, supply: seq<nat>): Mapped {
    var c := CreateNext(m, window, v.i2, true, supply);
    if c.next.Err? then Mapped(c.mem, c.supply, Err(c.next.error)) else
    if At(c.mem, c.next.value)[v.i1] != UNUSED then Mapped(c.mem, c.supply, Err(PageAlreadyMapped)) else
    Mapped(SetEntry(c.mem, c.next.value, v.i1, Entry(frame, true, true, true, false, 0)), c.supply, Ok(()))
  }

  lemma MapBelowNew(m: Memory, k: nat, kt: iset<nat>, s: Space, v: VAddr, frame: nat, supply: seq<nat>)
    requires Isolated(m, k, kt, s) && FreshSupply(m, kt, s, supply)
    requires InWindow(v) && At(m, s.window)[v.i2] == UNUSED
    ensures var r := MapBelow(m, s.window, v, frame, supply);
            Isolated(r.mem, k, kt, s) && WindowEffect(m, r, kt, s, v, frame, supply)
  {
    if supply != [] {
      var c := CreateNext(m, s.window, v.i2, true, supply);
      assert FreshSupply(m, kt, s, [supply[0]]);
      NewTableKeepsIsolation(m, k, kt, s, v.i2, supply[0]);
      LeafKeepsIsolation(c.mem, k, kt, s, v.i2, v.i1, Entry(frame, true, true, true, false, 0));
    }
  }

  lemma MapBelowUsed(m: Memory, k: nat, kt: iset<nat>, s: Space, v: VAddr, frame: nat, supply: seq<nat>)
    requires Isolated(m, k, kt, s)
    requires InWindow(v) && At(m, s.window)[v.i2] != UNUSED
    ensures var r := MapBelow(m, s.window, v, frame, supply);
            Isolated(r.mem, k, kt, s) && WindowEffect(m, r, kt, s, v, frame, supply)
  {
    var slot := At(m, s.window)[v.i2];
    assert WindowSlot(m, kt, s, v.i2);
    var c := CreateNext(m, s.window, v.i2, true, supply);
    RelabelKeepsIsolation(m, k, kt, s, s.window, v.i2);
    if At(c.mem, slot.frame)[v.i1] == UNUSED {
      LeafKeepsIsolation(c.mem, k, kt, s, v.i2, v.i1, Entry(frame, true, true, true, false, 0));
    }
  }

  lemma MapBelowEffect(m: Memory, k: nat, kt: iset<nat>, s: Space, v: VAddr, frame: nat, supply: seq<nat>)
    requires Isolated(m, k, kt, s) && FreshSupply(m, kt, s, supply)
    requires InWindow(v)
    ensures var r := MapBelow(m, s.window, v, frame, supply);
            Isolated(r.mem, k, kt, s) && WindowEffect(m, r, kt, s, v, frame, supply)
  {
    hide MapBelow, WindowEffect, Isolated, FreshSupply;
    if At(m, s.window)[v.i2] == UNUSED {
      MapBelowNew(m, k, kt, s, v, frame, supply);
    } else {
      MapBelowUsed(m, k, kt, s, v, frame, supply);
    }
  }

  /** Flags ORed into the upper tables before make no difference. */
  lemma EffectFromUpper(m: Memory, m2: Memory, r: Mapped, kt: iset<nat>, s: Space, v: VAddr, frame: nat,
      supply: seq<nat>)
    requires SameOn(m, m2, kt) && At(m2, s.window) == At(m, s.window)
    requires forall g :: !s.Has(g) ==> At(m2, g) == At(m, g)
    requires At(m, s.window)[v.i2] != UNUSED ==> !s.Has(At(m, s.window)[v.i2].frame)
    requires WindowEffect(m2, r, kt, s, v, frame, supply)
    ensures WindowEffect(m, r, kt, s, v, frame, supply)
  {
  }

  lemma WindowMapToEffect(m: Memory, k: nat, kt: iset<nat>, s: Space, v: VAddr, frame: nat, supply: seq<nat>)
    requires Isolated(m, k, kt, s) && FreshSupply(m, kt, s, supply)
    requires InWindow(v)
    ensures var r := MapTo(m, s.root, v, frame, true, supply);
            Isolated(r.mem, k, kt, s) && WindowEffect(m, r, kt, s, v, frame, supply)
  {
    RelabelKeepsIsolation(m, k, kt, s, s.root, 0);
    var m3 := CreateNext(m, s.root, 0, true, supply).mem;
    RelabelKeepsIsolation(m3, k, kt, s, s.low, 0);
    var m2 := CreateNext(m3, s.low, 0, true, supply).mem;
    assert WindowSlot(m, kt, s, v.i2);
    assert forall i: Index :: At(m2, s.window)[i] == At(m, s.window)[i];
    assert At(m2, s.window) == At(m, s.window);
    var r := MapTo(m, s.root, v, frame, true, supply);
    assert r == MapBelow(m2, s.window, v, frame, supply);
    hide MapTo, CreateNext, MapBelow, WindowEffect, Isolated;
    MapBelowEffect(m2, k, kt, s, v, frame, supply);
    EffectFromUpper(m, m2, r, kt, s, v, frame, supply);
  }

  lemma EffectKeepsSupply(m: Memory, r: Mapped, k: nat, kt: iset<nat>, s: Space, v: VAddr, frame: nat, supply: seq<nat>)
    requires Isolated(m, k, kt, s) && FreshSupply(m, kt, s, supply) && InWindow(v)
    requires WindowEffect(m, r, kt, s, v, frame, supply)
    ensures FreshSupply(r.mem, kt, s, r.supply)
  {
  }

  lemma EffectOnPage(m: Memory, r: Mapped, k: nat, kt: iset<nat>, s: Space, v: VAddr, frame: nat, supply: seq<nat>)
    requires Isolated(m, k, kt, s) && Isolated(r.mem, k, kt, s) && InWindow(v)
    requires WindowEffect(m, r, kt, s, v, frame, supply)
    ensures r.result.Ok? <==> Translate(m, s.root, v) == None && (At(m, s.window)[v.i2] != UNUSED || supply != [])
    ensures r.result.Ok? ==> Translate(r.mem, s.root, v) == Some(frame * 0x1000 + v.off)
  {
    WindowTranslate(m, k, kt, s, v);
    WindowTranslate(r.mem, k, kt, s, v);
    assert WindowSlot(m, kt, s, v.i2);
    var slot := At(m, s.window)[v.i2];
    if slot != UNUSED {
      assert LeafEntry(At(m, slot.frame)[v.i1]);
    }
  }

  lemma EffectElsewhere(m: Memory, r: Mapped, k: nat, kt: iset<nat>, s: Space, v: VAddr, frame: nat,
      supply: seq<nat>, w: VAddr)
    requires Isolated(m, k, kt, s) && Isolated(r.mem, k, kt, s) && InWindow(v) && FreshSupply(m, kt, s, supply)
    requires WindowEffect(m, r, kt, s, v, frame, supply)
    requires InWindow(w) && !(r.result.Ok? && SamePage(v, w))
    ensures Translate(r.mem, s.root, w) == Translate(m, s.root, w)
  {
    WindowTranslate(m, k, kt, s, w);
    WindowTranslate(r.mem, k, kt, s, w);
    assert WindowSlot(m, kt, s, w.i2) && WindowSlot(r.mem, kt, s, w.i2);
  }

  /** What a `map_to` of the window page `v` promises, whatever its outcome `r`. */
  ghost predicate MapStep(m: Memory, r: Mapped, k: nat, kt: iset<nat>, s: Space, v: VAddr, frame: nat,
      supply: seq<nat>) {
    && Isolated(r.mem, k, kt, s) && FreshSupply(r.mem, kt, s, r.supply) && SameOn(m, r.mem, kt)
    && r.supply == (if At(m, s.window)[v.i2] == UNUSED && supply != [] then supply[1..] else supply)
    && (At(r.mem, s.window)[v.i2] == UNUSED <==> At(m, s.window)[v.i2] == UNUSED && supply == [])
    && (forall i: Index :: i != v.i2 ==> At(r.mem, s.window)[i] == At(m, s.window)[i])
    && (r.result.Ok? <==> Translate(m, s.root, v) == None && (At(m, s.window)[v.i2] != UNUSED || supply != []))
    && (r.result.Ok? ==> Translate(r.mem, s.root, v) == Some(frame * 0x1000 + v.off))
    && (forall w :: InWindow(w) && !(r.result.Ok? && SamePage(v, w)) ==>
        Translate(r.mem, s.root, w) == Translate(m, s.root, w))
  }

  /** Every `map_to` of a window page leaves the kernel's tables alone and keeps the sharing; it
      succeeds exactly on an unmapped page with a level-1 table at hand, and then changes that
      page's translation and no other. */
  lemma WindowMapTo(m: Memory, k: nat, kt: iset<nat>, s: Space, v: VAddr, frame: nat, supply: seq<nat>)
    requires Isolated(m, k, kt, s) && FreshSupply(m, kt, s, supply)
    requires InWindow(v)
    ensures MapStep(m, MapTo(m, s.root, v, frame, true, supply), k, kt, s, v, frame, supply)
  {
    WindowMapToEffect(m, k, kt, s, v, frame, supply);
    var r := MapTo(m, s.root, v, frame, true, supply);
    EffectKeepsSupply(m, r, k, kt, s, v, frame, supply);
    EffectOnPage(m, r, k, kt, s, v, frame, supply);
    forall w | InWindow(w) && !(r.result.Ok? && SamePage(v, w))
      ensures Translate(r.mem, s.root, w) == Translate(m, s.root, w)
    {
      EffectElsewhere(m, r, k, kt, s, v, frame, supply, w);
    }
  }

  /** A mapping that succeeds is one user code can use: the mapper's ORing of parent flags makes
      good the USER flag that `new_page_table` leaves off `page_table_0`'s first entry. */
  lemma WindowMapToUser(m: Memory, k: nat, kt: iset<nat>, s: Space, v: VAddr, frame: nat, supply: seq<nat>)
    requires Isolated(m, k, kt, s) && FreshSupply(m, kt, s, supply) && InWindow(v)
    requires MapTo(m, s.root, v, frame, true, supply).result.Ok?
    ensures UserWalk(MapTo(m, s.root, v, frame, true, supply).mem, s.root, 4, v)
  {
    var r := MapTo(m, s.root, v, frame, true, supply);
    var m3 := CreateNext(m, s.root, 0, true, supply).mem;
    var m2 := CreateNext(m3, s.low, 0, true, supply).mem;
    var c1 := CreateNext(m2, s.window, v.i2, true, supply);
    var t := c1.next.value;
    assert WindowSlot(m, kt, s, v.i2);
    assert !s.Has(t) && At(m2, s.window) == At(m, s.window);
    assert At(r.mem, s.root)[0].LeadsTo(s.low) && At(r.mem, s.root)[0].user && At(r.mem, s.root)[0].writable;
    assert At(r.mem, s.low)[0].LeadsTo(s.window) && At(r.mem, s.low)[0].user && At(r.mem, s.low)[0].writable;
    var e := At(r.mem, s.window)[v.i2];
    assert e.LeadsTo(t) && e.user && e.writable;
    assert At(r.mem, t)[v.i1] == Entry(frame, true, true, true, false, 0);
    hide MapTo, CreateNext, Isolated;
    assert UserWalk(r.mem, t, 1, v);
    assert UserWalk(r.mem, s.window, 2, v);
    assert UserWalk(r.mem, s.low, 3, v);
  }

  datatype MapRun = MapRun(mem: Memory, supply: seq<nat>, frames: seq<nat>, result: Result<(), MapError>)

  /** The loop `map_stack`, `init_heap` and the loader share: one frame and one `map_to` per page, until the
      first failure. */
  function MapPages(m: Memory, root: nat, pages: seq<VAddr>, asUser: bool, supply: seq<nat>): MapRun
    decreases |pages|
  {
    if pages == [] then MapRun(m, supply, [], Ok(()))
    else if supply == [] then MapRun(m, supply, [], Err(FrameAllocationFailed))
    else
      var r := MapTo(m, root, pages[0], supply[0], asUser, supply[1..]);
      if r.result.Err? then MapRun(r.mem, r.supply, [], r.result)
      else
        var rest := MapPages(r.mem, root, pages[1..], asUser, r.supply);
        rest.(frames := [supply[0]] + rest.frames)
  }

  /** One turn of that loop, at page `i`. */
  lemma MapPagesUnfolds(m: Memory, root: nat, pages: seq<VAddr>, i: nat, asUser: bool, supply: seq<nat>)
    requires i < |pages|
    ensures MapPages(m, root, pages[i..], asUser, supply) ==
              if supply == [] then MapRun(m, supply, [], Err(FrameAllocationFailed))
              else
                var r := MapTo(m, root, pages[i], supply[0], asUser, supply[1..]);
                if r.result.Err? then MapRun(r.mem, r.supply, [], r.result)
                else
                  var rest := MapPages(r.mem, root, pages[i + 1..], asUser, r.supply);
                  rest.(frames := [supply[0]] + rest.frames)
  {
    hide MapTo;
    assert pages[i..][0] == pages[i] && pages[i..][1..] == pages[i + 1..];
  }

  /** Two runs, one after the other. */
  lemma {:induction false} MapPagesConcat(
    m: Memory, root: nat, a: seq<VAddr>, b: seq<VAddr>, asUser: bool, supply: seq<nat>)
    requires MapPages(m, root, a, asUser, supply).result.Ok?
    ensures var r := MapPages(m, root, a, asUser, supply);
            var q := MapPages(r.mem, root, b, asUser, r.supply);
            MapPages(m, root, a + b, asUser, supply) == q.(frames := r.frames + q.frames)
    decreases |a|
  {
    hide MapTo, MapPages;
    if a == [] {
      assert a + b == b;
      EmptyRun(m, root, asUser, supply);
      var q := MapPages(m, root, b, asUser, supply);
      assert [] + q.frames == q.frames;
    } else {
      MapPagesUnfolds(m, root, a, 0, asUser, supply);
      MapPagesUnfolds(m, root, a + b, 0, asUser, supply);
      assert a[0..] == a && (a + b)[0..] == a + b;
      assert (a + b)[0] == a[0] && (a + b)[1..] == a[1..] + b;
      var r1 := MapTo(m, root, a[0], supply[0], asUser, supply[1..]);
      MapPagesConcat(r1.mem, root, a[1..], b, asUser, r1.supply);
      var r := MapPages(r1.mem, root, a[1..], asUser, r1.supply);
      var q := MapPages(r.mem, root, b, asUser, r.supply);
      assert [supply[0]] + (r.frames + q.frames) == ([supply[0]] + r.frames) + q.frames;
    }
  }

  lemma EmptyRun(m: Memory, root: nat, asUser: bool, supply: seq<nat>)
    ensures MapPages(m, root, [], asUser, supply) == MapRun(m, supply, [], Ok(()))
  {
  }

  ghost predicate MapsTo(m: Memory, root: nat, pages: seq<VAddr>, frames: seq<nat>) {
    |frames| == |pages| && forall i :: 0 <= i < |pages| ==>
        Translate(m, root, pages[i]) == Some(frames[i] * 0x1000 + pages[i].off)
  }

  ghost predicate Untouched(m: Memory, m': Memory, root: nat, pages: seq<VAddr>) {
    forall w :: InWindow(w) && (forall i :: 0 <= i < |pages| ==> !SamePage(pages[i], w)) ==>
        Translate(m', root, w) == Translate(m, root, w)
  }

  ghost predicate Mapped1(m: Memory, root: nat, v: VAddr) {
    Translate(m, root, v) != None
  }

  /** What a run of window mappings promises: the kernel's tables, the sharing and everything
      mapped before are kept, each frame used comes from the supply and is used once, and a
      completed run translates every page to its own frame. */
  ghost predicate RunKeeps(m: Memory, r: MapRun, k: nat, kt: iset<nat>, s: Space, pages: seq<VAddr>, supply: seq<nat>) {
    && Isolated(r.mem, k, kt, s) && FreshSupply(r.mem, kt, s, r.supply) && SameOn(m, r.mem, kt)
    && Untouched(m, r.mem, s.root, pages)
    && (forall w :: InWindow(w) && Mapped1(m, s.root, w) ==> Translate(r.mem, s.root, w) == Translate(m, s.root, w))
    && (forall f :: f in r.frames || f in r.supply ==> f in supply)
    && (forall i, j :: 0 <= i < j < |r.frames| ==> r.frames[i] != r.frames[j])
    && (r.result.Ok? ==> MapsTo(r.mem, s.root, pages, r.frames))
  }

  lemma SupplyTail(m: Memory, kt: iset<nat>, s: Space, supply: seq<nat>)
    requires FreshSupply(m, kt, s, supply) && supply != []
    ensures FreshSupply(m, kt, s, supply[1..]) && supply[0] !in supply[1..]
  {
  }

  lemma PageUnmapped(m: Memory, k: nat, kt: iset<nat>, s: Space, v: VAddr, w: VAddr)
    requires Isolated(m, k, kt, s) && InWindow(v) && SamePage(v, w)
    ensures Mapped1(m, s.root, w) <==> Mapped1(m, s.root, v)
  {
    WindowTranslate(m, k, kt, s, v);
    WindowTranslate(m, k, kt, s, w);
  }

  /** Gluing one mapping and the rest of a run, as far as translations go. */
  lemma TranslationsExtend(m: Memory, m1: Memory, m2: Memory, root: nat, pages: seq<VAddr>, f: nat, frames: seq<nat>)
    requires pages != [] && InWindow(pages[0])
    requires forall w :: InWindow(w) && SamePage(pages[0], w) ==> !Mapped1(m, root, w)
    requires Translate(m1, root, pages[0]) == Some(f * 0x1000 + pages[0].off)
    requires forall w :: InWindow(w) && !SamePage(pages[0], w) ==> Translate(m1, root, w) == Translate(m, root, w)
    requires Untouched(m1, m2, root, pages[1..])
    requires forall w :: InWindow(w) && Mapped1(m1, root, w) ==> Translate(m2, root, w) == Translate(m1, root, w)
    ensures Untouched(m, m2, root, pages)
    ensures forall w :: InWindow(w) && Mapped1(m, root, w) ==> Translate(m2, root, w) == Translate(m, root, w)
    ensures MapsTo(m2, root, pages[1..], frames) ==> MapsTo(m2, root, pages, [f] + frames)
  {
    hide Translate;
    assert Mapped1(m1, root, pages[0]);
    forall w | InWindow(w) && (forall i :: 0 <= i < |pages| ==> !SamePage(pages[i], w))
      ensures Translate(m2, root, w) == Translate(m, root, w)
    {
      assert !SamePage(pages[0], w);
      assert forall i :: 0 <= i < |pages[1..]| ==> !SamePage(pages[1..][i], w);
    }
  }

  lemma FramesExtend(supply: seq<nat>, supply1: seq<nat>, frames: seq<nat>, left: seq<nat>)
    requires supply != [] && supply[0] !in supply[1..]
    requires supply1 == supply[1..] || (supply[1..] != [] && supply1 == supply[1..][1..])
    requires forall f :: f in frames || f in left ==> f in supply1
    requires forall i, j :: 0 <= i < j < |frames| ==> frames[i] != frames[j]
    ensures forall f :: f in [supply[0]] + frames || f in left ==> f in supply
    ensures forall i, j :: 0 <= i < j < |[supply[0]] + frames| ==>
        ([supply[0]] + frames)[i] != ([supply[0]] + frames)[j]
  {
    assert forall f :: f in supply1 ==> f in supply[1..];
    assert forall i :: 0 <= i < |frames| ==> frames[i] in supply[1..];
  }

  lemma {:induction false} WindowRun(m: Memory, k: nat, kt: iset<nat>, s: Space, pages: seq<VAddr>, supply: seq<nat>)
    requires Isolated(m, k, kt, s) && FreshSupply(m, kt, s, supply)
    requires forall i :: 0 <= i < |pages| ==> InWindow(pages[i])
    ensures RunKeeps(m, MapPages(m, s.root, pages, true, supply), k, kt, s, pages, supply)
    decreases |pages|
  {
    hide Translate, MapTo, Isolated, FreshSupply, MapPages;
    if pages != [] {
      MapPagesUnfolds(m, s.root, pages, 0, true, supply);
      assert pages[0..] == pages;
    }
    if pages != [] && supply != [] {
      SupplyTail(m, kt, s, supply);
      WindowMapTo(m, k, kt, s, pages[0], supply[0], supply[1..]);
      var r := MapTo(m, s.root, pages[0], supply[0], true, supply[1..]);
      if r.result.Ok? {
        var rest := MapPages(r.mem, s.root, pages[1..], true, r.supply);
        WindowRun(r.mem, k, kt, s, pages[1..], r.supply);
        forall w | InWindow(w) && SamePage(pages[0], w) ensures !Mapped1(m, s.root, w) {
          PageUnmapped(m, k, kt, s, pages[0], w);
        }
        TranslationsExtend(m, r.mem, rest.mem, s.root, pages, supply[0], rest.frames);
        FramesExtend(supply, r.supply, rest.frames, rest.supply);
        assert MapPages(m, s.root, pages, true, supply) == rest.(frames := [supply[0]] + rest.frames);
      } else {
        assert MapPages(m, s.root, pages, true, supply) == MapRun(r.mem, r.supply, [], r.result);
        assert Untouched(m, r.mem, s.root, pages);
      }
    } else {
      NothingMapped(m, s.root, pages, supply);
    }
  }

  lemma NothingMapped(m: Memory, root: nat, pages: seq<VAddr>, supply: seq<nat>)
    requires pages == [] || supply == []
    ensures MapPages(m, root, pages, true, supply) ==
        MapRun(m, supply, [], if pages == [] then Ok(()) else Err(FrameAllocationFailed))
  {
  }
}
