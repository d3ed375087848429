/** The kernel heap (src/allocator/fixed_block.rs), as an accounting of blocks: nine free lists of
    fixed-size blocks in front of a fallback heap that is known by its contract only. */
module FixedBlock {
  import opened Wrappers

  datatype Layout = Layout(size: nat, align: nat)

  const CLASSES: nat := 9

  type Class = i: nat | i < CLASSES

  /** BLOCK_SIZES. */
  function BlockSize(i: Class): nat {
    [8, 16, 32, 64, 128, 256, 512, 1024, 2048][i]
  }

  function Need(l: Layout): nat {
    if l.size > l.align then l.size else l.align
  }

  /** `block_index`: the first class that is large enough. */
  function BlockIndexFrom(l: Layout, i: nat): (r: Option<Class>)
    requires i <= CLASSES
    ensures r.Some? ==> i <= r.value && BlockSize(r.value) >= Need(l) && forall j: Class :: i <= j < r.value ==>
        BlockSize(j) < Need(l)
    ensures r.None? ==> forall j: Class :: i <= j ==> BlockSize(j) < Need(l)
    decreases CLASSES - i
  {
    if i == CLASSES then None
    else if BlockSize(i) >= Need(l) then Some(i)
    else BlockIndexFrom(l, i + 1)
  }

  function BlockIndex(l: Layout): Option<Class> {
    BlockIndexFrom(l, 0)
  }

  predicate IsPow2(n: nat) {
    n == 1 || (n > 1 && n % 2 == 0 && IsPow2(n / 2))
  }

  /** What `Layout` and `GlobalAlloc` guarantee of a request. */
  predicate ValidLayout(l: Layout) {
    l.size > 0 && IsPow2(l.align)
  }

  /** The layout under which the fallback is asked for a request's block. */
  function Backing(l: Layout): Layout {
    match BlockIndex(l)
    case Some(i) => Layout(BlockSize(i), BlockSize(i))
    case None => l
  }

  predicate Apart(p: nat, n: nat, q: nat, m: nat) {
    p + n <= q || q + m <= p
  }

  /** The free lists, the blocks in clients' hands with their layouts, and what the fallback has
      granted out of [lo, hi). */
  datatype Heap = Heap(lists: seq<seq<nat>>, live: map<nat, Layout>, granted: map<nat, Layout>, lo: nat, hi: nat)

  /** The fallback's contract: its grants are aligned, inside the heap and pairwise disjoint. */
  ghost predicate GoodGrants(h: Heap) {
    && (forall p :: p in h.granted ==> GoodGrant(h, p, h.granted[p]))
    && (forall p, q :: p in h.granted && q in h.granted && p != q ==> Apart(p, h.granted[p].size, q, h.granted[q].size))
  }

  predicate GoodGrant(h: Heap, p: nat, l: Layout) {
    p != 0 && h.lo <= p && p + l.size <= h.hi && l.size > 0 && l.align > 0 && p % l.align == 0
  }

  /** What `allocate_first_fit` may answer. */
  ghost predicate MayGrant(h: Heap, l: Layout, p: nat) {
    GoodGrant(h, p, l) && p !in h.granted && forall q :: q in h.granted ==> Apart(p, l.size, q, h.granted[q].size)
  }

  ghost predicate Listed(h: Heap, i: Class, p: nat) {
    i < |h.lists| && p in h.lists[i]
  }

  ghost predicate OnSomeList(h: Heap, p: nat) {
    exists i: Class :: Listed(h, i, p)
  }

  /** Every grant is exactly one live block or exactly one entry of one list. */
  ghost predicate Accounted(h: Heap) {
    && |h.lists| == CLASSES
    && (forall p :: p in h.live ==> ValidLayout(h.live[p]) && p in h.granted && h.granted[p] == Backing(h.live[p]))
    && (forall i: Class, p :: Listed(h, i, p) ==>
        p in h.granted && h.granted[p] == Layout(BlockSize(i), BlockSize(i)) && p !in h.live)
    && (forall i: Class :: Distinct(h.lists[i]))
    && (forall p :: p in h.granted ==> p in h.live || OnSomeList(h, p))
  }

  ghost predicate Inv(h: Heap) {
    GoodGrants(h) && Accounted(h)
  }

  /** The first block of a list handed out, a block put on a list, a block given back. */
  function Popped(h: Heap, i: Class, l: Layout): Heap
    requires |h.lists| == CLASSES && h.lists[i] != []
  {
    h.(lists := h.lists[i := h.lists[i][1..]], live := h.live[h.lists[i][0] := l])
  }

  function Pushed(h: Heap, i: Class, p: nat): Heap
    requires |h.lists| == CLASSES
  {
    h.(lists := h.lists[i := [p] + h.lists[i]], live := h.live - {p})
  }

  function Returned(h: Heap, p: nat): Heap {
    h.(live := h.live - {p}, granted := h.granted - {p})
  }

  /** `alloc`: pop the class's list, else ask the fallback, whose answer is `offer`; 0 is null. */
  function Alloc(h: Heap, l: Layout, offer: Option<nat>): (Heap, nat)
    requires |h.lists| == CLASSES
  {
    match BlockIndex(l)
    case Some(i) =>
      if h.lists[i] != [] then (Popped(h, i, l), h.lists[i][0]) else FromFallback(h, l, offer)
    case None => FromFallback(h, l, offer)
  }

  function FromFallback(h: Heap, l: Layout, offer: Option<nat>): (Heap, nat) {
    match offer
    case None => (h, 0)
    case Some(p) => (h.(live := h.live[p := l], granted := h.granted[p := Backing(l)]), p)
  }

  /** Is the fallback asked at all? */
  predicate AsksFallback(h: Heap, l: Layout)
    requires |h.lists| == CLASSES
  {
    BlockIndex(l).None? || h.lists[BlockIndex(l).value] == []
  }

  ghost predicate OfferOk(h: Heap, l: Layout, offer: Option<nat>)
    requires |h.lists| == CLASSES
  {
    AsksFallback(h, l) && offer.Some? ==> MayGrant(h, Backing(l), offer.value)
  }

  /** `dealloc`: push on the class's list, or give the block back to the fallback. */
  function Dealloc(h: Heap, p: nat, l: Layout): Heap
    requires |h.lists| == CLASSES
  {
    match BlockIndex(l)
    case Some(i) => Pushed(h, i, p)
    case None => Returned(h, p)
  }

  lemma SizesDistinct(i: Class, j: Class)
    ensures BlockSize(i) == BlockSize(j) ==> i == j
    ensures BlockSize(i) >= 8 && IsPow2(BlockSize(i))
  {
    assert IsPow2(2) && IsPow2(4) && IsPow2(8) && IsPow2(16) && IsPow2(32) && IsPow2(64) && IsPow2(128);
    assert IsPow2(256) && IsPow2(512) && IsPow2(1024) && IsPow2(2048);
  }

  lemma ListsApart(h: Heap, i: Class, j: Class, p: nat)
    requires Accounted(h) && Listed(h, i, p) && Listed(h, j, p)
    ensures i == j
  {
    SizesDistinct(i, j);
  }

  lemma PopKeeps(h: Heap, i: Class, l: Layout)
    requires Inv(h) && ValidLayout(l) && Backing(l) == Layout(BlockSize(i), BlockSize(i)) && h.lists[i] != []
    ensures Inv(Popped(h, i, l))
  {
    hide BlockSize, Backing, ValidLayout;
    var p, h' := h.lists[i][0], Popped(h, i, l);
    assert Listed(h, i, p);
    assert Distinct(h.lists[i]);
    forall j: Class, q | Listed(h', j, q) ensures Listed(h, j, q) && q != p {
      if j != i && q == p {
        ListsApart(h, i, j, p);
      }
    }
    forall q | q in h'.granted ensures q in h'.live || OnSomeList(h', q) {
      if q !in h.live && q != p {
        var j: Class :| Listed(h, j, q);
        assert h.lists[i] == [p] + h.lists[i][1..];
        assert Listed(h', j, q);
      }
    }
  }

  lemma GrantAccounted(h: Heap, l: Layout, p: nat)
    requires Accounted(h) && ValidLayout(l) && p !in h.granted
    ensures Accounted(FromFallback(h, l, Some(p)).0)
  {
    hide BlockSize, Backing, ValidLayout;
    var h' := FromFallback(h, l, Some(p)).0;
    forall q | q in h'.granted ensures q in h'.live || OnSomeList(h', q) {
      if q != p && q !in h.live {
        var j: Class :| Listed(h, j, q);
        assert Listed(h', j, q);
      }
    }
    forall j: Class, q | Listed(h', j, q) ensures Listed(h, j, q) {
    }
  }

  lemma GrantKeeps(h: Heap, l: Layout, p: nat)
    requires Inv(h) && ValidLayout(l) && MayGrant(h, Backing(l), p)
    ensures Inv(FromFallback(h, l, Some(p)).0)
  {
    hide BlockSize, Backing, ValidLayout;
    GrantAccounted(h, l, p);
    hide Accounted;
  }

  lemma PushKeeps(h: Heap, i: Class, p: nat)
    requires Inv(h) && p in h.live && Backing(h.live[p]) == Layout(BlockSize(i), BlockSize(i))
    ensures Inv(Pushed(h, i, p))
  {
    hide BlockSize, Backing, ValidLayout;
    var h' := Pushed(h, i, p);
    assert !Listed(h, i, p);
    assert Distinct(h.lists[i]);
    forall j: Class, q | Listed(h', j, q) ensures Listed(h, j, q) || (j == i && q == p) {
    }
    forall q | q in h'.granted ensures q in h'.live || OnSomeList(h', q) {
      if q == p {
        assert h'.lists[i][0] == p;
        assert Listed(h', i, p);
      } else if q !in h.live {
        var j: Class :| Listed(h, j, q);
        assert Listed(h', j, q);
      }
    }
  }

  lemma ReturnKeeps(h: Heap, p: nat)
    requires Inv(h) && p in h.live
    ensures Inv(Returned(h, p))
  {
    hide BlockSize, Backing, ValidLayout;
    var h' := Returned(h, p);
    forall j: Class, q | Listed(h', j, q) ensures Listed(h, j, q) && q != p {
    }
    forall q | q in h'.granted ensures q in h'.live || OnSomeList(h', q) {
      if q !in h.live {
        var j: Class :| Listed(h, j, q);
        assert Listed(h', j, q);
      }
    }
  }

  /** `alloc` keeps the accounts whatever the fallback answers. */
  lemma AllocKeeps(h: Heap, l: Layout, offer: Option<nat>)
    requires Inv(h) && ValidLayout(l) && OfferOk(h, l, offer)
    ensures Inv(Alloc(h, l, offer).0)
  {
    if AsksFallback(h, l) {
      if offer.Some? {
        GrantKeeps(h, l, offer.value);
      }
    } else {
      PopKeeps(h, BlockIndex(l).value, l);
    }
    hide Inv;
  }

  /** `dealloc` of a live block under its own layout keeps the accounts, and what it gives the
      fallback is a grant under that very layout. */
  lemma DeallocKeeps(h: Heap, p: nat)
    requires Inv(h) && p in h.live
    ensures Inv(Dealloc(h, p, h.live[p]))
    ensures BlockIndex(h.live[p]).None? ==> p in h.granted && h.granted[p] == h.live[p]
  {
    var l := h.live[p];
    if BlockIndex(l).Some? {
      PushKeeps(h, BlockIndex(l).value, p);
    } else {
      ReturnKeeps(h, p);
    }
  }

  lemma MultipleMod(a: nat, y: int)
    requires a > 0
    ensures (a * y) % a == 0
  {
    var q := (a * y) / a;
    MultipleGrows(a, y - q);
    assert (a * y) % a == a * (y - q);
  }

  lemma MultipleGrows(a: nat, n: int)
    ensures n >= 1 ==> a * n >= a
    ensures n <= -1 ==> a * n + a <= 0
  {
    if n >= 1 {
      assert a * n == a + a * (n - 1);
    } else if n <= -1 {
      assert a * n + a == a * (n + 1);
    }
  }

  lemma DividesTransitive(p: nat, b: nat, a: nat)
    requires a > 0 && b > 0 && p % b == 0 && b % a == 0
    ensures p % a == 0
  {
    var x, y := p / b, b / a;
    assert p == b * x && b == a * y;
    assert p == a * (y * x) by {
      assert (a * y) * x == a * (y * x);
    }
    MultipleMod(a, y * x);
  }

  lemma {:induction false} Pow2Divides(a: nat, b: nat)
    requires IsPow2(a) && IsPow2(b) && a <= b
    ensures b % a == 0
  {
    if a > 1 {
      Pow2Divides(a / 2, b / 2);
      var q := (b / 2) / (a / 2);
      assert b / 2 == (a / 2) * q;
      assert b == a * q by {
        assert a * q == 2 * (a / 2) * q == 2 * ((a / 2) * q);
      }
      MultipleMod(a, q);
    }
  }

  /** Every grant made for a request suits it: large enough, and aligned as asked. */
  lemma BackingFits(l: Layout, p: nat)
    requires ValidLayout(l)
    ensures Backing(l).size >= l.size
    ensures Backing(l).align > 0 && p % Backing(l).align == 0 ==> p % l.align == 0
  {
    match BlockIndex(l) {
      case Some(i) =>
        SizesDistinct(i, i);
        Pow2Divides(l.align, BlockSize(i));
        hide BlockSize;
        if p % BlockSize(i) == 0 {
          DividesTransitive(p, BlockSize(i), l.align);
        }
      case None =>
    }
  }

  function Extent(h: Heap, p: nat): nat
    requires p in h.granted
  {
    h.granted[p].size
  }

  /** What a caller of `alloc` gets: null exactly when the fallback was asked and had nothing;
      otherwise a block that is aligned, large enough, inside the heap, in nobody's hands before,
      and disjoint from every other live block and every block still on a list. */
  lemma AllocGives(h: Heap, l: Layout, offer: Option<nat>)
    requires Inv(h) && ValidLayout(l) && OfferOk(h, l, offer)
    ensures var (h', p) := Alloc(h, l, offer);
            && (p == 0 <==> AsksFallback(h, l) && offer.None?)
            && (p == 0 ==> h' == h)
            && (p != 0 ==>
                  && p !in h.live && h'.live == h.live[p := l] && p in h'.granted
                  && p % l.align == 0 && Extent(h', p) >= l.size && h.lo <= p && p + Extent(h', p) <= h.hi
                  && (forall q :: q in h'.granted && q != p ==> Apart(p, Extent(h', p), q, Extent(h', q)))
                  && (forall i: Class :: !Listed(h', i, p)))
  {
    AllocKeeps(h, l, offer);
    var (h', p) := Alloc(h, l, offer);
    if AsksFallback(h, l) {
      hide BlockSize, IsPow2;
      if offer.Some? {
        BackingFits(l, p);
      }
    } else {
      var i := BlockIndex(l).value;
      assert h.lists[i][0] in h.lists[i];
      assert Listed(h, i, p);
      hide BlockSize, IsPow2;
      BackingFits(l, p);
    }
  }

  /** BLOCK_SIZES is the powers of two from 8 to 2048, so a request has a class exactly up to 2048. */
  lemma BlockSizesDouble(l: Layout)
    ensures BlockSize(0) == 8 && BlockSize(8) == 2048
    ensures forall i: Class :: i < 8 ==> BlockSize(i + 1) == 2 * BlockSize(i)
    ensures BlockIndex(l).Some? <==> (if l.size > l.align then l.size else l.align) <= 2048
  {
    if BlockIndex(l).None? {
      assert BlockSize(8) < Need(l);
    }
  }

  /** `after` is `before` without `p`. */
  ghost predicate LosesOnly(before: map<nat, Layout>, after: map<nat, Layout>, p: nat) {
    && p !in after
    && (forall q :: q != p ==> (q in after <==> q in before))
    && (forall q :: q in after && q in before ==> after[q] == before[q])
  }

  lemma PushedFrees(h: Heap, i: Class, p: nat)
    requires |h.lists| == CLASSES
    ensures var h' := Pushed(h, i, p);
            LosesOnly(h.live, h'.live, p) && h'.granted == h.granted && OnSomeList(h', p)
  {
    var h' := Pushed(h, i, p);
    assert h'.lists[i][0] == p && Listed(h', i, p);
  }

  lemma ReturnedFrees(h: Heap, p: nat)
    requires GoodGrants(h) && p in h.granted
    ensures var h' := Returned(h, p);
            && LosesOnly(h.live, h'.live, p) && LosesOnly(h.granted, h'.granted, p)
            && h'.lists == h.lists && MayGrant(h', h.granted[p], p)
  {
  }

  /** What freeing a live block does: it is nobody's any more and everybody else's is as before. A block of
      up to 2048 bytes stays granted and goes on a list of its class. A larger one leaves the
      fallback's grants, and it alone, and may be granted again. */
  lemma DeallocFrees(h: Heap, p: nat)
    requires Inv(h) && p in h.live
    ensures var l, h' := h.live[p], Dealloc(h, p, h.live[p]);
            && LosesOnly(h.live, h'.live, p)
            && (l.size <= 2048 && l.align <= 2048 ==> h'.granted == h.granted && OnSomeList(h', p))
            && (l.size > 2048 || l.align > 2048 ==>
                  h'.lists == h.lists && LosesOnly(h.granted, h'.granted, p) && MayGrant(h', l, p))
  {
    var l := h.live[p];
    BlockSizesDouble(l);
    assert h.granted[p] == Backing(l);
    hide BlockIndex, BlockSize, Inv, Pushed, Returned, LosesOnly, OnSomeList, MayGrant;
    match BlockIndex(l) {
      case Some(i) => PushedFrees(h, i, p);
      case None => ReturnedFrees(h, p);
    }
  }

  lemma UngrantedNotLive(h: Heap, p: nat)
    requires Accounted(h) && p !in h.granted
    ensures p !in h.live
  {
  }

  lemma ReturnUndoesGrant(h: Heap, l: Layout, p: nat)
    requires p !in h.live && p !in h.granted
    ensures Returned(FromFallback(h, l, Some(p)).0, p) == h
  {
    var h1 := FromFallback(h, l, Some(p)).0;
    assert h1.live - {p} == h.live && h1.granted - {p} == h.granted;
  }

  /** Freeing a large block just taken from the fallback restores the heap. */
  lemma AllocThenFreeRoundTrip(h: Heap, l: Layout, p: nat)
    requires Inv(h) && ValidLayout(l) && (l.size > 2048 || l.align > 2048) && MayGrant(h, l, p)
    ensures Alloc(h, l, Some(p)).1 == p && Dealloc(Alloc(h, l, Some(p)).0, p, l) == h
  {
    hide BlockIndex, BlockSize, Accounted, GoodGrants, ValidLayout, Returned, GoodGrant;
    BlockSizesDouble(l);
    UngrantedNotLive(h, p);
    ReturnUndoesGrant(h, l, p);
    hide MayGrant;
  }

  /** Each list is a stack: allocating in the class of a block just freed gives that block back
      and restores the lists. */
  lemma FreeThenAllocRoundTrip(h: Heap, p: nat, l: Layout, offer: Option<nat>)
    requires Inv(h) && p in h.live && BlockIndex(h.live[p]).Some? && BlockIndex(l) == BlockIndex(h.live[p])
    ensures Alloc(Dealloc(h, p, h.live[p]), l, offer) == (h.(live := h.live[p := l]), p)
  {
    hide BlockIndex;
    var i := BlockIndex(l).value;
    var h1 := Dealloc(h, p, h.live[p]);
    assert h1.lists[i] == [p] + h.lists[i];
    assert h1.lists[i][1..] == h.lists[i];
    assert h1.lists[i := h.lists[i]] == h.lists;
    assert h1.live[p := l] == h.live[p := l];
  }

  /** Byte `x` belongs to the live block `p`, or to the free block `p` of class `i`. */
  ghost predicate LiveByte(h: Heap, p: nat, x: nat) {
    p in h.live && p <= x < p + Backing(h.live[p]).size
  }

  ghost predicate FreeByte(h: Heap, i: Class, p: nat, x: nat) {
    Listed(h, i, p) && p <= x < p + BlockSize(i)
  }

  /** Conservation: every byte the fallback has granted is in exactly one live block or in
      exactly one block of exactly one list. */
  lemma ByteHasOneOwner(h: Heap, g: nat, x: nat)
    requires Inv(h) && g in h.granted && g <= x < g + h.granted[g].size
    ensures LiveByte(h, g, x) || exists i: Class :: FreeByte(h, i, g, x)
    ensures forall p :: LiveByte(h, p, x) ==> p == g && forall i: Class, q :: !FreeByte(h, i, q, x)
    ensures forall i: Class, p, j: Class, q :: FreeByte(h, i, p, x) && FreeByte(h, j, q, x) ==> p == q == g && i == j
  {
    hide BlockSize, Backing, ValidLayout;
    if g !in h.live {
      var i: Class :| Listed(h, i, g);
      assert FreeByte(h, i, g, x);
    }
    forall i: Class, p, j: Class, q | FreeByte(h, i, p, x) && FreeByte(h, j, q, x) ensures p == q == g && i == j {
      assert p in h.granted && q in h.granted;
      ListsApart(h, i, j, p);
    }
  }

  datatype Op = DoAlloc(layout: Layout, offer: Option<nat>) | DoFree(block: nat)

  /** Correctly paired calls: valid layouts, honest fallback answers, frees of live blocks. */
  ghost predicate Legal(h: Heap, op: Op)
    requires |h.lists| == CLASSES
  {
    match op
    case DoAlloc(l, offer) => ValidLayout(l) && OfferOk(h, l, offer)
    case DoFree(p) => p in h.live
  }

  function Step(h: Heap, op: Op): Heap
    requires |h.lists| == CLASSES
    requires op.DoFree? ==> op.block in h.live
  {
    match op
    case DoAlloc(l, offer) => Alloc(h, l, offer).0
    case DoFree(p) => Dealloc(h, p, h.live[p])
  }

  ghost predicate LegalRun(h: Heap, ops: seq<Op>)
    requires |h.lists| == CLASSES
    decreases |ops|
  {
    ops == [] || (Legal(h, ops[0]) && LegalRun(Step(h, ops[0]), ops[1..]))
  }

  function Run(h: Heap, ops: seq<Op>): Heap
    requires |h.lists| == CLASSES && LegalRun(h, ops)
    decreases |ops|
  {
    if ops == [] then h else Run(Step(h, ops[0]), ops[1..])
  }

  ghost predicate ClassGrant(h: Heap, p: nat) {
    p in h.granted && exists i: Class :: h.granted[p] == Layout(BlockSize(i), BlockSize(i))
  }

  /** A step never takes a class block from the kernel's hands back to the fallback. */
  lemma StepKeepsClassGrants(h: Heap, op: Op, p: nat)
    requires Inv(h) && Legal(h, op) && ClassGrant(h, p)
    ensures ClassGrant(Step(h, op), p)
  {
    var i: Class :| h.granted[p] == Layout(BlockSize(i), BlockSize(i));
    match op {
      case DoAlloc(l, offer) =>
        hide BlockSize, Backing, ValidLayout;
        assert Step(h, op).granted[p] == Layout(BlockSize(i), BlockSize(i));
      case DoFree(q) =>
        if BlockIndex(h.live[q]).None? {
          assert Need(h.live[q]) > BlockSize(i);
          assert q != p;
        }
        hide BlockSize;
        assert Step(h, op).granted[p] == Layout(BlockSize(i), BlockSize(i));
    }
  }

  /** Over every run of paired calls the accounts stay exact and class blocks stay granted. */
  lemma {:induction false} RunKeeps(h: Heap, ops: seq<Op>)
    requires Inv(h) && LegalRun(h, ops)
    ensures Inv(Run(h, ops))
    ensures forall p :: ClassGrant(h, p) ==> ClassGrant(Run(h, ops), p)
    decreases |ops|
  {
    if ops != [] {
      match ops[0] {
        case DoAlloc(l, offer) => AllocKeeps(h, l, offer);
        case DoFree(p) => DeallocKeeps(h, p);
      }
      forall p | ClassGrant(h, p) ensures ClassGrant(Step(h, ops[0]), p) {
        StepKeepsClassGrants(h, ops[0], p);
      }
      hide Inv, Step, Legal, ClassGrant;
      RunKeeps(Step(h, ops[0]), ops[1..]);
    }
  }
}
