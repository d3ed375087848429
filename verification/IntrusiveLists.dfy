/** The allocator as it is in memory (src/allocator/fixed_block.rs): nine list heads, and lists
    whose links are the first words of the free blocks themselves. */
module IntrusiveLists {
  import opened Wrappers
  import opened FixedBlock

  /** Memory by 8-byte word; a `ListNode` is one word, and 0 is its `None`. */
  type Words = map<nat, nat>

  function Read(m: Words, a: nat): nat {
    if a in m then m[a] else 0
  }

  /** Following the links from `head` visits exactly the blocks of `list`. */
  ghost predicate Threaded(m: Words, head: nat, list: seq<nat>)
    decreases |list|
  {
    if list == [] then head == 0
    else head == list[0] && head != 0 && Threaded(m, Read(m, head), list[1..])
  }

  /** A list only depends on the words of its own blocks. */
  lemma {:induction false} ThreadedFrame(m: Words, m': Words, head: nat, list: seq<nat>)
    requires Threaded(m, head, list)
    requires forall p :: p in list ==> Read(m', p) == Read(m, p)
    ensures Threaded(m', head, list)
    decreases |list|
  {
    if list != [] {
      assert list[0] in list;
      ThreadedFrame(m, m', Read(m, head), list[1..]);
    }
  }

  ghost predicate AllThreaded(m: Words, heads: seq<nat>, lists: seq<seq<nat>>) {
    |heads| == |lists| == CLASSES && forall i: Class :: Threaded(m, heads[i], lists[i])
  }

  /** Writes that miss every free block leave all nine lists as they are. */
  lemma WritesElsewhere(m: Words, m': Words, heads: seq<nat>, lists: seq<seq<nat>>)
    requires AllThreaded(m, heads, lists)
    requires forall i: Class, p :: p in lists[i] ==> Read(m', p) == Read(m, p)
    ensures AllThreaded(m', heads, lists)
  {
    forall i: Class ensures Threaded(m', heads[i], lists[i]) {
      ThreadedFrame(m, m', heads[i], lists[i]);
    }
  }

  /** Does the word at `a` share a byte with the block [p, p + n)? */
  predicate Touches(a: nat, p: nat, n: nat) {
    !Apart(a, 8, p, n)
  }

  /** The words a client holding `p` may change: those its block touches. */
  ghost predicate OnlyWithin(m: Words, m': Words, p: nat, n: nat) {
    forall a :: !Touches(a, p, n) ==> Read(m', a) == Read(m, a)
  }

  /** The words the fallback may change for its own bookkeeping: those outside all its grants. */
  ghost predicate OnlyUngranted(m: Words, m': Words, h: Heap) {
    forall a, p :: p in h.granted && Touches(a, p, h.granted[p].size) ==> Read(m', a) == Read(m, a)
  }

  lemma FreeBlockIsGranted(h: Heap, i: Class, p: nat)
    requires Inv(h) && p in h.lists[i]
    ensures p in h.granted && h.granted[p].size >= 8 && p !in h.live && p != 0
  {
    assert Listed(h, i, p);
    SizesDistinct(i, i);
  }

  class FixedBlockAlloc {
    var listHeads: seq<nat>
    var memory: Words
    ghost var heap: Heap

    ghost predicate Valid()
      reads this
    {
      Inv(heap) && AllThreaded(memory, listHeads, heap.lists)
    }

    /** An initialised allocator: nothing granted, nothing free, any memory. */
    constructor (heapStart: nat, heapSize: nat, words: Words)
      ensures Valid() && memory == words
      ensures heap.live == map[] && heap.granted == map[] && heap.lo == heapStart && heap.hi == heapStart + heapSize
    {
      listHeads := seq(CLASSES, _ => 0);
      memory := words;
      heap := Heap(seq(CLASSES, _ => []), map[], map[], heapStart, heapStart + heapSize);
      new;
      assert forall i: Class :: heap.lists[i] == [];
    }

    /** `alloc`, with the fallback's answer to `allocate_first_fit`, should it be asked. */
    method Alloc(layout: Layout, offer: Option<nat>) returns (p: nat)
      requires Valid() && ValidLayout(layout) && OfferOk(heap, layout, offer)
      modifies this
      ensures Valid()
      ensures (heap, p) == old(FixedBlock.Alloc(heap, layout, offer))
      ensures forall a :: a != p ==> Read(memory, a) == old(Read(memory, a))
      ensures p != 0 && !old(AsksFallback(heap, layout)) ==> Read(memory, p) == 0
    {
      AllocKeeps(heap, layout, offer);
      ghost var h := heap;
      var index := BlockIndex(layout);
      hide BlockIndex, Inv;
      match index {
        case Some(i) =>
          assert Threaded(memory, listHeads[i], heap.lists[i]);
          if listHeads[i] != 0 {
            p := listHeads[i];
            PopThreads(memory, listHeads, h, i);
            listHeads := listHeads[i := Read(memory, p)];
            memory := memory[p := 0];
            heap := FixedBlock.Alloc(h, layout, offer).0;
          } else {
            p := if offer.Some? then offer.value else 0;
            heap := FixedBlock.Alloc(h, layout, offer).0;
          }
        case None =>
          p := if offer.Some? then offer.value else 0;
          heap := FixedBlock.Alloc(h, layout, offer).0;
      }
    }

    /** `dealloc` of a live block under the layout it was allocated with. */
    method Dealloc(p: nat, layout: Layout)
      requires Valid() && p in heap.live && heap.live[p] == layout
      modifies this
      ensures Valid()
      ensures heap == old(FixedBlock.Dealloc(heap, p, layout)) && p !in heap.live
      ensures forall a :: a != p ==> Read(memory, a) == old(Read(memory, a))
    {
      DeallocKeeps(heap, p);
      DeallocFrees(heap, p);
      ghost var h := heap;
      var index := BlockIndex(layout);
      match index {
        case Some(i) =>
          PushThreads(memory, listHeads, h, i, p);
          hide BlockIndex, Inv;
          memory := memory[p := listHeads[i]];
          listHeads := listHeads[i := p];
          heap := FixedBlock.Dealloc(h, p, layout);
        case None =>
          hide BlockIndex, Inv;
          heap := FixedBlock.Dealloc(h, p, layout);
      }
    }

    /** Anything a client does to a block it holds. */
    method ClientWrites(p: nat, words: Words)
      requires Valid() && p in heap.live && OnlyWithin(memory, words, p, heap.live[p].size)
      modifies this`memory
      ensures Valid() && memory == words
    {
      ClientMissesLists(memory, words, listHeads, heap, p);
      memory := words;
    }

    /** Anything the fallback writes in the space it has not granted. */
    method FallbackWrites(words: Words)
      requires Valid() && OnlyUngranted(memory, words, heap)
      modifies this`memory
      ensures Valid() && memory == words
    {
      forall i: Class, p | p in heap.lists[i] ensures Read(words, p) == Read(memory, p) {
        FreeBlockIsGranted(heap, i, p);
        assert Touches(p, p, heap.granted[p].size);
      }
      WritesElsewhere(memory, words, listHeads, heap.lists);
      memory := words;
    }
  }

  lemma PopThreads(m: Words, heads: seq<nat>, h: Heap, i: Class)
    requires Inv(h) && AllThreaded(m, heads, h.lists) && heads[i] != 0
    ensures h.lists[i] != [] && h.lists[i][0] == heads[i]
    ensures AllThreaded(m[heads[i] := 0], heads[i := Read(m, heads[i])], h.lists[i := h.lists[i][1..]])
  {
    var p, m' := heads[i], m[heads[i] := 0];
    assert Threaded(m, heads[i], h.lists[i]);
    var heads', lists' := heads[i := Read(m, p)], h.lists[i := h.lists[i][1..]];
    assert Distinct(h.lists[i]) && Listed(h, i, p);
    forall j: Class ensures Threaded(m', heads'[j], lists'[j]) {
      if j == i {
        assert p !in h.lists[i][1..];
        ThreadedFrame(m, m', Read(m, p), h.lists[i][1..]);
      } else {
        assert p !in h.lists[j] by {
          if p in h.lists[j] {
            assert Listed(h, j, p);
            ListsApart(h, i, j, p);
          }
        }
        ThreadedFrame(m, m', heads[j], h.lists[j]);
      }
    }
  }

  lemma PushThreads(m: Words, heads: seq<nat>, h: Heap, i: Class, p: nat)
    requires Inv(h) && AllThreaded(m, heads, h.lists) && p in h.live
    ensures AllThreaded(m[p := heads[i]], heads[i := p], h.lists[i := [p] + h.lists[i]])
  {
    var m' := m[p := heads[i]];
    assert p in h.granted && p != 0;
    forall j: Class ensures Threaded(m', heads[j], h.lists[j]) {
      assert !Listed(h, j, p);
      ThreadedFrame(m, m', heads[j], h.lists[j]);
    }
    assert ([p] + h.lists[i])[1..] == h.lists[i];
  }

  /** A write inside a live block cannot reach a link: free blocks and live blocks share no byte. */
  lemma ClientMissesLists(m: Words, m': Words, heads: seq<nat>, h: Heap, p: nat)
    requires Inv(h) && AllThreaded(m, heads, h.lists)
    requires p in h.live && OnlyWithin(m, m', p, h.live[p].size)
    ensures AllThreaded(m', heads, h.lists)
  {
    BackingFits(h.live[p], p);
    forall i: Class, q | q in h.lists[i] ensures Read(m', q) == Read(m, q) {
      FreeBlockIsGranted(h, i, q);
      assert Apart(q, h.granted[q].size, p, h.granted[p].size);
    }
    WritesElsewhere(m, m', heads, h.lists);
  }
}
