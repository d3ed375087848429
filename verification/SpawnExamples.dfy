/** Memories in which building a process (src/process.rs) or mapping into it writes a kernel table. */
module SpawnExamples {
  import opened Paging
  import opened AddressSpace
  import opened Descent
  import opened Process
  import opened Wrappers

  function TableWith(i: Index, e: Entry): Table {
    ZeroTable()[i := e]
  }

  function Link(f: nat, user: bool): Entry {
    Entry(f, true, true, user, false, 0)
  }

  /** Kernel tables 1 -> 2 -> 3, and in the free frame 6 a leftover entry that names table 3. */
  function DirtyMemory(): Memory {
    map[1 := TableWith(0, Link(2, false)), 2 := TableWith(0, Link(3, false)), 3 := ZeroTable(), 6 :=
        TableWith(4, Link(3, true))]
  }

  /** What `new_page_table` makes of it, with the box in frame 4 and frames 5 and 6 issued. */
  function DirtySpace(): Memory {
    DirtyMemory()[4 := TableWith(0, Link(5, true))][5 := TableWith(0, Link(6, false))]
  }

  lemma DirtyTables(f: nat)
    ensures Reaches(DirtyMemory(), 1, 4, f) ==> f in iset{1, 2, 3}
  {
    var m := DirtyMemory();
    assert Reaches(m, 3, 2, f) ==> f == 3;
    assert Reaches(m, 2, 3, f) ==> f == 2 || Reaches(m, 3, 2, f);
    assert Reaches(m, 1, 4, f) ==> f == 1 || Reaches(m, 2, 3, f);
  }

  lemma DirtyShares()
    ensures var m', kt, s := DirtySpace(), iset{1, 2, 3}, Space(4, 5, 6);
            && KernelOk(m', 1, kt) && SharesKernel(m', 1, s) && SameOn(DirtyMemory(), m', kt)
            && At(m', 6)[4] == Link(KernelLow0(m', 1), true) && At(m', KernelLow0(m', 1))[0] == UNUSED
  {
    var m', kt := DirtySpace(), iset{1, 2, 3};
    DirtyBuilt();
    LowTablesReachable(DirtyMemory(), 1, kt);
    BuiltShares(DirtyMemory(), m', 1, kt, Space(4, 5, 6));
    assert KernelLow0(m', 1) == 3 && At(m', 6)[4] == Link(3, true) && At(m', 3)[0] == UNUSED;
  }

  lemma ExampleFrames()
    ensures TrulyUnused(iset{1, 2, 3}, 4, [5, 6, 7, 8])
  {
    assert [4] + [5, 6, 7, 8] == [4, 5, 6, 7, 8];
  }

  /** The unzeroed frame is a real hazard: all the allocators' promises are kept, and yet the first
      stack mapping writes a kernel table. */
  lemma StaleEntryExample()
    ensures var m, m', kt, s := DirtyMemory(), DirtySpace(), iset{1, 2, 3}, Space(4, 5, 6);
            && InUse(m, 1, kt) && TrulyUnused(kt, 4, [5, 6, 7, 8]) && Built(m, m', 1, s)
            && !SameOn(m, MapTo(m', 4, StackPages()[0], 7, true, [8]).mem, kt)
  {
    hide MapTo, DirtyMemory, DirtySpace, Built, InUse, KernelOk, SharesKernel, TrulyUnused, KernelLow0;
    DirtyBuilt();
    ExampleFrames();
    DirtyShares();
    StaleStack(DirtySpace(), 1, iset{1, 2, 3}, Space(4, 5, 6), 7, [8]);
  }

  lemma StaleStack(m: Memory, k: nat, kt: iset<nat>, s: Space, frame: nat, supply: seq<nat>)
    requires KernelOk(m, k, kt) && OwnTables(kt, s) && SharesKernel(m, k, s)
    requires forall f :: f in supply ==> f !in kt
    requires At(m, s.window)[4] == Link(KernelLow0(m, k), true) && At(m, KernelLow0(m, k))[0] == UNUSED
    ensures !SameOn(m, MapTo(m, s.root, StackPages()[0], frame, true, supply).mem, kt)
  {
    hide MapTo;
    StaleWindowEntry(m, k, kt, s, StackPages()[0], frame, supply);
  }

  lemma DirtyBuilt()
    ensures InUse(DirtyMemory(), 1, iset{1, 2, 3}) && Built(DirtyMemory(), DirtySpace(), 1, Space(4, 5, 6))
  {
    var m := DirtyMemory();
    forall f | f in TablesOf(m, 1) ensures f in iset{1, 2, 3} {
      DirtyTables(f);
    }
    assert forall i: Index :: i != 0 ==> At(m, 1)[i] == UNUSED && At(m, 2)[i] == UNUSED;
  }

  /** A kernel that has a table, 10, for L4[136], as `init_heap` leaves one: not for users. */
  function SharedMemory(): Memory {
    map[1 := TableWith(0, Link(2, false))[136 := Link(10, false)], 2 := TableWith(0, Link(3, false)),
        3 := ZeroTable(), 10 := ZeroTable()]
  }

  /** What `new_page_table` makes of it, with the box in frame 4 and clean frames 5 and 6 issued. */
  function SharedSpace(): Memory {
    SharedMemory()[4 := TableWith(0, Link(5, true))[136 := Link(10, false)]][5 := TableWith(0, Link(6, false))]
  }

  lemma SharedTables(f: nat)
    ensures Reaches(SharedMemory(), 1, 4, f) ==> f in iset{1, 2, 3, 10}
  {
    var m := SharedMemory();
    assert Reaches(m, 3, 2, f) ==> f == 3;
    assert Reaches(m, 2, 3, f) ==> f == 2 || Reaches(m, 3, 2, f);
    assert Reaches(m, 10, 3, f) ==> f == 10;
    assert Reaches(m, 1, 4, f) ==> f == 1 || Reaches(m, 2, 3, f) || Reaches(m, 10, 3, f);
  }

  lemma SharedBuilt()
    ensures InUse(SharedMemory(), 1, iset{1, 2, 3, 10})
    ensures Built(SharedMemory(), SharedSpace(), 1, Space(4, 5, 6)) && CleanWindow(SharedMemory(), 6)
  {
    var m := SharedMemory();
    forall f | f in TablesOf(m, 1) ensures f in iset{1, 2, 3, 10} {
      SharedTables(f);
    }
    assert forall i: Index :: i != 0 && i != 136 ==> At(m, 1)[i] == UNUSED;
    assert forall i: Index :: i != 0 ==> At(m, 2)[i] == UNUSED;
  }

  lemma SharedFrames()
    ensures TrulyUnused(iset{1, 2, 3, 10}, 4, [5, 6, 7, 8, 9])
  {
    assert [4] + [5, 6, 7, 8, 9] == [4, 5, 6, 7, 8, 9];
  }

  /** Outside the window isolation is not kept: all the allocators' promises are kept, the window frame
      is clean, and yet mapping one page there, which an ELF header can ask for, writes a kernel table. */
  lemma OutsideWindowExample()
    ensures var m, m', kt, s := SharedMemory(), SharedSpace(), iset{1, 2, 3, 10}, Space(4, 5, 6);
            && InUse(m, 1, kt) && TrulyUnused(kt, 4, [5, 6, 7, 8, 9])
            && Built(m, m', 1, s) && CleanWindow(m, 6) && Isolated(m', 1, kt, s)
            && !SameOn(m, MapTo(m', 4, VAddr(136, 0, 0, 0, 0), 7, true, [8, 9]).mem, kt)
  {
    var m, m', kt, s, v := SharedMemory(), SharedSpace(), iset{1, 2, 3, 10}, Space(4, 5, 6), VAddr(136, 0, 0, 0, 0);
    assert SharedEntry(m', 1, v) == (Link(10, false), 3) && At(m', 10)[0] == UNUSED;
    hide MapTo, Isolated, SharedMemory, SharedSpace, SharedEntry, InUse, Built, CleanWindow, TrulyUnused, FreshSupply;
    SharedBuilt();
    SharedFrames();
    BuiltIsIsolated(m, m', 1, kt, s, [5, 6, 7, 8, 9]);
    IsolatedSparesIff(m', 1, kt, s, v, 7, [8, 9]);
    assert !Spares(m', 10, 3, v, kt, [8, 9]);
  }
}
