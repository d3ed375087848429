/** Building a process address space: `new_page_table`, `map_stack` and the mapping half of
    `spawn_from_file` (src/process.rs). */
module Process {
  import opened Wrappers
  import opened Paging
  import opened AddressSpace
  import opened Descent

  /** The three tables as `new_page_table` leaves them; everything else in memory is as before. */
  ghost predicate Built(m: Memory, m': Memory, k: nat, s: Space) {
    && At(m', s.root)[0] == Entry(s.low, true, true, true, false, 0)
    && (forall i: Index :: i != 0 ==> At(m', s.root)[i] == At(m, k)[i])
    && At(m', s.low)[0] == Entry(s.window, true, true, false, false, 0)
    && (forall i: Index :: i != 0 ==> At(m', s.low)[i] == At(m, KernelLow(m, k))[i])
    && At(m', s.window)[0] == At(m, KernelLow0(m, k))[0]
    && (forall i: Index :: i != 0 ==> At(m', s.window)[i] == At(m, s.window)[i])
    && (forall f :: !s.Has(f) ==> At(m', f) == At(m, f))
  }

  /** What the doc comments of the frame allocator and the global allocator promise: the boxed
      table and the frames still to be issued are distinct and are none of the tables in use. */
  ghost predicate TrulyUnused(kt: iset<nat>, box: nat, supply: seq<nat>) {
    Distinct([box] + supply) && forall f :: f == box || f in supply ==> f !in kt
  }

  /** No window entry survives in the frame `new_page_table` takes without zeroing it. */
  predicate CleanWindow(m: Memory, f: nat) {
    forall i: Index :: i != 0 ==> At(m, f)[i] == UNUSED
  }

  /** The tables in use: the kernel's, and those of any other process. */
  ghost predicate InUse(m: Memory, k: nat, kt: iset<nat>) {
    KernelHasLowTables(m, k) && TablesOf(m, k) <= kt
  }

  lemma LowTablesReachable(m: Memory, k: nat, kt: iset<nat>)
    requires InUse(m, k, kt)
    ensures KernelOk(m, k, kt)
  {
    var low, low0 := KernelLow(m, k), KernelLow0(m, k);
    assert Reaches(m, low0, 2, low0);
    assert Reaches(m, low, 3, low0);
    assert Reaches(m, low, 3, low);
    assert {k, low, low0} <= set f | f in {k, low, low0} && f in TablesOf(m, k);
  }

  lemma TailFacts(box: nat, supply: seq<nat>)
    requires Distinct([box] + supply) && |supply| >= 2
    ensures box != supply[0] && box != supply[1] && supply[0] != supply[1]
    ensures Distinct(supply[2..])
    ensures forall f :: f in supply[2..] ==> f in supply && f != box && f != supply[0] && f != supply[1]
  {
    var all := [box] + supply;
    assert all[0] == box && all[1] == supply[0] && all[2] == supply[1];
    forall i | 0 <= i < |supply[2..]| ensures supply[2..][i] == all[i + 3] {
    }
  }

  lemma BuiltShares(m: Memory, m': Memory, k: nat, kt: iset<nat>, s: Space)
    requires KernelOk(m, k, kt) && OwnTables(kt, s) && Built(m, m', k, s)
    ensures SameOn(m, m', kt) && KernelOk(m', k, kt) && SharesKernel(m', k, s)
  {
  }

  /** With truly unused frames and a clean window frame, `new_page_table` establishes isolation. */
  lemma BuiltIsIsolated(m: Memory, m': Memory, k: nat, kt: iset<nat>, s: Space, supply: seq<nat>)
    requires InUse(m, k, kt) && TrulyUnused(kt, s.root, supply) && |supply| >= 2
    requires s == Space(s.root, supply[0], supply[1])
    requires Built(m, m', k, s) && CleanWindow(m, s.window)
    ensures Isolated(m', k, kt, s)
    ensures FreshSupply(m', kt, s, supply[2..])
    ensures SameOn(m, m', kt)
  {
    LowTablesReachable(m, k, kt);
    hide InUse;
    TailFacts(s.root, supply);
    assert supply[0] in supply && supply[1] in supply;
    BuiltShares(m, m', k, kt, s);
    forall i | 0 <= i < |supply[2..]| ensures Foreign(kt, s, supply[2..][i]) {
      assert supply[2..][i] in supply[2..];
    }
  }

  /** A table with entry 0 of `a` and the rest of `b`. */
  function Spliced(a: Table, b: Table): Table {
    [a[0]] + b[1..]
  }

  /** The level-4 table and `page_table_0` with the kernel's entries copied, before `page_table_0_0`. */
  function UpperShared(m: Memory, k: nat, box: nat, low: nat): Memory {
    var m1 := m[box := Spliced(ZeroTable()[0 := Entry(low, true, true, true, false, 0)], At(m, k))];
    m1[low := Spliced(ZeroTable(), At(m1, KernelLow(m, k)))]
  }

  lemma UpperSharedSpares(m: Memory, k: nat, kt: iset<nat>, box: nat, low: nat)
    requires KernelOk(m, k, kt) && box !in kt && low !in kt
    ensures SameOn(m, UpperShared(m, k, box, low), kt)
  {
  }

  /** The rest of it: `page_table_0`'s first entry, and `page_table_0_0`'s. */
  function WindowAdded(m: Memory, k: nat, low: nat, window: nat): Memory {
    var m1 := SetEntry(m, low, 0, Entry(window, true, true, false, false, 0));
    SetEntry(m1, window, 0, At(m1, At(m1, KernelLow(m, k))[0].frame)[0])
  }

  lemma BuiltStepwise(m: Memory, k: nat, kt: iset<nat>, s: Space)
    requires KernelOk(m, k, kt) && OwnTables(kt, s)
    ensures Built(m, WindowAdded(UpperShared(m, k, s.root, s.low), k, s.low, s.window), k, s)
  {
  }

  lemma UnusedFacts(kt: iset<nat>, box: nat, supply: seq<nat>)
    requires TrulyUnused(kt, box, supply)
    ensures supply != [] ==> supply[0] !in kt && supply[0] != box
    ensures |supply| >= 2 ==> OwnTables(kt, Space(box, supply[0], supply[1]))
  {
    var all := [box] + supply;
    if supply != [] {
      assert all[0] == box && all[1] == supply[0] && supply[0] in supply;
    }
    if |supply| >= 2 {
      assert all[2] == supply[1] && supply[1] in supply;
    }
  }

  /** The stack pages 0x800000..=0x810000 of `map_stack`. */
  function StackPages(): (ps: seq<VAddr>)
    ensures |ps| == 17
    ensures forall i :: 0 <= i < 17 ==> ps[i] == VAddr(0, 0, 4, i, 0)
  {
    seq(17, i requires 0 <= i < 17 => Split(0x80_0000 + i * 0x1000))
  }

  /** They are the 68 KiB of addresses from 0x800000 on. */
  lemma StackIs68KiB(va: nat)
    requires va < 0x1_0000_0000_0000
    ensures (exists i :: 0 <= i < 17 && SamePage(StackPages()[i], Split(va))) <==> 0x80_0000 <= va < 0x81_1000
  {
    SplitJoins(va);
    var v := Split(va);
    if 0x80_0000 <= va < 0x81_1000 {
      assert v.i4 == 0 && v.i3 == 0 && v.i2 == 4;
      assert SamePage(StackPages()[v.i1], v);
    }
  }

  /** The kernel's side of process creation: physical memory and the frames `allocate_frame`
      will return, in order. */
  class Machine {
    var mem: Memory
    var supply: seq<nat>

    constructor (m: Memory, frames: seq<nat>)
      ensures mem == m && supply == frames
    {
      mem, supply := m, frames;
    }

    method AllocateFrame() returns (r: Option<nat>)
      modifies this`supply
      ensures if old(supply) == [] then r == None && supply == []
              else r == Some(old(supply)[0]) && supply == old(supply)[1..]
    {
      if supply == [] {
        r := None;
      } else {
        r, supply := Some(supply[0]), supply[1..];
      }
    }

    method Zero(f: nat)
      modifies this`mem
      ensures mem == old(mem)[f := ZeroTable()]
    {
      mem := mem[f := ZeroTable()];
    }

    /** Copies entries 1..512 of one table over another, leaving entry 0. */
    method CopyUpper(from: nat, to: nat)
      requires from != to
      modifies this`mem
      ensures mem == old(mem)[to := Spliced(old(At(mem, to)), old(At(mem, from)))]
    {
      ghost var m0 := mem;
      for i := 1 to 512
        invariant |At(mem, to)| == 512 && At(mem, to)[0] == At(m0, to)[0]
        invariant forall j: Index :: 1 <= j < i ==> At(mem, to)[j] == At(m0, from)[j]
        invariant mem == if i == 1 then m0 else m0[to := At(mem, to)]
      {
        mem := SetEntry(mem, to, i, At(mem, from)[i]);
      }
      assert At(mem, to) == Spliced(At(m0, to), At(m0, from));
    }

    /** The first half of `new_page_table`: the level-4 table and `page_table_0`. */
    method ShareUpper(kernel: nat, box: nat, ghost kt: iset<nat>) returns (r: Option<nat>)
      requires KernelOk(mem, kernel, kt) && box !in kt
      requires supply != [] ==> supply[0] !in kt && supply[0] != box
      modifies this
      ensures if old(supply) == [] then r == None && mem == old(mem)[box := ZeroTable()]
              else r == Some(old(supply)[0]) && mem == old(UpperShared(mem, kernel, box, supply[0]))
      ensures r.Some? ==> supply == old(supply)[1..]
    {
      Zero(box);
      r := AllocateFrame();
      if r.None? {
        return;
      }
      var low := r.value;
      mem := SetEntry(mem, box, 0, Entry(low, true, true, true, false, 0));
      var kernelLow := At(mem, kernel)[0].frame;
      assert kernelLow == old(KernelLow(mem, kernel));
      CopyUpper(kernel, box);
      Zero(low);
      CopyUpper(kernelLow, low);
    }

    /** `new_page_table`: `box` is the frame behind the boxed level-4 table. It returns nothing
        exactly when the allocator cannot give two frames, and never writes a table in use. */
    method NewPageTable(kernel: nat, box: nat, ghost kt: iset<nat>) returns (r: Option<Space>)
      requires InUse(mem, kernel, kt) && TrulyUnused(kt, box, supply)
      modifies this
      ensures r.None? <==> |old(supply)| < 2
      ensures r.Some? ==> r.value == Space(box, old(supply)[0], old(supply)[1]) && supply == old(supply)[2..]
      ensures r.Some? ==> Built(old(mem), mem, kernel, r.value)
      ensures SameOn(old(mem), mem, kt)
    {
      LowTablesReachable(mem, kernel, kt);
      UnusedFacts(kt, box, supply);
      hide InUse, Spliced, TrulyUnused, UpperShared, Built;
      ghost var m0 := mem;
      var first := ShareUpper(kernel, box, kt);
      if first.None? {
        return None;
      }
      var low := first.value;
      UpperSharedSpares(m0, kernel, kt, box, low);
      var second := AllocateFrame();
      if second.None? {
        return None;
      }
      var window := second.value;
      ghost var m2, s := mem, Space(box, low, window);
      BuiltStepwise(m0, kernel, kt, s);
      BuiltShares(m0, WindowAdded(m2, kernel, low, window), kernel, kt, s);
      var kernelLow := At(mem, kernel)[0].frame;
      mem := SetEntry(mem, low, 0, Entry(window, true, true, false, false, 0));
      var kernelLow0 := At(mem, kernelLow)[0].frame;
      mem := SetEntry(mem, window, 0, At(mem, kernelLow0)[0]);
      assert mem == WindowAdded(m2, kernel, low, window);
      hide *;
      r := Some(Space(box, low, window));
    }

    /** `map_stack`: one frame and one `map_to` per stack page; a failure is the unwrap's panic. */
    method MapStack(root: nat) returns (frames: seq<nat>, result: Result<(), MapError>)
      modifies this
      ensures MapRun(mem, supply, frames, result) == old(MapPages(mem, root, StackPages(), true, supply))
    {
      hide MapTo, StackPages, MapPages;
      var pages := StackPages();
      frames := [];
      ghost var whole := MapPages(mem, root, pages, true, supply);
      for i := 0 to |pages|
        invariant whole == var rest :=
            MapPages(mem, root, pages[i..], true, supply); rest.(frames := frames + rest.frames)
      {
        MapPagesUnfolds(mem, root, pages, i, true, supply);
        assert frames + [] == frames;
        if supply == [] {
          return frames, Err(FrameAllocationFailed);
        }
        var frame := supply[0];
        var mapped := MapTo(mem, root, pages[i], frame, true, supply[1..]);
        mem, supply := mapped.mem, mapped.supply;
        if mapped.result.Err? {
          return frames, mapped.result;
        }
        ghost var rest := MapPages(mem, root, pages[i + 1..], true, supply);
        assert frames + ([frame] + rest.frames) == (frames + [frame]) + rest.frames;
        frames := frames + [frame];
      }
      NothingMapped(mem, root, [], supply);
      assert pages[17..] == [] && frames + [] == frames;
      result := Ok(());
    }
  }

  /** The address space `spawn_from_file` leaves, whatever window pages it maps after building
      the tables: outside the window the process sees the kernel's translation, no table in use is
      written, so every other address space `p` translates as before, inside the window nothing
      is mapped but the pages asked for, and if every mapping succeeds each of those has its own
      frame. */
  lemma SpawnIsolation(
    m: Memory, m': Memory, k: nat, kt: iset<nat>, s: Space, supply: seq<nat>, pages: seq<VAddr>, v: VAddr, p: nat)
    requires InUse(m, k, kt) && TrulyUnused(kt, s.root, supply) && |supply| >= 2
    requires s == Space(s.root, supply[0], supply[1])
    requires Built(m, m', k, s) && CleanWindow(m, s.window)
    requires forall i :: 0 <= i < |pages| ==> InWindow(pages[i])
    ensures var r := MapPages(m', s.root, pages, true, supply[2..]);
            && SameOn(m, r.mem, kt)
            && (TablesOf(m, p) <= kt ==>
                  TablesOf(r.mem, p) == TablesOf(m, p) && Translate(r.mem, p, v) == Translate(m, p, v))
            && (!InWindow(v) ==> Translate(r.mem, s.root, v) == Translate(m, k, v))
            && (InWindow(v) && (forall i :: 0 <= i < |pages| ==> !SamePage(pages[i], v)) ==>
                  Translate(r.mem, s.root, v) == None)
            && (r.result.Ok? ==> MapsTo(r.mem, s.root, pages, r.frames) && Distinct(r.frames))
  {
    hide Translate, TablesOf, Isolated, FreshSupply, MapTo;
    BuiltIsIsolated(m, m', k, kt, s, supply);
    WindowRun(m', k, kt, s, pages, supply[2..]);
    var r := MapPages(m', s.root, pages, true, supply[2..]);
    UntouchedTree(m, r.mem, k);
    if TablesOf(m, p) <= kt {
      UntouchedTree(m, r.mem, p);
    }
    if InWindow(v) {
      WindowTranslate(m', k, kt, s, v);
    } else {
      OutsideWindowIsKernel(r.mem, k, kt, s, v);
    }
  }

  lemma OwnTablesReachable(m: Memory, k: nat, kt: iset<nat>, s: Space, i: Index)
    requires Isolated(m, k, kt, s)
    ensures Reaches(m, s.root, 4, s.root) && Reaches(m, s.root, 4, s.low) && Reaches(m, s.root, 4, s.window)
    ensures i != 0 && At(m, s.window)[i] != UNUSED ==> Reaches(m, s.root, 4, At(m, s.window)[i].frame)
  {
    assert Reaches(m, s.low, 3, s.low) && Reaches(m, s.window, 2, s.window) && Reaches(m, s.low, 3, s.window);
    var e := At(m, s.window)[i];
    if i != 0 && e != UNUSED {
      assert WindowSlot(m, kt, s, i);
      assert Reaches(m, e.frame, 1, e.frame);
      assert Reaches(m, s.window, 2, e.frame);
      assert Reaches(m, s.low, 3, e.frame);
    }
  }

  /** A memory that agrees on the kernel's tables and on a space's own keeps the space isolated. */
  lemma IsolatedFrame(m: Memory, m': Memory, k: nat, kt: iset<nat>, s: Space)
    requires Isolated(m, k, kt, s) && SameOn(m, m', kt) && SameOn(m, m', TablesOf(m, s.root))
    ensures Isolated(m', k, kt, s)
  {
    OwnTablesReachable(m, k, kt, s, 0);
    assert forall f :: Reaches(m, s.root, 4, f) ==> f in TablesOf(m, s.root);
    hide Reaches, TablesOf;
    assert At(m', s.root) == At(m, s.root) && At(m', s.low) == At(m, s.low) && At(m', s.window) == At(m, s.window);
    forall i: Index | i != 0 ensures WindowSlot(m', kt, s, i) {
      OwnTablesReachable(m, k, kt, s, i);
      assert WindowSlot(m, kt, s, i);
    }
  }

  /** Spawning another process keeps every earlier one isolated, its translations included. */
  lemma SpawnKeepsOthers(
    m: Memory, m': Memory, k: nat, kt: iset<nat>, s: Space, supply: seq<nat>, pages: seq<VAddr>,
    earlier: Space, ke: iset<nat>, v: VAddr)
    requires InUse(m, k, kt) && TrulyUnused(kt, s.root, supply) && |supply| >= 2
    requires s == Space(s.root, supply[0], supply[1])
    requires Built(m, m', k, s) && CleanWindow(m, s.window)
    requires forall i :: 0 <= i < |pages| ==> InWindow(pages[i])
    requires Isolated(m, k, ke, earlier) && ke <= kt && TablesOf(m, earlier.root) <= kt
    ensures var r := MapPages(m', s.root, pages, true, supply[2..]);
            Isolated(r.mem, k, ke, earlier) && Translate(r.mem, earlier.root, v) == Translate(m, earlier.root, v)
  {
    hide Translate, TablesOf, Isolated, FreshSupply, MapTo, MapPages, Built;
    SpawnIsolation(m, m', k, kt, s, supply, pages, v, earlier.root);
    IsolatedFrame(m, MapPages(m', s.root, pages, true, supply[2..]).mem, k, ke, earlier);
  }

  /** And for pages that need not be in the window, over a window frame that need not be clean: the
      tables in use are spared if and only if every descent spares them. */
  lemma SpawnSparesIff(
    m: Memory, m': Memory, k: nat, kt: iset<nat>, s: Space, supply: seq<nat>, pages: seq<VAddr>)
    requires InUse(m, k, kt) && TrulyUnused(kt, s.root, supply) && |supply| >= 2
    requires s == Space(s.root, supply[0], supply[1]) && Built(m, m', k, s)
    ensures var r := MapPages(m', s.root, pages, true, supply[2..]);
            SameOn(m, r.mem, kt) <==> RunSpares(m', s.root, pages, supply[2..], kt)
  {
    LowTablesReachable(m, k, kt);
    TailFacts(s.root, supply);
    assert supply[0] in supply && supply[1] in supply;
    BuiltShares(m, m', k, kt, s);
    hide InUse, Built, MapPages, RunSpares, KernelOk, SharesKernel;
    RunSparesIff(m', s.root, pages, supply[2..], kt);
  }

  /** Pages that share a level-1 table cost one frame each. */
  lemma {:induction false} SameTableRun(m: Memory, k: nat, kt: iset<nat>, s: Space, pages: seq<VAddr>, supply: seq<nat>)
    requires Isolated(m, k, kt, s) && FreshSupply(m, kt, s, supply)
    requires forall i :: 0 <= i < |pages| ==> InWindow(pages[i]) && !Mapped1(m, s.root, pages[i])
    requires forall i :: 0 <= i < |pages| ==> At(m, s.window)[pages[i].i2] != UNUSED && pages[i].i2 == pages[0].i2
    requires forall i, j :: 0 <= i < j < |pages| ==> !SamePage(pages[i], pages[j])
    ensures MapPages(m, s.root, pages, true, supply).result.Ok? <==> |supply| >= |pages|
    decreases |pages|
  {
    hide Translate, MapTo, Isolated, FreshSupply;
    if pages != [] && supply != [] {
      SupplyTail(m, kt, s, supply);
      WindowMapTo(m, k, kt, s, pages[0], supply[0], supply[1..]);
      var r := MapTo(m, s.root, pages[0], supply[0], true, supply[1..]);
      assert r.result.Ok? && r.supply == supply[1..];
      SameTableRun(r.mem, k, kt, s, pages[1..], r.supply);
    }
  }

  /** In a fresh space `map_stack` completes exactly when the allocator has eighteen frames left:
      seventeen for the pages and one for their table. */
  lemma StackNeedsEighteenFrames(m: Memory, k: nat, kt: iset<nat>, s: Space, supply: seq<nat>)
    requires Isolated(m, k, kt, s) && FreshSupply(m, kt, s, supply)
    requires At(m, s.window)[4] == UNUSED
    ensures MapPages(m, s.root, StackPages(), true, supply).result.Ok? <==> |supply| >= 18
  {
    hide MapTo, FreshSupply, MapPages, Translate;
    var pages := StackPages();
    forall i | 0 <= i < 17 ensures !Mapped1(m, s.root, pages[i]) {
      WindowTranslate(m, k, kt, s, pages[i]);
    }
    hide Isolated;
    MapPagesUnfolds(m, s.root, pages, 0, true, supply);
    assert pages[0..] == pages;
    if supply != [] {
      SupplyTail(m, kt, s, supply);
      WindowMapTo(m, k, kt, s, pages[0], supply[0], supply[1..]);
      var r := MapTo(m, s.root, pages[0], supply[0], true, supply[1..]);
      if r.result.Ok? {
        assert |r.supply| == |supply| - 2;
        SameTableRun(r.mem, k, kt, s, pages[1..], r.supply);
      }
    }
  }

  /** `page_table_0_0` is taken without being zeroed. Whatever its old contents, a window
      mapping spares the kernel's tables if and only if the stale entry it descends through does
      not lead to a kernel table with a free slot for the page. */
  lemma StaleWindowEntry(m: Memory, k: nat, kt: iset<nat>, s: Space, v: VAddr, frame: nat, supply: seq<nat>)
    requires KernelOk(m, k, kt) && OwnTables(kt, s) && SharesKernel(m, k, s)
    requires forall f :: f in supply ==> f !in kt
    requires InWindow(v)
    ensures var stale := At(m, s.window)[v.i2];
            SameOn(m, MapTo(m, s.root, v, frame, true, supply).mem, kt) <==>
            !(stale != UNUSED && !stale.huge && stale.frame in kt && At(m, stale.frame)[v.i1] == UNUSED)
  {
    MapToSparesIff(m, s.root, v, frame, supply, kt);
    hide MapTo;
    assert Spares(m, s.root, 4, v, kt, supply) <==> Spares(m, s.low, 3, v, kt, supply);
    assert Spares(m, s.low, 3, v, kt, supply) <==> Spares(m, s.window, 2, v, kt, supply);
  }

  /** The process's own upper tables lead to the window table, and slot `i` of that to a table that is
      not in use. */
  ghost predicate LeadsAway(m: Memory, kt: iset<nat>, s: Space, i: Index) {
    && OwnTables(kt, s) && At(m, s.root)[0].LeadsTo(s.low) && At(m, s.low)[0].LeadsTo(s.window)
    && At(m, s.window)[i] != UNUSED && !At(m, s.window)[i].huge && At(m, s.window)[i].frame !in kt
  }

  lemma AwayStep(m: Memory, kt: iset<nat>, s: Space, v: VAddr, frame: nat, supply: seq<nat>)
    requires LeadsAway(m, kt, s, v.i2) && v.i4 == 0 && v.i3 == 0
    ensures Spares(m, s.root, 4, v, kt, supply)
    ensures LeadsAway(MapTo(m, s.root, v, frame, true, supply).mem, kt, s, v.i2)
  {
    assert Spares(m, At(m, s.window)[v.i2].frame, 1, v, kt, supply);
    assert Spares(m, s.window, 2, v, kt, supply);
    assert Spares(m, s.low, 3, v, kt, supply);
  }

  /** Every run of mappings below such a slot spares the tables in use. */
  lemma {:induction false} AwayRun(m: Memory, kt: iset<nat>, s: Space, i: Index, pages: seq<VAddr>, supply: seq<nat>)
    requires LeadsAway(m, kt, s, i)
    requires forall j :: 0 <= j < |pages| ==> pages[j].i4 == 0 && pages[j].i3 == 0 && pages[j].i2 == i
    ensures RunSpares(m, s.root, pages, supply, kt)
    decreases |pages|
  {
    hide MapTo, Spares, LeadsAway;
    if pages != [] && supply != [] {
      AwayStep(m, kt, s, pages[0], supply[0], supply[1..]);
      var r := MapTo(m, s.root, pages[0], supply[0], true, supply[1..]);
      AwayRun(r.mem, kt, s, i, pages[1..], r.supply);
    }
  }

  lemma FirstStackPage(m: Memory, k: nat, kt: iset<nat>, s: Space, frame: nat, supply: seq<nat>)
    requires KernelOk(m, k, kt) && OwnTables(kt, s) && SharesKernel(m, k, s)
    requires forall f :: f in supply ==> f !in kt && !s.Has(f)
    requires var stale := At(m, s.window)[4]; stale == UNUSED || stale.huge || stale.frame !in kt
    ensures var r := MapTo(m, s.root, VAddr(0, 0, 4, 0, 0), frame, true, supply);
            r.result.Ok? ==> LeadsAway(r.mem, kt, s, 4)
  {
    var v := VAddr(0, 0, 4, 0, 0);
    var stale := At(m, s.window)[4];
    if stale == UNUSED {
      assert supply != [] ==> supply[0] in supply;
    } else if !stale.huge {
      hide MapTo;
      AwayStep(m, kt, s, v, frame, supply);
    }
  }

  /** A stale entry on the way to page `v` leads to a table in use with a free slot for it. */
  ghost predicate StaleHit(m: Memory, kt: iset<nat>, s: Space, v: VAddr) {
    var e := At(m, s.window)[v.i2];
    e != UNUSED && !e.huge && e.frame in kt && At(m, e.frame)[v.i1] == UNUSED
  }

  lemma HitDecides(m: Memory, k: nat, kt: iset<nat>, s: Space, v: VAddr, supply: seq<nat>)
    requires KernelOk(m, k, kt) && OwnTables(kt, s) && SharesKernel(m, k, s)
    requires Outside(kt, supply) && InWindow(v)
    ensures Spares(m, s.root, 4, v, kt, supply) <==> !StaleHit(m, kt, s, v)
  {
    StaleWindowEntry(m, k, kt, s, v, 0, supply);
    MapToSparesIff(m, s.root, v, 0, supply, kt);
  }

  /** Once the first stack page is mapped without harm, the others are too. */
  lemma StackTail(m: Memory, k: nat, kt: iset<nat>, s: Space, frame: nat, supply: seq<nat>)
    requires KernelOk(m, k, kt) && OwnTables(kt, s) && SharesKernel(m, k, s)
    requires forall f :: f in supply ==> f !in kt && !s.Has(f)
    requires !StaleHit(m, kt, s, StackPages()[0])
    ensures var r := MapTo(m, s.root, StackPages()[0], frame, true, supply);
            r.result.Err? || RunSpares(r.mem, s.root, StackPages()[1..], r.supply, kt)
  {
    var pages, stale := StackPages(), At(m, s.window)[4];
    hide MapTo, SharesKernel, KernelOk, RunSpares, LeadsAway, StackPages;
    var r := MapTo(m, s.root, pages[0], frame, true, supply);
    if stale == UNUSED || stale.huge || stale.frame !in kt {
      FirstStackPage(m, k, kt, s, frame, supply);
      if r.result.Ok? {
        AwayRun(r.mem, kt, s, 4, pages[1..], r.supply);
      }
    } else {
      UsedLeafFails(m, k, kt, s, pages[0], frame, supply);
    }
  }

  /** `map_stack` on a space as `new_page_table` leaves it, its unzeroed frame included: the tables in
      use are spared if and only if there is no frame left, or slot 4 of that frame, under which all
      the stack pages lie, does not lead to a table in use whose first entry is free. */
  lemma StackSparesIff(m: Memory, k: nat, kt: iset<nat>, s: Space, supply: seq<nat>)
    requires KernelOk(m, k, kt) && OwnTables(kt, s) && SharesKernel(m, k, s)
    requires forall f :: f in supply ==> f !in kt && !s.Has(f)
    ensures var stale := At(m, s.window)[4];
            SameOn(m, MapPages(m, s.root, StackPages(), true, supply).mem, kt) <==>
            || supply == []
            || !(stale != UNUSED && !stale.huge && stale.frame in kt && At(m, stale.frame)[0] == UNUSED)
  {
    hide MapTo, MapPages, Spares, SharesKernel, KernelOk, SameOn, StackPages;
    var pages := StackPages();
    RunSparesIff(m, s.root, pages, supply, kt);
    if supply != [] {
      var rest := supply[1..];
      assert forall f :: f in rest ==> f in supply;
      HitDecides(m, k, kt, s, pages[0], rest);
      if !StaleHit(m, kt, s, pages[0]) {
        StackTail(m, k, kt, s, supply[0], rest);
      }
    }
  }

  lemma UsedLeafFails(m: Memory, k: nat, kt: iset<nat>, s: Space, v: VAddr, frame: nat, supply: seq<nat>)
    requires KernelOk(m, k, kt) && OwnTables(kt, s) && SharesKernel(m, k, s) && InWindow(v)
    requires var e := At(m, s.window)[v.i2];
             e != UNUSED && !e.huge && e.frame in kt && At(m, e.frame)[v.i1] != UNUSED
    ensures MapTo(m, s.root, v, frame, true, supply).result.Err?
  {
  }
}
