/** Four-level page tables in physical memory, the hardware walk over them
    (Intel SDM volume 3A, section 4.5) and the mapper's `map_to`. */
module Paging {
  import opened Wrappers

  /** A page-table entry; `rest` stands for the flag bits this model does not interpret. */
  datatype Entry = Entry(frame: nat, present: bool, writable: bool, user: bool, huge: bool, rest: nat) {
    /** The entry the mapper leaves behind when it ORs in the flags of a child mapping. */
    function WithParentFlags(asUser: bool): Entry {
      Entry(frame, true, true, user || asUser, huge, rest)
    }

    predicate LeadsTo(f: nat) {
      present && !huge && frame == f
    }
  }

  const UNUSED: Entry := Entry(0, false, false, false, false, 0)

  type Index = i: nat | i < 512

  type Table = t: seq<Entry> | |t| == 512 witness seq(512, _ => UNUSED)

  /** A zeroed frame, read as a table. */
  function ZeroTable(): (t: Table)
    ensures forall i: Index :: t[i] == UNUSED
  {
    seq(512, _ => UNUSED)
  }

  /** Physical memory seen as page tables, by frame number. */
  type Memory = map<nat, Table>

  function At(m: Memory, f: nat): Table {
    if f in m then m[f] else ZeroTable()
  }

  function SetEntry(m: Memory, f: nat, i: Index, e: Entry): Memory {
    m[f := At(m, f)[i := e]]
  }

  /** A 48-bit virtual address, split the way the hardware splits it. */
  datatype VAddr = VAddr(i4: Index, i3: Index, i2: Index, i1: Index, off: nat) {
    function IndexAt(level: nat): Index {
      if level == 4 then i4 else if level == 3 then i3 else if level == 2 then i2 else i1
    }
  }

  function Split(va: nat): VAddr
    requires va < 0x1_0000_0000_0000
  {
    VAddr(va / 0x80_0000_0000, va / 0x4000_0000 % 512, va / 0x20_0000 % 512, va / 0x1000 % 512, va % 0x1000)
  }

  /** The window a process owns: everything below L4[0] -> L3[0] except its first 2 MiB. */
  predicate InWindow(v: VAddr) {
    v.i4 == 0 && v.i3 == 0 && v.i2 != 0
  }

  lemma WindowIs2MiBTo1GiB(va: nat)
    requires va < 0x1_0000_0000_0000
    ensures InWindow(Split(va)) <==> 0x20_0000 <= va < 0x4000_0000
  {
  }

  predicate SamePage(v: VAddr, w: VAddr) {
    v.i4 == w.i4 && v.i3 == w.i3 && v.i2 == w.i2 && v.i1 == w.i1
  }

  function LargePage(frame: nat, level: nat, v: VAddr): nat
    requires 2 <= level <= 3
  {
    if level == 2 then (frame - frame % 512) * 0x1000 + v.i1 * 0x1000 + v.off
    else (frame - frame % 0x4_0000) * 0x1000 + v.i2 * 0x20_0000 + v.i1 * 0x1000 + v.off
  }

  /** The hardware walk from a table of the given level. */
  function Walk(m: Memory, t: nat, level: nat, v: VAddr): Option<nat>
    requires 1 <= level <= 4
    decreases level
  {
    var e := At(m, t)[v.IndexAt(level)];
    if !e.present then None
    else if level == 1 then Some(e.frame * 0x1000 + v.off)
    else if e.huge then (if level == 4 then None else Some(LargePage(e.frame, level, v)))
    else Walk(m, e.frame, level - 1, v)
  }

  function Translate(m: Memory, root: nat, v: VAddr): Option<nat> {
    Walk(m, root, 4, v)
  }

  /** The indices and the offset are the address, cut at bits 39, 30, 21 and 12. */
  lemma SplitJoins(va: nat)
    requires va < 0x1_0000_0000_0000
    ensures var v := Split(va);
            && va == v.i4 * 0x80_0000_0000 + v.i3 * 0x4000_0000 + v.i2 * 0x20_0000 + v.i1 * 0x1000 + v.off
            && v.off < 0x1000
  {
    var q1, q2, q3 := va / 0x1000, va / 0x20_0000, va / 0x4000_0000;
    assert q2 == q1 / 512 && q3 == q2 / 512 && va / 0x80_0000_0000 == q3 / 512;
  }

  lemma LowBits(va: nat)
    requires va < 0x1_0000_0000_0000
    ensures va % 0x20_0000 == Split(va).i1 * 0x1000 + Split(va).off
    ensures va % 0x4000_0000 == Split(va).i2 * 0x20_0000 + va % 0x20_0000
  {
    var q1, q2 := va / 0x1000, va / 0x20_0000;
    assert q2 == q1 / 512 && va / 0x4000_0000 == q2 / 512;
    assert va == q1 * 0x1000 + va % 0x1000 && q1 == q2 * 512 + q1 % 512;
    assert va == (va / 0x4000_0000) * 0x4000_0000 + (q2 % 512) * 0x20_0000 + va % 0x20_0000;
  }

  /** The last entry of a walk: a 4 KiB, 2 MiB or 1 GiB stretch of addresses goes to a stretch of physical
      memory of that size and alignment, byte for byte. */
  lemma LeafTranslates(m: Memory, t: nat, level: nat, va: nat)
    requires va < 0x1_0000_0000_0000 && 1 <= level <= 3
    requires var e := At(m, t)[Split(va).IndexAt(level)]; e.present && (level > 1 ==> e.huge)
    ensures var f, walk := At(m, t)[Split(va).IndexAt(level)].frame, Walk(m, t, level, Split(va));
            && (level == 1 ==> walk == Some(f * 0x1000 + va % 0x1000))
            && (level == 2 ==> walk == Some(f / 512 * 0x20_0000 + va % 0x20_0000))
            && (level == 3 ==> walk == Some(f / 0x4_0000 * 0x4000_0000 + va % 0x4000_0000))
  {
    LowBits(va);
    var f := At(m, t)[Split(va).IndexAt(level)].frame;
    assert f - f % 512 == f / 512 * 512 && f - f % 0x4_0000 == f / 0x4_0000 * 0x4_0000;
  }

  /** Every entry on the way lets user code read and write. */
  predicate UserWalk(m: Memory, t: nat, level: nat, v: VAddr)
    requires 1 <= level <= 4
    decreases level
  {
    var e := At(m, t)[v.IndexAt(level)];
    e.present && e.writable && e.user && (level == 1 || e.huge || UserWalk(m, e.frame, level - 1, v))
  }

  /** Frame `f` is a table the walk can read when it starts at the level-`level` table `t`. */
  ghost predicate Reaches(m: Memory, t: nat, level: nat, f: nat)
    decreases level
  {
    f == t ||
    (level > 1 &&
     exists i: Index :: At(m, t)[i].present && !At(m, t)[i].huge && Reaches(m, At(m, t)[i].frame, level - 1, f))
  }

  /** All the tables under a level-4 table. */
  ghost function TablesOf(m: Memory, root: nat): iset<nat> {
    iset f | Reaches(m, root, 4, f)
  }

  ghost predicate SameOn(m: Memory, m': Memory, frames: iset<nat>) {
    forall f :: f in frames ==> At(m', f) == At(m, f)
  }

  /** A walk reads only reachable tables. */
  lemma {:induction false} WalkReadsReachable(m: Memory, m': Memory, t: nat, level: nat, v: VAddr)
    requires 1 <= level <= 4
    requires forall f :: Reaches(m, t, level, f) ==> At(m', f) == At(m, f)
    ensures Walk(m', t, level, v) == Walk(m, t, level, v)
    decreases level
  {
    assert Reaches(m, t, level, t);
    var e := At(m, t)[v.IndexAt(level)];
    if e.present && level > 1 && !e.huge {
      WalkReadsReachable(m, m', e.frame, level - 1, v);
    }
  }

  lemma {:induction false} ReachReadsReachable(m: Memory, m': Memory, t: nat, level: nat, f: nat)
    requires forall g :: Reaches(m, t, level, g) ==> At(m', g) == At(m, g)
    ensures Reaches(m', t, level, f) <==> Reaches(m, t, level, f)
    decreases level
  {
    assert Reaches(m, t, level, t);
    if level > 1 {
      forall i: Index | At(m, t)[i].present && !At(m, t)[i].huge
        ensures Reaches(m', At(m, t)[i].frame, level - 1, f) <==> Reaches(m, At(m, t)[i].frame, level - 1, f)
      {
        ReachReadsReachable(m, m', At(m, t)[i].frame, level - 1, f);
      }
    }
  }

  /** If no table under `root` is written, the tree and every translation through it stay. */
  lemma UntouchedTree(m: Memory, m': Memory, root: nat)
    requires SameOn(m, m', TablesOf(m, root))
    ensures TablesOf(m', root) == TablesOf(m, root)
    ensures forall v :: Translate(m', root, v) == Translate(m, root, v)
  {
    forall f ensures Reaches(m', root, 4, f) <==> Reaches(m, root, 4, f) {
      ReachReadsReachable(m, m', root, 4, f);
    }
    forall v ensures Translate(m', root, v) == Translate(m, root, v) {
      WalkReadsReachable(m, m', root, 4, v);
    }
  }

  datatype MapError = FrameAllocationFailed | ParentEntryHugePage | PageAlreadyMapped

  datatype Created = Created(mem: Memory, supply: seq<nat>, next: Result<nat, MapError>)

  /** The mapper's descent through one entry: an unused entry gets a zeroed table from the
      frame supply, a used one gets the parent flags ORed in. */
  function CreateNext(m: Memory, t: nat, i: Index, asUser: bool, supply: seq<nat>): Created {
    var e := At(m, t)[i];
    if e == UNUSED then
      if supply == [] then Created(m, supply, Err(FrameAllocationFailed))
      else
        var m1 := SetEntry(m, t, i, Entry(supply[0], true, true, asUser, false, 0));
        Created(m1[supply[0] := ZeroTable()], supply[1..], Ok(supply[0]))
    else
      var m1 := SetEntry(m, t, i, e.WithParentFlags(asUser));
      if e.huge then Created(m1, supply, Err(ParentEntryHugePage))
      else Created(m1, supply, Ok(e.frame))
  }

  datatype Mapped = Mapped(mem: Memory, supply: seq<nat>, result: Result<(), MapError>)

  /** `OffsetPageTable::map_to` of one 4 KiB page with flags PRESENT | WRITABLE (| USER_ACCESSIBLE). */
  function MapTo(m: Memory, root: nat, v: VAddr, frame: nat, asUser: bool, supply: seq<nat>): Mapped {
    var c3 := CreateNext(m, root, v.i4, asUser, supply);
    if c3.next.Err? then Mapped(c3.mem, c3.supply, Err(c3.next.error)) else
    var c2 := CreateNext(c3.mem, c3.next.value, v.i3, asUser, c3.supply);
    if c2.next.Err? then Mapped(c2.mem, c2.supply, Err(c2.next.error)) else
    var c1 := CreateNext(c2.mem, c2.next.value, v.i2, asUser, c2.supply);
    if c1.next.Err? then Mapped(c1.mem, c1.supply, Err(c1.next.error)) else
    if At(c1.mem, c1.next.value)[v.i1] != UNUSED then Mapped(c1.mem, c1.supply, Err(PageAlreadyMapped)) else
    Mapped(SetEntry(c1.mem, c1.next.value, v.i1, Entry(frame, true, true, asUser, false, 0)), c1.supply, Ok(()))
  }
}
