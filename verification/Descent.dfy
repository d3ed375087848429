/** What `map_to` does to the tables it descends through: the exact condition under which a mapping,
    or a run of mappings, leaves a given set of tables alone. */
module Descent {
  import opened Wrappers
  import opened Paging
  import opened AddressSpace
  import opened MapToExact

  /** An entry with all the flags a descent ORs in. */
  predicate Full(e: Entry) {
    e.present && e.writable && e.user
  }

  /** The descent for page `v` from table `t` leaves the tables `kt` alone: where it passes through one
      of them the entry has all the flags already, and it writes no new entry into one of them. */
  ghost predicate Spares(m: Memory, t: nat, level: nat, v: VAddr, kt: iset<nat>, supply: seq<nat>)
    requires 1 <= level <= 4
    decreases level
  {
    var e := At(m, t)[v.IndexAt(level)];
    if e == UNUSED then t !in kt || (level > 1 && supply == [])
    else level == 1 || ((t in kt ==> Full(e)) && (e.huge || Spares(m, e.frame, level - 1, v, kt, supply)))
  }

  ghost predicate Outside(kt: iset<nat>, supply: seq<nat>) {
    forall f :: f in supply ==> f !in kt
  }

  /** Some entry of `kt` has gained flags it did not have. */
  ghost predicate Grew(m: Memory, m': Memory, kt: iset<nat>) {
    exists f, i: Index :: f in kt && !Full(At(m, f)[i]) && Full(At(m', f)[i])
  }

  lemma GrewDiffers(m: Memory, m': Memory, kt: iset<nat>)
    requires Grew(m, m', kt)
    ensures !SameOn(m, m', kt)
  {
  }

  /** What has all the flags keeps them. */
  ghost predicate KeepsFull(m: Memory, m': Memory, kt: iset<nat>) {
    forall f, i: Index :: f in kt && Full(At(m, f)[i]) ==> Full(At(m', f)[i])
  }

  lemma GrewStays(m: Memory, m1: Memory, m2: Memory, kt: iset<nat>)
    requires Grew(m, m1, kt) && KeepsFull(m1, m2, kt)
    ensures Grew(m, m2, kt)
  {
    var f, i: Index :| f in kt && !Full(At(m, f)[i]) && Full(At(m1, f)[i]);
    assert Full(At(m2, f)[i]);
  }

  lemma KeepsFullComposes(m: Memory, m1: Memory, m2: Memory, kt: iset<nat>)
    requires KeepsFull(m, m1, kt) && KeepsFull(m1, m2, kt)
    ensures KeepsFull(m, m2, kt)
  {
  }

  /** Only flags have changed, and only outside `kt`. */
  ghost predicate Similar(m: Memory, m': Memory, kt: iset<nat>) {
    forall f, i: Index ::
      || At(m', f)[i] == At(m, f)[i]
      || (f !in kt && At(m, f)[i] != UNUSED && At(m', f)[i] == At(m, f)[i].WithParentFlags(true))
  }

  /** One step of the descent. */
  lemma CreateEffect(m: Memory, t: nat, i: Index, kt: iset<nat>, supply: seq<nat>)
    requires Outside(kt, supply)
    ensures var c, e := CreateNext(m, t, i, true, supply), At(m, t)[i];
            && KeepsFull(m, c.mem, kt) && Outside(kt, c.supply)
            && (e == UNUSED ==> (if supply == [] || t !in kt then SameOn(m, c.mem, kt) else Grew(m, c.mem, kt)))
            && (e != UNUSED && t in kt && !Full(e) ==> Grew(m, c.mem, kt))
            && (e != UNUSED && (t in kt ==> Full(e)) ==> SameOn(m, c.mem, kt) && Similar(m, c.mem, kt))
  {
    var c, e := CreateNext(m, t, i, true, supply), At(m, t)[i];
    assert e != UNUSED || supply != [] ==> Full(At(c.mem, t)[i]) || (e == UNUSED && t == supply[0]);
    assert e != UNUSED && Full(e) ==> e.WithParentFlags(true) == e;
    assert supply != [] ==> supply[0] in supply;
  }

  lemma {:induction false} MapKeepsFull(
    m: Memory, t: nat, level: nat, v: VAddr, frame: nat, supply: seq<nat>, kt: iset<nat>)
    requires 1 <= level <= 4 && Outside(kt, supply)
    ensures KeepsFull(m, MapFrom(m, t, level, v, frame, true, supply).mem, kt)
    ensures Outside(kt, MapFrom(m, t, level, v, frame, true, supply).supply)
    decreases level
  {
    if level > 1 {
      CreateEffect(m, t, v.IndexAt(level), kt, supply);
      var c := CreateNext(m, t, v.IndexAt(level), true, supply);
      hide CreateNext, KeepsFull, Outside, Grew, Similar;
      if c.next.Ok? {
        MapKeepsFull(c.mem, c.next.value, level - 1, v, frame, c.supply, kt);
        KeepsFullComposes(m, c.mem, MapFrom(c.mem, c.next.value, level - 1, v, frame, true, c.supply).mem, kt);
      }
    }
  }

  /** Below an entry that was unused everything is new. */
  lemma {:induction false} FreshDescent(
    m: Memory, t: nat, level: nat, v: VAddr, frame: nat, supply: seq<nat>, kt: iset<nat>)
    requires 1 <= level <= 4 && Outside(kt, supply) && t !in kt && At(m, t)[v.IndexAt(level)] == UNUSED
    ensures SameOn(m, MapFrom(m, t, level, v, frame, true, supply).mem, kt)
    decreases level
  {
    if level > 1 {
      CreateEffect(m, t, v.IndexAt(level), kt, supply);
      if supply != [] {
        var c := CreateNext(m, t, v.IndexAt(level), true, supply);
        assert supply[0] in supply;
        FreshDescent(c.mem, supply[0], level - 1, v, frame, c.supply, kt);
      }
    }
  }

  lemma {:induction false} SparesSimilar(
    m: Memory, m': Memory, t: nat, level: nat, v: VAddr, kt: iset<nat>, supply: seq<nat>)
    requires 1 <= level <= 4 && Similar(m, m', kt)
    ensures Spares(m', t, level, v, kt, supply) <==> Spares(m, t, level, v, kt, supply)
    decreases level
  {
    var e := At(m, t)[v.IndexAt(level)];
    assert At(m', t)[v.IndexAt(level)] == e ||
           (t !in kt && e != UNUSED && At(m', t)[v.IndexAt(level)] == e.WithParentFlags(true));
    hide Similar;
    if level > 1 {
      SparesSimilar(m, m', e.frame, level - 1, v, kt, supply);
    }
  }

  ghost predicate Decided(m: Memory, m': Memory, kt: iset<nat>, spared: bool) {
    if spared then SameOn(m, m', kt) else Grew(m, m', kt)
  }

  lemma CreateResult(m: Memory, t: nat, i: Index, supply: seq<nat>)
    ensures var c, e := CreateNext(m, t, i, true, supply), At(m, t)[i];
            && (e != UNUSED ==>
                  && c.supply == supply && (c.next.Ok? <==> !e.huge)
                  && (c.next.Ok? ==> c.next.value == e.frame))
            && (e == UNUSED ==> (c.next.Ok? <==> supply != []))
  {
  }

  lemma {:induction false} DescentDecides(
    m: Memory, t: nat, level: nat, v: VAddr, frame: nat, supply: seq<nat>, kt: iset<nat>)
    requires 1 <= level <= 4 && Outside(kt, supply)
    ensures Decided(m, MapFrom(m, t, level, v, frame, true, supply).mem, kt, Spares(m, t, level, v, kt, supply))
    decreases level
  {
    var i, r := v.IndexAt(level), MapFrom(m, t, level, v, frame, true, supply);
    var e := At(m, t)[i];
    if level == 1 {
      if e == UNUSED {
        assert Full(At(r.mem, t)[i]);
      }
    } else {
      CreateEffect(m, t, i, kt, supply);
      CreateResult(m, t, i, supply);
      var c := CreateNext(m, t, i, true, supply);
      hide CreateNext, Similar, Grew, KeepsFull, Outside, SameOn, Full, At;
      if e == UNUSED && (t !in kt || supply == []) {
        if supply != [] {
          FreshDescent(m, t, level, v, frame, supply, kt);
        }
      } else if e != UNUSED && (t in kt ==> Full(e)) {
        if c.next.Ok? {
          DescentDecides(c.mem, e.frame, level - 1, v, frame, supply, kt);
          SparesSimilar(m, c.mem, e.frame, level - 1, v, kt, supply);
          DecidedFrom(m, c.mem, r.mem, kt, Spares(m, e.frame, level - 1, v, kt, supply));
        }
      } else if c.next.Ok? {
        MapKeepsFull(c.mem, c.next.value, level - 1, v, frame, c.supply, kt);
        GrewStays(m, c.mem, r.mem, kt);
      }
    }
  }

  lemma DecidedFrom(m: Memory, m1: Memory, m2: Memory, kt: iset<nat>, spared: bool)
    requires SameOn(m, m1, kt) && Decided(m1, m2, kt, spared)
    ensures Decided(m, m2, kt, spared)
  {
    if !spared {
      var f, i: Index :| f in kt && !Full(At(m1, f)[i]) && Full(At(m2, f)[i]);
      assert !Full(At(m, f)[i]);
    }
  }

  /** A mapping of any page, in any address space, leaves the tables `kt` alone if and only if its
      descent spares them. */
  lemma MapToSparesIff(m: Memory, root: nat, v: VAddr, frame: nat, supply: seq<nat>, kt: iset<nat>)
    requires Outside(kt, supply)
    ensures SameOn(m, MapTo(m, root, v, frame, true, supply).mem, kt) <==> Spares(m, root, 4, v, kt, supply)
    ensures Decided(m, MapTo(m, root, v, frame, true, supply).mem, kt, Spares(m, root, 4, v, kt, supply))
  {
    MapToDescends(m, root, v, frame, true, supply);
    DescentDecides(m, root, 4, v, frame, supply, kt);
    hide MapTo, MapFrom, Spares;
    var m' := MapTo(m, root, v, frame, true, supply).mem;
    if Grew(m, m', kt) {
      GrewDiffers(m, m', kt);
    }
  }

  /** The first entry shared with the kernel that the descent for `v` meets, and the level of what is
      below it. */
  function SharedEntry(m: Memory, k: nat, v: VAddr): (Entry, nat) {
    if v.i4 != 0 then (At(m, k)[v.i4], 3)
    else if v.i3 != 0 then (At(m, KernelLow(m, k))[v.i3], 2)
    else (At(m, KernelLow0(m, k))[0], 1)
  }

  /** In a process address space, a mapping leaves the kernel's tables alone if and only if the page is
      in the window, or the kernel has nothing or a huge page where the shared part begins, or the
      descent below that spares them. The loader does not see to any of these. */
  lemma IsolatedSparesIff(m: Memory, k: nat, kt: iset<nat>, s: Space, v: VAddr, frame: nat, supply: seq<nat>)
    requires Isolated(m, k, kt, s) && Outside(kt, supply)
    ensures var (e, level) := SharedEntry(m, k, v);
            SameOn(m, MapTo(m, s.root, v, frame, true, supply).mem, kt) <==>
            InWindow(v) || e == UNUSED || e.huge || Spares(m, e.frame, level, v, kt, supply)
  {
    MapToSparesIff(m, s.root, v, frame, supply, kt);
    hide MapTo;
    var (e, level) := SharedEntry(m, k, v);
    var spares := InWindow(v) || e == UNUSED || e.huge || Spares(m, e.frame, level, v, kt, supply);
    if v.i4 == 0 {
      assert Spares(m, s.root, 4, v, kt, supply) <==> Spares(m, s.low, 3, v, kt, supply);
      if v.i3 == 0 {
        assert Spares(m, s.low, 3, v, kt, supply) <==> Spares(m, s.window, 2, v, kt, supply);
        if v.i2 != 0 {
          assert WindowSlot(m, kt, s, v.i2);
          var slot := At(m, s.window)[v.i2];
          assert slot != UNUSED ==> Spares(m, slot.frame, 1, v, kt, supply);
        }
      }
    }
  }

  /** A run of mappings spares `kt` as long as it goes on. */
  ghost predicate RunSpares(m: Memory, root: nat, pages: seq<VAddr>, supply: seq<nat>, kt: iset<nat>)
    decreases |pages|
  {
    || pages == [] || supply == []
    || (&& Spares(m, root, 4, pages[0], kt, supply[1..])
        && var r := MapTo(m, root, pages[0], supply[0], true, supply[1..]);
           r.result.Err? || RunSpares(r.mem, root, pages[1..], r.supply, kt))
  }

  lemma MapToKeepsFull(m: Memory, root: nat, v: VAddr, frame: nat, supply: seq<nat>, kt: iset<nat>)
    requires Outside(kt, supply)
    ensures var r := MapTo(m, root, v, frame, true, supply); KeepsFull(m, r.mem, kt) && Outside(kt, r.supply)
  {
    MapToDescends(m, root, v, frame, true, supply);
    MapKeepsFull(m, root, 4, v, frame, supply, kt);
  }

  lemma {:induction false} RunKeepsFull(m: Memory, root: nat, pages: seq<VAddr>, supply: seq<nat>, kt: iset<nat>)
    requires Outside(kt, supply)
    ensures KeepsFull(m, MapPages(m, root, pages, true, supply).mem, kt)
    decreases |pages|
  {
    hide MapTo;
    if pages != [] && supply != [] {
      assert Outside(kt, supply[1..]);
      MapToKeepsFull(m, root, pages[0], supply[0], supply[1..], kt);
      var r := MapTo(m, root, pages[0], supply[0], true, supply[1..]);
      hide KeepsFull, Outside;
      if r.result.Ok? {
        RunKeepsFull(r.mem, root, pages[1..], r.supply, kt);
        KeepsFullComposes(m, r.mem, MapPages(r.mem, root, pages[1..], true, r.supply).mem, kt);
      }
    }
  }

  lemma {:induction false} RunDecides(m: Memory, root: nat, pages: seq<VAddr>, supply: seq<nat>, kt: iset<nat>)
    requires Outside(kt, supply)
    ensures Decided(m, MapPages(m, root, pages, true, supply).mem, kt, RunSpares(m, root, pages, supply, kt))
    decreases |pages|
  {
    hide MapTo, Spares;
    if pages != [] && supply != [] {
      assert Outside(kt, supply[1..]);
      MapToSparesIff(m, root, pages[0], supply[0], supply[1..], kt);
      MapToKeepsFull(m, root, pages[0], supply[0], supply[1..], kt);
      var r := MapTo(m, root, pages[0], supply[0], true, supply[1..]);
      hide KeepsFull, Outside, Grew, SameOn;
      if r.result.Ok? {
        var end := MapPages(r.mem, root, pages[1..], true, r.supply).mem;
        assert MapPages(m, root, pages, true, supply).mem == end;
        if Spares(m, root, 4, pages[0], kt, supply[1..]) {
          RunDecides(r.mem, root, pages[1..], r.supply, kt);
          DecidedFrom(m, r.mem, end, kt, RunSpares(r.mem, root, pages[1..], r.supply, kt));
        } else {
          RunKeepsFull(r.mem, root, pages[1..], r.supply, kt);
          GrewStays(m, r.mem, end, kt);
        }
      }
    }
  }

  /** Whatever the pages and whatever the tables held before, a run of mappings leaves `kt` alone if
      and only if each of its descents does. */
  lemma RunSparesIff(m: Memory, root: nat, pages: seq<VAddr>, supply: seq<nat>, kt: iset<nat>)
    requires Outside(kt, supply)
    ensures SameOn(m, MapPages(m, root, pages, true, supply).mem, kt) <==> RunSpares(m, root, pages, supply, kt)
  {
    RunDecides(m, root, pages, supply, kt);
    hide MapPages, RunSpares;
    var m' := MapPages(m, root, pages, true, supply).mem;
    if Grew(m, m', kt) {
      GrewDiffers(m, m', kt);
    }
  }
}
