/** `spawn_from_file` (src/process.rs) from end to end: the page tables, the stack, and the mappings
    the ELF loader makes (src/elf.rs) for a list of program headers. */
module Spawn {
  import opened Wrappers
  import opened Paging
  import opened AddressSpace
  import opened Process
  import E = Elf
  import I = ElfImage

  predicate WindowPage(p: nat) {
    p % 0x1000 == 0 && 0x20_0000 <= p < 0x4000_0000
  }

  /** The page as `map_to` sees it. */
  function VPage(p: nat): VAddr {
    if p < 0x1_0000_0000_0000 then Split(p) else VAddr(0, 0, 0, 0, 0)
  }

  lemma WindowSplit(p: nat)
    requires WindowPage(p)
    ensures InWindow(VPage(p)) && VPage(p).i2 == p / 0x20_0000 && VPage(p).off == 0
    ensures p == VPage(p).i2 * 0x20_0000 + VPage(p).i1 * 0x1000
  {
  }

  lemma SplitApart(p: nat, q: nat)
    requires WindowPage(p) && WindowPage(q)
    ensures SamePage(VPage(p), VPage(q)) <==> p == q
  {
    WindowSplit(p);
    WindowSplit(q);
  }

  /** The loader's account of the address space agrees with the page tables, as far as the window goes. */
  ghost predicate Matches(m: Memory, s: Space, l: E.Loader) {
    && E.TableKey(3, 0) in l.tables && E.TableKey(2, 0) in l.tables
    && (forall p :: WindowPage(p) ==> (p in l.pages <==> Mapped1(m, s.root, VPage(p))))
    && (forall i: Index :: i != 0 ==> (E.TableKey(1, i) in l.tables <==> At(m, s.window)[i] != UNUSED))
  }

  /** Such an account, made from the page tables: whatever the window's pages hold. */
  ghost function Account(m: Memory, s: Space, bytes: E.PageBytes, supply: seq<nat>): E.Loader {
    var pages := set p: nat | p < 0x4000_0000 && WindowPage(p) && Mapped1(m, s.root, VPage(p));
    var slots := set i: nat | 0 < i < 512 && At(m, s.window)[i] != UNUSED :: E.TableKey(1, i);
    E.Loader(map p | p in pages :: bytes, map p | p in pages :: 0,
             {E.TableKey(3, 0), E.TableKey(2, 0)} + slots, {}, [], supply)
  }

  lemma AccountMatches(m: Memory, s: Space, bytes: E.PageBytes, supply: seq<nat>)
    ensures Matches(m, s, Account(m, s, bytes, supply)) && I.Sound(Account(m, s, bytes, supply))
  {
    hide Mapped1;
  }

  lemma MissingInWindow(m: Memory, s: Space, l: E.Loader, p: nat)
    requires Matches(m, s, l) && WindowPage(p)
    ensures E.Missing(p, l.tables) == if At(m, s.window)[VPage(p).i2] == UNUSED then 1 else 0
    ensures E.TablesFor(p) == {E.TableKey(3, 0), E.TableKey(2, 0), E.TableKey(1, VPage(p).i2)}
  {
    WindowSplit(p);
    var key := E.TableKey(1, VPage(p).i2);
    assert E.TablesFor(p) == {E.TableKey(3, 0), E.TableKey(2, 0), key};
    assert E.TablesFor(p) - l.tables == if key in l.tables then {} else {key};
  }

  ghost predicate WindowHeaders(hs: seq<E.Header>) {
    forall h :: h in hs && h.load ==> 0x20_0000 <= h.vaddr < 0x4000_0000
  }

  lemma WindowBase(h: E.Header)
    requires 0x20_0000 <= h.vaddr < 0x4000_0000
    ensures WindowPage(h.Base()) && h.Target() == Some(h.Base())
  {
    E.BaseIsPage(h);
  }

  ghost predicate AllWindow(plan: seq<I.Mapping>) {
    forall i :: 0 <= i < |plan| ==> WindowPage(plan[i].page)
  }

  /** Where the plan's pages are, for `map_to`. */
  function VPages(plan: seq<I.Mapping>): (vs: seq<VAddr>)
    ensures |vs| == |plan| && forall i :: 0 <= i < |plan| ==> vs[i] == VPage(plan[i].page)
  {
    seq(|plan|, i requires 0 <= i < |plan| => VPage(plan[i].page))
  }

  lemma {:induction false} PlanInWindow(
    hs: seq<E.Header>, regions: set<nat>, tables: set<E.TableKey>, supply: seq<nat>)
    requires WindowHeaders(hs)
    ensures AllWindow(I.Plan(hs, regions, tables, supply))
    decreases |hs|
  {
    if hs != [] {
      var h := hs[0];
      assert h in hs && WindowHeaders(hs[1..]);
      if h.load {
        WindowBase(h);
      }
      var head := I.HeadPlan(h, regions, tables, supply);
      hide WindowPage, E.Missing, E.TablesFor;
      if head == [] {
        PlanInWindow(hs[1..], regions, tables, supply);
      } else {
        var p := head[0].page;
        PlanInWindow(hs[1..], regions + {h.Base()}, tables + E.TablesFor(p), supply[1 + E.Missing(p, tables)..]);
      }
    }
  }

  /** One mapping of the plan, as `map_to` makes it. */
  lemma MappingMatches(m: Memory, k: nat, kt: iset<nat>, s: Space, l: E.Loader, t: E.Loader, p: nat)
    requires Isolated(m, k, kt, s) && FreshSupply(m, kt, s, l.supply) && Matches(m, s, l)
    requires WindowPage(p) && p !in l.pages && |l.supply| > E.Missing(p, l.tables)
    requires t.pages.Keys == l.pages.Keys + {p} && t.tables == l.tables + E.TablesFor(p)
    requires t.supply == l.supply[1 + E.Missing(p, l.tables)..]
    ensures var r := MapTo(m, s.root, VPage(p), l.supply[0], true, l.supply[1..]);
            && r.result.Ok? && r.supply == t.supply
            && Isolated(r.mem, k, kt, s) && FreshSupply(r.mem, kt, s, t.supply) && Matches(r.mem, s, t)
  {
    hide MapTo, Isolated, FreshSupply, Translate, E.Missing, E.TablesFor;
    WindowSplit(p);
    MissingInWindow(m, s, l, p);
    SupplyTail(m, kt, s, l.supply);
    WindowMapTo(m, k, kt, s, VPage(p), l.supply[0], l.supply[1..]);
    var r := MapTo(m, s.root, VPage(p), l.supply[0], true, l.supply[1..]);
    forall q | WindowPage(q) ensures q in t.pages <==> Mapped1(r.mem, s.root, VPage(q)) {
      WindowSplit(q);
      SplitApart(p, q);
      assert q in t.pages <==> q in l.pages || q == p;
    }
  }

  ghost predicate Agrees(r: MapRun, plan: seq<I.Mapping>, t: E.Loader) {
    r.result.Ok? && r.frames == I.FramesOf(plan) && r.supply == t.supply
  }

  lemma AgreesCons(m: Memory, root: nat, r1: Mapped, plan: seq<I.Mapping>, t: E.Loader, supply: seq<nat>)
    requires plan != [] && supply != [] && plan[0].frame == supply[0]
    requires r1 == MapTo(m, root, VPage(plan[0].page), supply[0], true, supply[1..]) && r1.result.Ok?
    requires Agrees(MapPages(r1.mem, root, VPages(plan[1..]), true, r1.supply), plan[1..], t)
    ensures Agrees(MapPages(m, root, VPages(plan), true, supply), plan, t)
  {
    var vs := VPages(plan);
    assert vs[0..] == vs && vs[1..] == VPages(plan[1..]);
    hide MapTo, MapPages, WindowPage;
    MapPagesUnfolds(m, root, vs, 0, true, supply);
    assert I.FramesOf(plan) == [plan[0].frame] + I.FramesOf(plan[1..]);
  }

  lemma NoMappings(m: Memory, root: nat, t: E.Loader)
    ensures Agrees(MapPages(m, root, VPages([]), true, t.supply), [], t)
  {
    NothingMapped(m, root, VPages([]), t.supply);
  }

  lemma SameMatches(m: Memory, s: Space, l: E.Loader, t: E.Loader)
    requires Matches(m, s, l) && t.pages.Keys == l.pages.Keys && t.tables == l.tables
    ensures Matches(m, s, t)
  {
    assert forall p :: p in t.pages <==> p in l.pages;
    hide Mapped1, WindowPage;
  }

  /** The loader's own account of pages and frames is what `map_to` does: over the plan's pages every
      mapping succeeds, with the plan's frames, and leaves the supply the account says. */
  lemma {:induction false} PlanIsMapped(
    m: Memory, k: nat, kt: iset<nat>, s: Space, l: E.Loader, file: E.File, hs: seq<E.Header>, junk: E.Junk)
    requires Isolated(m, k, kt, s) && FreshSupply(m, kt, s, l.supply) && Matches(m, s, l)
    requires I.Sound(l) && E.LoadAll(l, file, hs, junk).Ok? && WindowHeaders(hs)
    ensures var plan := I.PlanOf(hs, l);
            && AllWindow(plan)
            && Agrees(MapPages(m, s.root, VPages(plan), true, l.supply), plan, E.LoadAll(l, file, hs, junk).value)
    decreases |hs|
  {
    hide Isolated, FreshSupply, MapTo, MapPages, E.LoadSegment, E.Missing, E.TablesFor;
    var plan := I.PlanOf(hs, l);
    PlanInWindow(hs, l.regions, l.tables, l.supply);
    if hs == [] {
      NoMappings(m, s.root, l);
    } else {
      var h, rest := hs[0], hs[1..];
      assert h in hs && WindowHeaders(rest);
      I.SegmentPlaced(l, file, h, junk);
      var t := E.LoadSegment(l, file, h, junk).value;
      I.PlanUnfolds(l, t, hs);
      var head := I.HeadPlan(h, l.regions, l.tables, l.supply);
      assert I.Sound(t);
      if head == [] {
        I.OneMapping(I.Mapping(0, 0));
        assert t.pages.Keys == l.pages.Keys && head + I.PlanOf(rest, t) == I.PlanOf(rest, t);
        hide I.HeadPlan, I.Plan, I.PlanOf, I.Sound, I.Placed, WindowPage, Agrees;
        SameMatches(m, s, l, t);
        PlanIsMapped(m, k, kt, s, t, file, rest, junk);
      } else {
        HeadMapped(m, k, kt, s, l, t, h, head);
        var p, f := head[0].page, head[0].frame;
        var r1 := MapTo(m, s.root, VPage(p), f, true, l.supply[1..]);
        assert plan[0] == head[0] && plan[1..] == I.PlanOf(rest, t);
        hide I.HeadPlan, I.Plan, I.PlanOf, I.Sound, I.Placed, WindowPage, Agrees;
        PlanIsMapped(r1.mem, k, kt, s, t, file, rest, junk);
        AgreesCons(m, s.root, r1, plan, E.LoadAll(l, file, hs, junk).value, l.supply);
      }
    }
  }

  lemma HeadMapped(
    m: Memory, k: nat, kt: iset<nat>, s: Space, l: E.Loader, t: E.Loader, h: E.Header, head: seq<I.Mapping>)
    requires Isolated(m, k, kt, s) && FreshSupply(m, kt, s, l.supply) && Matches(m, s, l)
    requires head == I.HeadPlan(h, l.regions, l.tables, l.supply) != [] && I.Placed(l, t, h)
    requires 0x20_0000 <= h.vaddr < 0x4000_0000
    ensures WindowPage(head[0].page) && l.supply != [] && head == [head[0]] && head[0].frame == l.supply[0]
    ensures var r := MapTo(m, s.root, VPage(head[0].page), head[0].frame, true, l.supply[1..]);
            && r.result.Ok? && r.supply == t.supply
            && Isolated(r.mem, k, kt, s) && FreshSupply(r.mem, kt, s, t.supply) && Matches(r.mem, s, t)
  {
    WindowBase(h);
    I.OneMapping(head[0]);
    hide MapTo, Isolated, FreshSupply, Matches, E.Missing, E.TablesFor;
    MappingMatches(m, k, kt, s, l, t, head[0].page);
  }

  /** Stack and loader as one run of mappings. */
  lemma OneRun(
    m: Memory, k: nat, kt: iset<nat>, s: Space, supply: seq<nat>,
    l: E.Loader, file: E.File, hs: seq<E.Header>, junk: E.Junk)
    requires Isolated(m, k, kt, s) && FreshSupply(m, kt, s, supply)
    requires var stack := MapPages(m, s.root, StackPages(), true, supply);
             stack.result.Ok? && l.supply == stack.supply && Matches(stack.mem, s, l)
    requires I.Sound(l) && E.LoadAll(l, file, hs, junk).Ok? && WindowHeaders(hs)
    ensures var stack, plan := MapPages(m, s.root, StackPages(), true, supply), I.PlanOf(hs, l);
            var r := MapPages(stack.mem, s.root, VPages(plan), true, l.supply);
            && AllWindow(plan) && Agrees(r, plan, E.LoadAll(l, file, hs, junk).value)
            && MapPages(m, s.root, StackPages() + VPages(plan), true, supply) == r.(frames := stack.frames + r.frames)
  {
    hide MapTo, MapPages, Isolated, FreshSupply, Matches, I.Sound, E.LoadAll, I.PlanOf, StackPages, Agrees, AllWindow;
    WindowRun(m, k, kt, s, StackPages(), supply);
    var stack := MapPages(m, s.root, StackPages(), true, supply);
    PlanIsMapped(stack.mem, k, kt, s, l, file, hs, junk);
    MapPagesConcat(m, s.root, StackPages(), VPages(I.PlanOf(hs, l)), true, supply);
  }

  lemma AllInWindow(plan: seq<I.Mapping>)
    requires AllWindow(plan)
    ensures var pages := StackPages() + VPages(plan);
            forall i :: 0 <= i < |pages| ==> InWindow(pages[i]) && pages[i].off == 0
  {
    var pages := StackPages() + VPages(plan);
    forall i | 0 <= i < |pages| ensures InWindow(pages[i]) && pages[i].off == 0 {
      if i >= 17 {
        assert pages[i] == VPage(plan[i - 17].page);
        WindowSplit(plan[i - 17].page);
      }
    }
  }

  /** What a spawned process finds in its window: its stack and its segments' pages, each in its own
      frame. */
  ghost predicate Furnished(m: Memory, root: nat, stack: seq<nat>, plan: seq<I.Mapping>) {
    && |stack| == 17
    && (forall i :: 0 <= i < 17 ==> Translate(m, root, StackPages()[i]) == Some(stack[i] * 0x1000))
    && (forall i :: 0 <= i < |plan| ==> Translate(m, root, VPage(plan[i].page)) == Some(plan[i].frame * 0x1000))
    && Distinct(stack + I.FramesOf(plan))
  }

  lemma FurnishedFrom(m: Memory, root: nat, stack: seq<nat>, plan: seq<I.Mapping>)
    requires AllWindow(plan) && |stack| == 17
    requires MapsTo(m, root, StackPages() + VPages(plan), stack + I.FramesOf(plan))
    requires Distinct(stack + I.FramesOf(plan))
    ensures Furnished(m, root, stack, plan)
  {
    var pages, frames := StackPages() + VPages(plan), stack + I.FramesOf(plan);
    AllInWindow(plan);
    hide Translate, StackPages, AllWindow;
    forall i | 0 <= i < 17 ensures Translate(m, root, StackPages()[i]) == Some(stack[i] * 0x1000) {
      assert pages[i] == StackPages()[i] && frames[i] == stack[i];
    }
    forall i | 0 <= i < |plan| ensures Translate(m, root, VPage(plan[i].page)) == Some(plan[i].frame * 0x1000) {
      assert pages[17 + i] == VPage(plan[i].page) && frames[17 + i] == plan[i].frame;
    }
  }

  /** `spawn_from_file` with frames truly unused, a clean window frame and every header in the window:
      if the stack is mapped and the loader accepts the file, then every `map_to` it makes succeeds
      with the frames of the loader's own account; no table in use is written and every other address
      space translates as before; outside the window the process sees the kernel's translation, and
      inside it its stack and its segments' pages, each in its own frame, and nothing else. */
  lemma SpawnFromFile(
    m: Memory, m': Memory, k: nat, kt: iset<nat>, s: Space, supply: seq<nat>,
    l: E.Loader, file: E.File, hs: seq<E.Header>, junk: E.Junk, v: VAddr, p: nat)
    requires InUse(m, k, kt) && TrulyUnused(kt, s.root, supply) && |supply| >= 2
    requires s == Space(s.root, supply[0], supply[1])
    requires Built(m, m', k, s) && CleanWindow(m, s.window)
    requires var stack := MapPages(m', s.root, StackPages(), true, supply[2..]);
             stack.result.Ok? && l.supply == stack.supply && Matches(stack.mem, s, l)
    requires I.Sound(l) && E.LoadAll(l, file, hs, junk).Ok? && WindowHeaders(hs)
    ensures var stack, plan := MapPages(m', s.root, StackPages(), true, supply[2..]), I.PlanOf(hs, l);
            var r := MapPages(stack.mem, s.root, VPages(plan), true, l.supply);
            && Agrees(r, plan, E.LoadAll(l, file, hs, junk).value)
            && SameOn(m, r.mem, kt)
            && (TablesOf(m, p) <= kt ==>
                  TablesOf(r.mem, p) == TablesOf(m, p) && Translate(r.mem, p, v) == Translate(m, p, v))
            && (!InWindow(v) ==> Translate(r.mem, s.root, v) == Translate(m, k, v))
            && (InWindow(v) && (forall w :: w in StackPages() + VPages(plan) ==> !SamePage(w, v)) ==>
                  Translate(r.mem, s.root, v) == None)
            && Furnished(r.mem, s.root, stack.frames, plan)
  {
    hide MapTo, MapPages, Isolated, FreshSupply, Matches, I.Sound, E.LoadAll, I.PlanOf, StackPages, Agrees, AllWindow;
    hide Built, InUse, TrulyUnused, CleanWindow, Translate, TablesOf;
    BuiltIsIsolated(m, m', k, kt, s, supply);
    OneRun(m', k, kt, s, supply[2..], l, file, hs, junk);
    var stack, plan := MapPages(m', s.root, StackPages(), true, supply[2..]), I.PlanOf(hs, l);
    AllInWindow(plan);
    var pages := StackPages() + VPages(plan);
    SpawnIsolation(m, m', k, kt, s, supply, pages, v, p);
    AgreesFrames(MapPages(stack.mem, s.root, VPages(plan), true, l.supply), plan, E.LoadAll(l, file, hs, junk).value);
    WindowRun(m', k, kt, s, StackPages(), supply[2..]);
    FurnishedFrom(MapPages(m', s.root, pages, true, supply[2..]).mem, s.root, stack.frames, plan);
  }

  lemma AgreesFrames(r: MapRun, plan: seq<I.Mapping>, t: E.Loader)
    requires Agrees(r, plan, t)
    ensures r.result.Ok? && r.frames == I.FramesOf(plan) && r.supply == t.supply
  {
  }
}
