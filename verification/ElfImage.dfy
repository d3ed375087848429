/** What a process finds in memory after the ELF loader (src/elf.rs) has completed: which frame is
    behind which page, what every byte reads, what is covered and what is zero. */
module ElfImage {
  import opened Wrappers
  import opened Elf

  /** The states the loader works in. */
  ghost predicate Sound(s: Loader) {
    RegionsMapped(s) && s.pages.Keys == s.backing.Keys && forall p :: p in s.pages ==> Canonical(p)
  }

  datatype Mapping = Mapping(page: nat, frame: nat)

  /** The mapping a segment makes, if its first page is new. */
  function HeadPlan(h: Header, regions: set<nat>, tables: set<TableKey>, supply: seq<nat>): seq<Mapping> {
    if h.load && h.Base() !in regions && h.Target().Some? && |supply| > Missing(h.Target().value, tables)
    then [Mapping(h.Target().value, supply[0])]
    else []
  }

  /** All the mappings a list of segments makes, in order: what the loader will do, told from its
      input alone. */
  function Plan(hs: seq<Header>, regions: set<nat>, tables: set<TableKey>, supply: seq<nat>): seq<Mapping>
    decreases |hs|
  {
    if hs == [] then []
    else
      var head := HeadPlan(hs[0], regions, tables, supply);
      if head == [] then Plan(hs[1..], regions, tables, supply)
      else
        var p := head[0].page;
        head + Plan(hs[1..], regions + {hs[0].Base()}, tables + TablesFor(p), supply[1 + Missing(p, tables)..])
  }

  function PlanOf(hs: seq<Header>, s: Loader): seq<Mapping> {
    Plan(hs, s.regions, s.tables, s.supply)
  }

  function PagesOf(plan: seq<Mapping>): set<nat> {
    set i | 0 <= i < |plan| :: plan[i].page
  }

  function FramesOf(plan: seq<Mapping>): (fs: seq<nat>)
    ensures |fs| == |plan| && forall i :: 0 <= i < |plan| ==> fs[i] == plan[i].frame
  {
    seq(|plan|, i requires 0 <= i < |plan| => plan[i].frame)
  }

  lemma OneMapping(m: Mapping)
    ensures PagesOf([]) == {} && FramesOf([]) == []
    ensures PagesOf([m]) == {m.page} && FramesOf([m]) == [m.frame]
  {
    assert [m][0] == m;
  }

  function OwnBase(h: Header): set<nat> {
    if h.load then {h.Base()} else {}
  }

  /** One segment, as far as pages and frames go. */
  ghost predicate Placed(s: Loader, t: Loader, h: Header) {
    var head := HeadPlan(h, s.regions, s.tables, s.supply);
    && Sound(t)
    && t.regions == s.regions + OwnBase(h)
    && t.pages.Keys == s.pages.Keys + PagesOf(head)
    && t.frames == s.frames + FramesOf(head)
    && (head == [] ==> t == s.(pages := t.pages))
    && (head != [] ==>
          var p := head[0].page;
          && p !in s.pages && t.backing == s.backing[p := head[0].frame] && t.tables == s.tables + TablesFor(p)
          && |s.supply| > Missing(p, s.tables) && t.supply == s.supply[1 + Missing(p, s.tables)..])
  }

  lemma TargetCanonical(h: Header)
    ensures h.Target().Some? ==> Canonical(h.Target().value)
  {
    BaseIsPage(h);
  }

  lemma WithBasePlaced(s: Loader, h: Header, junk: Junk)
    requires Sound(s) && h.load && FirstPageFits(h, SpaceOf(s))
    ensures Placed(s, WithBase(s, h, junk), h)
  {
    TargetCanonical(h);
    WithBaseSpace(s, h, junk);
    var head, t := HeadPlan(h, s.regions, s.tables, s.supply), WithBase(s, h, junk);
    hide Header.Base, Header.Target, VirtAddr, Canonical, Missing, TablesFor, RegionsMapped;
    if head == [] {
      assert h.Base() in s.regions;
      assert s.regions + {h.Base()} == s.regions && s.frames + FramesOf(head) == s.frames;
      OneMapping(Mapping(0, 0));
      assert s.pages.Keys + PagesOf(head) == s.pages.Keys;
    } else {
      assert head == [head[0]];
      OneMapping(head[0]);
    }
  }

  lemma SegmentPlaced(s: Loader, file: File, h: Header, junk: Junk)
    requires Sound(s) && LoadSegment(s, file, h, junk).Ok?
    ensures Placed(s, LoadSegment(s, file, h, junk).value, h)
  {
    var head := HeadPlan(h, s.regions, s.tables, s.supply);
    if h.load {
      LoadSegmentIff(s, file, h, junk);
      var u := WithBase(s, h, junk);
      hide LoadSegment, WithBase, Copied, CopyAccepted, FirstPageFits, LaterPagesIn, Missing, TablesFor;
      WithBasePlaced(s, h, junk);
      CopiedKeeps(u, file, h);
      hide HeadPlan, PagesOf, FramesOf, OwnBase, Canonical;
    } else {
      OneMapping(Mapping(0, 0));
      assert s.regions + {} == s.regions && s.pages.Keys + {} == s.pages.Keys;
      assert s.frames + FramesOf(head) == s.frames;
    }
  }

  /** The plan, one segment at a time. */
  lemma PlanUnfolds(s: Loader, t: Loader, hs: seq<Header>)
    requires hs != [] && Placed(s, t, hs[0])
    ensures PlanOf(hs, s) == HeadPlan(hs[0], s.regions, s.tables, s.supply) + PlanOf(hs[1..], t)
  {
    var head := HeadPlan(hs[0], s.regions, s.tables, s.supply);
    hide Header.Base, Header.Target, Missing, TablesFor, Sound, PagesOf;
    assert head + PlanOf(hs[1..], t) == if head == [] then PlanOf(hs[1..], t) else head + PlanOf(hs[1..], t);
  }

  function Bases(hs: seq<Header>): set<nat> {
    set h | h in hs && h.load :: h.Base()
  }

  lemma BasesCons(hs: seq<Header>)
    requires hs != []
    ensures Bases(hs) == OwnBase(hs[0]) + Bases(hs[1..])
  {
    assert hs == [hs[0]] + hs[1..];
  }

  lemma PagesConcat(a: seq<Mapping>, b: seq<Mapping>)
    ensures PagesOf(a + b) == PagesOf(a) + PagesOf(b)
    ensures FramesOf(a + b) == FramesOf(a) + FramesOf(b)
  {
    forall p | p in PagesOf(a) + PagesOf(b) ensures p in PagesOf(a + b) {
      if p in PagesOf(a) {
        var i :| 0 <= i < |a| && a[i].page == p;
        assert (a + b)[i].page == p;
      } else {
        var i :| 0 <= i < |b| && b[i].page == p;
        assert (a + b)[|a| + i].page == p;
      }
    }
  }

  /** From `s` to `r` the plan has been carried out: its pages are new and distinct, each is backed by
      its own entry's frame, nothing else has a new frame, and the frames are recorded in order. */
  ghost predicate CarriedOut(s: Loader, r: Loader, plan: seq<Mapping>) {
    && r.pages.Keys == r.backing.Keys == s.pages.Keys + PagesOf(plan)
    && r.frames == s.frames + FramesOf(plan)
    && (forall p :: p in s.backing ==> p in r.backing && r.backing[p] == s.backing[p])
    && (forall i :: 0 <= i < |plan| ==>
          && plan[i].page !in s.pages && plan[i].page in r.backing
          && r.backing[plan[i].page] == plan[i].frame)
    && (forall i, j :: 0 <= i < j < |plan| ==> plan[i].page != plan[j].page)
  }

  lemma CarriedOutFront(s: Loader, t: Loader, r: Loader, m: Mapping, plan: seq<Mapping>)
    requires s.pages.Keys == s.backing.Keys && m.page !in s.pages && t.pages.Keys == s.pages.Keys + {m.page}
    requires t.backing == s.backing[m.page := m.frame] && t.frames == s.frames + [m.frame]
    requires CarriedOut(t, r, plan)
    ensures CarriedOut(s, r, [m] + plan)
  {
    var all := [m] + plan;
    PagesConcat([m], plan);
    hide PagesOf, FramesOf;
    OneMapping(m);
    assert s.pages.Keys + {m.page} + PagesOf(plan) == s.pages.Keys + ({m.page} + PagesOf(plan));
    assert s.frames + [m.frame] + FramesOf(plan) == s.frames + ([m.frame] + FramesOf(plan));
    assert m.page in t.backing;
    forall i | 1 <= i < |all| ensures all[i] == plan[i - 1] {
    }
  }

  lemma CarriedOutCons(s: Loader, t: Loader, r: Loader, h: Header, plan: seq<Mapping>)
    requires Sound(s) && Placed(s, t, h) && CarriedOut(t, r, plan)
    ensures CarriedOut(s, r, HeadPlan(h, s.regions, s.tables, s.supply) + plan)
  {
    var head := HeadPlan(h, s.regions, s.tables, s.supply);
    hide PagesOf, FramesOf, OwnBase, Canonical, RegionsMapped, Missing, TablesFor, CarriedOut;
    if head == [] {
      assert head + plan == plan;
      OneMapping(Mapping(0, 0));
      hide HeadPlan;
      SamePlan(s, t, r, plan);
    } else {
      assert head == [head[0]];
      OneMapping(head[0]);
      hide HeadPlan;
      CarriedOutFront(s, t, r, head[0], plan);
    }
  }

  lemma SamePlan(s: Loader, t: Loader, r: Loader, plan: seq<Mapping>)
    requires CarriedOut(t, r, plan) && t == s.(pages := t.pages) && t.pages.Keys == s.pages.Keys
    ensures CarriedOut(s, r, plan)
  {
    hide PagesOf, FramesOf;
  }

  /** On completion the recorded pages are exactly the segments' first pages, and the plan has been
      carried out. */
  lemma {:induction false} CompletedRegions(s: Loader, file: File, hs: seq<Header>, junk: Junk)
    requires Sound(s) && LoadAll(s, file, hs, junk).Ok?
    ensures var r := LoadAll(s, file, hs, junk).value;
            Sound(r) && r.regions == s.regions + Bases(hs) && CarriedOut(s, r, PlanOf(hs, s))
    decreases |hs|
  {
    if hs == [] {
      assert Bases(hs) == {} && s.regions + {} == s.regions;
      OneMapping(Mapping(0, 0));
      assert s.pages.Keys + {} == s.pages.Keys && s.frames + [] == s.frames;
    } else {
      SegmentPlaced(s, file, hs[0], junk);
      var t := LoadSegment(s, file, hs[0], junk).value;
      PlanUnfolds(s, t, hs);
      BasesCons(hs);
      assert t.regions == s.regions + OwnBase(hs[0]) && Sound(t);
      hide LoadSegment, Sound, CarriedOut, Placed, Bases, HeadPlan, OwnBase, Plan, PlanOf;
      CompletedRegions(t, file, hs[1..], junk);
      CarriedOutCons(s, t, LoadAll(t, file, hs[1..], junk).value, hs[0], PlanOf(hs[1..], t));
      assert s.regions + OwnBase(hs[0]) + Bases(hs[1..]) == s.regions + (OwnBase(hs[0]) + Bases(hs[1..]));
    }
  }

  lemma FrameInFront(supply: seq<nat>, n: nat, fs: seq<nat>)
    requires 0 < n <= |supply| && (forall f :: f in fs ==> f in supply[n..])
    ensures forall f :: f in [supply[0]] + fs ==> f in supply
    ensures Distinct(supply) ==> Distinct(supply[n..]) && supply[0] !in fs
    ensures Distinct(supply) && Distinct(fs) ==> Distinct([supply[0]] + fs)
  {
    var left := supply[n..];
    forall k | 0 <= k < |left| ensures left[k] == supply[n + k] && left[k] in supply {
    }
  }

  /** The plan's frames come from the supply, and no two pages share one if the supply repeats none. */
  lemma {:induction false} PlanFrames(hs: seq<Header>, regions: set<nat>, tables: set<TableKey>, supply: seq<nat>)
    ensures forall f :: f in FramesOf(Plan(hs, regions, tables, supply)) ==> f in supply
    ensures Distinct(supply) ==> Distinct(FramesOf(Plan(hs, regions, tables, supply)))
    decreases |hs|
  {
    if hs != [] {
      var head := HeadPlan(hs[0], regions, tables, supply);
      if head == [] {
        PlanFrames(hs[1..], regions, tables, supply);
      } else {
        var p := head[0].page;
        var n := 1 + Missing(p, tables);
        var rest := Plan(hs[1..], regions + {hs[0].Base()}, tables + TablesFor(p), supply[n..]);
        assert FramesOf(head + rest) == [supply[0]] + FramesOf(rest);
        assert Plan(hs, regions, tables, supply) == head + rest;
        PlanFrames(hs[1..], regions + {hs[0].Base()}, tables + TablesFor(p), supply[n..]);
        hide Plan, HeadPlan, Missing, TablesFor, FramesOf, Distinct;
        FrameInFront(supply, n, FramesOf(rest));
      }
    }
  }

  /** Pages that are new in `r`. */
  ghost predicate Fresh(s: Loader, r: Loader, p: nat) {
    p in r.backing && p !in s.backing
  }

  /** Frame `f` is behind some new page. */
  ghost predicate BehindFresh(s: Loader, r: Loader, f: nat) {
    exists p :: Fresh(s, r, p) && r.backing[p] == f
  }

  /** No two new pages share a frame, and the frames recorded are exactly those behind new pages. */
  ghost predicate OneToOne(s: Loader, r: Loader) {
    && (forall p, q :: Fresh(s, r, p) && Fresh(s, r, q) && p != q ==> r.backing[p] != r.backing[q])
    && s.frames <= r.frames
    && (forall f :: f in r.frames[|s.frames|..] <==> BehindFresh(s, r, f))
  }

  lemma FreshIndex(s: Loader, r: Loader, plan: seq<Mapping>, p: nat) returns (i: nat)
    requires s.pages.Keys == s.backing.Keys && CarriedOut(s, r, plan) && Fresh(s, r, p)
    ensures i < |plan| && plan[i].page == p && r.backing[p] == FramesOf(plan)[i]
  {
    assert p in PagesOf(plan);
    i :| 0 <= i < |plan| && plan[i].page == p;
  }

  lemma FreshApart(s: Loader, r: Loader, plan: seq<Mapping>, p: nat, q: nat)
    requires s.pages.Keys == s.backing.Keys && CarriedOut(s, r, plan) && Distinct(FramesOf(plan))
    requires Fresh(s, r, p) && Fresh(s, r, q) && p != q
    ensures r.backing[p] != r.backing[q]
  {
    hide CarriedOut;
    var i := FreshIndex(s, r, plan, p);
    var j := FreshIndex(s, r, plan, q);
    assert i != j;
  }

  lemma FreshRecorded(s: Loader, r: Loader, plan: seq<Mapping>, f: nat)
    requires s.pages.Keys == s.backing.Keys && CarriedOut(s, r, plan)
    ensures f in FramesOf(plan) <==> BehindFresh(s, r, f)
  {
    var fs := FramesOf(plan);
    if f in fs {
      var i :| 0 <= i < |fs| && fs[i] == f;
      assert Fresh(s, r, plan[i].page) && r.backing[plan[i].page] == f;
    }
    if BehindFresh(s, r, f) {
      var p :| Fresh(s, r, p) && r.backing[p] == f;
      var i := FreshIndex(s, r, plan, p);
      assert fs[i] == f;
    }
  }

  lemma PlanOneToOne(s: Loader, r: Loader, plan: seq<Mapping>)
    requires s.pages.Keys == s.backing.Keys && CarriedOut(s, r, plan) && Distinct(FramesOf(plan))
    ensures OneToOne(s, r)
    ensures forall p :: Fresh(s, r, p) ==> r.backing[p] in FramesOf(plan)
  {
    assert s.frames <= r.frames && r.frames[|s.frames|..] == FramesOf(plan);
    hide CarriedOut, FramesOf, Distinct, BehindFresh;
    forall p, q | Fresh(s, r, p) && Fresh(s, r, q) && p != q ensures r.backing[p] != r.backing[q] {
      FreshApart(s, r, plan, p, q);
    }
    forall f ensures f in FramesOf(plan) <==> BehindFresh(s, r, f) {
      FreshRecorded(s, r, plan, f);
    }
    forall p | Fresh(s, r, p) ensures r.backing[p] in FramesOf(plan) {
      var i := FreshIndex(s, r, plan, p);
      assert FramesOf(plan)[i] == r.backing[p];
    }
  }

  /** Of a supply that repeats nothing, each new page has a frame of its own. */
  lemma OwnFrames(s: Loader, file: File, hs: seq<Header>, junk: Junk)
    requires Sound(s) && LoadAll(s, file, hs, junk).Ok? && Distinct(s.supply)
    ensures var r := LoadAll(s, file, hs, junk).value;
            OneToOne(s, r) && forall p :: Fresh(s, r, p) ==> r.backing[p] in s.supply
  {
    CompletedRegions(s, file, hs, junk);
    PlanFrames(hs, s.regions, s.tables, s.supply);
    hide LoadAll, Plan, CarriedOut, FramesOf, OneToOne, Distinct;
    PlanOneToOne(s, LoadAll(s, file, hs, junk).value, PlanOf(hs, s));
  }

  /** The byte a process would read at a mapped address. */
  function ByteAt(pages: map<nat, PageBytes>, a: nat): byte
    requires Down(a) in pages
  {
    pages[Down(a)][a % PAGE]
  }

  /** Address `a` is mapped and reads as `v`. */
  predicate Reads(pages: map<nat, PageBytes>, a: nat, v: byte) {
    Down(a) in pages && ByteAt(pages, a) == v
  }

  /** Where a segment's copy starts. */
  function Start(h: Header): nat {
    h.Base() + h.offset % PAGE
  }

  /** The byte a segment writes at `a`, if it does: it writes one byte more than its file size. */
  function Written(h: Header, file: File, a: nat): Option<byte> {
    if h.load && !CopiesNothing(h) && Start(h) <= a <= Start(h) + h.fileSize && h.offset + (a - Start(h)) < |file|
    then Some(file[h.offset + (a - Start(h))])
    else None
  }

  function Or(w: Option<byte>, v: byte): byte {
    if w.Some? then w.value else v
  }

  /** An accepted copy puts the file's bytes one after another and leaves the rest of memory. */
  lemma CopiedBytes(s: Loader, file: File, h: Header, a: nat)
    requires h.load && CopyAccepted(h, file, s.pages.Keys)
    ensures var pages, w := Copied(s, file, h).pages, Written(h, file, a);
            && pages.Keys == s.pages.Keys
            && (w.Some? ==> Down(a) in s.pages)
            && (Down(a) in s.pages ==> ByteAt(pages, a) == Or(w, ByteAt(s.pages, a)))
  {
    BaseIsPage(h);
    hide VirtAddr;
    if !CopiesNothing(h) && h.fileSize < PAGE {
      assert Written(h, file, a).Some? ==> Down(a) == h.Base();
    } else if !CopiesNothing(h) {
      assert h.Base() == 0;
      assert Written(h, file, a).Some? ==> Down(a) == if a < PAGE then 0 else PAGE;
    }
  }

  function FrameOf(plan: seq<Mapping>, page: nat): Option<nat> {
    if plan == [] then None
    else if plan[0].page == page then Some(plan[0].frame)
    else FrameOf(plan[1..], page)
  }

  /** What address `a` would read if no segment wrote to it: what it did before, or what the frame
      planned for its page holds. */
  function Origin(s: Loader, plan: seq<Mapping>, junk: Junk, a: nat): byte {
    if Down(a) in s.pages then ByteAt(s.pages, a)
    else match FrameOf(plan, Down(a))
      case Some(f) => junk(f)[a % PAGE]
      case None => 0
  }

  /** The last segment that writes `a` decides it. */
  function FinalByte(hs: seq<Header>, file: File, a: nat, v: byte): byte
    decreases |hs|
  {
    if hs == [] then v else FinalByte(hs[1..], file, a, Or(Written(hs[0], file, a), v))
  }

  /** One segment, as far as the byte at `a` goes. */
  lemma SegmentByte(s: Loader, file: File, h: Header, junk: Junk, a: nat, rest: seq<Mapping>)
    requires Sound(s) && LoadSegment(s, file, h, junk).Ok?
    ensures var t, w := LoadSegment(s, file, h, junk).value, Written(h, file, a);
            && (w.Some? ==> Down(a) in t.pages)
            && Origin(t, rest, junk, a) == Or(w, Origin(s, HeadPlan(h, s.regions, s.tables, s.supply) + rest, junk, a))
  {
    var head := HeadPlan(h, s.regions, s.tables, s.supply);
    assert head != [] ==> (head + rest)[0] == head[0] && (head + rest)[1..] == rest;
    assert head == [] ==> head + rest == rest;
    if h.load {
      LoadSegmentIff(s, file, h, junk);
      var u := WithBase(s, h, junk);
      WithBasePlaced(s, h, junk);
      assert forall p :: p in s.pages ==> p in u.pages && u.pages[p] == s.pages[p];
      OneMapping(if head != [] then head[0] else Mapping(0, 0));
      assert head != [] ==> u.pages[head[0].page] == junk(head[0].frame) && head == [head[0]];
      hide LoadSegment, WithBase, Copied, CopyAccepted, FirstPageFits, Missing, TablesFor, HeadPlan, Written, PagesOf;
      hide Canonical, RegionsMapped, Down;
      CopiedBytes(u, file, h, a);
    }
  }

  /** The meaning of the loader: after any accepted list of segments, every mapped address reads what
      the last segment that writes it put there, and otherwise what its frame held. */
  lemma {:induction false} FinalImage(s: Loader, file: File, hs: seq<Header>, junk: Junk, a: nat)
    requires Sound(s) && LoadAll(s, file, hs, junk).Ok?
    ensures Down(a) in LoadAll(s, file, hs, junk).value.pages ==>
              Reads(LoadAll(s, file, hs, junk).value.pages, a,
                  FinalByte(hs, file, a, Origin(s, PlanOf(hs, s), junk, a)))
    decreases |hs|
  {
    if hs != [] {
      SegmentPlaced(s, file, hs[0], junk);
      var t := LoadSegment(s, file, hs[0], junk).value;
      PlanUnfolds(s, t, hs);
      SegmentByte(s, file, hs[0], junk, a, PlanOf(hs[1..], t));
      assert Sound(t);
      hide LoadSegment, Sound, Placed, HeadPlan, Plan, PlanOf, Written, Origin;
      FinalImage(t, file, hs[1..], junk, a);
    }
  }

  /** What a segment writes is mapped when the loader is done. */
  lemma {:induction false} WrittenIsMapped(s: Loader, file: File, hs: seq<Header>, junk: Junk, j: nat, a: nat)
    requires Sound(s) && LoadAll(s, file, hs, junk).Ok?
    requires j < |hs| && Written(hs[j], file, a).Some?
    ensures Down(a) in LoadAll(s, file, hs, junk).value.pages
    decreases |hs|
  {
    SegmentPlaced(s, file, hs[0], junk);
    var t := LoadSegment(s, file, hs[0], junk).value;
    SegmentByte(s, file, hs[0], junk, a, []);
    CompletedRegions(t, file, hs[1..], junk);
    assert Sound(t);
    var r := LoadAll(t, file, hs[1..], junk).value;
    assert t.pages.Keys <= r.pages.Keys;
    hide LoadSegment, Sound, Placed, HeadPlan, Plan, Written, Origin, CarriedOut;
    if j > 0 {
      WrittenIsMapped(t, file, hs[1..], junk, j - 1, a);
    }
  }

  lemma {:induction false} NobodyWrites(hs: seq<Header>, file: File, a: nat, v: byte)
    requires forall h :: h in hs ==> Written(h, file, a).None?
    ensures FinalByte(hs, file, a, v) == v
    decreases |hs|
  {
    hide Written;
    if hs != [] {
      assert hs[0] in hs;
      NobodyWrites(hs[1..], file, a, v);
    }
  }

  lemma {:induction false} LastWriterWins(hs: seq<Header>, file: File, a: nat, v: byte, j: nat)
    requires j < |hs| && Written(hs[j], file, a).Some?
    requires forall i :: j < i < |hs| ==> Written(hs[i], file, a).None?
    ensures FinalByte(hs, file, a, v) == Written(hs[j], file, a).value
    decreases |hs|
  {
    hide Written;
    var w := Or(Written(hs[0], file, a), v);
    if j == 0 {
      forall h | h in hs[1..] ensures Written(h, file, a).None? {
        var i :| 0 <= i < |hs[1..]| && hs[1..][i] == h;
        assert h == hs[i + 1];
      }
      NobodyWrites(hs[1..], file, a, w);
    } else {
      assert forall i :: j - 1 < i < |hs[1..]| ==> hs[1..][i] == hs[i + 1];
      LastWriterWins(hs[1..], file, a, w, j - 1);
    }
  }

  /** A byte of a page the loader mapped, and no segment writes, is what the frame held: the page is
      not zeroed. */
  lemma UnwrittenBytesStay(s: Loader, file: File, hs: seq<Header>, junk: Junk, a: nat)
    requires Sound(s) && LoadAll(s, file, hs, junk).Ok?
    requires forall h :: h in hs ==> Written(h, file, a).None?
    ensures var r := LoadAll(s, file, hs, junk).value;
            && (Down(a) in s.pages ==> Reads(r.pages, a, ByteAt(s.pages, a)))
            && (Down(a) in r.pages && Down(a) !in s.pages ==>
                  Down(a) in r.backing && Reads(r.pages, a, junk(r.backing[Down(a)])[a % PAGE]))
  {
    var r, plan := LoadAll(s, file, hs, junk).value, PlanOf(hs, s);
    FinalImage(s, file, hs, junk, a);
    CompletedRegions(s, file, hs, junk);
    NobodyWrites(hs, file, a, Origin(s, plan, junk, a));
    hide LoadAll, Sound, Written, Plan, PlanOf, FinalByte, Down;
    if Down(a) in r.pages && Down(a) !in s.pages {
      var i :| 0 <= i < |plan| && plan[i].page == Down(a);
      PlanLookup(plan, i);
    }
  }

  lemma {:induction false} PlanLookup(plan: seq<Mapping>, i: nat)
    requires i < |plan| && forall j, k :: 0 <= j < k < |plan| ==> plan[j].page != plan[k].page
    ensures FrameOf(plan, plan[i].page) == Some(plan[i].frame)
    decreases |plan|
  {
    if i > 0 {
      PlanLookup(plan[1..], i - 1);
    }
  }

  /** File offsets agree with addresses within a page, as the ELF specification asks. */
  predicate Congruent(hs: seq<Header>) {
    forall h :: h in hs && h.load ==> h.offset % PAGE == h.vaddr % PAGE && h.fileSize <= h.memSize
  }

  lemma StartIsAddress(hs: seq<Header>, j: nat)
    requires Congruent(hs) && j < |hs| && hs[j].load
    ensures Start(hs[j]) == hs[j].vaddr && hs[j].fileSize <= hs[j].memSize
  {
    assert hs[j] in hs;
    BaseIsPage(hs[j]);
  }

  /** Later segments write above everything an earlier one occupies. */
  lemma LaterWritesAbove(hs: seq<Header>, file: File, j: nat, i: nat, a: nat)
    requires Ascending(hs) && Congruent(hs) && j < i < |hs| && hs[j].load && a < hs[j].vaddr + hs[j].memSize
    ensures Written(hs[i], file, a).None?
  {
    if hs[i].load {
      StartIsAddress(hs, i);
    }
  }

  /** Earlier segments write no further than the start of a later one. */
  lemma EarlierWritesBelow(hs: seq<Header>, file: File, j: nat, i: nat, a: nat)
    requires Ascending(hs) && Congruent(hs) && i < j < |hs| && hs[j].load && a > hs[j].vaddr
    ensures Written(hs[i], file, a).None?
  {
    if hs[i].load {
      StartIsAddress(hs, i);
    }
  }

  /** An accepted segment's copy has one of two shapes, and lies inside the file. */
  lemma {:induction false} CopyInFile(s: Loader, file: File, hs: seq<Header>, junk: Junk, j: nat)
    requires Sound(s) && LoadAll(s, file, hs, junk).Ok?
    requires j < |hs| && hs[j].load && !CopiesNothing(hs[j])
    ensures CopyFits(hs[j], file) || SpillFits(hs[j], file)
    decreases |hs|
  {
    SegmentPlaced(s, file, hs[0], junk);
    if j == 0 {
      LoadSegmentIff(s, file, hs[0], junk);
      hide LoadSegment, LoadAll, WithBase, Copied, Placed;
    } else {
      assert Sound(LoadSegment(s, file, hs[0], junk).value);
      hide LoadSegment, Sound, Placed, CopiesNothing;
      CopyInFile(LoadSegment(s, file, hs[0], junk).value, file, hs[1..], junk, j - 1);
    }
  }

  /** The loaded image: of any file the loader accepts, with its segments in address order and
      congruent offsets, every byte of every segment is at its address, shared pages and extra
      bytes notwithstanding, unless `write_size` wraps. */
  lemma LoadedImage(s: Loader, file: File, hs: seq<Header>, junk: Junk, j: nat, x: nat)
    requires Sound(s) && LoadAll(s, file, hs, junk).Ok?
    requires Ascending(hs) && Congruent(hs)
    requires j < |hs| && hs[j].load && !CopiesNothing(hs[j]) && x < hs[j].fileSize
    ensures hs[j].offset + x < |file|
    ensures Reads(LoadAll(s, file, hs, junk).value.pages, hs[j].vaddr + x, file[hs[j].offset + x])
  {
    StartIsAddress(hs, j);
    CopyInFile(s, file, hs, junk, j);
    DecidedBy(s, file, hs, junk, j, hs[j].vaddr + x);
  }

  /** In its own range, a segment's copy is what is read in the end. */
  lemma DecidedBy(s: Loader, file: File, hs: seq<Header>, junk: Junk, j: nat, a: nat)
    requires Sound(s) && LoadAll(s, file, hs, junk).Ok?
    requires Ascending(hs) && Congruent(hs)
    requires j < |hs| && Written(hs[j], file, a).Some? && a < hs[j].vaddr + hs[j].memSize
    ensures Reads(LoadAll(s, file, hs, junk).value.pages, a, Written(hs[j], file, a).value)
  {
    forall i | j < i < |hs| ensures Written(hs[i], file, a).None? {
      LaterWritesAbove(hs, file, j, i, a);
    }
    var v := Origin(s, PlanOf(hs, s), junk, a);
    hide LoadAll, Written, Ascending, Congruent, Origin, PlanOf, Sound;
    FinalImage(s, file, hs, junk, a);
    WrittenIsMapped(s, file, hs, junk, j, a);
    LastWriterWins(hs, file, a, v, j);
  }

  /** The pages that will be mapped, told from the input alone. */
  function MappedAfter(hs: seq<Header>, s: Loader): set<nat> {
    s.pages.Keys + PagesOf(PlanOf(hs, s))
  }

  lemma KeysAfter(s: Loader, file: File, hs: seq<Header>, junk: Junk)
    requires Sound(s) && LoadAll(s, file, hs, junk).Ok?
    ensures LoadAll(s, file, hs, junk).value.pages.Keys == MappedAfter(hs, s)
  {
    CompletedRegions(s, file, hs, junk);
  }

  lemma NoCopyReachesLastPage(h: Header, file: File, a: nat)
    requires h.load && !CopiesNothing(h) ==> CopyFits(h, file) || SpillFits(h, file)
    requires a >= U64 - PAGE
    ensures Written(h, file, a).None?
  {
    BaseIsPage(h);
    assert h.Base() < U64 && (h.Base() != U64 - PAGE ==> h.Base() + PAGE <= U64 - PAGE);
  }

  /** Of any accepted list, nothing is loaded into the last page of the address space: what is mapped
      there reads what it did before, or what its frame held. */
  lemma LastPageNotLoaded(s: Loader, file: File, hs: seq<Header>, junk: Junk, a: nat)
    requires Sound(s) && LoadAll(s, file, hs, junk).Ok?
    requires a >= U64 - PAGE && Down(a) in MappedAfter(hs, s)
    ensures Reads(LoadAll(s, file, hs, junk).value.pages, a, Origin(s, PlanOf(hs, s), junk, a))
  {
    hide LoadAll, Sound, Origin, PlanOf, Written, MappedAfter, CopyFits, SpillFits, CopiesNothing;
    KeysAfter(s, file, hs, junk);
    forall h | h in hs ensures Written(h, file, a).None? {
      var j :| 0 <= j < |hs| && hs[j] == h;
      if h.load && !CopiesNothing(h) {
        CopyInFile(s, file, hs, junk, j);
      }
      NoCopyReachesLastPage(h, file, a);
    }
    FinalImage(s, file, hs, junk, a);
    NobodyWrites(hs, file, a, Origin(s, PlanOf(hs, s), junk, a));
  }

  predicate InFilePart(h: Header, mapped: set<nat>, x: nat) {
    x < h.fileSize && Down(h.vaddr + x) in mapped
  }

  predicate ReadsFile(h: Header, file: File, x: nat, pages: map<nat, PageBytes>) {
    h.offset + x < |file| && Reads(pages, h.vaddr + x, file[h.offset + x])
  }

  predicate OriginIsFile(h: Header, file: File, x: nat, s: Loader, plan: seq<Mapping>, junk: Junk) {
    h.offset + x < |file| && Origin(s, plan, junk, h.vaddr + x) == file[h.offset + x]
  }

  /** The mapped file part of the segment reads the file. */
  ghost predicate WholeFileRead(h: Header, file: File, mapped: set<nat>, pages: map<nat, PageBytes>) {
    forall x :: InFilePart(h, mapped, x) ==> ReadsFile(h, file, x, pages)
  }

  /** It would even if nothing were loaded. */
  ghost predicate WholeFileThere(
    h: Header, file: File, mapped: set<nat>, s: Loader, plan: seq<Mapping>, junk: Junk) {
    forall x :: InFilePart(h, mapped, x) ==> OriginIsFile(h, file, x, s, plan, junk)
  }

  lemma LoadedBelow(s: Loader, file: File, hs: seq<Header>, junk: Junk, j: nat)
    requires Sound(s) && LoadAll(s, file, hs, junk).Ok?
    requires Ascending(hs) && Congruent(hs) && j < |hs| && hs[j].load && !CopiesNothing(hs[j])
    ensures WholeFileRead(hs[j], file, MappedAfter(hs, s), LoadAll(s, file, hs, junk).value.pages)
  {
    hide LoadAll, Sound, MappedAfter, CopiesNothing, Ascending, Congruent, Reads;
    forall x | InFilePart(hs[j], MappedAfter(hs, s), x)
      ensures ReadsFile(hs[j], file, x, LoadAll(s, file, hs, junk).value.pages)
    {
      LoadedImage(s, file, hs, junk, j, x);
    }
  }

  lemma LastPageByte(s: Loader, file: File, hs: seq<Header>, junk: Junk, h: Header, x: nat)
    requires Sound(s) && LoadAll(s, file, hs, junk).Ok?
    requires h.vaddr >= U64 - PAGE && InFilePart(h, MappedAfter(hs, s), x)
    ensures ReadsFile(h, file, x, LoadAll(s, file, hs, junk).value.pages) <==>
            OriginIsFile(h, file, x, s, PlanOf(hs, s), junk)
  {
    hide LoadAll, Sound, MappedAfter, Origin, PlanOf;
    LastPageNotLoaded(s, file, hs, junk, h.vaddr + x);
  }

  lemma CopiesNothingIff(h: Header)
    ensures CopiesNothing(h) <==> h.fileSize == U64 - 1 || h.vaddr >= U64 - PAGE
  {
    BaseIsPage(h);
  }

  /** The whole mapped file part of a segment reads the file if and only if the segment is below the last
      page of the address space, or what is in that page happens to be the file's bytes already. */
  lemma LoadedIff(s: Loader, file: File, hs: seq<Header>, junk: Junk, j: nat)
    requires Sound(s) && LoadAll(s, file, hs, junk).Ok?
    requires Ascending(hs) && Congruent(hs)
    requires j < |hs| && hs[j].load && hs[j].fileSize < U64 - 1
    ensures var h, mapped := hs[j], MappedAfter(hs, s);
            WholeFileRead(h, file, mapped, LoadAll(s, file, hs, junk).value.pages) <==>
            h.vaddr < U64 - PAGE || WholeFileThere(h, file, mapped, s, PlanOf(hs, s), junk)
  {
    hide LoadAll, Sound, Origin, PlanOf, MappedAfter, CopiesNothing, Ascending, Congruent;
    hide ReadsFile, OriginIsFile, InFilePart;
    var h := hs[j];
    CopiesNothingIff(h);
    if h.vaddr < U64 - PAGE {
      LoadedBelow(s, file, hs, junk, j);
    } else {
      forall x | InFilePart(h, MappedAfter(hs, s), x)
        ensures ReadsFile(h, file, x, LoadAll(s, file, hs, junk).value.pages) <==>
                OriginIsFile(h, file, x, s, PlanOf(hs, s), junk)
      {
        LastPageByte(s, file, hs, junk, h, x);
      }
    }
  }

  /** The mapped part of a segment beyond its file contents. */
  predicate Beyond(h: Header, mapped: set<nat>, a: nat) {
    h.vaddr + h.fileSize <= a < h.vaddr + h.memSize && Down(a) in mapped
  }

  ghost predicate ReadsZero(h: Header, mapped: set<nat>, pages: map<nat, PageBytes>) {
    forall a :: Beyond(h, mapped, a) ==> Reads(pages, a, 0)
  }

  ghost predicate ZeroBehind(h: Header, mapped: set<nat>, s: Loader, plan: seq<Mapping>, junk: Junk) {
    forall a :: Beyond(h, mapped, a) && a != h.vaddr + h.fileSize ==> Origin(s, plan, junk, a) == 0
  }

  lemma ExtraWritten(h: Header, file: File)
    requires h.load && !CopiesNothing(h) && Start(h) == h.vaddr && (CopyFits(h, file) || SpillFits(h, file))
    ensures h.offset + h.fileSize < |file|
    ensures Written(h, file, h.vaddr + h.fileSize) == Some(file[h.offset + h.fileSize])
  {
  }

  lemma ReadsOne(pages: map<nat, PageBytes>, a: nat, v: byte)
    requires Reads(pages, a, v)
    ensures Reads(pages, a, 0) <==> v == 0
  {
  }

  lemma ExtraByteRead(s: Loader, file: File, hs: seq<Header>, junk: Junk, j: nat)
    requires Sound(s) && LoadAll(s, file, hs, junk).Ok?
    requires Ascending(hs) && Congruent(hs)
    requires j < |hs| && hs[j].load && !CopiesNothing(hs[j]) && hs[j].fileSize < hs[j].memSize
    ensures var h, a := hs[j], hs[j].vaddr + hs[j].fileSize;
            && h.offset + h.fileSize < |file| && Beyond(h, MappedAfter(hs, s), a)
            && Reads(LoadAll(s, file, hs, junk).value.pages, a, file[h.offset + h.fileSize])
  {
    hide LoadAll, Sound, Written, Ascending, Congruent, MappedAfter, CopiesNothing, CopyFits, SpillFits, Start;
    var h := hs[j];
    StartIsAddress(hs, j);
    CopyInFile(s, file, hs, junk, j);
    ExtraWritten(h, file);
    KeysAfter(s, file, hs, junk);
    DecidedBy(s, file, hs, junk, j, h.vaddr + h.fileSize);
  }

  /** The ELF specification wants a segment zero from its file size to its memory size. In the pages
      that are mapped that is so if and only if the extra byte it copies is zero and the frames it
      was given were zero beyond it; nothing in the code sees to either. */
  lemma ZeroFilledIff(s: Loader, file: File, hs: seq<Header>, junk: Junk, j: nat)
    requires Sound(s) && LoadAll(s, file, hs, junk).Ok?
    requires Ascending(hs) && Congruent(hs)
    requires j < |hs| && hs[j].load && !CopiesNothing(hs[j]) && hs[j].fileSize < hs[j].memSize
    ensures hs[j].offset + hs[j].fileSize < |file|
    ensures var h, mapped := hs[j], MappedAfter(hs, s);
            ReadsZero(h, mapped, LoadAll(s, file, hs, junk).value.pages) <==>
            file[h.offset + h.fileSize] == 0 && ZeroBehind(h, mapped, s, PlanOf(hs, s), junk)
  {
    hide LoadAll, Sound, Ascending, Congruent, Origin, PlanOf, MappedAfter, CopiesNothing, Reads, Beyond;
    var h, mapped, pages := hs[j], MappedAfter(hs, s), LoadAll(s, file, hs, junk).value.pages;
    ExtraByteRead(s, file, hs, junk, j);
    ReadsOne(pages, h.vaddr + h.fileSize, file[h.offset + h.fileSize]);
    forall a | Beyond(h, mapped, a) && a != h.vaddr + h.fileSize
      ensures Reads(pages, a, 0) <==> Origin(s, PlanOf(hs, s), junk, a) == 0
    {
      ByteBehind(s, file, hs, junk, j, a);
    }
  }

  lemma ByteBehind(s: Loader, file: File, hs: seq<Header>, junk: Junk, j: nat, a: nat)
    requires Sound(s) && LoadAll(s, file, hs, junk).Ok?
    requires Ascending(hs) && Congruent(hs) && j < |hs| && hs[j].load
    requires Beyond(hs[j], MappedAfter(hs, s), a) && a != hs[j].vaddr + hs[j].fileSize
    ensures Reads(LoadAll(s, file, hs, junk).value.pages, a, 0) <==> Origin(s, PlanOf(hs, s), junk, a) == 0
  {
    hide LoadAll, Sound, Ascending, Congruent, Origin, PlanOf, MappedAfter, Down, Reads;
    KeysAfter(s, file, hs, junk);
    OnlyOrigin(s, file, hs, junk, j, a);
    ReadsOne(LoadAll(s, file, hs, junk).value.pages, a, Origin(s, PlanOf(hs, s), junk, a));
  }

  /** Between a segment's copy and its end nothing is written at all. */
  lemma OnlyOrigin(s: Loader, file: File, hs: seq<Header>, junk: Junk, j: nat, a: nat)
    requires Sound(s) && LoadAll(s, file, hs, junk).Ok?
    requires Ascending(hs) && Congruent(hs) && j < |hs| && hs[j].load
    requires hs[j].vaddr + hs[j].fileSize < a < hs[j].vaddr + hs[j].memSize
    requires Down(a) in LoadAll(s, file, hs, junk).value.pages
    ensures Reads(LoadAll(s, file, hs, junk).value.pages, a, Origin(s, PlanOf(hs, s), junk, a))
  {
    StartIsAddress(hs, j);
    forall g | g in hs ensures Written(g, file, a).None? {
      var i :| 0 <= i < |hs| && hs[i] == g;
      if i < j {
        EarlierWritesBelow(hs, file, j, i, a);
      } else if i > j {
        LaterWritesAbove(hs, file, j, i, a);
      }
    }
    hide LoadAll, Written, Ascending, Congruent, Origin, PlanOf, Sound;
    FinalImage(s, file, hs, junk, a);
    NobodyWrites(hs, file, a, Origin(s, PlanOf(hs, s), junk, a));
  }

  lemma SegmentLookedUp(s: Loader, file: File, h: Header, junk: Junk, i: nat)
    requires Sound(s) && h.load && LoadSegment(s, file, h, junk).Ok? && i <= h.memSize / PAGE
    ensures h.PageAddr(i) in LoadSegment(s, file, h, junk).value.regions
  {
    LoadSegmentIff(s, file, h, junk);
    SegmentPlaced(s, file, h, junk);
    BaseIsPage(h);
    hide LoadSegment, Copied, WithBase, Header.PageAddr, CopyAccepted, FirstPageFits, Header.Base, HeadPlan;
  }

  /** Every page a segment's loop looked up is recorded in the end. */
  lemma {:induction false} LookedUpPages(s: Loader, file: File, hs: seq<Header>, junk: Junk, j: nat, i: nat)
    requires Sound(s) && LoadAll(s, file, hs, junk).Ok?
    requires j < |hs| && hs[j].load && i <= hs[j].memSize / PAGE
    ensures hs[j].PageAddr(i) in LoadAll(s, file, hs, junk).value.regions
    decreases |hs|
  {
    SegmentPlaced(s, file, hs[0], junk);
    var t := LoadSegment(s, file, hs[0], junk).value;
    assert Sound(t);
    hide LoadSegment, Sound, Placed, Header.PageAddr;
    if j == 0 {
      SegmentLookedUp(s, file, hs[0], junk, i);
      CompletedRegions(t, file, hs[1..], junk);
      hide CarriedOut, PlanOf;
    } else {
      LookedUpPages(t, file, hs[1..], junk, j - 1, i);
    }
  }

  /** Every address of the segment is mapped. */
  ghost predicate Covered(h: Header, mapped: set<nat>) {
    forall a :: h.vaddr <= a < h.vaddr + h.memSize ==> Down(a) in mapped
  }

  /** The one page of a segment the page loop can fail to look up: it counts pages from the
      segment's size alone, not from where in its first page the segment begins. */
  function TailPage(h: Header): nat {
    h.Base() + (h.memSize / PAGE + 1) * PAGE
  }

  predicate ReachesTail(h: Header) {
    h.vaddr % PAGE + h.memSize % PAGE > PAGE
  }

  lemma PageIndex(h: Header, a: nat) returns (i: nat)
    requires h.vaddr <= a < h.vaddr + h.memSize <= U64
    ensures Down(a) == h.Base() + i * PAGE && h.PageAddr(i) == Down(a)
    ensures i <= h.memSize / PAGE || (ReachesTail(h) && Down(a) == TailPage(h))
  {
    BaseIsPage(h);
    i := (Down(a) - h.Base()) / PAGE;
    assert Down(a) % U64 == Down(a);
  }

  lemma TailIsInside(h: Header)
    requires ReachesTail(h)
    ensures h.vaddr <= TailPage(h) < h.vaddr + h.memSize && Down(TailPage(h)) == TailPage(h)
  {
    BaseIsPage(h);
  }

  /** One address of a segment, after a completed load. */
  lemma CoveredAt(s: Loader, file: File, hs: seq<Header>, junk: Junk, j: nat, a: nat)
    requires Sound(s) && LoadAll(s, file, hs, junk).Ok?
    requires j < |hs| && hs[j].load && hs[j].vaddr + hs[j].memSize <= U64
    requires hs[j].vaddr <= a < hs[j].vaddr + hs[j].memSize
    ensures var h, pages := hs[j], LoadAll(s, file, hs, junk).value.pages;
            && (Down(a) in pages ==> Canonical(a))
            && (Canonical(a) ==> Down(a) in pages || (ReachesTail(h) && Down(a) == TailPage(h)))
  {
    var h, r := hs[j], LoadAll(s, file, hs, junk).value;
    CompletedRegions(s, file, hs, junk);
    CanonicalByPage(a);
    var i := PageIndex(h, a);
    hide LoadAll, Down, TailPage, ReachesTail, PlanOf, PagesOf, VirtAddr, CarriedOut, Header.PageAddr, Header.Base;
    if i <= h.memSize / PAGE {
      LookedUpPages(s, file, hs, junk, j, i);
    }
  }

  /** A completed load maps all of a segment if and only if its addresses are canonical and it either
      does not reach the page its loop leaves out, or that page was mapped before or is the first
      page of some segment. */
  lemma CoveredIff(s: Loader, file: File, hs: seq<Header>, junk: Junk, j: nat)
    requires Sound(s) && LoadAll(s, file, hs, junk).Ok?
    requires j < |hs| && hs[j].load && hs[j].vaddr + hs[j].memSize <= U64
    ensures var h, mapped := hs[j], MappedAfter(hs, s);
            && LoadAll(s, file, hs, junk).value.pages.Keys == mapped
            && (Covered(h, mapped) <==>
                  && (forall a :: h.vaddr <= a < h.vaddr + h.memSize ==> Canonical(a))
                  && (ReachesTail(h) ==> TailPage(h) in mapped))
  {
    var h, mapped := hs[j], MappedAfter(hs, s);
    KeysAfter(s, file, hs, junk);
    if ReachesTail(h) {
      TailIsInside(h);
    }
    hide LoadAll, Down, TailPage, ReachesTail, MappedAfter, Canonical, Sound;
    forall a | h.vaddr <= a < h.vaddr + h.memSize
      ensures Down(a) in mapped ==> Canonical(a)
      ensures Canonical(a) ==> Down(a) in mapped || (ReachesTail(h) && Down(a) == TailPage(h))
    {
      CoveredAt(s, file, hs, junk, j, a);
    }
  }

  lemma CanonicalByPage(a: nat)
    ensures Canonical(a) <==> Canonical(Down(a))
  {
  }
}
