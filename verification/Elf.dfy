/** The ELF loader (src/elf.rs): which pages it maps, what it copies, and exactly when it completes. */
module Elf {
  import opened Wrappers

  const PAGE: nat := 0x1000
  const U64: nat := 0x1_0000_0000_0000_0000

  type PageBytes = p: seq<byte> | |p| == PAGE witness seq(PAGE, _ => 0)

  type word = x: nat | x < U64

  type File = f: seq<byte> | |f| < U64

  /** The page an address is in. */
  function Down(a: nat): nat {
    a - a % PAGE
  }

  /** `VirtAddr::new`: canonical addresses are kept, bit 47 is extended where it is the only one set
      from 47 up, and the rest is refused. */
  function VirtAddr(a: nat): Option<nat> {
    if a < 0x8000_0000_0000 || a >= U64 - 0x8000_0000_0000 then Some(a)
    else if a < 0x1_0000_0000_0000 then Some(a + (U64 - 0x1_0000_0000_0000))
    else None
  }

  /** What it accepts keeps its low 48 bits and has the top 17 all equal; it refuses an address just when
      these are neither all equal nor 1. */
  lemma VirtAddrExact(a: word)
    ensures VirtAddr(a).None? <==> a / 0x8000_0000_0000 !in {0, 1, 0x1_FFFF}
    ensures VirtAddr(a).Some? ==>
              var v := VirtAddr(a).value;
              v % 0x1_0000_0000_0000 == a % 0x1_0000_0000_0000 && v / 0x8000_0000_0000 in {0, 0x1_FFFF}
  {
  }

  predicate Canonical(a: nat) {
    VirtAddr(a) == Some(a)
  }

  /** A program header. */
  datatype Header = Header(load: bool, offset: word, vaddr: word, fileSize: word, memSize: word) {
    function Base(): nat {
      Down(vaddr)
    }

    /** The page every `map_to` of this segment names. */
    function Target(): Option<nat> {
      match VirtAddr(vaddr)
      case Some(v) => Some(Down(v))
      case None => None
    }

    /** The address the page loop looks up on turn `i`. */
    function PageAddr(i: nat): nat {
      (i * PAGE + Base()) % U64
    }
  }

  lemma BaseIsPage(h: Header)
    ensures 0 <= h.Base() <= h.vaddr && h.Base() % PAGE == 0 && h.vaddr - h.Base() == h.vaddr % PAGE
    ensures h.PageAddr(0) == h.Base() == PageOf(h, 0)
    ensures h.Target() == VirtAddr(h.Base())
  {
  }

  datatype LoadError = NoFrame | BadAddress | PageAlreadyMapped | PageFault | SliceOutOfRange

  /** A page table below the root, by its level and the addresses it serves. */
  datatype TableKey = TableKey(level: nat, prefix: nat)

  /** The tables a mapping of page `p` needs, and how many of them `map_to` has to create. */
  function TablesFor(p: nat): set<TableKey> {
    {TableKey(3, p / 0x80_0000_0000), TableKey(2, p / 0x4000_0000), TableKey(1, p / 0x20_0000)}
  }

  function Missing(p: nat, tables: set<TableKey>): nat {
    |TablesFor(p) - tables|
  }

  /** The address space the loader writes through: contents by page, the frame behind each page and
      the page tables there are; the pages it has recorded, the frames it has used, and those the
      allocator will issue next. */
  datatype Loader = Loader(
    pages: map<nat, PageBytes>, backing: map<nat, nat>, tables: set<TableKey>,
    regions: set<nat>, frames: seq<nat>, supply: seq<nat>)

  /** What a frame holds before anyone writes it; frames are not zeroed. */
  type Junk = nat -> PageBytes

  /** Page `p` mapped to the next frame, after which `map_to` takes its tables from the supply. */
  function Mapped(s: Loader, region: nat, p: nat, junk: Junk): Loader
    requires |s.supply| > Missing(p, s.tables)
  {
    var frame := s.supply[0];
    Loader(s.pages[p := junk(frame)], s.backing[p := frame], s.tables + TablesFor(p),
           s.regions + {region}, s.frames + [frame], s.supply[1 + Missing(p, s.tables)..])
  }

  /** One turn of the page loop: it tests `page` but maps the segment's first page. */
  function MapTurn(s: Loader, h: Header, page: nat, junk: Junk): Result<Loader, LoadError> {
    if page in s.regions then Ok(s)
    else if s.supply == [] then Err(NoFrame)
    else
      match h.Target()
      case None => Err(BadAddress)
      case Some(p) =>
        if |s.supply| <= Missing(p, s.tables) then Err(NoFrame)
        else if p in s.pages then Err(PageAlreadyMapped)
        else Ok(Mapped(s, page, p, junk))
  }

  /** The page loop from turn `i` on. */
  function MapTurns(s: Loader, h: Header, i: nat, junk: Junk): Result<Loader, LoadError>
    requires i <= h.memSize / PAGE + 1
    decreases h.memSize / PAGE + 1 - i
  {
    if i == h.memSize / PAGE + 1 then Ok(s)
    else
      var r := MapTurn(s, h, h.PageAddr(i), junk);
      if r.Err? then r else MapTurns(r.value, h, i + 1, junk)
  }

  /** `write_size` as written, in 64 bits: its bound is a page address, not a length. */
  function WriteSize(pageAddr: nat, h: Header, done: nat): nat {
    var bound, left := (pageAddr + PAGE) % U64, (h.fileSize - done + 1) % U64;
    if bound < left then bound else left
  }

  function Overwrite(p: PageBytes, at: nat, data: seq<byte>): PageBytes
    requires at + |data| <= PAGE
  {
    p[..at] + data + p[at + |data|..]
  }

  function PageOf(h: Header, done: nat): nat {
    Down((h.vaddr + done) % U64)
  }

  /** One turn of the copy loop, with `done` bytes copied so far. */
  function CopyTurn(s: Loader, file: File, h: Header, done: nat): Result<(Loader, nat), LoadError> {
    var lower, page := (h.offset + done) % U64, PageOf(h, done);
    var size := WriteSize(page, h, done);
    var at := lower % PAGE;
    if at + size > PAGE || lower + size > |file| then Err(SliceOutOfRange)
    else if size == 0 then Ok((s, done))
    else if !Canonical(page) || page !in s.pages then Err(PageFault)
    else Ok((s.(pages := s.pages[page := Overwrite(s.pages[page], at, file[lower..lower + size])]), done + size))
  }

  function CopyTurns(s: Loader, file: File, h: Header, i: nat, done: nat): Result<Loader, LoadError>
    requires i <= h.fileSize / PAGE + 1
    decreases h.fileSize / PAGE + 1 - i
  {
    if i == h.fileSize / PAGE + 1 then Ok(s)
    else
      match CopyTurn(s, file, h, done)
      case Err(e) => Err(e)
      case Ok((s1, done1)) => CopyTurns(s1, file, h, i + 1, done1)
  }

  function LoadSegment(s: Loader, file: File, h: Header, junk: Junk): Result<Loader, LoadError> {
    if !h.load then Ok(s)
    else
      var mapped := MapTurns(s, h, 0, junk);
      if mapped.Err? then mapped else CopyTurns(mapped.value, file, h, 0, 0)
  }

  function LoadAll(s: Loader, file: File, hs: seq<Header>, junk: Junk): Result<Loader, LoadError>
    decreases |hs|
  {
    if hs == [] then Ok(s)
    else
      var r := LoadSegment(s, file, hs[0], junk);
      if r.Err? then r else LoadAll(r.value, file, hs[1..], junk)
  }

  /** Every recorded page stands for a mapped one. */
  ghost predicate RegionsMapped(s: Loader) {
    forall p :: p in s.regions ==> VirtAddr(p).Some? && VirtAddr(p).value in s.pages
  }

  /** The pages the page loop looks up beyond the first. */
  ghost predicate LaterPagesIn(h: Header, regions: set<nat>) {
    forall i :: 1 <= i <= h.memSize / PAGE ==> h.PageAddr(i) in regions
  }

  /** Once the first page is mapped, the remaining turns succeed only if they have nothing to do. */
  lemma {:induction false} LaterTurns(s: Loader, h: Header, i: nat, junk: Junk)
    requires 1 <= i <= h.memSize / PAGE + 1
    requires h.Target().Some? && h.Target().value in s.pages
    ensures var r := MapTurns(s, h, i, junk);
            && (r.Ok? <==> forall j :: i <= j <= h.memSize / PAGE ==> h.PageAddr(j) in s.regions)
            && (r.Ok? ==> r.value == s)
    decreases h.memSize / PAGE + 1 - i
  {
    hide Header.PageAddr, Header.Target;
    if i <= h.memSize / PAGE && h.PageAddr(i) in s.regions {
      LaterTurns(s, h, i + 1, junk);
    }
  }

  /** Even where addresses wrap, a later page is not the first one. */
  lemma LaterPageIsOther(h: Header, j: nat)
    requires 1 <= j <= h.memSize / PAGE
    ensures h.PageAddr(j) != h.Base()
  {
    var a := j * PAGE + h.Base();
    assert 0 < j * PAGE < U64;
    assert a < U64 ==> a % U64 == a;
    assert a >= U64 ==> a % U64 == a - U64;
  }

  /** What acceptance depends on: the pages recorded, the pages mapped, the page tables there are and
      the number of frames left. */
  datatype Space = Space(regions: set<nat>, mapped: set<nat>, tables: set<TableKey>, frames: int)

  function SpaceOf(s: Loader): Space {
    Space(s.regions, s.pages.Keys, s.tables, |s.supply|)
  }

  /** The segment's first page is recorded, or it can be mapped, tables included. */
  predicate FirstPageFits(h: Header, sp: Space) {
    || h.Base() in sp.regions
    || (h.Target().Some? && h.Target().value !in sp.mapped && sp.frames > Missing(h.Target().value, sp.tables))
  }

  /** The state after a segment's first page is taken care of. */
  function WithBase(s: Loader, h: Header, junk: Junk): Loader
    requires FirstPageFits(h, SpaceOf(s))
  {
    if h.Base() in s.regions then s else Mapped(s, h.Base(), h.Target().value, junk)
  }

  /** The page loop completes exactly when the first page is already recorded or can be mapped,
      and every later page it looks up was recorded by an earlier segment. */
  lemma MapSegmentIff(s: Loader, h: Header, junk: Junk)
    requires RegionsMapped(s)
    ensures var r := MapTurns(s, h, 0, junk);
            && (r.Ok? <==> FirstPageFits(h, SpaceOf(s)) && LaterPagesIn(h, s.regions))
            && (r.Ok? ==> r.value == WithBase(s, h, junk))
  {
    BaseIsPage(h);
    var first := MapTurn(s, h, h.Base(), junk);
    hide Header.PageAddr, Header.Base, Header.Target, VirtAddr, Missing, TablesFor;
    assert first.Ok? <==> FirstPageFits(h, SpaceOf(s));
    if first.Ok? {
      assert first.value == WithBase(s, h, junk);
      LaterTurns(first.value, h, 1, junk);
      if forall j :: 1 <= j <= h.memSize / PAGE ==> h.PageAddr(j) in first.value.regions {
        forall j | 1 <= j <= h.memSize / PAGE ensures h.PageAddr(j) in s.regions {
          LaterPageIsOther(h, j);
        }
      }
    }
  }

  /** An accepted segment's usual copy: `fileSize + 1` bytes, at the file offset's place in the
      segment's first page. */
  predicate CopyFits(h: Header, file: File) {
    h.fileSize < PAGE && h.offset % PAGE + h.fileSize + 1 <= PAGE && h.offset + h.fileSize + 1 <= |file|
  }

  /** `write_size` wraps to 0 on every turn: in the last page of the address space, or for the
      largest file size there is. */
  predicate CopiesNothing(h: Header) {
    h.fileSize == U64 - 1 || h.Base() == U64 - PAGE
  }

  /** In page 0 the bound of `write_size` happens to be a page length, so a second page can follow. */
  predicate SpillFits(h: Header, file: File) {
    h.vaddr < PAGE <= h.fileSize < 2 * PAGE && h.offset % PAGE == 0 && h.offset + h.fileSize + 1 <= |file|
  }

  predicate CopyAccepted(h: Header, file: File, mapped: set<nat>) {
    if CopiesNothing(h) then h.offset <= |file|
    else
      && Canonical(h.Base()) && h.Base() in mapped
      && (CopyFits(h, file) || (SpillFits(h, file) && PAGE in mapped))
  }

  /** The memory after an accepted copy. */
  function Copied(s: Loader, file: File, h: Header): Loader
    requires CopyAccepted(h, file, s.pages.Keys)
  {
    if CopiesNothing(h) then s
    else if h.fileSize < PAGE then
      var data := file[h.offset..h.offset + h.fileSize + 1];
      s.(pages := s.pages[h.Base() := Overwrite(s.pages[h.Base()], h.offset % PAGE, data)])
    else
      var data, more := file[h.offset..h.offset + PAGE], file[h.offset + PAGE..h.offset + h.fileSize + 1];
      s.(pages := s.pages[0 := Overwrite(s.pages[0], 0, data)][PAGE := Overwrite(s.pages[PAGE], 0, more)])
  }

  lemma {:induction false} NothingCopied(s: Loader, file: File, h: Header, i: nat)
    requires i <= h.fileSize / PAGE && CopiesNothing(h)
    ensures var r := CopyTurns(s, file, h, i, 0);
            (r.Ok? <==> h.offset <= |file|) && (r.Ok? ==> r.value == s)
    decreases h.fileSize / PAGE - i
  {
    BaseIsPage(h);
    assert WriteSize(h.Base(), h, 0) == 0;
    assert h.offset % U64 == h.offset;
    assert CopyTurn(s, file, h, 0) == if h.offset > |file| then Err(SliceOutOfRange) else Ok((s, 0));
    hide CopyTurn;
    if i < h.fileSize / PAGE {
      NothingCopied(s, file, h, i + 1);
    } else {
      assert CopyTurns(s, file, h, i + 1, 0) == Ok(s);
    }
  }

  /** One page-bounded copy of the file into the page `p`, if it is in order. */
  function CopyInto(s: Loader, file: File, p: nat, at: nat, lower: nat, size: nat): Result<Loader, ()> {
    if at + size > PAGE || lower + size > |file| || !Canonical(p) || p !in s.pages then Err(())
    else Ok(s.(pages := s.pages[p := Overwrite(s.pages[p], at, file[lower..lower + size])]))
  }

  /** The first turn of the copy loop, where it copies anything. */
  lemma FirstCopy(s: Loader, file: File, h: Header)
    requires !CopiesNothing(h)
    ensures var size := if h.fileSize >= PAGE && h.Base() == 0 then PAGE else h.fileSize + 1;
            var c, t := CopyInto(s, file, h.Base(), h.offset % PAGE, h.offset, size), CopyTurn(s, file, h, 0);
            && (h.Base() > 0 && h.fileSize >= PAGE ==> t.Err?)
            && (t.Ok? <==> c.Ok?) && (t.Ok? ==> t.value == (c.value, size))
  {
    BaseIsPage(h);
    assert h.Base() + PAGE < U64 && h.fileSize + 1 < U64;
    assert h.offset % U64 == h.offset;
    assert (h.Base() + PAGE) % U64 == h.Base() + PAGE && (h.fileSize + 1) % U64 == h.fileSize + 1;
    assert h.Base() > 0 ==> h.Base() >= PAGE;
    hide VirtAddr;
  }

  /** The second turn, which only a segment in page 0 reaches. */
  lemma SecondCopy(s: Loader, file: File, h: Header)
    requires h.vaddr < PAGE <= h.fileSize < U64 - 1 && h.offset % PAGE == 0 && h.offset + PAGE <= |file|
    ensures var size := h.fileSize + 1 - PAGE;
            var c, t := CopyInto(s, file, PAGE, 0, h.offset + PAGE, size), CopyTurn(s, file, h, PAGE);
            (t.Ok? <==> c.Ok?) && (t.Ok? ==> t.value == (c.value, PAGE + size))
  {
    var size := h.fileSize + 1 - PAGE;
    assert (h.offset + PAGE) % U64 == h.offset + PAGE && (h.vaddr + PAGE) % U64 == h.vaddr + PAGE;
    assert (h.offset + PAGE) % PAGE == 0;
    assert PageOf(h, PAGE) == PAGE;
    assert (h.fileSize - PAGE + 1) % U64 == size;
    assert WriteSize(PAGE, h, PAGE) == if 2 * PAGE < size then 2 * PAGE else size;
  }

  /** The copy loop completes exactly when its copies stay inside mapped pages and the file. */
  lemma CopySegmentIff(s: Loader, file: File, h: Header)
    ensures var r := CopyTurns(s, file, h, 0, 0);
            && (r.Ok? <==> CopyAccepted(h, file, s.pages.Keys))
            && (r.Ok? ==> r.value == Copied(s, file, h))
  {
    BaseIsPage(h);
    if CopiesNothing(h) {
      NothingCopied(s, file, h, 0);
    } else {
      FirstCopy(s, file, h);
      var first := CopyTurn(s, file, h, 0);
      hide CopyTurn, Overwrite;
      if first.Ok? {
        var t, done := first.value.0, first.value.1;
        if h.fileSize < PAGE {
          assert h.fileSize / PAGE == 0;
          assert CopyTurns(s, file, h, 0, 0) == CopyTurns(t, file, h, 1, done) == Ok(t);
        } else {
          assert h.Base() == 0 && h.vaddr < PAGE;
          SecondCopy(t, file, h);
          var second := CopyTurn(t, file, h, PAGE);
          assert CopyTurns(s, file, h, 0, 0) == CopyTurns(t, file, h, 1, PAGE);
          if second.Ok? {
            var u := second.value.0;
            assert h.fileSize / PAGE == 1;
            assert CopyTurns(t, file, h, 1, PAGE) == CopyTurns(u, file, h, 2, second.value.1) == Ok(u);
          }
        }
      }
    }
  }

  /** What a completed segment leaves for the next. */
  function After(sp: Space, h: Header): Space {
    if h.Base() in sp.regions || h.Target().None? then sp
    else
      var p := h.Target().value;
      Space(sp.regions + {h.Base()}, sp.mapped + {p}, sp.tables + TablesFor(p), sp.frames - 1 - Missing(p, sp.tables))
  }

  /** When a LOAD segment is accepted. */
  ghost predicate SegmentFits(h: Header, sp: Space, file: File) {
    FirstPageFits(h, sp) && LaterPagesIn(h, sp.regions) && CopyAccepted(h, file, After(sp, h).mapped)
  }

  ghost predicate Accepts(hs: seq<Header>, sp: Space, file: File)
    decreases |hs|
  {
    || hs == []
    || if !hs[0].load then Accepts(hs[1..], sp, file)
       else SegmentFits(hs[0], sp, file) && Accepts(hs[1..], After(sp, hs[0]), file)
  }

  lemma WithBaseSpace(s: Loader, h: Header, junk: Junk)
    requires RegionsMapped(s) && FirstPageFits(h, SpaceOf(s))
    ensures SpaceOf(WithBase(s, h, junk)) == After(SpaceOf(s), h)
    ensures RegionsMapped(WithBase(s, h, junk))
  {
    BaseIsPage(h);
    hide VirtAddr, Header.Base, Header.Target, TablesFor, Missing;
  }

  lemma CopiedKeeps(s: Loader, file: File, h: Header)
    requires CopyAccepted(h, file, s.pages.Keys)
    ensures var r := Copied(s, file, h); r == s.(pages := r.pages) && r.pages.Keys == s.pages.Keys
  {
    hide Overwrite, VirtAddr;
  }

  lemma LoadSegmentIff(s: Loader, file: File, h: Header, junk: Junk)
    requires RegionsMapped(s) && h.load
    ensures var r := LoadSegment(s, file, h, junk);
            && (r.Ok? <==> SegmentFits(h, SpaceOf(s), file))
            && (r.Ok? ==>
                  && CopyAccepted(h, file, WithBase(s, h, junk).pages.Keys)
                  && r.value == Copied(WithBase(s, h, junk), file, h)
                  && SpaceOf(r.value) == After(SpaceOf(s), h)
                  && RegionsMapped(r.value))
  {
    MapSegmentIff(s, h, junk);
    hide MapTurns, CopyTurns, LaterPagesIn, CopyAccepted, Copied, WithBase, FirstPageFits;
    var mapped := MapTurns(s, h, 0, junk);
    if mapped.Ok? {
      WithBaseSpace(s, h, junk);
      CopySegmentIff(mapped.value, file, h);
      if CopyAccepted(h, file, mapped.value.pages.Keys) {
        CopiedKeeps(mapped.value, file, h);
      }
    }
  }

  /** The loader completes exactly on the header lists it accepts, a condition on the headers, the
      pages and tables already there, the frames available and the file's length. */
  lemma {:induction false} LoadAllIff(s: Loader, file: File, hs: seq<Header>, junk: Junk)
    requires RegionsMapped(s)
    ensures LoadAll(s, file, hs, junk).Ok? <==> Accepts(hs, SpaceOf(s), file)
    decreases |hs|
  {
    if hs != [] {
      var h := hs[0];
      hide SegmentFits, MapTurns, CopyTurns;
      if h.load {
        LoadSegmentIff(s, file, h, junk);
        var r := LoadSegment(s, file, h, junk);
        hide LoadSegment, Copied, WithBase, RegionsMapped, SpaceOf, After;
        if r.Ok? {
          LoadAllIff(r.value, file, hs[1..], junk);
        }
      } else {
        LoadAllIff(s, file, hs[1..], junk);
      }
    }
  }

  /** LOAD segments in address order. */
  ghost predicate Ascending(hs: seq<Header>) {
    forall i, j :: 0 <= i < j < |hs| && hs[i].load && hs[j].load ==> hs[i].vaddr + hs[i].memSize <= hs[j].vaddr
  }

  predicate OnePage(hs: seq<Header>) {
    forall h :: h in hs && h.load ==> h.memSize < PAGE
  }

  lemma BasesOrdered(a: Header, c: Header)
    requires a.vaddr <= c.vaddr
    ensures a.Base() <= c.Base()
  {
  }

  lemma LaterPagesNeedRoom(h: Header, regions: set<nat>)
    requires h.vaddr < U64 - PAGE && forall p :: p in regions ==> p <= h.Base()
    ensures LaterPagesIn(h, regions) <==> h.memSize < PAGE
  {
    if h.memSize >= PAGE {
      BaseIsPage(h);
      assert h.PageAddr(1) == PAGE + h.Base() && h.PageAddr(1) !in regions;
    }
  }

  function LoadCount(hs: seq<Header>): nat {
    if hs == [] then 0 else (if hs[0].load then 1 else 0) + LoadCount(hs[1..])
  }

  lemma OnePageCons(hs: seq<Header>)
    requires hs != []
    ensures OnePage(hs) <==> (hs[0].load ==> hs[0].memSize < PAGE) && OnePage(hs[1..])
  {
    assert hs == [hs[0]] + hs[1..];
  }

  /** A segment with nothing else the matter: its address can be mapped and is not in the last page,
      and if it is smaller than a page then its copy is in bounds. */
  predicate Ordinary(h: Header, file: File) {
    Canonical(h.vaddr) && h.vaddr < U64 - PAGE && (h.memSize < PAGE ==> CopyFits(h, file))
  }

  /** What the segments still to come can count on. */
  ghost predicate Room(hs: seq<Header>, sp: Space, file: File) {
    && (forall h, p :: h in hs && h.load && p in sp.regions ==> p <= h.Base())
    && (forall h :: h in hs && h.load ==> (h.Base() in sp.regions <==> h.Base() in sp.mapped))
    && (forall h :: h in hs && h.load ==> Ordinary(h, file))
    && sp.frames >= 4 * LoadCount(hs)
  }

  lemma MissingAtMostThree(p: nat, tables: set<TableKey>)
    ensures Missing(p, tables) <= 3
  {
    var all := TablesFor(p);
    SubsetSize(all - tables, all);
    SubsetSize({TableKey(3, p / 0x80_0000_0000)}, all);
  }

  lemma SubsetSize<T>(a: set<T>, b: set<T>)
    requires a <= b
    ensures |a| <= |b|
  {
    assert b == a + (b - a);
  }

  lemma OrdinaryTarget(h: Header, file: File)
    requires Ordinary(h, file)
    ensures h.Target() == Some(h.Base()) && Canonical(h.Base()) && !(CopiesNothing(h) && h.fileSize < PAGE)
  {
    BaseIsPage(h);
  }

  lemma RoomLeft(hs: seq<Header>, sp: Space, file: File)
    requires Ascending(hs) && hs != [] && Room(hs, sp, file)
    ensures Ascending(hs[1..]) && Room(hs[1..], if hs[0].load then After(sp, hs[0]) else sp, file)
  {
    var h, rest := hs[0], hs[1..];
    forall g | g in rest && g.load && h.load ensures h.Base() <= g.Base() {
      var j :| 0 <= j < |rest| && rest[j] == g;
      assert hs[j + 1] == g && h.vaddr <= g.vaddr;
      BasesOrdered(h, g);
    }
    if h.load {
      assert h in hs;
      OrdinaryTarget(h, file);
      MissingAtMostThree(h.Base(), sp.tables);
    }
    hide Ordinary, Header.Base, Header.Target, Missing, TablesFor;
    assert forall g :: g in rest ==> g in hs;
  }

  lemma SmallFits(h: Header, sp: Space, file: File)
    requires Ordinary(h, file) && sp.frames >= 4 && (h.Base() in sp.regions <==> h.Base() in sp.mapped)
    requires LaterPagesIn(h, sp.regions) <==> h.memSize < PAGE
    ensures SegmentFits(h, sp, file) <==> h.memSize < PAGE
  {
    hide LaterPagesIn;
    OrdinaryTarget(h, file);
    MissingAtMostThree(h.Base(), sp.tables);
    hide VirtAddr, Header.Base, Header.Target, Missing, TablesFor;
  }

  /** For ordinary segments in address order, on unmapped pages, with frames enough, the loader accepts
      the list if and only if every segment is smaller than a page. */
  lemma {:induction false} AscendingAcceptsIff(hs: seq<Header>, sp: Space, file: File)
    requires Ascending(hs) && Room(hs, sp, file)
    ensures Accepts(hs, sp, file) <==> OnePage(hs)
    decreases |hs|
  {
    if hs != [] {
      var h, rest := hs[0], hs[1..];
      assert h in hs;
      OnePageCons(hs);
      RoomLeft(hs, sp, file);
      if h.load {
        LaterPagesNeedRoom(h, sp.regions);
        SmallFits(h, sp, file);
        hide SegmentFits, Room, Ascending, OnePage, After;
        AscendingAcceptsIff(rest, After(sp, h), file);
      } else {
        hide SegmentFits, Room, Ascending, OnePage;
        AscendingAcceptsIff(rest, sp, file);
      }
    }
  }

  /** The page tables of every recorded page are there. */
  ghost predicate TablesThere(s: Loader) {
    forall p :: p in s.regions && VirtAddr(p).Some? ==> TablesFor(VirtAddr(p).value) <= s.tables
  }

  lemma NothingMissing(p: nat, tables: set<TableKey>)
    requires TablesFor(p) <= tables
    ensures Missing(p, tables) == 0
  {
    assert TablesFor(p) - tables == {};
  }

  lemma WithBaseTables(s: Loader, h: Header, junk: Junk)
    requires TablesThere(s) && FirstPageFits(h, SpaceOf(s))
    ensures TablesThere(WithBase(s, h, junk))
  {
    BaseIsPage(h);
    hide VirtAddr, Header.Base, Header.Target, Missing, TablesFor;
  }

  /** A segment of a page or more: the second turn of its page loop finds its second page not recorded,
      takes a frame and maps the first page again. */
  lemma LargeSegmentFails(s: Loader, file: File, h: Header, junk: Junk)
    requires RegionsMapped(s) && TablesThere(s) && |s.supply| >= 5
    requires h.load && Ordinary(h, file) && h.memSize >= PAGE
    requires (forall p :: p in s.regions ==> p <= h.Base()) && (h.Base() in s.regions <==> h.Base() in s.pages)
    ensures LoadSegment(s, file, h, junk) == Err(PageAlreadyMapped)
  {
    BaseIsPage(h);
    OrdinaryTarget(h, file);
    MissingAtMostThree(h.Base(), s.tables);
    assert FirstPageFits(h, SpaceOf(s));
    WithBaseTables(s, h, junk);
    WithBaseSpace(s, h, junk);
    var t := WithBase(s, h, junk);
    assert h.PageAddr(1) == PAGE + h.Base();
    assert h.Base() in t.regions && h.PageAddr(1) !in t.regions;
    assert MapTurn(s, h, h.PageAddr(0), junk) == Ok(t);
    NothingMissing(h.Base(), t.tables);
    assert MapTurn(t, h, h.PageAddr(1), junk) == Err(PageAlreadyMapped);
    hide MapTurn, WithBase;
    assert MapTurns(s, h, 0, junk) == MapTurns(t, h, 1, junk);
  }

  lemma SegmentKeepsTables(s: Loader, file: File, h: Header, junk: Junk)
    requires RegionsMapped(s) && TablesThere(s) && LoadSegment(s, file, h, junk).Ok?
    ensures TablesThere(LoadSegment(s, file, h, junk).value)
  {
    if h.load {
      LoadSegmentIff(s, file, h, junk);
      hide LoadSegment, WithBase, Copied, CopyAccepted, FirstPageFits, LaterPagesIn;
      WithBaseTables(s, h, junk);
      CopiedKeeps(WithBase(s, h, junk), file, h);
    }
  }

  /** With a frame to spare, it is that second `map_to` that stops the loader. */
  lemma {:induction false} AscendingFails(s: Loader, file: File, hs: seq<Header>, junk: Junk)
    requires RegionsMapped(s) && TablesThere(s) && Ascending(hs) && Room(hs, SpaceOf(s), file)
    requires |s.supply| > 4 * LoadCount(hs) && !OnePage(hs)
    ensures LoadAll(s, file, hs, junk) == Err(PageAlreadyMapped)
    decreases |hs|
  {
    var h := hs[0];
    assert h in hs;
    if h.load && h.memSize >= PAGE {
      LargeSegmentFails(s, file, h, junk);
    } else {
      OnePageCons(hs);
      RoomLeft(hs, SpaceOf(s), file);
      if h.load {
        LaterPagesNeedRoom(h, s.regions);
        SmallFits(h, SpaceOf(s), file);
        OrdinaryTarget(h, file);
        MissingAtMostThree(h.Base(), s.tables);
        LoadSegmentIff(s, file, h, junk);
      }
      var t := LoadSegment(s, file, h, junk).value;
      SegmentKeepsTables(s, file, h, junk);
      assert |t.supply| >= |s.supply| - if h.load then 4 else 0;
      assert Room(hs[1..], SpaceOf(t), file) && RegionsMapped(t);
      hide LoadSegment, Room, Ascending, OnePage, RegionsMapped, TablesThere, After, SegmentFits, Ordinary;
      AscendingFails(t, file, hs[1..], junk);
    }
  }

  /** For ordinary segments in address order, on unmapped pages, with frames enough, the loader
      completes if and only if every segment is smaller than a page. With a frame to spare, a larger
      one fails at the second `map_to` of its first page. */
  lemma AscendingCompletesIff(s: Loader, file: File, hs: seq<Header>, junk: Junk)
    requires Ascending(hs) && s.regions == {}
    requires forall h :: h in hs && h.load ==> h.Base() !in s.pages && Ordinary(h, file)
    requires |s.supply| >= 4 * LoadCount(hs)
    ensures LoadAll(s, file, hs, junk).Ok? <==> OnePage(hs)
    ensures |s.supply| > 4 * LoadCount(hs) && !OnePage(hs) ==> LoadAll(s, file, hs, junk) == Err(PageAlreadyMapped)
  {
    hide Ordinary, Header.Base, LoadAll, Accepts;
    LoadAllIff(s, file, hs, junk);
    AscendingAcceptsIff(hs, SpaceOf(s), file);
    if |s.supply| > 4 * LoadCount(hs) && !OnePage(hs) {
      AscendingFails(s, file, hs, junk);
    }
  }

  /** Which way a segment fails at its first page, when no earlier segment has recorded that page. */
  lemma FirstPageErrors(s: Loader, file: File, h: Header, junk: Junk)
    requires h.load && h.vaddr - h.vaddr % 0x1000 !in s.regions
    ensures var r, target := LoadSegment(s, file, h, junk), h.Target();
            && (s.supply == [] ==> r == Err(NoFrame))
            && (s.supply != [] && h.vaddr / 0x8000_0000_0000 !in {0, 1, 0x1_FFFF} ==> r == Err(BadAddress))
            && (target.Some? && |s.supply| <= Missing(target.value, s.tables) ==> r == Err(NoFrame))
            && (target.Some? && |s.supply| > Missing(target.value, s.tables) && target.value in s.pages ==>
                  r == Err(PageAlreadyMapped))
  {
    BaseIsPage(h);
    VirtAddrExact(h.vaddr);
    hide VirtAddr, Missing, TablesFor, Header.PageAddr, CopyTurns;
  }

  /** Which way its copy fails, outside the first and the last page of the address space. */
  lemma CopyErrors(s: Loader, file: File, h: Header)
    requires 0x1000 <= h.Base() < U64 - 0x1000 && h.fileSize < U64 - 1
    ensures var r := CopyTurns(s, file, h, 0, 0);
            var fits := h.offset % 0x1000 + h.fileSize + 1 <= 0x1000 && h.offset + h.fileSize + 1 <= |file|;
            && (!fits ==> r == Err(SliceOutOfRange))
            && (fits && !(Canonical(h.Base()) && h.Base() in s.pages) ==> r == Err(PageFault))
            && (fits && Canonical(h.Base()) && h.Base() in s.pages ==> r.Ok?)
  {
    BaseIsPage(h);
    CopySegmentIff(s, file, h);
    var first := CopyTurn(s, file, h, 0);
    assert WriteSize(h.Base(), h, 0) == if h.Base() + PAGE < h.fileSize + 1 then h.Base() + PAGE else h.fileSize + 1;
    assert first.Err? ==> CopyTurns(s, file, h, 0, 0) == Err(first.error);
  }

  datatype HeaderError = BadSliceSize(size: nat) | BadMagicNum | Elf32Bit | BadEndianness | BadArch

  predicate Magic(bytes: seq<byte>) {
    |bytes| == 64 && bytes[..4] == [0x7F, 0x45, 0x4C, 0x46]
  }

  /** `ElfHeader::from_slice`: it accepts exactly 64-byte little-endian x86-64 headers, and an
      error names the first of its checks that fails. */
  function FromSlice(bytes: seq<byte>): (r: Result<(), HeaderError>)
    ensures r.Ok? <==> Magic(bytes) && bytes[4] == 2 && bytes[5] == 1 && bytes[18..20] == [0x3E, 0]
    ensures r == Err(BadMagicNum) ==> |bytes| == 64 && !Magic(bytes)
    ensures r == Err(Elf32Bit) ==> Magic(bytes) && bytes[4] != 2
    ensures r == Err(BadEndianness) ==> Magic(bytes) && bytes[4] == 2 && bytes[5] != 1
    ensures r == Err(BadArch) ==> Magic(bytes) && bytes[4] == 2 && bytes[5] == 1
    ensures r.Err? && r.error.BadSliceSize? ==> r.error.size == |bytes| != 64
  {
    if |bytes| != 64 then Err(BadSliceSize(|bytes|))
    else if bytes[..4] != [0x7F, 0x45, 0x4C, 0x46] then Err(BadMagicNum)
    else if bytes[4] != 2 then Err(Elf32Bit)
    else if bytes[5] != 1 then Err(BadEndianness)
    else if bytes[18] as int + 256 * bytes[19] as int != 0x3E then Err(BadArch)
    else assert bytes[18..20] == [bytes[18], bytes[19]]; Ok(())
  }
}
