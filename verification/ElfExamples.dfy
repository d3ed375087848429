/** Accepted one-segment files that show where the ELF loader (src/elf.rs) falls short: a page left
    unmapped, bytes left nonzero, a page left unloaded. */
module ElfExamples {
  import opened Wrappers
  import opened Elf
  import opened ElfImage

  /** A process with no pages yet and four frames to come. */
  const EMPTY: Loader := Loader(map[], map[], {}, {}, [], [5, 6, 7, 8])

  /** A segment smaller than a page, with its copy in order. */
  predicate Small(h: Header, file: File) {
    h.load && Canonical(h.Base()) && h.memSize < PAGE && CopyAccepted(h, file, {h.Base()})
  }

  lemma SmallAccepted(h: Header, file: File, junk: Junk)
    requires Small(h, file)
    ensures Sound(EMPTY) && LoadAll(EMPTY, file, [h], junk).Ok?
  {
    BaseIsPage(h);
    MissingAtMostThree(h.Base(), {});
    LoadAllIff(EMPTY, file, [h], junk);
    assert [h][1..] == [] && [h][0] == h;
    assert {} + {h.Base()} == {h.Base()};
    hide LoadAll, Missing, TablesFor, CopyAccepted;
    assert After(SpaceOf(EMPTY), h).mapped == {h.Base()};
    assert SegmentFits(h, SpaceOf(EMPTY), file);
  }

  lemma SmallPlan(h: Header, file: File)
    requires Small(h, file)
    ensures PlanOf([h], EMPTY) == [Mapping(h.Base(), 5)]
  {
    BaseIsPage(h);
    MissingAtMostThree(h.Base(), {});
    assert [h][1..] == [] && [h][0] == h;
    hide Missing, TablesFor, CopyAccepted;
    var rest := Plan([], {h.Base()}, {} + TablesFor(h.Base()), EMPTY.supply[1 + Missing(h.Base(), {})..]);
    assert PlanOf([h], EMPTY) == [Mapping(h.Base(), 5)] + rest && rest == [];
  }

  /** It is accepted, only its first page is mapped, and that page is in frame 5. */
  lemma SmallLoads(h: Header, file: File, junk: Junk, a: nat)
    requires Small(h, file)
    ensures Sound(EMPTY) && LoadAll(EMPTY, file, [h], junk).Ok?
    ensures LoadAll(EMPTY, file, [h], junk).value.pages.Keys == {h.Base()} == MappedAfter([h], EMPTY)
    ensures Down(a) == h.Base() ==> Origin(EMPTY, PlanOf([h], EMPTY), junk, a) == junk(5)[a % PAGE]
  {
    hide LoadAll, PlanOf, PagesOf, Small, Sound, Down, Header.Base;
    SmallAccepted(h, file, junk);
    SmallPlan(h, file);
    KeysAfter(EMPTY, file, [h], junk);
    OneMapping(Mapping(h.Base(), 5));
    assert FrameOf([Mapping(h.Base(), 5)], h.Base()) == Some(5);
    assert EMPTY.pages.Keys + {h.Base()} == {h.Base()};
  }

  /** The page count leaves the end of this segment unmapped: it starts in the middle of a page. */
  lemma UncoveredExample(file: File, junk: Junk)
    requires |file| == 0x1000
    ensures var h := Header(true, 0x800, 0x40_1800, 0x10, 0x900);
            var r := LoadAll(EMPTY, file, [h], junk);
            r.Ok? && r.value.pages.Keys == {0x40_1000} && !Covered(h, r.value.pages.Keys)
  {
    var h := Header(true, 0x800, 0x40_1800, 0x10, 0x900);
    assert h.Base() == 0x40_1000 && Small(h, file);
    hide LoadAll, Small;
    SmallLoads(h, file, junk, 0);
    assert Down(0x40_2000) == 0x40_2000;
  }

  /** Zero-fill fails on the extra byte even in zeroed frames, and on the frame's contents even with
      a zero file. */
  lemma ZeroFillExamples(zeros: PageBytes, ones: PageBytes)
    requires forall i :: 0 <= i < PAGE ==> zeros[i] == 0 && ones[i] == 1
    ensures var h := Header(true, 0, 0x40_0000, 0x10, 0x20);
            var first, second := LoadAll(EMPTY, ones, [h], _ => zeros), LoadAll(EMPTY, zeros, [h], _ => ones);
            && first.Ok? && Reads(first.value.pages, 0x40_0010, 1)
            && second.Ok? && Reads(second.value.pages, 0x40_0011, 1)
  {
    var h := Header(true, 0, 0x40_0000, 0x10, 0x20);
    assert h.Base() == 0x40_0000 && Down(0x40_0011) == 0x40_0000 && Small(h, ones) && Small(h, zeros);
    var clean: Junk, dirty: Junk := _ => zeros, _ => ones;
    assert Written([h][0], ones, 0x40_0010) == Some(1);
    assert Ascending([h]) && Congruent([h]);
    hide LoadAll, Small, Written, PlanOf, Origin, Sound, Ascending, Congruent;
    SmallLoads(h, ones, clean, 0x40_0010);
    SmallLoads(h, zeros, dirty, 0x40_0011);
    DecidedBy(EMPTY, ones, [h], clean, 0, 0x40_0010);
    OnlyOrigin(EMPTY, zeros, [h], dirty, 0, 0x40_0011);
  }

  /** A segment in the last page of the address space: accepted, and its first byte is not the file's. */
  lemma LastPageExample(zeros: PageBytes, ones: PageBytes)
    requires forall i :: 0 <= i < PAGE ==> zeros[i] == 0 && ones[i] == 1
    ensures var h := Header(true, 0, U64 - 0x1000, 0x10, 0x20);
            var r := LoadAll(EMPTY, ones, [h], _ => zeros);
            r.Ok? && Reads(r.value.pages, h.vaddr, 0) && ones[h.offset] == 1
  {
    var h := Header(true, 0, U64 - 0x1000, 0x10, 0x20);
    assert h.Base() == U64 - 0x1000 == Down(h.vaddr) && Small(h, ones);
    var clean: Junk := _ => zeros;
    hide LoadAll, Small, PlanOf, Origin, Sound, MappedAfter;
    SmallLoads(h, ones, clean, h.vaddr);
    LastPageNotLoaded(EMPTY, ones, [h], clean, h.vaddr);
  }
}
