/** The ELF loader as it runs (src/elf.rs): loops that change a page table and the frames behind it,
    against the page-by-page account of Elf. */
module ElfLoader {
  import opened Wrappers
  import opened Elf

  function FrameBytes(memory: map<nat, PageBytes>, f: nat): PageBytes {
    if f in memory then memory[f] else seq(PAGE, _ => 0)
  }

  /** What each page reads, through its frame. */
  function Through(table: map<nat, nat>, memory: map<nat, PageBytes>): map<nat, PageBytes> {
    map p | p in table :: FrameBytes(memory, table[p])
  }

  /** No two pages share a frame, and no frame still to be issued is in use or issued twice. */
  ghost predicate NoAlias(table: map<nat, nat>, supply: seq<nat>) {
    && (forall p, q :: p in table && q in table && p != q ==> table[p] != table[q])
    && (forall p :: p in table ==> table[p] !in supply)
    && Distinct(supply)
  }

  /** Writing through a page changes what that page reads, and no other. */
  lemma WriteThrough(table: map<nat, nat>, memory: map<nat, PageBytes>, supply: seq<nat>, p: nat, bytes: PageBytes)
    requires NoAlias(table, supply) && p in table
    ensures Through(table, memory[table[p] := bytes]) == Through(table, memory)[p := bytes]
    ensures forall f :: f in supply ==> FrameBytes(memory[table[p] := bytes], f) == FrameBytes(memory, f)
  {
  }

  /** A new mapping adds a page that reads what its frame holds. */
  lemma MapNew(table: map<nat, nat>, memory: map<nat, PageBytes>, supply: seq<nat>, p: nat, n: nat)
    requires NoAlias(table, supply) && p !in table && 0 < n <= |supply|
    ensures Through(table[p := supply[0]], memory) == Through(table, memory)[p := FrameBytes(memory, supply[0])]
    ensures NoAlias(table[p := supply[0]], supply[n..])
  {
    var left := supply[n..];
    forall k | 0 <= k < |left| ensures left[k] == supply[n + k] && left[k] != supply[0] && left[k] in supply {
    }
  }

  class ProcessImage {
    var table: map<nat, nat>
    var memory: map<nat, PageBytes>
    var tables: set<TableKey>
    var regions: set<nat>
    var frames: seq<nat>
    var supply: seq<nat>

    ghost function View(): Loader
      reads this
    {
      Loader(Through(table, memory), table, tables, regions, frames, supply)
    }

    /** The frame allocator keeps its contract, and what it will issue holds `junk`. */
    ghost predicate Valid(junk: Junk)
      reads this
    {
      NoAlias(table, supply) && forall f :: f in supply ==> FrameBytes(memory, f) == junk(f)
    }

    constructor (table: map<nat, nat>, memory: map<nat, PageBytes>, tables: set<TableKey>, supply: seq<nat>)
      ensures View() == Loader(Through(table, memory), table, tables, {}, [], supply)
    {
      this.table, this.memory, this.tables := table, memory, tables;
      this.regions, this.frames, this.supply := {}, [], supply;
    }

    /** The page loop. */
    method MapSegmentPages(h: Header, ghost junk: Junk) returns (r: Result<(), LoadError>)
      requires Valid(junk)
      modifies this
      ensures var spec := old(MapTurns(View(), h, 0, junk));
              if r.Ok? then spec == Ok(View()) && Valid(junk) else spec == Err(r.error)
    {
      hide Header.PageAddr, Header.Target, Header.Base, Missing, TablesFor, FrameBytes;
      ghost var spec := MapTurns(View(), h, 0, junk);
      for i := 0 to h.memSize / PAGE + 1
        invariant Valid(junk) && spec == MapTurns(View(), h, i, junk)
      {
        var page := h.PageAddr(i);
        if page !in regions {
          if supply == [] {
            return Err(NoFrame);
          }
          var target := h.Target();
          if target.None? {
            return Err(BadAddress);
          }
          var need := Missing(target.value, tables);
          if |supply| <= need {
            return Err(NoFrame);
          }
          if target.value in table {
            return Err(PageAlreadyMapped);
          }
          MapNew(table, memory, supply, target.value, 1 + need);
          var frame := supply[0];
          ghost var before := View();
          table, tables := table[target.value := frame], tables + TablesFor(target.value);
          regions, frames, supply := regions + {page}, frames + [frame], supply[1 + need..];
          assert View() == Mapped(before, page, target.value, junk);
        }
      }
      r := Ok(());
    }

    /** One turn of the copy loop. */
    method CopyPage(file: File, h: Header, done: nat, ghost junk: Junk) returns (r: Result<nat, LoadError>)
      requires Valid(junk)
      modifies this`memory
      ensures var spec := old(CopyTurn(View(), file, h, done));
              if r.Ok? then spec == Ok((View(), r.value)) && Valid(junk) else spec == Err(r.error)
    {
      hide WriteSize, Overwrite, PageOf, VirtAddr, FrameBytes;
      var lowerBound, pageAddr := (h.offset + done) % U64, PageOf(h, done);
      var writeSize := WriteSize(pageAddr, h, done);
      var at := lowerBound % PAGE;
      if at + writeSize > PAGE || lowerBound + writeSize > |file| {
        return Err(SliceOutOfRange);
      }
      if writeSize == 0 {
        return Ok(done);
      }
      if !Canonical(pageAddr) || pageAddr !in table {
        return Err(PageFault);
      }
      var frame, data := table[pageAddr], file[lowerBound..lowerBound + writeSize];
      var bytes := Overwrite(FrameBytes(memory, frame), at, data);
      WriteThrough(table, memory, supply, pageAddr, bytes);
      memory := memory[frame := bytes];
      r := Ok(done + writeSize);
    }

    /** The copy loop. */
    method CopySegmentData(file: File, h: Header, ghost junk: Junk) returns (r: Result<(), LoadError>)
      requires Valid(junk)
      modifies this`memory
      ensures var spec := old(CopyTurns(View(), file, h, 0, 0));
              if r.Ok? then spec == Ok(View()) && Valid(junk) else spec == Err(r.error)
    {
      hide CopyTurn, Through, NoAlias, FrameBytes;
      var workingOffset: nat := 0;
      ghost var spec := CopyTurns(View(), file, h, 0, 0);
      for i := 0 to h.fileSize / PAGE + 1
        invariant Valid(junk) && spec == CopyTurns(View(), file, h, i, workingOffset)
      {
        var turn := CopyPage(file, h, workingOffset, junk);
        if turn.Err? {
          return Err(turn.error);
        }
        workingOffset := turn.value;
      }
      r := Ok(());
    }

    /** `map_elf_file_to_process`: the loop over the program headers. */
    method MapElfFile(file: File, headers: seq<Header>, ghost junk: Junk) returns (r: Result<(), LoadError>)
      requires Valid(junk)
      modifies this
      ensures var spec := old(LoadAll(View(), file, headers, junk));
              if r.Ok? then spec == Ok(View()) && Valid(junk) else spec == Err(r.error)
    {
      hide MapTurns, CopyTurns, Through, NoAlias;
      ghost var spec := LoadAll(View(), file, headers, junk);
      for n := 0 to |headers|
        invariant Valid(junk) && spec == LoadAll(View(), file, headers[n..], junk)
      {
        var h := headers[n];
        assert headers[n..][0] == h && headers[n..][1..] == headers[n + 1..];
        if h.load {
          r := MapSegmentPages(h, junk);
          if r.Err? {
            return;
          }
          r := CopySegmentData(file, h, junk);
          if r.Err? {
            return;
          }
        }
      }
      r := Ok(());
    }
  }
}
