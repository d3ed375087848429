/** A directory tree written to a disk in the FAT format, and what `parse_directory` (src/fs.rs) makes
    of it. */
module FatTree {
  import opened Wrappers
  import opened Utf8
  import opened Fat
  import opened FatDirectory
  import opened FatEntry

  /** What a slot of a directory holds: a deleted entry, one of the two dot entries, a file, a
      subdirectory with its contents, a part of a long name, or a name that is no text. */
  datatype Slot =
    | Deleted(fields: Fields)
    | Self(fields: Fields)
    | Parent(fields: Fields)
    | File(fields: Fields)
    | Directory(fields: Fields, contents: seq<Slot>)
    | Long(fields: Fields)
    | Foreign(fields: Fields)

  /** "." and "..", filled up with spaces. */
  function Dots(n: nat): Name11
    requires n <= 11
  {
    seq(n, _ => 0x2E) + seq(11 - n, _ => 0x20)
  }

  /** A name that does not begin with the mark of a free or a deleted entry. */
  predicate Used(name: Name11) {
    name[0] != 0 && name[0] != 0xE5
  }

  ghost predicate Proper(name: Name11) {
    Used(name) && IsText(name) && name != Dots(1) && name != Dots(2)
  }

  ghost predicate SlotOk(s: Slot)
    decreases s
  {
    var f := s.fields;
    match s
    case Deleted(_) => true
    case Self(_) => !f.attributes.LongName()
    case Parent(_) => !f.attributes.LongName()
    case File(_) => Proper(f.name) && !f.attributes.directory && !f.attributes.LongName()
    case Directory(_, contents) => Proper(f.name) && f.attributes.directory && WellFormed(contents)
    case Long(_) => Used(f.name) && f.attributes.LongName()
    case Foreign(_) => Used(f.name) && !IsText(f.name)
  }

  ghost predicate WellFormed(slots: seq<Slot>)
    decreases slots
  {
    forall i :: 0 <= i < |slots| ==> SlotOk(slots[i])
  }

  /** Deletion overwrites the first byte of the name. */
  function Written(s: Slot): Fields {
    match s
    case Deleted(f) => f.(name := [0xE5] + f.name[1..])
    case Self(f) => f.(name := Dots(1))
    case Parent(f) => f.(name := Dots(2))
    case other => s.fields
  }

  function EncodeSlot(s: Slot): Entry {
    Encode(Written(s))
  }

  function EncodeAll(slots: seq<Slot>): seq<byte> {
    if slots == [] then [] else EncodeSlot(slots[0]) + EncodeAll(slots[1..])
  }

  /** The directory as bytes: its entries, and the zero byte that ends it. */
  function Listing(slots: seq<Slot>): seq<byte> {
    EncodeAll(slots) + [0]
  }

  /** The disk holds the directory in consecutive clusters from `c` on, and every subdirectory from its
      own first cluster on. */
  ghost predicate Holds(disk: Disk, b: Bpb, c: nat, slots: seq<Slot>)
    requires b.Valid()
    decreases slots
  {
    && (exists n :: Listing(slots) <= Clusters(disk, b, c, n))
    && HoldsSubs(disk, b, slots)
  }

  ghost predicate HoldsSubs(disk: Disk, b: Bpb, slots: seq<Slot>)
    requires b.Valid()
    decreases slots, 0
  {
    forall i :: 0 <= i < |slots| && slots[i].Directory? ==>
      Holds(disk, b, slots[i].fields.cluster, slots[i].contents)
  }

  /** No long name and no name that is no text, at any depth. */
  ghost predicate Readable(slots: seq<Slot>)
    decreases slots
  {
    forall i :: 0 <= i < |slots| ==> ReadableSlot(slots[i])
  }

  ghost predicate ReadableSlot(s: Slot)
    decreases s
  {
    !s.Long? && !s.Foreign? && (s.Directory? ==> Readable(s.contents))
  }

  /** The files and subdirectories, in order. */
  function Listed(slots: seq<Slot>): seq<Tree>
    decreases slots
  {
    if slots == [] then [] else ListedSlot(slots[0]) + Listed(slots[1..])
  }

  function ListedSlot(s: Slot): seq<Tree>
    decreases s
  {
    if s.File? then [Node(Encode(s.fields), [])]
    else if s.Directory? then [Node(Encode(s.fields), Listed(s.contents))]
    else []
  }

  /** How many entries are read, and one more for every directory. */
  function Steps(slots: seq<Slot>): nat
    decreases slots
  {
    if slots == [] then 1 else 1 + (if slots[0].Directory? then Steps(slots[0].contents) else 0) + Steps(slots[1..])
  }

  ghost function Expected(slots: seq<Slot>): Scan {
    if Readable(slots) then Finished(Listed(slots)) else Panicked
  }

  function KindOfSlot(s: Slot): Kind {
    match s
    case Deleted(_) => Skipped
    case Self(_) => Skipped
    case Parent(_) => Skipped
    case File(_) => PlainFile
    case Directory(_, _) => Subdirectory
    case Long(_) => Panics
    case Foreign(_) => Panics
  }

  lemma DotNames()
    ensures Dots(1) == DOT && Dots(2) == DOT_DOT && DOT != DOT_DOT
    ensures ValidUtf8(DOT) && ValidUtf8(DOT_DOT)
  {
    assert DOT[1] != DOT_DOT[1];
    AsciiValid(DOT);
    AsciiValid(DOT_DOT);
  }

  lemma {:induction false} AsciiValid(s: seq<byte>)
    requires forall i :: 0 <= i < |s| ==> s[i] < 0x80
    ensures ValidUtf8(s)
    decreases |s|
  {
    if s != [] {
      AsciiValid(s[1..]);
    }
  }

  /** What the reader decides about an entry, from the fields it was written with. */
  lemma EncodedKind(f: Fields)
    ensures KindOf(Encode(f)) ==
            if f.name[0] == 0 then Terminator
            else if f.name[0] == 0xE5 then Skipped
            else if f.attributes.LongName() || !IsText(f.name) then Panics
            else if f.name == Dots(1) || f.name == Dots(2) then Skipped
            else if f.attributes.directory then Subdirectory
            else PlainFile
  {
    hide Encode, FirstCluster, FileSize, IsDirectory, ValidUtf8, Dots, IsText, Attributes.LongName;
    var e := Encode(f);
    FieldsRoundTrip(f);
    DotNames();
    Utf8Iff(f.name);
    assert e[0] == Name(e)[0];
  }

  lemma DotNamesAreUsedText()
    ensures Used(Dots(1)) && IsText(Dots(1)) && Used(Dots(2)) && IsText(Dots(2))
  {
    DotNames();
    Utf8Iff(DOT);
    Utf8Iff(DOT_DOT);
  }

  lemma SlotKind(s: Slot)
    requires SlotOk(s)
    ensures KindOf(EncodeSlot(s)) == KindOfSlot(s)
    ensures FirstCluster(EncodeSlot(s)) == s.fields.cluster
  {
    EncodedKind(Written(s));
    FieldsRoundTrip(Written(s));
    DotNamesAreUsedText();
    LongIsNoDirectory(s.fields.attributes);
    hide KindOf, Encode, FirstCluster, FileSize, IsDirectory, Dots, IsText, Attributes.LongName, WellFormed;
  }

  lemma LongIsNoDirectory(a: Attributes)
    ensures a.LongName() ==> !a.directory
  {
  }

  /** An entry that is skipped or is a file is the encoding of a slot. */
  lemma SlotOf(e: Entry) returns (s: Slot)
    requires KindOf(e).Skipped? || KindOf(e).PlainFile?
    ensures SlotOk(s) && EncodeSlot(s) == e && !s.Directory? && KindOfSlot(s) == KindOf(e)
  {
    var f := Decode(e);
    EntryRoundTrip(e);
    EncodedKind(f);
    hide KindOf, Encode, Decode, Dots, IsText, Attributes.LongName;
    if f.name[0] == 0xE5 {
      s := Deleted(f);
      assert [0xE5] + f.name[1..] == f.name;
    } else if f.name == Dots(1) {
      s := Self(f);
    } else if f.name == Dots(2) {
      s := Parent(f);
    } else {
      s := File(f);
    }
  }

  lemma DirectoryOf(e: Entry, contents: seq<Slot>) returns (s: Slot)
    requires KindOf(e).Subdirectory? && WellFormed(contents)
    ensures SlotOk(s) && EncodeSlot(s) == e && s.Directory? && s.contents == contents
    ensures s.fields.cluster == FirstCluster(e)
  {
    var f := Decode(e);
    EntryRoundTrip(e);
    FieldsRoundTrip(f);
    EncodedKind(f);
    hide KindOf, Encode, Decode, FirstCluster, FileSize, IsDirectory, Dots, IsText, Attributes.LongName, WellFormed;
    s := Directory(f, contents);
  }

  lemma {:induction false} EncodeAllAt(slots: seq<Slot>, i: nat)
    requires i < |slots|
    ensures |EncodeAll(slots)| == 32 * |slots|
    ensures EncodeAll(slots)[32 * i..32 * i + 32] == EncodeSlot(slots[i])
    decreases |slots|
  {
    hide EncodeSlot;
    EncodeAllLength(slots);
    if i > 0 {
      EncodeAllAt(slots[1..], i - 1);
      assert EncodeAll(slots)[32..] == EncodeAll(slots[1..]);
      assert EncodeAll(slots)[32 * i..32 * i + 32] == EncodeAll(slots[1..])[32 * (i - 1)..32 * (i - 1) + 32];
    }
  }

  lemma {:induction false} EncodeAllLength(slots: seq<Slot>)
    ensures |EncodeAll(slots)| == 32 * |slots|
    decreases |slots|
  {
    hide EncodeSlot;
    if slots != [] {
      EncodeAllLength(slots[1..]);
    }
  }

  /** Entries cut out of bytes that hold them make up the encoding. */
  lemma {:induction false} EntriesMakeAll(slots: seq<Slot>, bytes: seq<byte>)
    requires |bytes| >= 32 * |slots|
    requires forall i :: 0 <= i < |slots| ==> bytes[32 * i..32 * i + 32] == EncodeSlot(slots[i])
    ensures bytes[..32 * |slots|] == EncodeAll(slots)
    decreases |slots|
  {
    hide EncodeSlot;
    if slots != [] {
      forall i | 0 <= i < |slots[1..]| ensures bytes[32..][32 * i..32 * i + 32] == EncodeSlot(slots[1..][i]) {
        assert bytes[32..][32 * i..32 * i + 32] == bytes[32 * (i + 1)..32 * (i + 1) + 32];
      }
      EntriesMakeAll(slots[1..], bytes[32..]);
      assert bytes[..32 * |slots|] == bytes[32 * 0..32 * 0 + 32] + bytes[32..][..32 * |slots[1..]|];
    }
  }

  /** Consecutive clusters are a whole number of entries. */
  lemma {:induction false} ClusterEntries(disk: Disk, b: Bpb, c: nat, n: nat) returns (m: nat)
    requires b.Valid()
    ensures m >= n && |Clusters(disk, b, c, n)| == 32 * m
    decreases n
  {
    hide ClusterBytes;
    if n == 0 {
      m := 0;
    } else {
      var rest := ClusterEntries(disk, b, c + 1, n - 1);
      m := PerCluster(b) + rest;
    }
  }

  /** The k-th entry of a directory is the k-th 32 bytes of its clusters. */
  lemma {:induction false} EntryInClusters(disk: Disk, b: Bpb, c: nat, n: nat, k: nat)
    requires b.Valid() && 32 * k + 32 <= |Clusters(disk, b, c, n)|
    ensures EntryAt(disk, b, c, k) == Clusters(disk, b, c, n)[32 * k..32 * k + 32]
    decreases n
  {
    hide ClusterBytes;
    var here, rest := ClusterBytes(disk, b, c), Clusters(disk, b, c + 1, n - 1);
    var per := PerCluster(b);
    assert Clusters(disk, b, c, n) == here + rest;
    if k < per {
      assert (here + rest)[32 * k..32 * k + 32] == here[32 * k..32 * k + 32];
    } else {
      EntryInClusters(disk, b, c + 1, n - 1, k - per);
      assert (here + rest)[32 * k..32 * k + 32] == rest[32 * (k - per)..32 * (k - per) + 32];
    }
  }

  ghost predicate Entries(disk: Disk, b: Bpb, c: nat, k: nat, slots: seq<Slot>)
    requires b.Valid()
  {
    && (forall i :: 0 <= i < |slots| ==> EntryAt(disk, b, c, k + i) == EncodeSlot(slots[i]))
    && EntryAt(disk, b, c, k + |slots|)[0] == 0
  }

  lemma ListingHasEntries(disk: Disk, b: Bpb, c: nat, slots: seq<Slot>, n: nat)
    requires b.Valid() && Listing(slots) <= Clusters(disk, b, c, n)
    ensures Entries(disk, b, c, 0, slots)
  {
    hide EntryAt, EncodeSlot, Clusters, EncodeAll;
    var bytes := Clusters(disk, b, c, n);
    var m := ClusterEntries(disk, b, c, n);
    EncodeAllLength(slots);
    assert 32 * |slots| + 1 <= 32 * m;
    forall i | 0 <= i < |slots| ensures EntryAt(disk, b, c, 0 + i) == EncodeSlot(slots[i]) {
      EntryInClusters(disk, b, c, n, i);
      EncodeAllAt(slots, i);
      assert bytes[32 * i..32 * i + 32] == Listing(slots)[32 * i..32 * i + 32] == EncodeAll(slots)[32 * i..32 * i + 32];
    }
    EntryInClusters(disk, b, c, n, |slots|);
    assert bytes[32 * |slots|] == Listing(slots)[32 * |slots|];
  }

  lemma EntriesMakeListing(disk: Disk, b: Bpb, c: nat, slots: seq<Slot>)
    requires b.Valid() && Entries(disk, b, c, 0, slots)
    ensures Listing(slots) <= Clusters(disk, b, c, |slots| + 1)
  {
    hide EntryAt, EncodeSlot, Clusters, EncodeAll;
    var n := |slots| + 1;
    var bytes := Clusters(disk, b, c, n);
    var m := ClusterEntries(disk, b, c, n);
    forall i | 0 <= i < |slots| ensures bytes[32 * i..32 * i + 32] == EncodeSlot(slots[i]) {
      EntryInClusters(disk, b, c, n, i);
      assert EntryAt(disk, b, c, 0 + i) == EncodeSlot(slots[i]);
    }
    EntriesMakeAll(slots, bytes);
    EntryInClusters(disk, b, c, n, |slots|);
    assert bytes[32 * |slots|] == 0;
    EncodeAllLength(slots);
  }

  /** What the first slot adds to what the rest gives. */
  ghost function Added(s: Slot, rest: Scan): Scan {
    if s.Long? || s.Foreign? then Panicked
    else if s.File? then Prepend([Node(Encode(s.fields), [])], rest)
    else if s.Directory? then
      var inside := Expected(s.contents);
      if inside.Finished? then Prepend([Node(Encode(s.fields), inside.children)], rest) else Panicked
    else rest
  }

  lemma ExpectedCons(slots: seq<Slot>)
    requires slots != []
    ensures Expected(slots) == Added(slots[0], Expected(slots[1..]))
  {
    hide Encode;
    var s, rest := slots[0], slots[1..];
    assert slots == [s] + rest;
    assert Readable(slots) <==> ReadableSlot(s) && Readable(rest);
    assert [] + Listed(rest) == Listed(rest);
    assert Listed(slots) == ListedSlot(s) + Listed(rest);
  }

  /** One entry of the scan, when it is the encoding of a slot. */
  lemma ScanStep(disk: Disk, b: Bpb, c: nat, k: nat, n: nat, s: Slot)
    requires b.Valid() && SlotOk(s) && EntryAt(disk, b, c, k) == EncodeSlot(s) && n > 0
    requires s.Directory? ==> ScanFrom(disk, b, s.fields.cluster, 0, n - 1) == Expected(s.contents)
    requires ScanFrom(disk, b, c, k + 1, n - 1) != Running
    ensures ScanFrom(disk, b, c, k, n) == Added(s, ScanFrom(disk, b, c, k + 1, n - 1))
  {
    hide EntryAt, KindOf, Encode, FirstCluster, SlotOk;
    SlotKind(s);
  }

  /** From slot `k` on. */
  lemma {:induction false} ScanReads(disk: Disk, b: Bpb, c: nat, slots: seq<Slot>, k: nat, n: nat)
    requires b.Valid() && WellFormed(slots) && Entries(disk, b, c, 0, slots) && HoldsSubs(disk, b, slots)
    requires k <= |slots| && n >= Steps(slots[k..])
    ensures ScanFrom(disk, b, c, k, n) == Expected(slots[k..])
    decreases slots, |slots| - k
  {
    hide EntryAt, EncodeSlot, KindOf, SlotOk, Added;
    if k == |slots| {
      assert EntryAt(disk, b, c, 0 + |slots|)[0] == 0;
      ZeroTerminates(EntryAt(disk, b, c, k));
    } else {
      hide Expected, ScanFrom, Listing;
      var s := slots[k];
      assert EntryAt(disk, b, c, 0 + k) == EncodeSlot(s) && SlotOk(s);
      assert slots[k..][0] == s && slots[k..][1..] == slots[k + 1..];
      if s.Directory? {
        assert Holds(disk, b, s.fields.cluster, s.contents) && WellFormed(s.contents) by { SlotOkInside(s); }
        var m :| Listing(s.contents) <= Clusters(disk, b, s.fields.cluster, m);
        ListingHasEntries(disk, b, s.fields.cluster, s.contents, m);
        assert s.contents[0..] == s.contents;
        ScanReads(disk, b, s.fields.cluster, s.contents, 0, n - 1);
      }
      ScanReads(disk, b, c, slots, k + 1, n - 1);
      ExpectedStops(slots[k + 1..]);
      ScanStep(disk, b, c, k, n, s);
      ExpectedCons(slots[k..]);
    }
  }

  lemma SlotOkInside(s: Slot)
    requires SlotOk(s) && s.Directory?
    ensures WellFormed(s.contents)
  {
  }

  lemma ExpectedStops(slots: seq<Slot>)
    ensures Expected(slots) != Running
  {
  }

  lemma ZeroTerminates(e: Entry)
    ensures e[0] == 0 ==> KindOf(e) == Terminator
  {
  }

  /** On a disk that holds a tree the parser returns exactly its files and subdirectories, with their
      fields and in their order, and panics if there is a long name or one that is no text. */
  lemma TreeIsParsed(disk: Disk, b: Bpb, c: nat, slots: seq<Slot>, limit: nat)
    requires b.Valid() && WellFormed(slots) && Holds(disk, b, c, slots) && limit >= Steps(slots)
    ensures ScanFrom(disk, b, c, 0, limit) == if Readable(slots) then Finished(Listed(slots)) else Panicked
  {
    var n :| Listing(slots) <= Clusters(disk, b, c, n);
    ListingHasEntries(disk, b, c, slots, n);
    assert slots[0..] == slots;
    ScanReads(disk, b, c, slots, 0, limit);
  }

  /** A directory with one more entry in front. */
  lemma EntriesCons(disk: Disk, b: Bpb, c: nat, k: nat, s: Slot, rest: seq<Slot>)
    requires b.Valid() && EntryAt(disk, b, c, k) == EncodeSlot(s) && Entries(disk, b, c, k + 1, rest)
    ensures Entries(disk, b, c, k, [s] + rest)
  {
    hide EntryAt, EncodeSlot;
    var slots := [s] + rest;
    forall i | 0 <= i < |slots| ensures EntryAt(disk, b, c, k + i) == EncodeSlot(slots[i]) {
      if i > 0 {
        assert EntryAt(disk, b, c, k + 1 + (i - 1)) == EncodeSlot(rest[i - 1]);
      }
    }
    assert k + 1 + |rest| == k + |slots|;
  }

  /** A tree the parser has read to its end. */
  ghost predicate Parsed(disk: Disk, b: Bpb, c: nat, k: nat, slots: seq<Slot>, trees: seq<Tree>)
    requires b.Valid()
  {
    && WellFormed(slots) && Readable(slots) && Listed(slots) == trees
    && Entries(disk, b, c, k, slots) && HoldsSubs(disk, b, slots)
  }

  lemma ParsedCons(disk: Disk, b: Bpb, c: nat, k: nat, s: Slot, rest: seq<Slot>, trees: seq<Tree>)
    requires b.Valid() && EntryAt(disk, b, c, k) == EncodeSlot(s) && Parsed(disk, b, c, k + 1, rest, trees)
    requires SlotOk(s) && ReadableSlot(s) && (s.Directory? ==> Holds(disk, b, s.fields.cluster, s.contents))
    ensures Parsed(disk, b, c, k, [s] + rest, ListedSlot(s) + trees)
  {
    hide EntryAt, EncodeSlot, SlotOk, ReadableSlot, Holds, ListedSlot;
    var slots := [s] + rest;
    assert slots[1..] == rest;
    EntriesCons(disk, b, c, k, s, rest);
  }

  lemma ParsedHolds(disk: Disk, b: Bpb, c: nat, slots: seq<Slot>, trees: seq<Tree>)
    requires b.Valid() && Parsed(disk, b, c, 0, slots, trees)
    ensures Holds(disk, b, c, slots)
  {
    hide Listing, Clusters, Entries;
    EntriesMakeListing(disk, b, c, slots);
  }

  /** Whenever the parser comes to an end, there is a tree on the disk, and it is the one returned. */
  lemma {:induction false} FinishedIsTree(disk: Disk, b: Bpb, c: nat, k: nat, n: nat) returns (slots: seq<Slot>)
    requires b.Valid() && ScanFrom(disk, b, c, k, n).Finished?
    ensures Parsed(disk, b, c, k, slots, ScanFrom(disk, b, c, k, n).children)
    decreases n
  {
    hide KindOf, EntryAt, Parsed, Encode, SlotOk, Holds, WellFormed, Listed, FirstCluster;
    var e := EntryAt(disk, b, c, k);
    if KindOf(e).Terminator? {
      slots := [];
      NothingParsed(disk, b, c, k);
    } else {
      var rest := FinishedIsTree(disk, b, c, k + 1, n - 1);
      var s: Slot;
      if KindOf(e).Subdirectory? {
        var d := FirstCluster(e);
        var inside := FinishedIsTree(disk, b, d, 0, n - 1);
        var found := ScanFrom(disk, b, d, 0, n - 1).children;
        ParsedHolds(disk, b, d, inside, found);
        ParsedParts(disk, b, d, 0, inside, found);
        s := DirectoryOf(e, inside);
      } else {
        s := SlotOf(e);
        var trees := ScanFrom(disk, b, c, k + 1, n - 1).children;
        assert [] + trees == trees;
      }
      ParsedCons(disk, b, c, k, s, rest, ScanFrom(disk, b, c, k + 1, n - 1).children);
      slots := [s] + rest;
    }
  }

  lemma NothingParsed(disk: Disk, b: Bpb, c: nat, k: nat)
    requires b.Valid() && KindOf(EntryAt(disk, b, c, k)).Terminator?
    ensures Parsed(disk, b, c, k, [], [])
  {
    hide EntryAt;
    var none: seq<Slot> := [];
    assert k + |none| == k;
  }

  lemma ParsedParts(disk: Disk, b: Bpb, c: nat, k: nat, slots: seq<Slot>, trees: seq<Tree>)
    requires b.Valid() && Parsed(disk, b, c, k, slots, trees)
    ensures WellFormed(slots) && Readable(slots) && Listed(slots) == trees
  {
  }

  /** The parser returns a list of trees if and only if they are the files and subdirectories of a tree
      the disk holds. */
  lemma ParsesIff(disk: Disk, b: Bpb, c: nat, trees: seq<Tree>)
    requires b.Valid()
    ensures (exists n :: ScanFrom(disk, b, c, 0, n) == Finished(trees)) <==>
            exists slots ::
              WellFormed(slots) && Readable(slots) && Holds(disk, b, c, slots) && Listed(slots) == trees
  {
    hide ScanFrom, WellFormed, Readable, Holds, Listed, Parsed;
    if exists n :: ScanFrom(disk, b, c, 0, n) == Finished(trees) {
      var n :| ScanFrom(disk, b, c, 0, n) == Finished(trees);
      var slots := FinishedIsTree(disk, b, c, 0, n);
      ParsedParts(disk, b, c, 0, slots, trees);
      ParsedHolds(disk, b, c, slots, trees);
    }
    if slots :| WellFormed(slots) && Readable(slots) && Holds(disk, b, c, slots) && Listed(slots) == trees {
      TreeIsParsed(disk, b, c, slots, Steps(slots));
      assert ScanFrom(disk, b, c, 0, Steps(slots)) == Finished(trees);
    }
  }
}
