/** A whole volume (src/fs.rs): the boot sector, the tree `init` reads from it, and the contents of its
    files. */
module FatVolume {
  import opened Wrappers
  import opened Fat
  import opened FatDirectory
  import opened FatEntry
  import opened FatTree

  function Word16(s: Sector, i: nat): nat
    requires i + 2 <= 512
  {
    s[i] as int + 256 * s[i + 1] as int
  }

  function Word32(s: Sector, i: nat): nat
    requires i + 4 <= 512
  {
    s[i] as int + 256 * s[i + 1] as int + 0x1_0000 * s[i + 2] as int + 0x100_0000 * s[i + 3] as int
  }

  /** The fields of the packed `FatBootSector`. */
  function BootBpb(s: Sector): Bpb {
    Bpb(Word16(s, 11), s[13], Word16(s, 14), s[16], Word16(s, 17), Word16(s, 22), Word32(s, 36))
  }

  function RootCluster(s: Sector): nat {
    Word32(s, 44)
  }

  /** The boot sector, field by field, with the root directory's first cluster. */
  predicate Boots(s: Sector, b: Bpb, root: u32) {
    && b.bytesPerSector < 0x1_0000 && s[11..13] == Le16(b.bytesPerSector) && s[13] == b.sectorsPerCluster
    && b.reservedSectors < 0x1_0000 && s[14..16] == Le16(b.reservedSectors) && s[16] == b.tableCount
    && b.rootEntryCount < 0x1_0000 && s[17..19] == Le16(b.rootEntryCount)
    && b.tableSize16 < 0x1_0000 && s[22..24] == Le16(b.tableSize16)
    && b.tableSize32 < 0x1_0000_0000 && s[36..40] == Le32(b.tableSize32) && s[44..48] == Le32(root)
  }

  lemma BootRoundTrip(s: Sector, b: Bpb, root: u32)
    requires Boots(s, b, root)
    ensures BootBpb(s) == b && RootCluster(s) == root
  {
    Value16At(s, 11, b.bytesPerSector);
    Value16At(s, 14, b.reservedSectors);
    Value16At(s, 17, b.rootEntryCount);
    Value16At(s, 22, b.tableSize16);
    Value32At(s, 36, b.tableSize32);
    Value32At(s, 44, root);
    hide Word16, Word32, Le16, Le32;
  }

  lemma Value16At(s: Sector, i: nat, v: u16)
    requires i + 2 <= 512 && s[i..i + 2] == Le16(v)
    ensures Word16(s, i) == v
  {
    LeValues(v, 0);
    assert s[i] == s[i..i + 2][0] && s[i + 1] == s[i..i + 2][1];
  }

  lemma Value32At(s: Sector, i: nat, v: u32)
    requires i + 4 <= 512 && s[i..i + 4] == Le32(v)
    ensures Word32(s, i) == v
  {
    LeValues(0, v);
    hide Le32;
    var w := s[i..i + 4];
    assert s[i] == w[0] && s[i + 1] == w[1] && s[i + 2] == w[2] && s[i + 3] == w[3];
  }

  /** `init`: the volume a boot sector describes is read from its root directory on. */
  method Init(disk: Disk, limit: nat) returns (r: Scan)
    requires BootBpb(disk(0)).Valid()
    ensures r == ScanFrom(disk, BootBpb(disk(0)), RootCluster(disk(0)), 0, limit)
    ensures forall b: Bpb, root: u32, slots ::
              b.Valid() && Boots(disk(0), b, root) && WellFormed(slots) && Holds(disk, b, root, slots) ==>
                limit >= Steps(slots) ==> r == if Readable(slots) then Finished(Listed(slots)) else Panicked
  {
    hide Boots, WellFormed, Holds, Readable, Listed, Steps, BootBpb, RootCluster, ScanFrom;
    var sector := ReadSectors(disk, 0, 1);
    assert sector == disk(0);
    r := ParseDirectory(disk, BootBpb(sector), RootCluster(sector), limit);
    forall b: Bpb, root: u32, slots |
      b.Valid() && Boots(disk(0), b, root) && WellFormed(slots) && Holds(disk, b, root, slots) && limit >= Steps(slots)
      ensures r == if Readable(slots) then Finished(Listed(slots)) else Panicked
    {
      BootRoundTrip(disk(0), b, root);
      TreeIsParsed(disk, b, root, slots, limit);
    }
  }

  /** A file whose contents lie in consecutive clusters is read back from its entry alone. */
  lemma FileIsRead(disk: Disk, b: Bpb, f: Fields, contents: seq<byte>, n: nat)
    requires b.Valid() && b.bytesPerSector == 512 && |contents| == f.size && f.size / 512 < 8192
    requires n > 0 && b.InRange(f.cluster) && b.InRange(f.cluster + n - 1)
    requires contents <= Clusters(disk, b, f.cluster, n)
    ensures FileData(disk, b, Encode(f)) == Some(contents)
  {
    hide Encode, FirstCluster, FileSize, Clusters, GetData, Bpb.InRange;
    FieldsRoundTrip(f);
    ClustersLength(disk, b, f.cluster, n);
    GetDataReadsFile(disk, b, f.cluster, f.size, n);
    assert Clusters(disk, b, f.cluster, n)[..f.size] == contents;
  }

  lemma {:induction false} ClustersLength(disk: Disk, b: Bpb, c: nat, n: nat)
    requires b.Valid()
    ensures |Clusters(disk, b, c, n)| == 512 * (n * b.sectorsPerCluster)
    decreases n
  {
    hide ClusterBytes;
    if n > 0 {
      ClustersLength(disk, b, c + 1, n - 1);
      assert (n - 1) * b.sectorsPerCluster + b.sectorsPerCluster == n * b.sectorsPerCluster;
    }
  }
}
