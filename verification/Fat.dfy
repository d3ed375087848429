/** The FAT reader (src/fs.rs): cluster arithmetic and file contents. */
module Fat {
  import opened Wrappers

  const SECTOR: nat := 512

  type Sector = s: seq<byte> | |s| == SECTOR witness seq(SECTOR, _ => 0)

  /** The drive, by logical block address. */
  type Disk = nat -> Sector

  /** `read_sectors`. */
  function ReadSectors(disk: Disk, lba: nat, count: nat): (r: seq<byte>)
    ensures |r| == SECTOR * count
    decreases count
  {
    if count == 0 then [] else disk(lba) + ReadSectors(disk, lba + 1, count - 1)
  }

  const U16: nat := 0x1_0000
  const U32: nat := 0x1_0000_0000

  lemma QuotientNonNegative(a: nat, d: nat)
    requires d > 0
    ensures a / d >= 0
  {
    var q := a / d;
    assert a == d * q + a % d;
    ProductSign(d, q);
  }

  lemma ProductSign(d: nat, q: int)
    ensures q < 0 ==> d * q <= -1 * d
    ensures q >= 0 ==> d * q >= 0
  {
    if q < 0 {
      assert d * q + d == d * (q + 1);
    }
  }

  function Quotient(a: nat, d: nat): nat
    requires d > 0
  {
    QuotientNonNegative(a, d);
    a / d
  }

  /** The boot-sector fields the reader uses. */
  datatype Bpb = Bpb(
    bytesPerSector: nat, sectorsPerCluster: nat, reservedSectors: nat, tableCount: nat,
    rootEntryCount: nat, tableSize16: nat, tableSize32: nat)
  {
    predicate Valid() {
      0 < bytesPerSector < U16 && 0 < sectorsPerCluster < 256
    }

    function TableSize(): nat {
      if tableSize16 == 0 then tableSize32 else tableSize16
    }

    /** Computed in 16 bits. */
    function RootDirSectors(): nat
      requires Valid()
    {
      Quotient((rootEntryCount * 32 + bytesPerSector - 1) % U16, bytesPerSector)
    }

    function FirstDataSector(): nat
      requires Valid()
    {
      reservedSectors + tableCount * TableSize() + RootDirSectors()
    }

    /** Computed in 32 bits: cluster 2 is the first one, and smaller numbers wrap. */
    function FirstSector(cluster: nat): nat
      requires Valid()
    {
      ((cluster - 2) * sectorsPerCluster + FirstDataSector()) % U32
    }

    predicate InRange(cluster: nat)
      requires Valid()
    {
      cluster >= 2 && (cluster - 1) * sectorsPerCluster + FirstDataSector() <= U32
    }
  }

  lemma FirstSectorExact(b: Bpb, c: nat)
    requires b.Valid() && b.InRange(c)
    ensures b.FirstSector(c) == (c - 2) * b.sectorsPerCluster + b.FirstDataSector()
  {
    hide Bpb.FirstDataSector;
    var k := b.sectorsPerCluster;
    assert (c - 1) * k == (c - 2) * k + k;
    ProductSign(c - 2, k);
  }

  /** Distinct clusters occupy disjoint sectors, all beyond the reserved sectors and the FATs. */
  lemma ClustersApart(b: Bpb, c: nat, d: nat)
    requires b.Valid() && b.InRange(c) && b.InRange(d) && c < d
    ensures b.FirstSector(c) + b.sectorsPerCluster <= b.FirstSector(d)
    ensures b.FirstSector(c) >= b.reservedSectors + b.tableCount * b.TableSize()
  {
    FirstSectorExact(b, c);
    FirstSectorExact(b, d);
    hide Bpb.FirstSector, Bpb.RootDirSectors;
    var n := b.sectorsPerCluster;
    ProductSign(d - c - 1, n);
    ProductSign(c - 2, n);
    assert (d - 2) * n == (c - 2) * n + n + (d - c - 1) * n;
  }

  function ClusterBytes(disk: Disk, b: Bpb, c: nat): (r: seq<byte>)
    requires b.Valid()
    ensures |r| == SECTOR * b.sectorsPerCluster
  {
    ReadSectors(disk, b.FirstSector(c), b.sectorsPerCluster)
  }

  /** `n` consecutive clusters. */
  function Clusters(disk: Disk, b: Bpb, c: nat, n: nat): seq<byte>
    requires b.Valid()
    decreases n
  {
    if n == 0 then [] else ClusterBytes(disk, b, c) + Clusters(disk, b, c + 1, n - 1)
  }

  lemma {:induction false} ReadJoins(disk: Disk, lba: nat, m: nat, n: nat)
    ensures ReadSectors(disk, lba, m + n) == ReadSectors(disk, lba, m) + ReadSectors(disk, lba + m, n)
    decreases m
  {
    if m == 0 {
      assert ReadSectors(disk, lba, 0) == [];
    } else {
      ReadJoins(disk, lba + 1, m - 1, n);
      assert ReadSectors(disk, lba, m + n) == disk(lba) + ReadSectors(disk, lba + 1, m + n - 1);
    }
  }

  /** Consecutive clusters are one stretch of sectors. */
  lemma {:induction false} ClustersAreSectors(disk: Disk, b: Bpb, c: nat, n: nat)
    requires b.Valid() && n > 0 && b.InRange(c) && b.InRange(c + n - 1)
    ensures Clusters(disk, b, c, n) == ReadSectors(disk, b.FirstSector(c), n * b.sectorsPerCluster)
    decreases n
  {
    var k := b.sectorsPerCluster;
    FirstSectorExact(b, c);
    if n == 1 {
      assert Clusters(disk, b, c + 1, 0) == [];
      assert Clusters(disk, b, c, 1) == ClusterBytes(disk, b, c);
    } else {
      RangeBetween(b, c, n);
      FirstSectorExact(b, c + 1);
      assert b.FirstSector(c + 1) == b.FirstSector(c) + k by {
        assert (c + 1 - 2) * k == (c - 2) * k + k;
      }
      ClustersAreSectors(disk, b, c + 1, n - 1);
      ReadJoins(disk, b.FirstSector(c), k, (n - 1) * k);
      assert k + (n - 1) * k == n * k;
    }
  }

  lemma RangeBetween(b: Bpb, c: nat, n: nat)
    requires b.Valid() && n >= 2 && b.InRange(c) && b.InRange(c + n - 1)
    ensures b.InRange(c + 1)
  {
    var k := b.sectorsPerCluster;
    assert (c + n - 1 - 1) * k == c * k + (n - 2) * k;
    assert (n - 2) * k >= 0;
  }

  /** `get_data`: the sector count is truncated to 16 bits, the transfer must fit the 22-bit byte
      count of its descriptor, and the buffer is then cut to the file's size without a check;
      None marks the calls for which that is not defined. */
  function GetData(disk: Disk, b: Bpb, cluster: nat, size: nat): Option<seq<byte>>
    requires b.Valid()
  {
    var count := (size / b.bytesPerSector + 1) % U16;
    if count == 0 || SECTOR * count > 0x40_0000 || size > SECTOR * count then None
    else Some(ReadSectors(disk, b.FirstSector(cluster), count)[..size])
  }

  /** With 512-byte sectors `get_data` is defined exactly for files of fewer than 8192 sectors. */
  lemma GetDataDefinedIff(disk: Disk, b: Bpb, cluster: nat, size: nat)
    requires b.Valid() && b.bytesPerSector == SECTOR
    ensures GetData(disk, b, cluster, size).Some? <==> size / SECTOR + 1 <= 8192
  {
    var n := size / SECTOR + 1;
    if n > 8192 && n < U16 {
      assert n % U16 == n;
    }
  }

  /** Reading more sectors than needed does not change the bytes one wanted. */
  lemma ReadPrefix(disk: Disk, lba: nat, m: nat, n: nat, size: nat)
    requires size <= SECTOR * m && size <= SECTOR * n
    ensures ReadSectors(disk, lba, m)[..size] == ReadSectors(disk, lba, n)[..size]
  {
    if m <= n {
      ReadJoins(disk, lba, m, n - m);
    } else {
      ReadJoins(disk, lba, n, m - n);
    }
  }

  /** A file in consecutive clusters is read back whole: its first `size` bytes and nothing else. */
  lemma GetDataReadsFile(disk: Disk, b: Bpb, cluster: nat, size: nat, n: nat)
    requires b.Valid() && b.bytesPerSector == SECTOR && size / SECTOR + 1 <= 8192
    requires n > 0 && b.InRange(cluster) && b.InRange(cluster + n - 1) && size <= SECTOR * (n * b.sectorsPerCluster)
    ensures |Clusters(disk, b, cluster, n)| >= size
    ensures GetData(disk, b, cluster, size) == Some(Clusters(disk, b, cluster, n)[..size])
  {
    hide Bpb.FirstSector, Bpb.InRange, Clusters, ReadSectors, GetData;
    ClustersAreSectors(disk, b, cluster, n);
    GetDataIsRead(disk, b, cluster, size);
    ReadPrefix(disk, b.FirstSector(cluster), size / SECTOR + 1, n * b.sectorsPerCluster, size);
  }

  lemma GetDataIsRead(disk: Disk, b: Bpb, cluster: nat, size: nat)
    requires b.Valid() && b.bytesPerSector == SECTOR && size / SECTOR + 1 <= 8192
    ensures size <= SECTOR * (size / SECTOR + 1)
    ensures GetData(disk, b, cluster, size) ==
        Some(ReadSectors(disk, b.FirstSector(cluster), size / SECTOR + 1)[..size])
  {
    hide Bpb.FirstSector, ReadSectors;
    var count := size / SECTOR + 1;
    assert count % U16 == count;
  }

  /** Byte `i` of a read is byte i % 512 of the sector i / 512 places on. */
  lemma {:induction false} ReadByte(disk: Disk, lba: nat, count: nat, i: nat)
    requires i < 512 * count
    ensures ReadSectors(disk, lba, count)[i] == disk(lba + i / 512)[i % 512]
    decreases count
  {
    if i >= 512 {
      ReadByte(disk, lba + 1, count - 1, i - 512);
      assert (i - 512) / 512 == i / 512 - 1 && (i - 512) % 512 == i % 512;
    }
  }

  /** The fixed root directory takes the fewest sectors that hold its 32-byte entries, as long as the
      16-bit sum does not wrap. */
  lemma RootDirSectorsIsCeiling(b: Bpb)
    requires b.Valid() && b.rootEntryCount * 32 + b.bytesPerSector - 1 < 0x1_0000
    ensures var n := b.RootDirSectors();
            && b.rootEntryCount * 32 <= n * b.bytesPerSector
            && (n > 0 ==> (n - 1) * b.bytesPerSector < b.rootEntryCount * 32)
  {
    var d, a := b.bytesPerSector, b.rootEntryCount * 32 + b.bytesPerSector - 1;
    assert a % U16 == a;
    var n := b.RootDirSectors();
    assert a == d * n + a % d;
    assert d * n == n * d && (n - 1) * d == n * d - d;
  }

  /** Without a fixed root directory, as in FAT32, the first data sector is the one after the reserved
      sectors and the file allocation tables, and cluster 2 begins there. */
  lemma DataBeginsAfterTables(b: Bpb)
    requires b.Valid() && b.rootEntryCount == 0
    ensures var tables := b.tableCount * if b.tableSize16 == 0 then b.tableSize32 else b.tableSize16;
            && b.FirstDataSector() == b.reservedSectors + tables
            && (b.reservedSectors + tables < 0x1_0000_0000 ==> b.FirstSector(2) == b.reservedSectors + tables)
  {
    RootDirSectorsIsCeiling(b);
    var n, d := b.RootDirSectors(), b.bytesPerSector;
    hide Bpb.RootDirSectors;
    assert n == 0 by {
      if n > 0 {
        ProductSign(n - 1, d);
      }
    }
    assert (2 - 2) * b.sectorsPerCluster == 0;
  }

  /** Byte `i` of a file, by its place on the disk. */
  lemma FileByte(disk: Disk, b: Bpb, cluster: nat, size: nat, i: nat)
    requires b.Valid() && b.bytesPerSector == 512 && b.rootEntryCount == 0 && b.InRange(cluster)
    requires i < size && size / 512 + 1 <= 8192
    ensures var tables := b.tableCount * if b.tableSize16 == 0 then b.tableSize32 else b.tableSize16;
            var lba := b.reservedSectors + tables + (cluster - 2) * b.sectorsPerCluster;
            var data := GetData(disk, b, cluster, size);
            data.Some? && |data.value| == size && lba >= 0 && data.value[i] == disk(lba + i / 512)[i % 512]
  {
    DataBeginsAfterTables(b);
    FirstSectorExact(b, cluster);
    GetDataIsRead(disk, b, cluster, size);
    ReadByte(disk, b.FirstSector(cluster), size / 512 + 1, i);
    ProductSign(cluster - 2, b.sectorsPerCluster);
    hide GetData, Bpb.FirstSector, Bpb.FirstDataSector, Bpb.InRange, ReadSectors;
  }
}
