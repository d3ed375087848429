/** Directory entries field by field, as the FAT format lays them out and the packed `File` of src/fs.rs
    repeats it. */
module FatEntry {
  import opened Wrappers
  import opened Fat
  import opened FatDirectory

  type bits2 = x: int | 0 <= x < 4
  type u16 = x: int | 0 <= x < 0x1_0000
  type u32 = x: int | 0 <= x < 0x1_0000_0000
  type Name11 = s: seq<byte> | |s| == 11 witness seq(11, _ => 0)
  type Bytes8 = s: seq<byte> | |s| == 8 witness seq(8, _ => 0)
  type Bytes4 = s: seq<byte> | |s| == 4 witness seq(4, _ => 0)

  function Bit(on: bool, weight: nat): nat {
    if on then weight else 0
  }

  datatype Attributes = Attributes(
    readOnly: bool, hidden: bool, system: bool, volumeId: bool, directory: bool, archive: bool, reserved: bits2)
  {
    function Byte(): byte {
      Bit(readOnly, 1) + Bit(hidden, 2) + Bit(system, 4) + Bit(volumeId, 8) + Bit(directory, 16) + Bit(archive, 32) +
      64 * reserved
    }

    /** The combination that marks a part of a long name. */
    predicate LongName() {
      readOnly && hidden && system && volumeId && !directory && !archive && reserved == 0
    }
  }

  /** A short entry: its name, its attributes, the dates of creation and access, the first cluster, the
      date of modification, and the size. */
  datatype Fields = Fields(
    name: Name11, attributes: Attributes, created: Bytes8, cluster: u32, modified: Bytes4, size: u32)

  function Le16(v: u16): seq<byte> {
    [v % 256, v / 256]
  }

  function Le32(v: u32): seq<byte> {
    [v % 256, v / 256 % 256, v / 0x1_0000 % 256, v / 0x100_0000]
  }

  /** The high half of the cluster number is at 20, the low half at 26. */
  function Encode(f: Fields): Entry {
    f.name + [f.attributes.Byte()] + f.created + Le16(f.cluster / 0x1_0000) + f.modified +
    Le16(f.cluster % 0x1_0000) + Le32(f.size)
  }

  lemma AttributeBits(a: Attributes)
    ensures a.Byte() / 16 % 2 == 1 <==> a.directory
    ensures a.Byte() == 0x0F <==> a.LongName()
  {
    var low := Bit(a.readOnly, 1) + Bit(a.hidden, 2) + Bit(a.system, 4) + Bit(a.volumeId, 8);
    var high := Bit(a.archive, 1) + 2 * a.reserved;
    assert a.Byte() == low + 16 * (Bit(a.directory, 1) + 2 * high);
    assert a.Byte() / 16 == Bit(a.directory, 1) + 2 * high;
    assert low == 0x0F <==> a.readOnly && a.hidden && a.system && a.volumeId;
  }

  lemma Layout(f: Fields)
    ensures var e := Encode(f);
            && e[..11] == f.name && e[11] == f.attributes.Byte()
            && [e[20], e[21]] == Le16(f.cluster / 0x1_0000) && [e[26], e[27]] == Le16(f.cluster % 0x1_0000)
            && [e[28], e[29], e[30], e[31]] == Le32(f.size)
  {
    hide Attributes.Byte, Le16, Le32;
    var e := Encode(f);
    var hi, lo, size := Le16(f.cluster / 0x1_0000), Le16(f.cluster % 0x1_0000), Le32(f.size);
    assert e[20..22] == hi && e[26..28] == lo && e[28..32] == size by {
      LeLengths(f.cluster / 0x1_0000, f.size);
      LeLengths(f.cluster % 0x1_0000, f.size);
    }
  }

  lemma LeLengths(v: u16, w: u32)
    ensures |Le16(v)| == 2 && |Le32(w)| == 4
  {
  }

  lemma LeValues(v: u16, w: u32)
    ensures Le16(v)[0] as int + 256 * Le16(v)[1] as int == v
    ensures var b := Le32(w);
            b[0] as int + 256 * b[1] as int + 0x1_0000 * b[2] as int + 0x100_0000 * b[3] as int == w
  {
    var q, r := w / 256, w / 0x1_0000;
    assert r == q / 256 && w / 0x100_0000 == r / 256;
    assert w == w % 256 + 256 * (q % 256 + 256 * (r % 256 + 256 * (r / 256)));
  }

  /** The reader gets back every field it uses, whatever the other fields are. */
  lemma FieldsRoundTrip(f: Fields)
    ensures Name(Encode(f)) == f.name
    ensures FirstCluster(Encode(f)) == f.cluster
    ensures FileSize(Encode(f)) == f.size
    ensures IsDirectory(Encode(f)) <==> f.attributes.directory
    ensures Encode(f)[11] == 0x0F <==> f.attributes.LongName()
  {
    Layout(f);
    AttributeBits(f.attributes);
    var e, hi, lo := Encode(f), f.cluster / 0x1_0000, f.cluster % 0x1_0000;
    LeValues(hi, f.size);
    LeValues(lo, f.size);
    hide Encode, Attributes.Byte, Le16, Le32, Attributes.LongName;
    var h, l, s := [e[20], e[21]], [e[26], e[27]], [e[28], e[29], e[30], e[31]];
    assert h[0] as int + 256 * h[1] as int == hi && l[0] as int + 256 * l[1] as int == lo;
    assert s[0] as int + 256 * s[1] as int + 0x1_0000 * s[2] as int + 0x100_0000 * s[3] as int == f.size;
  }

  function AttributesOf(b: byte): Attributes {
    Attributes(b % 2 == 1, b / 2 % 2 == 1, b / 4 % 2 == 1, b / 8 % 2 == 1, b / 16 % 2 == 1, b / 32 % 2 == 1, b / 64)
  }

  function Decode(e: Entry): Fields {
    var cluster, size := FirstCluster(e), FileSize(e);
    Fields(e[..11], AttributesOf(e[11]), e[12..20], cluster, e[22..26], size)
  }

  lemma Halves(b: nat)
    ensures b / 4 == b / 2 / 2 && b / 8 == b / 4 / 2 && b / 16 == b / 8 / 2
    ensures b / 32 == b / 16 / 2 && b / 64 == b / 32 / 2
  {
  }

  lemma LowBit(q: nat, weight: nat)
    ensures Bit(q % 2 == 1, weight) == weight * (q % 2)
  {
  }

  lemma BinaryDigits(b: nat)
    ensures b == b % 2 + 2 * (b / 2 % 2) + 4 * (b / 4 % 2) + 8 * (b / 8 % 2) + 16 * (b / 16 % 2) + 32 * (b / 32 % 2) +
                 64 * (b / 64)
  {
    Halves(b);
    var q1, q2, q3, q4, q5, q6 := b / 2, b / 4, b / 8, b / 16, b / 32, b / 64;
    assert q5 == q5 % 2 + 2 * q6;
    assert q4 == q4 % 2 + 2 * q5;
    assert q3 == q3 % 2 + 2 * q4;
    assert q2 == q2 % 2 + 2 * q3;
    assert q1 == q1 % 2 + 2 * q2;
  }

  lemma AttributesRoundTrip(b: byte)
    ensures AttributesOf(b).Byte() == b
  {
    LowBit(b, 1);
    LowBit(b / 2, 2);
    LowBit(b / 4, 4);
    LowBit(b / 8, 8);
    LowBit(b / 16, 16);
    LowBit(b / 32, 32);
    BinaryDigits(b);
    hide Bit;
  }

  lemma HalvesRoundTrip(hi: u16, lo: u16)
    ensures (lo + 0x1_0000 * hi) / 0x1_0000 == hi && (lo + 0x1_0000 * hi) % 0x1_0000 == lo
  {
  }

  lemma BytesRoundTrip(b0: byte, b1: byte, b2: byte, b3: byte)
    ensures Le16(b0 as int + 256 * b1 as int) == [b0, b1]
    ensures Le32(b0 as int + 256 * b1 as int + 0x1_0000 * b2 as int + 0x100_0000 * b3 as int) == [b0, b1, b2, b3]
  {
    var v := b0 as int + 256 * b1 as int + 0x1_0000 * b2 as int + 0x100_0000 * b3 as int;
    assert v / 256 == b1 as int + 256 * b2 as int + 0x1_0000 * b3 as int && v % 256 == b0;
    assert v / 0x1_0000 == b2 as int + 256 * b3 as int && v / 0x100_0000 == b3;
  }

  /** Every 32 bytes are the encoding of some fields. */
  lemma EntryRoundTrip(e: Entry)
    ensures Encode(Decode(e)) == e
  {
    var f := Decode(e);
    var hi: u16, lo: u16 := e[20] as int + 256 * e[21] as int, e[26] as int + 256 * e[27] as int;
    AttributesRoundTrip(e[11]);
    HalvesRoundTrip(hi, lo);
    BytesRoundTrip(e[20], e[21], 0, 0);
    BytesRoundTrip(e[26], e[27], 0, 0);
    BytesRoundTrip(e[28], e[29], e[30], e[31]);
    assert f.cluster == lo + 0x1_0000 * hi;
    hide Le16, Le32, Attributes.Byte, AttributesOf;
    assert Le16(hi) == e[20..22] && Le16(lo) == e[26..28] && Le32(f.size) == e[28..32];
    assert e == e[..11] + [e[11]] + e[12..20] + e[20..22] + e[22..26] + e[26..28] + e[28..32];
  }
}
