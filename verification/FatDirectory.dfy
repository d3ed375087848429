/** `parse_directory` (src/fs.rs): a loop over clusters, a loop over their 32-byte entries, and a
    recursion into subdirectories. */
module FatDirectory {
  import opened Wrappers
  import opened Fat
  import opened Utf8

  const ENTRY: nat := 32

  type Entry = e: seq<byte> | |e| == ENTRY witness seq(ENTRY, _ => 0)

  function Name(e: Entry): seq<byte> {
    e[..11]
  }

  const DOT: seq<byte> := [0x2E, 0x20, 0x20, 0x20, 0x20, 0x20, 0x20, 0x20, 0x20, 0x20, 0x20]
  const DOT_DOT: seq<byte> := [0x2E, 0x2E, 0x20, 0x20, 0x20, 0x20, 0x20, 0x20, 0x20, 0x20, 0x20]

  predicate IsDirectory(e: Entry) {
    e[11] / 16 % 2 == 1
  }

  /** `get_data_addr`: the low and high halves of the first cluster. */
  function FirstCluster(e: Entry): nat {
    e[26] as int + 256 * e[27] as int + 0x1_0000 * (e[20] as int + 256 * e[21] as int)
  }

  /** The `file_size` field. */
  function FileSize(e: Entry): nat {
    e[28] as int + 256 * e[29] as int + 0x1_0000 * e[30] as int + 0x100_0000 * e[31] as int
  }

  /** `get_data` of the file an entry describes. */
  function FileData(disk: Disk, b: Bpb, e: Entry): Option<seq<byte>>
    requires b.Valid()
  {
    GetData(disk, b, FirstCluster(e), FileSize(e))
  }

  datatype Kind = Terminator | Panics | Skipped | PlainFile | Subdirectory

  /** What the body of the entry loop does with an entry, in the order of its tests. */
  function KindOf(e: Entry): Kind {
    if e[0] == 0 then Terminator
    else if e[0] == 0xE5 then Skipped
    else if e[11] == 0x0F then Panics
    else if !ValidUtf8(Name(e)) then Panics
    else if Name(e) == DOT || Name(e) == DOT_DOT then Skipped
    else if IsDirectory(e) then Subdirectory
    else PlainFile
  }

  /** The tree the parser builds. */
  datatype Tree = Node(entry: Entry, children: seq<Tree>)

  /** A directory as a reader meets it: its entries in order, skipped ones included, each
      subdirectory with its own contents, and what ends it: the terminator, a long or ill-formed
      name, or a subdirectory that itself ends at such a name. */
  datatype Dir = Dir(items: seq<Item>, end: End)
  datatype Item = Skip(entry: Entry) | Plain(entry: Entry) | Sub(entry: Entry, dir: Dir)
  datatype End = AtTerminator | AtBadName | Inside(entry: Entry, dir: Dir)

  predicate Complete(dir: Dir) {
    dir.end.AtTerminator?
  }

  /** How many entries a cluster holds. */
  function PerCluster(b: Bpb): (n: nat)
    requires b.Valid()
    ensures n > 0 && n * ENTRY == SECTOR * b.sectorsPerCluster
  {
    16 * b.sectorsPerCluster
  }

  /** Entry `i` of a cluster. */
  function EntryIn(disk: Disk, b: Bpb, c: nat, i: nat): Entry
    requires b.Valid() && i < PerCluster(b)
  {
    ClusterBytes(disk, b, c)[ENTRY * i..ENTRY * i + ENTRY]
  }

  /** Entry `k` of the directory that starts at cluster `c` and continues in the next ones. */
  function EntryAt(disk: Disk, b: Bpb, c: nat, k: nat): Entry
    requires b.Valid()
    decreases k
  {
    if k < PerCluster(b) then EntryIn(disk, b, c, k) else EntryAt(disk, b, c + 1, k - PerCluster(b))
  }

  ghost predicate ItemOnDisk(disk: Disk, b: Bpb, e: Entry, item: Item)
    requires b.Valid()
    decreases item
  {
    && item.entry == e
    && match item
       case Skip(_) => KindOf(e).Skipped?
       case Plain(_) => KindOf(e).PlainFile?
       case Sub(_, dir) => KindOf(e).Subdirectory? && Complete(dir) && OnDiskFrom(disk, b, FirstCluster(e), 0, dir)
  }

  ghost predicate EndOnDisk(disk: Disk, b: Bpb, e: Entry, end: End)
    requires b.Valid()
    decreases end
  {
    match end
    case AtTerminator => KindOf(e).Terminator?
    case AtBadName => KindOf(e).Panics?
    case Inside(f, dir) =>
      f == e && KindOf(e).Subdirectory? && !Complete(dir) && OnDiskFrom(disk, b, FirstCluster(e), 0, dir)
  }

  /** `dir` is what the disk holds from entry `k` of the directory at cluster `c` on. */
  ghost predicate OnDiskFrom(disk: Disk, b: Bpb, c: nat, k: nat, dir: Dir)
    requires b.Valid()
    decreases dir
  {
    && (forall i :: 0 <= i < |dir.items| ==> ItemOnDisk(disk, b, EntryAt(disk, b, c, k + i), dir.items[i]))
    && EndOnDisk(disk, b, EntryAt(disk, b, c, k + |dir.items|), dir.end)
  }

  ghost predicate OnDisk(disk: Disk, b: Bpb, c: nat, dir: Dir)
    requires b.Valid()
  {
    OnDiskFrom(disk, b, c, 0, dir)
  }

  /** What an item contributes to the tree. */
  function Shown(item: Item): seq<Tree>
    decreases item
  {
    match item
    case Skip(_) => []
    case Plain(e) => [Node(e, [])]
    case Sub(e, dir) => [Node(e, Visible(dir.items))]
  }

  /** Everything not skipped, in entry order. */
  function Visible(items: seq<Item>): seq<Tree>
    decreases items
  {
    if items == [] then [] else Shown(items[0]) + Visible(items[1..])
  }

  /** The directory seen from its entry `base` on is the one that starts at cluster `d`. */
  ghost predicate ContinuesAt(disk: Disk, b: Bpb, c: nat, base: nat, d: nat)
    requires b.Valid()
  {
    forall k: nat :: k >= base ==> EntryAt(disk, b, c, k) == EntryAt(disk, b, d, k - base)
  }

  lemma NextCluster(disk: Disk, b: Bpb, c: nat, base: nat, d: nat)
    requires b.Valid() && ContinuesAt(disk, b, c, base, d)
    ensures ContinuesAt(disk, b, c, base + PerCluster(b), d + 1)
  {
  }

  lemma EntryHere(disk: Disk, b: Bpb, c: nat, base: nat, d: nat, i: nat)
    requires b.Valid() && ContinuesAt(disk, b, c, base, d) && i < PerCluster(b)
    ensures EntryAt(disk, b, c, base + i) == EntryIn(disk, b, d, i)
  {
    assert EntryAt(disk, b, c, base + i) == EntryAt(disk, b, d, base + i - base);
  }

  lemma StartsHere(disk: Disk, b: Bpb, c: nat)
    requires b.Valid()
    ensures ContinuesAt(disk, b, c, 0, c)
  {
  }

  function Size(dir: Dir): nat
    decreases dir
  {
    1 + SizeOf(dir.items) + if dir.end.Inside? then Size(dir.end.dir) else 0
  }

  function SizeOf(items: seq<Item>): nat
    decreases items
  {
    if items == [] then 0 else 1 + (if items[0].Sub? then Size(items[0].dir) else 0) + SizeOf(items[1..])
  }

  function Tail(dir: Dir): (r: Dir)
    requires dir.items != []
    ensures Size(r) < Size(dir)
  {
    Dir(dir.items[1..], dir.end)
  }

  /** The first entry of a directory, and the rest of it. */
  lemma HeadAndTail(disk: Disk, b: Bpb, c: nat, k: nat, dir: Dir)
    requires b.Valid() && dir.items != []
    ensures OnDiskFrom(disk, b, c, k, dir) <==>
              ItemOnDisk(disk, b, EntryAt(disk, b, c, k), dir.items[0]) && OnDiskFrom(disk, b, c, k + 1, Tail(dir))
  {
    hide EntryAt, ItemOnDisk, EndOnDisk;
    var tail := Tail(dir);
    assert k + 1 + |tail.items| == k + |dir.items|;
    if ItemOnDisk(disk, b, EntryAt(disk, b, c, k), dir.items[0]) && OnDiskFrom(disk, b, c, k + 1, tail) {
      forall i | 0 <= i < |dir.items| ensures ItemOnDisk(disk, b, EntryAt(disk, b, c, k + i), dir.items[i]) {
        if i > 0 {
          assert ItemOnDisk(disk, b, EntryAt(disk, b, c, k + 1 + (i - 1)), tail.items[i - 1]);
        }
      }
    }
    if OnDiskFrom(disk, b, c, k, dir) {
      assert ItemOnDisk(disk, b, EntryAt(disk, b, c, k + 0), dir.items[0]);
      forall i | 0 <= i < |tail.items| ensures ItemOnDisk(disk, b, EntryAt(disk, b, c, k + 1 + i), tail.items[i]) {
        assert ItemOnDisk(disk, b, EntryAt(disk, b, c, k + (i + 1)), dir.items[i + 1]);
      }
    }
  }

  /** A disk holds at most one directory at a place, so what the parser returns is decided by the
      disk alone. */
  lemma {:induction false} LayoutIsUnique(disk: Disk, b: Bpb, c: nat, k: nat, d1: Dir, d2: Dir)
    requires b.Valid() && OnDiskFrom(disk, b, c, k, d1) && OnDiskFrom(disk, b, c, k, d2)
    ensures d1 == d2
    decreases Size(d1)
  {
    hide KindOf, EntryAt;
    var e := EntryAt(disk, b, c, k);
    var s1, s2 := SubHere(d1), SubHere(d2);
    if d1.items != [] {
      HeadAndTail(disk, b, c, k, d1);
    }
    if d2.items != [] {
      HeadAndTail(disk, b, c, k, d2);
    }
    hide OnDiskFrom;
    if KindOf(e).Subdirectory? {
      LayoutIsUnique(disk, b, FirstCluster(e), 0, s1.value, s2.value);
    }
    if d1.items != [] {
      assert d2.items != [];
      LayoutIsUnique(disk, b, c, k + 1, Tail(d1), Tail(d2));
      assert d1.items == [d1.items[0]] + Tail(d1).items && d2.items == [d2.items[0]] + Tail(d2).items;
    }
  }

  /** The subdirectory a directory begins with, if it does. */
  function SubHere(dir: Dir): (r: Option<Dir>)
    ensures r.Some? ==> Size(r.value) < Size(dir)
  {
    if dir.items != [] then (if dir.items[0].Sub? then Some(dir.items[0].dir) else None)
    else if dir.end.Inside? then Some(dir.end.dir) else None
  }

  datatype Scan = Running | Panicked | Finished(children: seq<Tree>)

  function Prepend(trees: seq<Tree>, scan: Scan): Scan {
    if scan.Finished? then Finished(trees + scan.children) else scan
  }

  /** The parser from entry `k` of the directory at `c` on, given up as Running where it would take more
      than `n` entries and recursions on one path; no disk is excluded. */
  function ScanFrom(disk: Disk, b: Bpb, c: nat, k: nat, n: nat): Scan
    requires b.Valid()
    decreases n
  {
    if n == 0 then Running
    else
      var e := EntryAt(disk, b, c, k);
      match KindOf(e)
      case Terminator => Finished([])
      case Panics => Panicked
      case Skipped => ScanFrom(disk, b, c, k + 1, n - 1)
      case PlainFile => Prepend([Node(e, [])], ScanFrom(disk, b, c, k + 1, n - 1))
      case Subdirectory =>
        match ScanFrom(disk, b, FirstCluster(e), 0, n - 1)
        case Finished(children) => Prepend([Node(e, children)], ScanFrom(disk, b, c, k + 1, n - 1))
        case other => other
  }

  function ScanOf(dir: Dir): Scan {
    if Complete(dir) then Finished(Visible(dir.items)) else Panicked
  }

  /** A directory with one more entry in front. */
  function Cons(item: Item, rest: Dir): (r: Dir)
    ensures r.items != [] && Tail(r) == rest && ScanOf(r) == Prepend(Shown(item), ScanOf(rest))
  {
    assert ([item] + rest.items)[1..] == rest.items;
    Dir([item] + rest.items, rest.end)
  }

  /** Where the parser stops, the disk holds a directory, and that is what it has read. */
  lemma {:induction false} StoppedScanHasLayout(disk: Disk, b: Bpb, c: nat, k: nat, n: nat) returns (dir: Dir)
    requires b.Valid() && ScanFrom(disk, b, c, k, n) != Running
    ensures OnDiskFrom(disk, b, c, k, dir) && ScanFrom(disk, b, c, k, n) == ScanOf(dir)
    decreases n
  {
    hide KindOf, EntryAt, Cons, ScanOf, OnDiskFrom;
    var e := EntryAt(disk, b, c, k);
    var item := Skip(e);
    match KindOf(e) {
      case Terminator =>
        dir := Dir([], AtTerminator);
        EmptyOnDisk(disk, b, c, k, AtTerminator);
        return;
      case Panics =>
        dir := Dir([], AtBadName);
        EmptyOnDisk(disk, b, c, k, AtBadName);
        return;
      case Skipped =>
      case PlainFile =>
        item := Plain(e);
      case Subdirectory =>
        var sub := StoppedScanHasLayout(disk, b, FirstCluster(e), 0, n - 1);
        ScanOfComplete(sub);
        if !Complete(sub) {
          dir := Dir([], Inside(e, sub));
          EmptyOnDisk(disk, b, c, k, Inside(e, sub));
          return;
        }
        item := Sub(e, sub);
    }
    var rest := StoppedScanHasLayout(disk, b, c, k + 1, n - 1);
    dir := Cons(item, rest);
    ConsOnDisk(disk, b, c, k, item, rest);
  }

  lemma ScanOfComplete(dir: Dir)
    ensures ScanOf(dir) == if Complete(dir) then Finished(Visible(dir.items)) else Panicked
  {
  }

  lemma EmptyOnDisk(disk: Disk, b: Bpb, c: nat, k: nat, end: End)
    requires b.Valid() && EndOnDisk(disk, b, EntryAt(disk, b, c, k), end)
    ensures OnDiskFrom(disk, b, c, k, Dir([], end)) && ScanOf(Dir([], end)) == if end.AtTerminator? then Finished([])
        else Panicked
  {
    hide KindOf, EntryAt;
    assert k + |Dir([], end).items| == k;
  }

  lemma ConsOnDisk(disk: Disk, b: Bpb, c: nat, k: nat, item: Item, rest: Dir)
    requires b.Valid() && ItemOnDisk(disk, b, EntryAt(disk, b, c, k), item) && OnDiskFrom(disk, b, c, k + 1, rest)
    ensures OnDiskFrom(disk, b, c, k, Cons(item, rest)) &&
        ScanOf(Cons(item, rest)) == Prepend(Shown(item), ScanOf(rest))
  {
    hide KindOf, EntryAt, ItemOnDisk;
    HeadAndTail(disk, b, c, k, Cons(item, rest));
  }

  /** Where the disk holds a directory, the parser stops, at the latest when it has taken as many steps
      as the directory has entries. */
  lemma {:induction false} LayoutStopsScan(disk: Disk, b: Bpb, c: nat, k: nat, dir: Dir, n: nat)
    requires b.Valid() && OnDiskFrom(disk, b, c, k, dir) && n >= Size(dir)
    ensures ScanFrom(disk, b, c, k, n) == ScanOf(dir)
    decreases Size(dir)
  {
    hide KindOf, EntryAt;
    var e, sub := EntryAt(disk, b, c, k), SubHere(dir);
    if dir.items != [] {
      HeadAndTail(disk, b, c, k, dir);
    }
    hide OnDiskFrom;
    if sub.Some? {
      LayoutStopsScan(disk, b, FirstCluster(e), 0, sub.value, n - 1);
    }
    if dir.items == [] {
      assert EndOnDisk(disk, b, EntryAt(disk, b, c, k + 0), dir.end);
    } else {
      LayoutStopsScan(disk, b, c, k + 1, Tail(dir), n - 1);
      assert ScanOf(dir) == Prepend(Shown(dir.items[0]), ScanOf(Tail(dir)));
      assert [] + Visible(Tail(dir).items) == Visible(Tail(dir).items);
    }
  }

  /** The parser stops on a disk, with a tree or with a panic, if and only if the disk holds a finite
      directory there. */
  lemma ParserStopsIff(disk: Disk, b: Bpb, c: nat)
    requires b.Valid()
    ensures (exists n :: ScanFrom(disk, b, c, 0, n) != Running) <==> (exists dir :: OnDisk(disk, b, c, dir))
  {
    if exists n :: ScanFrom(disk, b, c, 0, n) != Running {
      var n :| ScanFrom(disk, b, c, 0, n) != Running;
      var dir := StoppedScanHasLayout(disk, b, c, 0, n);
      assert OnDisk(disk, b, c, dir);
    }
    if exists dir :: OnDisk(disk, b, c, dir) {
      var dir :| OnDisk(disk, b, c, dir);
      LayoutStopsScan(disk, b, c, 0, dir, Size(dir));
      assert ScanFrom(disk, b, c, 0, Size(dir)) != Running;
    }
  }

  /** One entry further, with `children` found so far. */
  ghost predicate SoFar(disk: Disk, b: Bpb, c: nat, k: nat, limit: nat, children: seq<Tree>)
    requires b.Valid()
  {
    k <= limit && ScanFrom(disk, b, c, 0, limit) == Prepend(children, ScanFrom(disk, b, c, k, limit - k))
  }

  lemma StartsEmpty(disk: Disk, b: Bpb, c: nat, limit: nat)
    requires b.Valid()
    ensures SoFar(disk, b, c, 0, limit, [])
  {
    var scan := ScanFrom(disk, b, c, 0, limit);
    hide ScanFrom;
    if scan.Finished? {
      assert [] + scan.children == scan.children;
    }
  }

  /** What one turn of the entry loop does to the account. */
  lemma NextEntry(disk: Disk, b: Bpb, c: nat, k: nat, limit: nat, children: seq<Tree>)
    requires b.Valid() && SoFar(disk, b, c, k, limit, children)
    ensures var e, whole := EntryAt(disk, b, c, k), ScanFrom(disk, b, c, 0, limit);
            if k == limit then whole == Running
            else match KindOf(e)
              case Terminator => whole == Finished(children)
              case Panics => whole == Panicked
              case Skipped => SoFar(disk, b, c, k + 1, limit, children)
              case PlainFile => SoFar(disk, b, c, k + 1, limit, children + [Node(e, [])])
              case Subdirectory =>
                match ScanFrom(disk, b, FirstCluster(e), 0, limit - k - 1)
                case Finished(inside) => SoFar(disk, b, c, k + 1, limit, children + [Node(e, inside)])
                case other => whole == other
  {
    var e := EntryAt(disk, b, c, k);
    hide KindOf, EntryAt;
    assert children + [] == children;
    if k < limit {
      var rest := ScanFrom(disk, b, c, k + 1, limit - k - 1);
      var sub := ScanFrom(disk, b, FirstCluster(e), 0, limit - k - 1);
      if rest.Finished? {
        assert (children + [Node(e, [])]) + rest.children == children + ([Node(e, [])] + rest.children);
      }
      if rest.Finished? && sub.Finished? {
        assert (children + [Node(e, sub.children)]) + rest.children ==
            children + ([Node(e, sub.children)] + rest.children);
      }
    }
  }

  /** The parser: the cluster loop, the entry loop and the recursion. It need not end; `limit` is how
      many entries and recursions on one path are watched. By LayoutStopsScan, on a disk that holds a
      finite directory it returns exactly the visible tree, or panics exactly at its bad name. */
  method ParseDirectory(disk: Disk, b: Bpb, cluster: nat, limit: nat) returns (r: Scan)
    requires b.Valid()
    ensures r == ScanFrom(disk, b, cluster, 0, limit)
    decreases limit
  {
    hide OnDisk, KindOf, EntryAt, ContinuesAt, ClusterBytes, ScanFrom, SoFar, Size, ScanOf;
    var clusterIdx, children, base, n := cluster, [], 0, PerCluster(b);
    StartsEmpty(disk, b, cluster, limit);
    StartsHere(disk, b, cluster);
    while true
      invariant base <= limit && SoFar(disk, b, cluster, base, limit, children)
      invariant ContinuesAt(disk, b, cluster, base, clusterIdx)
      decreases limit - base
    {
      var clusterData := ClusterBytes(disk, b, clusterIdx);
      for i := 0 to n
        invariant base + i <= limit && SoFar(disk, b, cluster, base + i, limit, children)
      {
        var entry: Entry := clusterData[ENTRY * i..ENTRY * i + ENTRY];
        EntryHere(disk, b, cluster, base, clusterIdx, i);
        NextEntry(disk, b, cluster, base + i, limit, children);
        if base + i == limit {
          return Running;
        }
        match KindOf(entry) {
          case Terminator =>
            return Finished(children);
          case Panics =>
            return Panicked;
          case Skipped =>
            // nothing is added
          case PlainFile =>
            children := children + [Node(entry, [])];
          case Subdirectory =>
            var inside := ParseDirectory(disk, b, FirstCluster(entry), limit - base - i - 1);
            if !inside.Finished? {
              return inside;
            }
            children := children + [Node(entry, inside.children)];
        }
      }
      NextCluster(disk, b, cluster, base, clusterIdx);
      base := base + n;
      clusterIdx := clusterIdx + 1;
    }
  }

  /** `d` is read while `dir` is. */
  ghost predicate Below(d: Dir, dir: Dir)
    decreases dir
  {
    || (exists k :: 0 <= k < |dir.items| && dir.items[k].Sub? && (dir.items[k].dir == d || Below(d, dir.items[k].dir)))
    || (dir.end.Inside? && (dir.end.dir == d || Below(d, dir.end.dir)))
  }

  lemma {:induction false} SizeOfItem(items: seq<Item>, k: nat)
    requires k < |items| && items[k].Sub?
    ensures Size(items[k].dir) <= SizeOf(items)
    decreases |items|
  {
    if k > 0 {
      SizeOfItem(items[1..], k - 1);
    }
  }

  lemma {:induction false} BelowIsSmaller(d: Dir, dir: Dir)
    requires Below(d, dir)
    ensures Size(d) < Size(dir)
    decreases dir
  {
    if dir.end.Inside? && (dir.end.dir == d || Below(d, dir.end.dir)) {
      if dir.end.dir != d {
        BelowIsSmaller(d, dir.end.dir);
      }
    } else {
      var k :| 0 <= k < |dir.items| && dir.items[k].Sub? && (dir.items[k].dir == d || Below(d, dir.items[k].dir));
      SizeOfItem(dir.items, k);
      if dir.items[k].dir != d {
        BelowIsSmaller(d, dir.items[k].dir);
      }
    }
  }

  /** A directory that leads back to its own cluster is no finite tree: no descendant lies where its
      ancestor does, so with ParserStopsIff the parser does not stop on a loop. */
  lemma NoLoopOnDisk(disk: Disk, b: Bpb, c: nat, dir: Dir, d: Dir)
    requires b.Valid() && OnDisk(disk, b, c, dir) && Below(d, dir)
    ensures !OnDisk(disk, b, c, d)
  {
    if OnDisk(disk, b, c, d) {
      LayoutIsUnique(disk, b, c, 0, dir, d);
      BelowIsSmaller(d, dir);
    }
  }
}
