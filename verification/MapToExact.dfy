/** Exactly what `map_to` does to a tree of page tables: which error it returns, and every entry it
    writes. */
module MapToExact {
  import opened Wrappers
  import opened Paging

  /** `map_to` as a descent from a table of the given level. */
  function MapFrom(m: Memory, t: nat, level: nat, v: VAddr, frame: nat, asUser: bool, supply: seq<nat>): Mapped
    requires 1 <= level <= 4
    decreases level
  {
    if level == 1 then
      if At(m, t)[v.i1] != UNUSED then Mapped(m, supply, Err(PageAlreadyMapped))
      else Mapped(SetEntry(m, t, v.i1, Entry(frame, true, true, asUser, false, 0)), supply, Ok(()))
    else
      var c := CreateNext(m, t, v.IndexAt(level), asUser, supply);
      if c.next.Err? then Mapped(c.mem, c.supply, Err(c.next.error))
      else MapFrom(c.mem, c.next.value, level - 1, v, frame, asUser, c.supply)
  }

  lemma MapToDescends(m: Memory, root: nat, v: VAddr, frame: nat, asUser: bool, supply: seq<nat>)
    ensures MapTo(m, root, v, frame, asUser, supply) == MapFrom(m, root, 4, v, frame, asUser, supply)
  {
    hide CreateNext;
    var c3 := CreateNext(m, root, v.i4, asUser, supply);
    if c3.next.Ok? {
      var c2 := CreateNext(c3.mem, c3.next.value, v.i3, asUser, c3.supply);
      var below3 := MapFrom(c3.mem, c3.next.value, 3, v, frame, asUser, c3.supply);
      assert MapFrom(m, root, 4, v, frame, asUser, supply) == below3;
      if c2.next.Ok? {
        var c1 := CreateNext(c2.mem, c2.next.value, v.i2, asUser, c2.supply);
        var below2 := MapFrom(c2.mem, c2.next.value, 2, v, frame, asUser, c2.supply);
        assert below3 == below2;
        if c1.next.Ok? {
          assert below2 == MapFrom(c1.mem, c1.next.value, 1, v, frame, asUser, c1.supply);
        }
      }
    }
  }

  /** The tables there are on the way to page `v`, from table `t` down. */
  function Path(m: Memory, t: nat, level: nat, v: VAddr): (path: seq<nat>)
    requires 1 <= level <= 4
    ensures 1 <= |path| <= level && path[0] == t
    decreases level
  {
    var e := At(m, t)[v.IndexAt(level)];
    if level == 1 || e == UNUSED || e.huge then [t] else [t] + Path(m, e.frame, level - 1, v)
  }

  /** The entry the way ends at. */
  function Last(m: Memory, t: nat, level: nat, v: VAddr): Entry
    requires 1 <= level <= 4
  {
    var path := Path(m, t, level, v);
    At(m, path[|path| - 1])[v.IndexAt(level + 1 - |path|)]
  }

  /** What `map_to` answers: it meets a large page, or runs out of frames for the tables that are missing,
      or finds the page mapped, or maps it. */
  function Answer(m: Memory, t: nat, level: nat, v: VAddr, supply: seq<nat>): Result<(), MapError>
    requires 1 <= level <= 4
  {
    var missing, last := level - |Path(m, t, level, v)|, Last(m, t, level, v);
    if missing > 0 && last != UNUSED then Err(ParentEntryHugePage)
    else if missing > |supply| then Err(FrameAllocationFailed)
    else if last != UNUSED then Err(PageAlreadyMapped)
    else Ok(())
  }

  /** The tables on the way once the missing ones are made. */
  function Way(m: Memory, t: nat, level: nat, v: VAddr, supply: seq<nat>): (way: seq<nat>)
    requires 1 <= level <= 4 && Answer(m, t, level, v, supply).Ok?
    ensures |way| == level && way[0] == t
  {
    var path := Path(m, t, level, v);
    path + supply[..level - |path|]
  }

  /** Each table on the way leads to the next, writable, and for user code if the mapping is or the entry
      was; the last one holds the page. */
  ghost predicate Linked(
    m: Memory, m': Memory, way: seq<nat>, had: nat, v: VAddr, frame: nat, asUser: bool)
    requires 1 <= |way| <= 4
  {
    && (forall k :: 0 <= k < |way| - 1 ==>
          LinkedAt(At(m, way[k])[v.IndexAt(|way| - k)], At(m', way[k])[v.IndexAt(|way| - k)], way[k + 1],
                   k + 1 < had, asUser))
    && At(m', way[|way| - 1])[v.i1] == Entry(frame, true, true, asUser, false, 0)
  }

  predicate LinkedAt(was: Entry, now: Entry, next: nat, wasThere: bool, asUser: bool) {
    now.frame == next && now.present && !now.huge && now.writable && (now.user <==> asUser || (wasThere && was.user))
  }

  /** Does the mapping write entry `i` of table `f`? */
  ghost predicate OnWay(way: seq<nat>, v: VAddr, f: nat, i: Index)
    requires 1 <= |way| <= 4
  {
    exists k :: 0 <= k < |way| && way[k] == f && i == v.IndexAt(|way| - k)
  }

  /** A new table is empty but for the entry on the way, and the other tables keep theirs. */
  ghost predicate RestKept(m: Memory, m': Memory, way: seq<nat>, news: seq<nat>, v: VAddr)
    requires 1 <= |way| <= 4
  {
    forall f, i: Index :: !OnWay(way, v, f, i) ==> At(m', f)[i] == if f in news then UNUSED else At(m, f)[i]
  }

  /** A mapping that succeeds, in full. */
  ghost predicate Exact(
    m: Memory, r: Mapped, t: nat, level: nat, v: VAddr, frame: nat, asUser: bool, supply: seq<nat>)
    requires 1 <= level <= 4 && Answer(m, t, level, v, supply).Ok?
  {
    var had, way := |Path(m, t, level, v)|, Way(m, t, level, v, supply);
    && r.supply == supply[level - had..]
    && Linked(m, r.mem, way, had, v, frame, asUser)
    && RestKept(m, r.mem, way, supply[..level - had], v)
  }

  lemma {:induction false} PathReads(m: Memory, m': Memory, t: nat, level: nat, v: VAddr)
    requires 1 <= level <= 4 && forall f :: f in Path(m, t, level, v) ==> At(m', f) == At(m, f)
    ensures Path(m', t, level, v) == Path(m, t, level, v)
    decreases level
  {
    var e := At(m, t)[v.IndexAt(level)];
    assert t in Path(m, t, level, v);
    if level > 1 && e != UNUSED && !e.huge {
      PathReads(m, m', e.frame, level - 1, v);
    }
  }

  /** The last table: the page's own entry. */
  lemma ExactAtLast(m: Memory, t: nat, v: VAddr, frame: nat, asUser: bool, supply: seq<nat>)
    ensures MapFrom(m, t, 1, v, frame, asUser, supply).result == Answer(m, t, 1, v, supply)
    ensures Answer(m, t, 1, v, supply).Ok? ==>
              Exact(m, MapFrom(m, t, 1, v, frame, asUser, supply), t, 1, v, frame, asUser, supply)
  {
    if Answer(m, t, 1, v, supply).Ok? {
      var r, way := MapFrom(m, t, 1, v, frame, asUser, supply), Way(m, t, 1, v, supply);
      assert way == [t] && supply[0..] == supply;
      forall f, i: Index | !OnWay(way, v, f, i) ensures At(r.mem, f)[i] == At(m, f)[i] {
        assert way[0] == t;
      }
    }
  }

  lemma OnWayUp(way: seq<nat>, v: VAddr, f: nat, i: Index)
    requires 2 <= |way| <= 4
    ensures OnWay(way[1..], v, f, i) ==> OnWay(way, v, f, i)
  {
    if k :| 0 <= k < |way[1..]| && way[1..][k] == f && i == v.IndexAt(|way[1..]| - k) {
      assert way[k + 1] == f && i == v.IndexAt(|way| - (k + 1));
    }
  }

  /** From `m` to `m1` only entry `i` of table `t` is written, and the frames of `news` that are not in
      `news'` are zeroed. */
  ghost predicate Stepped(m: Memory, m1: Memory, t: nat, i: Index, news: seq<nat>, news': seq<nat>) {
    && (forall j: Index :: j != i ==> At(m1, t)[j] == At(m, t)[j])
    && (forall f :: f != t ==> At(m1, f) == if f in news && f !in news' then ZeroTable() else At(m, f))
    && t !in news && forall f :: f in news' ==> f in news
  }

  lemma RestUp(
    m: Memory, m1: Memory, m2: Memory, t: nat, v: VAddr, way: seq<nat>, news: seq<nat>, news': seq<nat>)
    requires 2 <= |way| <= 4 && way[0] == t && t !in way[1..]
    requires Stepped(m, m1, t, v.IndexAt(|way|), news, news') && RestKept(m1, m2, way[1..], news', v)
    ensures RestKept(m, m2, way, news, v)
  {
    forall f, i: Index | !OnWay(way, v, f, i) ensures At(m2, f)[i] == if f in news then UNUSED else At(m, f)[i] {
      OnWayUp(way, v, f, i);
      assert f == t ==> i != v.IndexAt(|way|) by {
        assert way[0] == t;
      }
      hide At, OnWay;
    }
  }

  lemma LinkUp(
    m: Memory, m1: Memory, m2: Memory, t: nat, v: VAddr, way: seq<nat>, k: nat, had: nat, had': nat, asUser: bool)
    requires 2 <= |way| <= 4 && way[0] == t && t !in way[1..] && 0 < k < |way| - 1
    requires had > 1 ==> At(m1, way[k]) == At(m, way[k])
    requires if had == 1 then had' == 1 else had' == had - 1
    requires var sub, j := way[1..], k - 1;
             LinkedAt(At(m1, sub[j])[v.IndexAt(|sub| - j)], At(m2, sub[j])[v.IndexAt(|sub| - j)], sub[j + 1],
                      j + 1 < had', asUser)
    ensures LinkedAt(At(m, way[k])[v.IndexAt(|way| - k)], At(m2, way[k])[v.IndexAt(|way| - k)], way[k + 1],
                     k + 1 < had, asUser)
  {
    var sub, j := way[1..], k - 1;
    assert sub[j] == way[k] && sub[j + 1] == way[k + 1] && |sub| - j == |way| - k;
    hide At;
  }

  lemma TopKept(m1: Memory, m2: Memory, t: nat, v: VAddr, sub: seq<nat>, news: seq<nat>, i: Index)
    requires 1 <= |sub| <= 4 && t !in sub && t !in news && RestKept(m1, m2, sub, news, v)
    ensures At(m2, t)[i] == At(m1, t)[i]
  {
    hide At;
    assert !OnWay(sub, v, t, i);
  }

  lemma SteppedKeeps(m: Memory, m1: Memory, t: nat, i: Index, news: seq<nat>, news': seq<nat>, f: nat)
    requires Stepped(m, m1, t, i, news, news') && f != t
    ensures news == news' ==> At(m1, f) == At(m, f)
    ensures t !in news'
  {
  }

  /** One level up: `m1` is the memory after the entry of `t` has been dealt with. */
  lemma ExactUp(
    m: Memory, m1: Memory, r: Mapped, t: nat, level: nat, v: VAddr, frame: nat, asUser: bool,
    way: seq<nat>, news: seq<nat>, news': seq<nat>, had: nat, had': nat)
    requires 2 <= level <= 4 && |way| == level && way[0] == t && t !in way[1..] && 1 <= had <= level
    requires LinkedAt(At(m, t)[v.IndexAt(level)], At(m1, t)[v.IndexAt(level)], way[1], 1 < had, asUser)
    requires Stepped(m, m1, t, v.IndexAt(level), news, news')
    requires if had == 1 then had' == 1 else had' == had - 1 && news == news'
    requires Linked(m1, r.mem, way[1..], had', v, frame, asUser) && RestKept(m1, r.mem, way[1..], news', v)
    ensures Linked(m, r.mem, way, had, v, frame, asUser) && RestKept(m, r.mem, way, news, v)
  {
    hide At, RestKept, Stepped, LinkedAt;
    var sub := way[1..];
    RestUp(m, m1, r.mem, t, v, way, news, news');
    SteppedKeeps(m, m1, t, v.IndexAt(level), news, news', way[1]);
    TopKept(m1, r.mem, t, v, sub, news', v.IndexAt(level));
    forall k | 0 <= k < level - 1
      ensures LinkedAt(At(m, way[k])[v.IndexAt(level - k)], At(r.mem, way[k])[v.IndexAt(level - k)], way[k + 1],
                       k + 1 < had, asUser)
    {
      if k > 0 {
        var j := k - 1;
        SteppedKeeps(m, m1, t, v.IndexAt(level), news, news', way[k]);
        assert LinkedAt(At(m1, sub[j])[v.IndexAt(|sub| - j)], At(r.mem, sub[j])[v.IndexAt(|sub| - j)], sub[j + 1],
                        j + 1 < had', asUser);
        LinkUp(m, m1, r.mem, t, v, way, k, had, had', asUser);
      }
    }
  }

  lemma DistinctParts(t: nat, sub: seq<nat>, supply: seq<nat>)
    requires Distinct([t] + sub + supply)
    ensures Distinct(sub + supply) && t !in sub && t !in supply
  {
    var all := [t] + sub + supply;
    forall i, j | 0 <= i < j < |sub + supply| ensures (sub + supply)[i] != (sub + supply)[j] {
      assert all[i + 1] != all[j + 1];
    }
    forall k | 0 <= k < |sub| ensures sub[k] != t {
      assert all[0] != all[k + 1];
    }
    forall k | 0 <= k < |supply| ensures supply[k] != t {
      assert all[0] != all[1 + |sub| + k];
    }
  }

  /** What the entry becomes, and that nothing else changes. */
  lemma UsedWrites(m: Memory, t: nat, i: Index, asUser: bool, supply: seq<nat>, news: seq<nat>)
    requires At(m, t)[i] != UNUSED && !At(m, t)[i].huge && t !in news
    ensures var e, c := At(m, t)[i], CreateNext(m, t, i, asUser, supply);
            && c.next == Ok(e.frame) && c.supply == supply
            && LinkedAt(e, At(c.mem, t)[i], e.frame, true, asUser)
            && Stepped(m, c.mem, t, i, news, news)
  {
  }

  /** Through an entry that leads to a table. */
  lemma ThroughUsed(m: Memory, t: nat, level: nat, v: VAddr, asUser: bool, supply: seq<nat>)
    requires 2 <= level <= 4 && Distinct(Path(m, t, level, v) + supply)
    requires At(m, t)[v.IndexAt(level)] != UNUSED && !At(m, t)[v.IndexAt(level)].huge
    ensures var e, m1 := At(m, t)[v.IndexAt(level)], CreateNext(m, t, v.IndexAt(level), asUser, supply).mem;
            var sub := Path(m, e.frame, level - 1, v);
            && Path(m, t, level, v) == [t] + sub && Path(m1, e.frame, level - 1, v) == sub
            && Distinct(sub + supply) && t !in sub && t !in supply
            && Last(m1, e.frame, level - 1, v) == Last(m, t, level, v)
  {
    hide Distinct, CreateNext, SetEntry, LinkedAt;
    var i := v.IndexAt(level);
    var e, m1 := At(m, t)[i], CreateNext(m, t, i, asUser, supply).mem;
    var path, sub := Path(m, t, level, v), Path(m, e.frame, level - 1, v);
    assert path == [t] + sub;
    UsedWrites(m, t, i, asUser, supply, []);
    DistinctParts(t, sub, supply);
    PathReads(m, m1, e.frame, level - 1, v);
    hide Path;
    assert path[|path| - 1] == sub[|sub| - 1] && sub[|sub| - 1] in sub;
  }

  lemma AnswerThroughUsed(m: Memory, t: nat, level: nat, v: VAddr, asUser: bool, supply: seq<nat>)
    requires 2 <= level <= 4 && Distinct(Path(m, t, level, v) + supply)
    requires At(m, t)[v.IndexAt(level)] != UNUSED && !At(m, t)[v.IndexAt(level)].huge
    ensures var e, c := At(m, t)[v.IndexAt(level)], CreateNext(m, t, v.IndexAt(level), asUser, supply);
            && Answer(c.mem, e.frame, level - 1, v, supply) == Answer(m, t, level, v, supply)
            && Distinct(Path(c.mem, e.frame, level - 1, v) + supply)
  {
    ThroughUsed(m, t, level, v, asUser, supply);
    hide CreateNext, Path, Last, Distinct;
  }

  lemma EnoughFrames(m: Memory, t: nat, level: nat, v: VAddr, supply: seq<nat>)
    requires 1 <= level <= 4 && Answer(m, t, level, v, supply).Ok?
    ensures level - |Path(m, t, level, v)| <= |supply|
  {
    hide Path, Last;
  }

  lemma UsedWay(m: Memory, m1: Memory, t: nat, next: nat, level: nat, v: VAddr, supply: seq<nat>)
    requires 2 <= level <= 4 && Answer(m, t, level, v, supply).Ok? && Answer(m1, next, level - 1, v, supply).Ok?
    requires Path(m, t, level, v) == [t] + Path(m1, next, level - 1, v)
    requires t !in Path(m1, next, level - 1, v) && t !in supply
    ensures var way := Way(m, t, level, v, supply);
            way[1..] == Way(m1, next, level - 1, v, supply) && way[1] == next && t !in way[1..]
  {
    hide Path, Answer;
    EnoughFrames(m, t, level, v, supply);
    var path, sub := Path(m, t, level, v), Path(m1, next, level - 1, v);
    var news := supply[..level - |path|];
    assert ([t] + sub + news)[1..] == sub + news;
  }

  lemma UsedExact(m: Memory, t: nat, level: nat, v: VAddr, frame: nat, asUser: bool, supply: seq<nat>, r: Mapped)
    requires 2 <= level <= 4 && Distinct(Path(m, t, level, v) + supply) && Answer(m, t, level, v, supply).Ok?
    requires At(m, t)[v.IndexAt(level)] != UNUSED && !At(m, t)[v.IndexAt(level)].huge
    requires var e, c := At(m, t)[v.IndexAt(level)], CreateNext(m, t, v.IndexAt(level), asUser, supply);
             Answer(c.mem, e.frame, level - 1, v, supply).Ok? &&
             Exact(c.mem, r, e.frame, level - 1, v, frame, asUser, supply)
    ensures Exact(m, r, t, level, v, frame, asUser, supply)
  {
    hide *;
    ThroughUsed(m, t, level, v, asUser, supply);
    var next, m1 := At(m, t)[v.IndexAt(level)].frame, CreateNext(m, t, v.IndexAt(level), asUser, supply).mem;
    UsedWay(m, m1, t, next, level, v, supply);
    UsedExactUp(m, m1, t, next, level, v, frame, asUser, supply, r);
  }

  lemma UsedExactUp(
    m: Memory, m1: Memory, t: nat, next: nat, level: nat, v: VAddr, frame: nat, asUser: bool, supply: seq<nat>,
    r: Mapped)
    requires 2 <= level <= 4 && Answer(m, t, level, v, supply).Ok? && Answer(m1, next, level - 1, v, supply).Ok?
    requires At(m, t)[v.IndexAt(level)] != UNUSED && !At(m, t)[v.IndexAt(level)].huge && t !in supply
    requires next == At(m, t)[v.IndexAt(level)].frame
    requires m1 == CreateNext(m, t, v.IndexAt(level), asUser, supply).mem
    requires |Path(m, t, level, v)| == 1 + |Path(m1, next, level - 1, v)|
    requires var way := Way(m, t, level, v, supply);
             way[1..] == Way(m1, next, level - 1, v, supply) && way[1] == next && t !in way[1..]
    requires Exact(m1, r, next, level - 1, v, frame, asUser, supply)
    ensures Exact(m, r, t, level, v, frame, asUser, supply)
  {
    hide At, CreateNext, Path, Linked, RestKept, LinkedAt, Answer, Way, Stepped;
    EnoughFrames(m, t, level, v, supply);
    var had := |Path(m, t, level, v)|;
    var way, news := Way(m, t, level, v, supply), supply[..level - had];
    UsedWrites(m, t, v.IndexAt(level), asUser, supply, news);
    ExactUp(m, m1, r, t, level, v, frame, asUser, way, news, news, had, had - 1);
  }

  /** Through an entry that is unused: a new table. */
  lemma FreshTable(m: Memory, t: nat, level: nat, v: VAddr, asUser: bool, supply: seq<nat>)
    requires 2 <= level <= 4 && At(m, t)[v.IndexAt(level)] == UNUSED && supply != [] && supply[0] != t
    ensures var i, c := v.IndexAt(level), CreateNext(m, t, v.IndexAt(level), asUser, supply);
            && c.next == Ok(supply[0]) && c.supply == supply[1..]
            && At(c.mem, supply[0]) == ZeroTable()
            && LinkedAt(At(m, t)[i], At(c.mem, t)[i], supply[0], false, asUser)
            && Stepped(m, c.mem, t, i, [supply[0]], [])
            && Path(m, t, level, v) == [t] && Path(c.mem, supply[0], level - 1, v) == [supply[0]]
            && Last(m, t, level, v) == UNUSED && Last(c.mem, supply[0], level - 1, v) == UNUSED
  {
  }

  lemma AnswerThroughNew(m: Memory, t: nat, level: nat, v: VAddr, asUser: bool, supply: seq<nat>)
    requires 2 <= level <= 4 && At(m, t)[v.IndexAt(level)] == UNUSED && Distinct([t] + supply) && supply != []
    ensures var c := CreateNext(m, t, v.IndexAt(level), asUser, supply);
            && supply[0] != t
            && Answer(c.mem, supply[0], level - 1, v, supply[1..]) == Answer(m, t, level, v, supply)
            && (Answer(m, t, level, v, supply).Ok? <==> level - 1 <= |supply|)
            && Distinct(Path(c.mem, supply[0], level - 1, v) + supply[1..])
  {
    FirstIsOther(t, supply);
    FreshTable(m, t, level, v, asUser, supply);
    hide CreateNext, Path, Last, Distinct;
    assert [supply[0]] + supply[1..] == supply;
  }

  lemma FirstIsOther(t: nat, supply: seq<nat>)
    requires Distinct([t] + supply) && supply != []
    ensures supply[0] != t && t !in supply && Distinct(supply)
  {
    assert [t] + [] + supply == [t] + supply && [] + supply == supply;
    DistinctParts(t, [], supply);
  }

  lemma NewExact(m: Memory, t: nat, level: nat, v: VAddr, frame: nat, asUser: bool, supply: seq<nat>, r: Mapped)
    requires 2 <= level <= 4 && Distinct([t] + supply) && At(m, t)[v.IndexAt(level)] == UNUSED
    requires level - 1 <= |supply| && Answer(m, t, level, v, supply).Ok?
    requires var c := CreateNext(m, t, v.IndexAt(level), asUser, supply);
             Answer(c.mem, supply[0], level - 1, v, supply[1..]).Ok? &&
             Exact(c.mem, r, supply[0], level - 1, v, frame, asUser, supply[1..])
    ensures Exact(m, r, t, level, v, frame, asUser, supply)
  {
    hide *;
    FirstIsOther(t, supply);
    FreshTable(m, t, level, v, asUser, supply);
    var m1 := CreateNext(m, t, v.IndexAt(level), asUser, supply).mem;
    NewWay(m, m1, t, level, v, supply);
    NewStepped(m, m1, t, v.IndexAt(level), level, supply);
    NewExactUp(m, m1, t, level, v, frame, asUser, supply, r);
  }

  lemma NewWay(m: Memory, m1: Memory, t: nat, level: nat, v: VAddr, supply: seq<nat>)
    requires 2 <= level <= 4 && level - 1 <= |supply| && t !in supply
    requires Answer(m, t, level, v, supply).Ok? && Answer(m1, supply[0], level - 1, v, supply[1..]).Ok?
    requires Path(m, t, level, v) == [t] && Path(m1, supply[0], level - 1, v) == [supply[0]]
    ensures var way := Way(m, t, level, v, supply);
            way[1..] == Way(m1, supply[0], level - 1, v, supply[1..]) && way[1] == supply[0] && t !in way[1..]
  {
    hide Path, Answer;
    assert ([t] + supply[..level - 1])[1..] == supply[..level - 1] == [supply[0]] + supply[1..][..level - 2];
  }

  lemma NewStepped(m: Memory, m1: Memory, t: nat, i: Index, level: nat, supply: seq<nat>)
    requires 2 <= level && level - 1 <= |supply| && Distinct(supply) && t !in supply
    requires Stepped(m, m1, t, i, [supply[0]], [])
    ensures Stepped(m, m1, t, i, supply[..level - 1], supply[1..][..level - 2])
  {
    var news, news' := supply[..level - 1], supply[1..][..level - 2];
    assert news == [supply[0]] + news';
    assert supply[0] !in news' by {
      forall k | 0 <= k < |news'| ensures news'[k] != supply[0] {
        assert news'[k] == supply[k + 1];
      }
    }
  }

  lemma NewExactUp(
    m: Memory, m1: Memory, t: nat, level: nat, v: VAddr, frame: nat, asUser: bool, supply: seq<nat>, r: Mapped)
    requires 2 <= level <= 4 && level - 1 <= |supply|
    requires Answer(m, t, level, v, supply).Ok? && Answer(m1, supply[0], level - 1, v, supply[1..]).Ok?
    requires |Path(m, t, level, v)| == 1 == |Path(m1, supply[0], level - 1, v)|
    requires LinkedAt(At(m, t)[v.IndexAt(level)], At(m1, t)[v.IndexAt(level)], supply[0], false, asUser)
    requires Stepped(m, m1, t, v.IndexAt(level), supply[..level - 1], supply[1..][..level - 2])
    requires var way := Way(m, t, level, v, supply);
             way[1..] == Way(m1, supply[0], level - 1, v, supply[1..]) && way[1] == supply[0] && t !in way[1..]
    requires Exact(m1, r, supply[0], level - 1, v, frame, asUser, supply[1..])
    ensures Exact(m, r, t, level, v, frame, asUser, supply)
  {
    hide At, Path, Linked, RestKept, LinkedAt, Answer, Way, Stepped;
    var way, news, news' := Way(m, t, level, v, supply), supply[..level - 1], supply[1..][..level - 2];
    assert supply[1..][level - 2..] == supply[level - 1..];
    ExactUp(m, m1, r, t, level, v, frame, asUser, way, news, news', 1, 1);
  }

  /** The two ways a descent ends before its last table. */
  lemma EndsHere(m: Memory, t: nat, level: nat, v: VAddr, frame: nat, asUser: bool, supply: seq<nat>)
    requires 2 <= level <= 4
    ensures var e, answer := At(m, t)[v.IndexAt(level)], Answer(m, t, level, v, supply);
            && (e == UNUSED ==> Path(m, t, level, v) == [t])
            && ((e == UNUSED && supply == []) || (e != UNUSED && e.huge) ==>
                  answer.Err? && MapFrom(m, t, level, v, frame, asUser, supply).result == answer)
  {
  }

  /** The answer and, if it is Ok, every entry. */
  lemma {:induction false} MapFromExact(
    m: Memory, t: nat, level: nat, v: VAddr, frame: nat, asUser: bool, supply: seq<nat>)
    requires 1 <= level <= 4 && Distinct(Path(m, t, level, v) + supply)
    ensures MapFrom(m, t, level, v, frame, asUser, supply).result == Answer(m, t, level, v, supply)
    ensures Answer(m, t, level, v, supply).Ok? ==>
              Exact(m, MapFrom(m, t, level, v, frame, asUser, supply), t, level, v, frame, asUser, supply)
    decreases level
  {
    hide Path, Last, Answer, CreateNext, Exact, Distinct;
    if level == 1 {
      ExactAtLast(m, t, v, frame, asUser, supply);
    } else {
      var e, c := At(m, t)[v.IndexAt(level)], CreateNext(m, t, v.IndexAt(level), asUser, supply);
      EndsHere(m, t, level, v, frame, asUser, supply);
      if e == UNUSED && supply != [] {
        AnswerThroughNew(m, t, level, v, asUser, supply);
        FreshTable(m, t, level, v, asUser, supply);
        MapFromExact(c.mem, supply[0], level - 1, v, frame, asUser, supply[1..]);
        if Answer(m, t, level, v, supply).Ok? {
          var r := MapFrom(c.mem, supply[0], level - 1, v, frame, asUser, supply[1..]);
          NewExact(m, t, level, v, frame, asUser, supply, r);
        }
      } else if e != UNUSED && !e.huge {
        AnswerThroughUsed(m, t, level, v, asUser, supply);
        UsedWrites(m, t, v.IndexAt(level), asUser, supply, []);
        MapFromExact(c.mem, e.frame, level - 1, v, frame, asUser, supply);
        if Answer(m, t, level, v, supply).Ok? {
          var r := MapFrom(c.mem, e.frame, level - 1, v, frame, asUser, supply);
          UsedExact(m, t, level, v, frame, asUser, supply, r);
        }
      }
    }
  }

  /** `map_to` of any page into any tree of tables, for the kernel or for user code, with frames that are
      in none of the tables on the way. */
  lemma MapToIsExact(m: Memory, root: nat, v: VAddr, frame: nat, asUser: bool, supply: seq<nat>)
    requires Distinct(Path(m, root, 4, v) + supply)
    ensures MapTo(m, root, v, frame, asUser, supply).result == Answer(m, root, 4, v, supply)
    ensures Answer(m, root, 4, v, supply).Ok? ==>
              && Exact(m, MapTo(m, root, v, frame, asUser, supply), root, 4, v, frame, asUser, supply)
              && Translate(MapTo(m, root, v, frame, asUser, supply).mem, root, v) == Some(frame * 0x1000 + v.off)
  {
    MapToDescends(m, root, v, frame, asUser, supply);
    MapFromExact(m, root, 4, v, frame, asUser, supply);
    if Answer(m, root, 4, v, supply).Ok? {
      var m' := MapTo(m, root, v, frame, asUser, supply).mem;
      var way, had := Way(m, root, 4, v, supply), |Path(m, root, 4, v)|;
      assert Linked(m, m', way, had, v, frame, asUser);
      hide MapTo, MapFrom, Path, Way, Answer, RestKept, Distinct;
      LinkedWalk(m, m', way, had, v, frame, asUser);
    }
  }

  lemma LinkedWalk(m: Memory, m': Memory, way: seq<nat>, had: nat, v: VAddr, frame: nat, asUser: bool)
    requires |way| == 4 && Linked(m, m', way, had, v, frame, asUser)
    ensures Translate(m', way[0], v) == Some(frame * 0x1000 + v.off)
  {
    assert At(m', way[0])[v.IndexAt(4 - 0)].LeadsTo(way[0 + 1]);
    assert At(m', way[1])[v.IndexAt(4 - 1)].LeadsTo(way[1 + 1]);
    assert At(m', way[2])[v.IndexAt(4 - 2)].LeadsTo(way[2 + 1]);
    assert Walk(m', way[0], 4, v) == Walk(m', way[1], 3, v) == Walk(m', way[2], 2, v) == Walk(m', way[3], 1, v);
  }
}
