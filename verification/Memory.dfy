/** Physical frame allocators (src/memory.rs) and the boot hand-off between them (src/lib.rs). */
module FrameAllocators {
  import opened Wrappers

  datatype Region = Region(startAddr: nat, endAddr: nat, usable: bool)

  const PAGE: nat := 0x1000

  /** `(lo..hi).step_by(4096)`, each address turned into the frame containing it. */
  function FramesFrom(lo: nat, hi: nat): seq<nat>
    decreases hi - lo
  {
    if lo >= hi then [] else [lo / PAGE] + FramesFrom(lo + PAGE, hi)
  }

  /** The `usable_frames` iterator: every frame of every usable region, in map order. */
  function UsableFrames(regions: seq<Region>): seq<nat> {
    if regions == [] then []
    else (if regions[0].usable then FramesFrom(regions[0].startAddr, regions[0].endAddr)
        else []) + UsableFrames(regions[1..])
  }

  predicate Aligned(r: Region) {
    r.startAddr % PAGE == 0 && r.endAddr % PAGE == 0
  }

  predicate Apart(a: Region, b: Region) {
    a.endAddr <= b.startAddr || b.endAddr <= a.startAddr
  }

  ghost predicate GoodMap(regions: seq<Region>) {
    && (forall i :: 0 <= i < |regions| && regions[i].usable ==> Aligned(regions[i]))
    && (forall i, j :: 0 <= i < j < |regions| && regions[i].usable && regions[j].usable ==>
        Apart(regions[i], regions[j]))
  }

  /** A frame is enumerated exactly when a usable region holds it. */
  ghost predicate InRegion(r: Region, f: nat) {
    r.usable && r.startAddr <= f * PAGE < r.endAddr
  }

  lemma DistinctConcat(a: seq<nat>, b: seq<nat>)
    requires Distinct(a) && Distinct(b)
    requires forall f :: f in a ==> f !in b
    ensures Distinct(a + b)
  {
    forall i, j | 0 <= i < j < |a + b| ensures (a + b)[i] != (a + b)[j] {
      if i < |a| <= j {
        assert a[i] in a && b[j - |a|] in b;
      }
    }
  }

  lemma {:induction false} FramesFromExact(lo: nat, hi: nat)
    requires lo % PAGE == 0
    ensures Distinct(FramesFrom(lo, hi))
    ensures forall f :: f in FramesFrom(lo, hi) <==> lo <= f * PAGE < hi
    decreases hi - lo
  {
    if lo < hi {
      FramesFromExact(lo + PAGE, hi);
      DistinctConcat([lo / PAGE], FramesFrom(lo + PAGE, hi));
    }
  }

  /** Over disjoint page-aligned regions the enumeration holds every usable frame exactly once. */
  lemma {:induction false} UsableFramesExact(regions: seq<Region>)
    requires GoodMap(regions)
    ensures Distinct(UsableFrames(regions))
    ensures forall f :: f in UsableFrames(regions) <==> exists i :: 0 <= i < |regions| && InRegion(regions[i], f)
  {
    if regions != [] {
      UsableFramesExact(regions[1..]);
      var r := regions[0];
      if r.usable {
        FramesFromExact(r.startAddr, r.endAddr);
        var head, tail := FramesFrom(r.startAddr, r.endAddr), UsableFrames(regions[1..]);
        forall f, i | f in head && 0 <= i < |regions[1..]| ensures !InRegion(regions[1..][i], f) {
          assert regions[1..][i].usable ==> Apart(r, regions[i + 1]);
        }
        DistinctConcat(head, tail);
      }
      forall f ensures f in UsableFrames(regions) <==> exists i :: 0 <= i < |regions| && InRegion(regions[i], f) {
        if f in UsableFrames(regions[1..]) {
          var i :| 0 <= i < |regions[1..]| && InRegion(regions[1..][i], f);
          assert InRegion(regions[i + 1], f);
        }
        if exists i :: 0 <= i < |regions| && InRegion(regions[i], f) {
          var i :| 0 <= i < |regions| && InRegion(regions[i], f);
          if i > 0 {
            assert InRegion(regions[1..][i - 1], f);
          }
        }
      }
    }
  }

  ghost predicate Increasing(frames: seq<nat>) {
    forall i, j :: 0 <= i < j < |frames| ==> frames[i] < frames[j]
  }

  /** A memory map in address order. */
  ghost predicate InOrder(regions: seq<Region>) {
    && (forall i :: 0 <= i < |regions| && regions[i].usable ==> Aligned(regions[i]))
    && (forall i, j :: 0 <= i < j < |regions| && regions[i].usable && regions[j].usable ==>
          regions[i].endAddr <= regions[j].startAddr)
  }

  lemma IncreasingConcat(a: seq<nat>, b: seq<nat>)
    requires Increasing(a) && Increasing(b)
    requires forall f, g :: f in a && g in b ==> f < g
    ensures Increasing(a + b)
  {
    forall i, j | 0 <= i < j < |a + b| ensures (a + b)[i] < (a + b)[j] {
      if i < |a| <= j {
        assert a[i] in a && b[j - |a|] in b;
      }
    }
  }

  lemma {:induction false} FramesFromIncrease(lo: nat, hi: nat)
    requires lo % PAGE == 0
    ensures Increasing(FramesFrom(lo, hi))
    decreases hi - lo
  {
    if lo < hi {
      FramesFromIncrease(lo + PAGE, hi);
      FramesFromExact(lo + PAGE, hi);
      IncreasingConcat([lo / PAGE], FramesFrom(lo + PAGE, hi));
    }
  }

  /** Over a map in address order the enumeration increases. */
  lemma {:induction false} UsableFramesIncrease(regions: seq<Region>)
    requires InOrder(regions)
    ensures Increasing(UsableFrames(regions))
    decreases |regions|
  {
    if regions != [] {
      var r, rest := regions[0], regions[1..];
      UsableFramesIncrease(rest);
      if r.usable {
        OrderIsGood(rest);
        UsableFramesExact(rest);
        FramesFromIncrease(r.startAddr, r.endAddr);
        FramesFromExact(r.startAddr, r.endAddr);
        var head, tail := FramesFrom(r.startAddr, r.endAddr), UsableFrames(rest);
        forall f, g | f in head && g in tail ensures f < g {
          var i :| 0 <= i < |rest| && InRegion(rest[i], g);
          assert r.endAddr <= regions[i + 1].startAddr;
        }
        IncreasingConcat(head, tail);
      } else {
        assert UsableFrames(regions) == UsableFrames(rest);
      }
    }
  }

  lemma OrderIsGood(regions: seq<Region>)
    requires InOrder(regions)
    ensures GoodMap(regions)
  {
    forall i, j | 0 <= i < j < |regions| && regions[i].usable && regions[j].usable
      ensures Apart(regions[i], regions[j])
    {
    }
  }

  function Clip(i: nat, n: nat): nat {
    if i < n then i else n
  }

  class LinearFrameAllocator {
    const regions: seq<Region>
    var next: nat

    constructor (regions: seq<Region>)
      ensures this.regions == regions && next == 0
    {
      this.regions := regions;
      next := 0;
    }

    method GetUsed() returns (used: nat)
      ensures used == next
    {
      used := next;
    }

    /** Re-enumerates the map and takes the nth frame, after incrementing n. */
    method AllocateFrame() returns (r: Option<nat>)
      modifies this
      ensures next == old(next) + 1
      ensures r == if next < |UsableFrames(regions)| then Some(UsableFrames(regions)[next]) else None
    {
      next := next + 1;
      var frames := UsableFrames(regions);
      r := if next < |frames| then Some(frames[next]) else None;
    }
  }

  class BuddyAllocator {
    var frameIter: seq<nat>

    constructor (regions: seq<Region>, used: nat)
      ensures frameIter == UsableFrames(regions)[Clip(used, |UsableFrames(regions)|)..]
    {
      var frames := UsableFrames(regions);
      frameIter := frames[Clip(used, |frames|)..];
    }

    method AllocateFrame() returns (r: Option<nat>)
      modifies this
      ensures if old(frameIter) == [] then r == None && frameIter == []
              else r == Some(old(frameIter)[0]) && frameIter == old(frameIter)[1..]
    {
      if frameIter == [] {
        r := None;
      } else {
        r, frameIter := Some(frameIter[0]), frameIter[1..];
      }
    }
  }

  /** What `k` linear allocations issue, and what `j` allocations issue after skipping `skip`. */
  function LinearIssues(frames: seq<nat>, k: nat): seq<nat> {
    if frames == [] then [] else frames[1..1 + Clip(k, |frames| - 1)]
  }

  function BuddyIssues(frames: seq<nat>, skip: nat, j: nat): seq<nat> {
    frames[Clip(skip, |frames|)..Clip(skip + j, |frames|)]
  }

  lemma LinearGrows(frames: seq<nat>, k: nat)
    ensures LinearIssues(frames, k + 1) == LinearIssues(frames, k) + if k + 1 < |frames| then [frames[k + 1]] else []
  {
  }

  lemma BuddyGrows(frames: seq<nat>, skip: nat, j: nat)
    ensures BuddyIssues(frames, skip, j + 1) ==
        BuddyIssues(frames, skip, j) + if skip + j < |frames| then [frames[skip + j]] else []
    ensures frames[Clip(skip + j, |frames|)..] ==
              if skip + j < |frames| then [frames[skip + j]] + frames[Clip(skip + j + 1, |frames|)..] else []
  {
  }

  /** The boot sequence: `k` frames from the linear allocator, then `j` from its successor. */
  method Boot(regions: seq<Region>, k: nat, j: nat) returns (first: seq<nat>, second: seq<nat>)
    ensures first == LinearIssues(UsableFrames(regions), k)
    ensures second == BuddyIssues(UsableFrames(regions), k, j)
  {
    ghost var frames := UsableFrames(regions);
    var linear := new LinearFrameAllocator(regions);
    first, second := [], [];
    assert first == LinearIssues(frames, 0) && second == BuddyIssues(frames, k, 0);
    hide UsableFrames, LinearIssues, BuddyIssues;
    for i := 0 to k
      invariant linear.next == i && linear.regions == regions
      invariant first == LinearIssues(frames, i)
    {
      LinearGrows(frames, i);
      var r := linear.AllocateFrame();
      if r.Some? {
        first := first + [r.value];
      }
    }
    var used := linear.GetUsed();
    var buddy := new BuddyAllocator(regions, used);
    for i := 0 to j
      invariant second == BuddyIssues(frames, k, i)
      invariant buddy.frameIter == frames[Clip(k + i, |frames|)..]
    {
      BuddyGrows(frames, k, i);
      hide Clip;
      var r := buddy.AllocateFrame();
      if r.Some? {
        second := second + [r.value];
      }
    }
  }

  /** The hand-off reissues exactly one frame: the last one the linear allocator gave. */
  lemma HandOffOverlap(frames: seq<nat>, k: nat, j: nat, f: nat)
    requires Distinct(frames)
    ensures f in LinearIssues(frames, k) && f in BuddyIssues(frames, k, j) <==>
        1 <= k < |frames| && j >= 1 && f == frames[k]
  {
    var first, second := LinearIssues(frames, k), BuddyIssues(frames, k, j);
    if f in first && f in second {
      var a :| 0 <= a < |first| && first[a] == f;
      var b :| 0 <= b < |second| && second[b] == f;
      assert frames[a + 1] == frames[Clip(k, |frames|) + b];
    }
    if 1 <= k < |frames| && j >= 1 {
      assert first[k - 1] == frames[k] && second[0] == frames[k];
    }
  }

  /** No frame is issued twice over the whole boot if and only if the linear allocator was never
      used, or was used past its end, or its successor never is. */
  lemma HandOffDistinctIff(frames: seq<nat>, k: nat, j: nat)
    requires Distinct(frames)
    ensures Distinct(LinearIssues(frames, k) + BuddyIssues(frames, k, j)) <==> k == 0 || k >= |frames| || j == 0
  {
    var first, second := LinearIssues(frames, k), BuddyIssues(frames, k, j);
    if k == 0 || k >= |frames| || j == 0 {
      forall f | f in first ensures f !in second {
        HandOffOverlap(frames, k, j, f);
      }
      DistinctConcat(first, second);
    } else {
      assert (first + second)[k - 1] == frames[k] == (first + second)[k];
    }
  }

  /** Skipping one frame more makes every frame of every boot distinct; frame 0 is issued only
      by a boot that never used the linear allocator. */
  lemma RepairedHandOff(frames: seq<nat>, k: nat, j: nat)
    requires Distinct(frames)
    ensures Distinct(LinearIssues(frames, k) + BuddyIssues(frames, k + 1, j))
    ensures frames != [] && frames[0] in LinearIssues(frames, k) + BuddyIssues(frames, k, j) ==> k == 0
  {
    var first, second := LinearIssues(frames, k), BuddyIssues(frames, k + 1, j);
    forall a, b | 0 <= a < |first| && 0 <= b < |second| ensures first[a] != second[b] {
      assert first[a] == frames[a + 1] && second[b] == frames[k + 1 + b];
    }
    DistinctConcat(first, second);
    var late := BuddyIssues(frames, k, j);
    if k > 0 {
      forall a | 0 <= a < |first| ensures first[a] != frames[0] {
        assert first[a] == frames[a + 1];
      }
      forall b | 0 <= b < |late| ensures late[b] != frames[0] {
        assert late[b] == frames[k + b];
      }
    }
  }
}
