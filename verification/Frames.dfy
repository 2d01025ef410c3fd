/**
 The stack-of-frames physical allocator: `add_region`, `alloc_frame`, `free_frame`, and the boot
 code that fills it from the memory map.
 */
module Frames {
  import opened SeqFacts

  const FRAME_SIZE: nat := 4096

  datatype Kind = Usable | BootloaderReclaimable | Other

  datatype Region = Region(kind: Kind, base: nat, length: nat)

  // An aligned frame lying wholly inside [lo, hi).
  ghost predicate Inside(f: nat, lo: nat, hi: nat) {
    f % FRAME_SIZE == 0 && lo <= f && f + FRAME_SIZE <= hi
  }

  // (x + 4095) & !4095
  function AlignUp(x: nat): nat {
    (x + FRAME_SIZE - 1) / FRAME_SIZE * FRAME_SIZE
  }

  // x & !4095
  function AlignDown(x: nat): nat {
    x / FRAME_SIZE * FRAME_SIZE
  }

  // The frames from `base` on, `count` of them.
  function FrameRun(base: nat, count: nat): (r: seq<nat>)
    ensures |r| == count
    ensures forall i :: 0 <= i < count ==> r[i] == base + i * FRAME_SIZE
  {
    if count == 0 then [] else FrameRun(base, count - 1) + [base + (count - 1) * FRAME_SIZE]
  }

  // What `add_region(lo, hi - lo)` pushes.
  function RegionFrames(lo: nat, hi: nat): seq<nat> {
    var first, last := AlignUp(lo), AlignDown(hi);
    if last <= first then [] else FrameRun(first, (last - first) / FRAME_SIZE)
  }

  // They are exactly the aligned frames wholly inside, each once.
  lemma RegionExact(lo: nat, hi: nat)
    ensures NoDup(RegionFrames(lo, hi))
    ensures forall f: nat :: f in RegionFrames(lo, hi) <==> Inside(f, lo, hi)
  {
    var first, last := AlignUp(lo), AlignDown(hi);
    var r := RegionFrames(lo, hi);
    forall f: nat | f in r ensures Inside(f, lo, hi) {
      var i :| 0 <= i < |r| && r[i] == f;
      assert first % FRAME_SIZE == 0;
      assert f == first + i * FRAME_SIZE;
    }
    forall f: nat | Inside(f, lo, hi) ensures f in r {
      assert first <= f && f + FRAME_SIZE <= last;
      var i := (f - first) / FRAME_SIZE;
      assert r[i] == f;
    }
  }

  // The part of a usable region `init` adds: what ends before the heap, then what starts after it.
  function UsableFrames(lo: nat, hi: nat, heapLo: nat, heapHi: nat): seq<nat> {
    (if lo < heapLo then RegionFrames(lo, Min(hi, heapLo)) else [])
    + (if hi > heapHi then RegionFrames(Max(lo, heapHi), hi) else [])
  }

  function Min(a: nat, b: nat): nat {
    if a < b then a else b
  }

  function Max(a: nat, b: nat): nat {
    if a > b then a else b
  }

  ghost predicate AvoidsHeap(f: nat, heapLo: nat, heapHi: nat) {
    f + FRAME_SIZE <= heapLo || heapHi <= f
  }

  lemma UsableExact(lo: nat, hi: nat, heapLo: nat, heapHi: nat)
    requires heapLo < heapHi
    ensures NoDup(UsableFrames(lo, hi, heapLo, heapHi))
    ensures forall f: nat :: f in UsableFrames(lo, hi, heapLo, heapHi)
                        <==> Inside(f, lo, hi) && AvoidsHeap(f, heapLo, heapHi)
  {
    hide RegionFrames;
    RegionExact(lo, Min(hi, heapLo));
    RegionExact(Max(lo, heapHi), hi);
    var before := if lo < heapLo then RegionFrames(lo, Min(hi, heapLo)) else [];
    var after := if hi > heapHi then RegionFrames(Max(lo, heapHi), hi) else [];
    assert Elems(before) !! Elems(after);
    NoDupJoin(before, after);
    forall f: nat ensures f in before + after <==> Inside(f, lo, hi) && AvoidsHeap(f, heapLo, heapHi) {
      assert f in before + after <==> f in before || f in after;
    }
  }

  // Everything `init` pools, in order.
  function Pooled(entries: seq<Region>, heapLo: nat, heapHi: nat): seq<nat> {
    if entries == [] then []
    else
      var e := entries[|entries| - 1];
      Pooled(entries[..|entries| - 1], heapLo, heapHi)
      + if e.kind.Usable? then UsableFrames(e.base, e.base + e.length, heapLo, heapHi) else []
  }

  ghost predicate DisjointRegions(entries: seq<Region>) {
    forall i, j :: 0 <= i < j < |entries| ==>
      || entries[i].base + entries[i].length <= entries[j].base
      || entries[j].base + entries[j].length <= entries[i].base
  }

  // f lies wholly inside some entry of the given kind.
  ghost predicate InKind(f: nat, entries: seq<Region>, kind: Kind) {
    exists i :: 0 <= i < |entries| && entries[i].kind == kind
             && Inside(f, entries[i].base, entries[i].base + entries[i].length)
  }

  lemma InKindSnoc(f: nat, entries: seq<Region>, kind: Kind)
    requires entries != []
    ensures var e := entries[|entries| - 1];
      InKind(f, entries, kind)
      <==> InKind(f, entries[..|entries| - 1], kind) || (e.kind == kind && Inside(f, e.base, e.base + e.length))
  {
    var front := entries[..|entries| - 1];
    if InKind(f, front, kind) {
      var i :| 0 <= i < |front| && front[i].kind == kind && Inside(f, front[i].base, front[i].base + front[i].length);
      assert entries[i] == front[i];
    }
    if InKind(f, entries, kind) {
      var i :| 0 <= i < |entries| && entries[i].kind == kind
            && Inside(f, entries[i].base, entries[i].base + entries[i].length);
      assert i < |front| ==> front[i] == entries[i];
    }
  }

  // `init` pools exactly the aligned frames wholly inside usable memory that do not meet the heap,
  // each once.
  lemma {:induction false} PooledExact(entries: seq<Region>, heapLo: nat, heapHi: nat)
    requires DisjointRegions(entries) && heapLo < heapHi
    ensures NoDup(Pooled(entries, heapLo, heapHi))
    ensures forall f: nat :: f in Pooled(entries, heapLo, heapHi)
                        <==> InKind(f, entries, Usable) && AvoidsHeap(f, heapLo, heapHi)
  {
    hide UsableFrames, InKind;
    if entries == [] {
      forall f: nat ensures !InKind(f, entries, Usable) {
        NothingInside(f, Usable);
      }
    } else {
      var front, e := entries[..|entries| - 1], entries[|entries| - 1];
      PooledExact(front, heapLo, heapHi);
      UsableExact(e.base, e.base + e.length, heapLo, heapHi);
      var earlier, latest := Pooled(front, heapLo, heapHi),
                        if e.kind.Usable? then UsableFrames(e.base, e.base + e.length, heapLo, heapHi) else [];
      forall f: nat ensures InKind(f, entries, Usable)
                       <==> InKind(f, front, Usable) || (e.kind == Usable && Inside(f, e.base, e.base + e.length)) {
        InKindSnoc(f, entries, Usable);
      }
      forall f: nat | f in earlier ensures f !in latest {
        if f in latest {
          NotInBoth(f, entries, Usable);
        }
      }
      assert Elems(earlier) !! Elems(latest);
      NoDupJoin(earlier, latest);
      assert forall f: nat :: f in earlier + latest <==> f in earlier || f in latest;
    }
  }

  lemma NothingInside(f: nat, kind: Kind)
    ensures !InKind(f, [], kind)
  {
  }

  lemma NotInBoth(f: nat, entries: seq<Region>, kind: Kind)
    requires DisjointRegions(entries) && entries != []
    ensures var e := entries[|entries| - 1];
      !(InKind(f, entries[..|entries| - 1], kind) && Inside(f, e.base, e.base + e.length))
  {
  }

  // Everything `reclaim_bootloader` adds, in order.
  function Reclaimed(entries: seq<Region>): seq<nat> {
    if entries == [] then []
    else
      var e := entries[|entries| - 1];
      Reclaimed(entries[..|entries| - 1])
      + if e.kind.BootloaderReclaimable? then RegionFrames(e.base, e.base + e.length) else []
  }

  lemma {:induction false} ReclaimedExact(entries: seq<Region>)
    requires DisjointRegions(entries)
    ensures NoDup(Reclaimed(entries))
    ensures forall f: nat :: f in Reclaimed(entries) <==> InKind(f, entries, BootloaderReclaimable)
  {
    hide RegionFrames, InKind;
    if entries == [] {
      forall f: nat ensures !InKind(f, entries, BootloaderReclaimable) {
        NothingInside(f, BootloaderReclaimable);
      }
    } else {
      var front, e := entries[..|entries| - 1], entries[|entries| - 1];
      ReclaimedExact(front);
      RegionExact(e.base, e.base + e.length);
      var earlier, latest := Reclaimed(front),
                        if e.kind.BootloaderReclaimable? then RegionFrames(e.base, e.base + e.length) else [];
      forall f: nat ensures InKind(f, entries, BootloaderReclaimable) <==>
                       InKind(f, front, BootloaderReclaimable)
                       || (e.kind == BootloaderReclaimable && Inside(f, e.base, e.base + e.length)) {
        InKindSnoc(f, entries, BootloaderReclaimable);
      }
      forall f: nat | f in earlier ensures f !in latest {
        if f in latest {
          NotInBoth(f, entries, BootloaderReclaimable);
        }
      }
      assert Elems(earlier) !! Elems(latest);
      NoDupJoin(earlier, latest);
      assert forall f: nat :: f in earlier + latest <==> f in earlier || f in latest;
    }
  }

  // No frame lies inside two disjoint regions of different kinds.
  lemma KindsApart(f: nat, entries: seq<Region>, k1: Kind, k2: Kind)
    requires DisjointRegions(entries) && k1 != k2
    ensures !(InKind(f, entries, k1) && InKind(f, entries, k2))
  {
  }

  class FrameAllocator {
    var free: seq<nat>
    var totalAdded: nat
    // Frames handed out and not yet given back.
    ghost var handed: set<nat>

    // Every frame ever added is free or handed out, and never both or twice.
    ghost predicate Valid()
      reads this
    {
      NoDup(free) && Elems(free) !! handed && |free| + |handed| == totalAdded
    }

    constructor ()
      ensures Valid() && free == [] && handed == {} && totalAdded == 0
    {
      free, totalAdded, handed := [], 0, {};
    }

    method AddRegion(base: nat, length: nat)
      modifies this`free, this`totalAdded
      ensures free == old(free) + RegionFrames(base, base + length)
      ensures totalAdded == old(totalAdded) + |RegionFrames(base, base + length)|
      ensures old(Valid()) && Elems(RegionFrames(base, base + length)) !! Elems(old(free)) + handed ==> Valid()
    {
      var alignedBase, alignedEnd := AlignUp(base), AlignDown(base + length);
      RegionExact(base, base + length);
      if alignedEnd <= alignedBase {
        return;
      }
      var count := (alignedEnd - alignedBase) / FRAME_SIZE;
      for i := 0 to count
        invariant free == old(free) + FrameRun(alignedBase, i) && totalAdded == old(totalAdded)
      {
        free := free + [alignedBase + i * FRAME_SIZE];
      }
      totalAdded := totalAdded + count;
      if old(Valid()) && Elems(RegionFrames(base, base + length)) !! Elems(old(free)) + handed {
        NoDupJoin(old(free), RegionFrames(base, base + length));
      }
    }

    method AllocFrame() returns (r: Option<nat>)
      modifies this`free, this`handed
      ensures r.None? <==> old(free) == []
      ensures r.None? ==> free == old(free) && handed == old(handed)
      ensures r.Some? ==> old(free) == free + [r.value] && handed == old(handed) + {r.value}
      ensures old(Valid()) ==> Valid() && (r.Some? ==> r.value !in old(handed))
    {
      if free == [] {
        return None;
      }
      var f := free[|free| - 1];
      free := free[..|free| - 1];
      handed := handed + {f};
      assert old(free) == free + [f];
      assert f in Elems(old(free));
      ElemsConcat(free, [f]);
      return Some(f);
    }

    // The code takes any frame back.  The pool stays duplicate-free and apart from what is out exactly when
    // the frame was not in it, and its count right exactly when the frame was out.
    method FreeFrame(f: nat)
      modifies this`free, this`handed
      ensures free == old(free) + [f] && handed == old(handed) - {f}
      ensures old(Valid()) ==> (NoDup(free) && Elems(free) !! handed <==> f !in old(free))
      ensures old(Valid()) ==> (Valid() <==> f in old(handed))
    {
      free := free + [f];
      handed := handed - {f};
      ElemsConcat(old(free), [f]);
      if old(Valid()) {
        JoinIff(old(free), [f]);
        assert Elems([f]) == {f};
        if f !in old(handed) {
          assert handed == old(handed);
        }
      }
    }

    // Fill the pool from the memory map around the heap, then pop one frame and push it back.
    // Fails, as the `expect` does, exactly when nothing was pooled.
    method Init(entries: seq<Region>, heapLo: nat, heapHi: nat) returns (ok: bool)
      requires Valid() && free == [] && handed == {}
      requires DisjointRegions(entries) && heapLo < heapHi
      modifies this
      ensures free == Pooled(entries, heapLo, heapHi) && handed == {}
      ensures Valid() && (ok <==> free != [])
    {
      hide RegionFrames, UsableFrames;
      for i := 0 to |entries|
        invariant free == Pooled(entries[..i], heapLo, heapHi) && totalAdded == |free| && handed == {}
      {
        var e := entries[i];
        assert entries[..i + 1][..i] == entries[..i];
        if e.kind.Usable? {
          AddUsable(e.base, e.base + e.length, heapLo, heapHi);
        }
      }
      assert entries[..|entries|] == entries;
      PooledExact(entries, heapLo, heapHi);
      var test := AllocFrame();
      if test.None? {
        return false;
      }
      FreeFrame(test.value);
      return true;
    }

    method AddUsable(lo: nat, hi: nat, heapLo: nat, heapHi: nat)
      requires lo <= hi
      modifies this`free, this`totalAdded
      ensures free == old(free) + UsableFrames(lo, hi, heapLo, heapHi)
      ensures totalAdded == old(totalAdded) + |UsableFrames(lo, hi, heapLo, heapHi)|
    {
      hide RegionFrames;
      if lo < heapLo {
        AddRegion(lo, Min(hi, heapLo) - lo);
      }
      if hi > heapHi {
        AddRegion(Max(lo, heapHi), hi - Max(lo, heapHi));
      }
    }

    method ReclaimBootloader(entries: seq<Region>) returns (added: nat)
      modifies this`free, this`totalAdded
      ensures free == old(free) + Reclaimed(entries) && added == |Reclaimed(entries)|
      ensures totalAdded == old(totalAdded) + added
      ensures old(Valid()) && DisjointRegions(entries) ==>
        (Valid() <==> Elems(Reclaimed(entries)) !! Elems(old(free)) + handed)
    {
      hide RegionFrames;
      var before := |free|;
      for i := 0 to |entries|
        invariant free == old(free) + Reclaimed(entries[..i])
        invariant totalAdded == old(totalAdded) + |Reclaimed(entries[..i])|
      {
        assert entries[..i + 1][..i] == entries[..i];
        if entries[i].kind.BootloaderReclaimable? {
          AddRegion(entries[i].base, entries[i].length);
        }
      }
      assert entries[..|entries|] == entries;
      if old(Valid()) && DisjointRegions(entries) {
        ReclaimedExact(entries);
        JoinIff(old(free), Reclaimed(entries));
        ElemsConcat(old(free), Reclaimed(entries));
      }
      return |free| - before;
    }
  }

  lemma JoinIff(a: seq<nat>, b: seq<nat>)
    requires NoDup(a) && NoDup(b)
    ensures NoDup(a + b) <==> Elems(a) !! Elems(b)
  {
    if Elems(a) !! Elems(b) {
      NoDupJoin(a, b);
    } else {
      var x :| x in Elems(a) && x in Elems(b);
      var i, j :| 0 <= i < |a| && 0 <= j < |b| && a[i] == x == b[j];
      assert (a + b)[i] == (a + b)[|a| + j];
    }
  }
}
