/**
 `map_mmio`: make every 4-KiB page that meets a physical range reachable at its direct-map address,
 over the mapper's contract (insert if absent, allocate missing tables, fail if mapped).
 */
module MapMmio {
  import F = Frames

  const PAGE: nat := 4096

  datatype Flags = Flags(present: bool, writable: bool, noCache: bool)

  datatype Mapping = Mapping(frame: nat, flags: Flags)

  datatype MapResult = Inserted | PageAlreadyMapped | ParentEntryHugePage | FrameAllocationFailed

  const MMIO_FLAGS: Flags := Flags(true, true, true)

  // The tables a page's walk needs below the root: levels 3, 2 and 1 cover 2^27, 2^18 and 2^9 pages.
  function TablesFor(page: nat): set<(nat, nat)> {
    {(3, page / 0x800_0000), (2, page / 0x4_0000), (1, page / 0x200)}
  }

  // A page needs the level-1 table of its 2-MiB region, the level-2 table of its 1-GiB region and the
  // level-3 table of its 512-GiB region, so pages share a table exactly when they share the region.
  lemma TablesByRegion(page: nat, level: nat, i: nat)
    ensures (level, i) in TablesFor(page) <==>
      || (level == 1 && i * 512 <= page < i * 512 + 512)
      || (level == 2 && i * 512 * 512 <= page < i * 512 * 512 + 512 * 512)
      || (level == 3 && i * 512 * 512 * 512 <= page < i * 512 * 512 * 512 + 512 * 512 * 512)
    ensures |TablesFor(page)| == 3
  {
    var a, b, c := (3, page / 0x800_0000), (2, page / 0x4_0000), (1, page / 0x200);
    assert TablesFor(page) == {a} + {b} + {c};
  }

  // Mapped for devices: present, writable and uncached.
  lemma MmioFlags()
    ensures MMIO_FLAGS.present && MMIO_FLAGS.writable && MMIO_FLAGS.noCache
  {
  }

  class AddressSpace {
    var pages: map<nat, Mapping>      // page number to its 4-KiB mapping
    const hugePages: set<nat>         // pages covered by a larger mapping
    var tables: set<(nat, nat)>       // intermediate tables that exist
    const frames: F.FrameAllocator

    constructor (pages: map<nat, Mapping>, hugePages: set<nat>, tables: set<(nat, nat)>, frames: F.FrameAllocator)
      ensures this.pages == pages && this.hugePages == hugePages && this.tables == tables && this.frames == frames
    {
      this.pages, this.hugePages, this.tables, this.frames := pages, hugePages, tables, frames;
    }

    // Walk down, creating the tables that are missing, each from one frame.
    method CreateTables(page: nat) returns (ok: bool)
      modifies this`tables, frames`free, frames`handed
      ensures ok <==> |TablesFor(page) - old(tables)| <= |old(frames.free)|
      ensures ok ==> tables == old(tables) + TablesFor(page)
      ensures ok ==> |frames.free| == |old(frames.free)| - |TablesFor(page) - old(tables)|
    {
      var missing := TablesFor(page) - tables;
      while missing != {}
        invariant missing !! tables && tables + missing == old(tables) + TablesFor(page)
        invariant |frames.free| - |missing| == |old(frames.free)| - |TablesFor(page) - old(tables)|
        decreases missing
      {
        var t :| t in missing;
        var f := frames.AllocFrame();
        if f.None? {
          return false;
        }
        tables := tables + {t};
        missing := missing - {t};
      }
      return true;
    }

    // The mapper: an address that is already mapped, at any size, keeps its mapping.
    method MapTo(page: nat, frame: nat, flags: Flags) returns (r: MapResult)
      modifies this`pages, this`tables, frames`free, frames`handed
      ensures r.ParentEntryHugePage? <==> page in hugePages
      ensures r.FrameAllocationFailed? <==> page !in hugePages && |TablesFor(page) - old(tables)| > |old(frames.free)|
      ensures r.PageAlreadyMapped? ==> page in old(pages)
      ensures r.Inserted? ==> page !in old(pages) && pages == old(pages)[page := Mapping(frame, flags)]
      ensures !r.Inserted? ==> pages == old(pages)
      ensures r.ParentEntryHugePage? ==> tables == old(tables) && frames.free == old(frames.free)
      ensures r.PageAlreadyMapped? || r.Inserted? ==>
        && tables == old(tables) + TablesFor(page)
        && |frames.free| == |old(frames.free)| - |TablesFor(page) - old(tables)|
    {
      if page in hugePages {
        return ParentEntryHugePage;
      }
      var ok := CreateTables(page);
      if !ok {
        return FrameAllocationFailed;
      }
      if page in pages {
        return PageAlreadyMapped;
      }
      pages := pages[page := Mapping(frame, flags)];
      return Inserted;
    }

    // Returns false where the code panics: out of frames for a table.
    method MapMmio(phys: nat, length: nat, hhdm: nat) returns (ok: bool)
      requires hhdm % PAGE == 0
      modifies this`pages, this`tables, frames`free, frames`handed
      ensures Extends(old(pages), pages, hugePages, phys + hhdm, length, hhdm)
      ensures ok ==> forall page :: MeetsRange(page, phys + hhdm, length) ==> page in pages || page in hugePages
      ensures ok <==> |RangeTables(phys + hhdm, length, hugePages) - old(tables)| <= |old(frames.free)|
      ensures ok ==>
        && tables == old(tables) + RangeTables(phys + hhdm, length, hugePages)
        && |frames.free| == |old(frames.free)| - |RangeTables(phys + hhdm, length, hugePages) - old(tables)|
    {
      hide RangeTables, TablesFor, Needed, Extends, Covered, MeetsRange, Paid;
      var virtStart := (phys + hhdm) / PAGE * PAGE;
      var virtEnd := (phys + hhdm + length + (PAGE - 1)) / PAGE * PAGE;
      var physStart := phys / PAGE * PAGE;
      RangeStart(phys, hhdm);
      var v, p := virtStart, physStart;
      ghost var first, last, page := virtStart / PAGE, virtEnd / PAGE, virtStart / PAGE;
      RangeBegin(phys + hhdm, hhdm, length, pages, hugePages);
      PaidNothing(tables, |frames.free|);
      while v < virtEnd
        invariant v == page * PAGE && p == v - hhdm && v >= hhdm
        invariant first <= page <= last || last <= first == page
        invariant Extends(old(pages), pages, hugePages, phys + hhdm, length, hhdm)
        invariant Covered(pages, hugePages, first, page)
        invariant Paid(old(tables), |old(frames.free)|, tables, |frames.free|, Needed(first, page, hugePages))
        decreases virtEnd - v
      {
        RangePages(phys, hhdm, length, page);
        ExtendsOne(old(pages), pages, hugePages, phys + hhdm, length, hhdm, first, page);
        PaidStep(old(tables), |old(frames.free)|, tables, |frames.free|, first, page, hugePages);
        NeededGrows(first, page + 1, last, hugePages, old(tables));
        var r := MapTo(v / PAGE, p, MMIO_FLAGS);
        if r.FrameAllocationFailed? {
          return false;
        }
        v := v + PAGE;
        p := p + PAGE;
        page := page + 1;
      }
      RangeDone(phys, hhdm, length, page, pages, hugePages);
      PaidDone(old(tables), |old(frames.free)|, tables, |frames.free|, Needed(first, page, hugePages));
      return true;
    }
  }

  // Old mappings are kept; each new one is a page of the range at its direct-map frame, uncached.
  ghost predicate Extends(before: map<nat, Mapping>, after: map<nat, Mapping>, huge: set<nat>, start: nat, length: nat,
                          hhdm: nat)
  {
    && (forall page :: page in before ==> page in after && after[page] == before[page])
    && (forall page :: page in after && page !in before ==>
          && page * PAGE >= hhdm && page !in huge && MeetsRange(page, start, length)
          && after[page].frame == page * PAGE - hhdm
          && after[page].flags.present && after[page].flags.writable && after[page].flags.noCache)
  }

  ghost predicate Covered(pages: map<nat, Mapping>, huge: set<nat>, lo: nat, hi: nat) {
    forall page :: lo <= page < hi ==> page in pages || page in huge
  }

  lemma ExtendsOne(before: map<nat, Mapping>, mid: map<nat, Mapping>, huge: set<nat>, start: nat, length: nat,
                   hhdm: nat, lo: nat, page: nat)
    requires Extends(before, mid, huge, start, length, hhdm) && Covered(mid, huge, lo, page)
    requires MeetsRange(page, start, length) && page * PAGE >= hhdm
    ensures page !in huge && page !in mid ==>
      var after := mid[page := Mapping(page * PAGE - hhdm, MMIO_FLAGS)];
      Extends(before, after, huge, start, length, hhdm) && Covered(after, huge, lo, page + 1)
    ensures page in huge || page in mid ==> Covered(mid, huge, lo, page + 1)
  {
  }

  lemma RangeBegin(start: nat, hhdm: nat, length: nat, pages: map<nat, Mapping>, huge: set<nat>)
    ensures Extends(pages, pages, huge, start, length, hhdm) && Covered(pages, huge, start / PAGE, start / PAGE)
    ensures Needed(start / PAGE, start / PAGE, huge) == {}
    ensures RangeTables(start, length, huge) == Needed(start / PAGE, (start + length + (PAGE - 1)) / PAGE, huge)
  {
  }

  lemma RangeDone(phys: nat, hhdm: nat, length: nat, at: nat, pages: map<nat, Mapping>, huge: set<nat>)
    requires hhdm % PAGE == 0
    requires var first, last := (phys + hhdm) / PAGE, (phys + hhdm + length + (PAGE - 1)) / PAGE;
      (at == last || last <= first == at) && Covered(pages, huge, first, at)
    ensures RangeTables(phys + hhdm, length, huge) == Needed((phys + hhdm) / PAGE, at, huge)
    ensures forall page :: MeetsRange(page, phys + hhdm, length) ==> page in pages || page in huge
  {
    forall page | MeetsRange(page, phys + hhdm, length) ensures page in pages || page in huge {
      RangePages(phys, hhdm, length, page);
    }
  }

  // `needed` has been made out of `before`, one frame for each table that was missing.
  ghost predicate Paid(before: set<(nat, nat)>, free0: nat, tables: set<(nat, nat)>, free: nat,
                       needed: set<(nat, nat)>)
  {
    tables == before + needed && free == free0 - |needed - before|
  }

  lemma PaidNothing(before: set<(nat, nat)>, free: nat)
    ensures Paid(before, free, before, free, {})
  {
    assert {} - before == {};
  }

  lemma PaidDone(before: set<(nat, nat)>, free0: nat, tables: set<(nat, nat)>, free: nat, needed: set<(nat, nat)>)
    requires Paid(before, free0, tables, free, needed)
    ensures tables == before + needed && free == free0 - |needed - before| && |needed - before| <= free0
  {
  }

  lemma PaidStep(before: set<(nat, nat)>, free0: nat, tables: set<(nat, nat)>, free: nat, lo: nat, page: nat,
                 huge: set<nat>)
    requires lo <= page && Paid(before, free0, tables, free, Needed(lo, page, huge))
    ensures page in huge ==> Paid(before, free0, tables, free, Needed(lo, page + 1, huge))
    ensures page !in huge ==>
      var missing := |TablesFor(page) - tables|;
      && (missing <= free ==>
            Paid(before, free0, tables + TablesFor(page), free - missing, Needed(lo, page + 1, huge)))
      && (missing > free ==> |Needed(lo, page + 1, huge) - before| > free0)
  {
    hide Needed, TablesFor;
    NeededStep(lo, page, huge, before);
  }

  // The tables the pages of [lo, hi) need, where no larger mapping covers the page.
  ghost function Needed(lo: nat, hi: nat, huge: set<nat>): set<(nat, nat)>
    decreases hi
  {
    if hi <= lo then {}
    else Needed(lo, hi - 1, huge) + (if hi - 1 in huge then {} else TablesFor(hi - 1))
  }

  ghost function RangeTables(start: nat, length: nat, huge: set<nat>): set<(nat, nat)> {
    Needed(start / PAGE, (start + length + (PAGE - 1)) / PAGE, huge)
  }

  lemma Disjoint<T>(a: set<T>, b: set<T>, t: set<T>)
    ensures |(a + b) - t| == |a - t| + |b - (t + a)|
  {
    assert (a + b) - t == (a - t) + (b - (t + a));
  }

  // One more page adds exactly the tables that are still missing.
  lemma NeededStep(lo: nat, page: nat, huge: set<nat>, t: set<(nat, nat)>)
    requires lo <= page
    ensures page in huge ==> Needed(lo, page + 1, huge) == Needed(lo, page, huge)
    ensures page !in huge ==>
      && Needed(lo, page + 1, huge) == Needed(lo, page, huge) + TablesFor(page)
      && |Needed(lo, page + 1, huge) - t| ==
         |Needed(lo, page, huge) - t| + |TablesFor(page) - (t + Needed(lo, page, huge))|
  {
    Disjoint(Needed(lo, page, huge), TablesFor(page), t);
  }

  lemma {:induction false} NeededGrows(lo: nat, mid: nat, hi: nat, huge: set<nat>, t: set<(nat, nat)>)
    requires lo <= mid <= hi
    ensures |Needed(lo, mid, huge) - t| <= |Needed(lo, hi, huge) - t|
    decreases hi
  {
    hide Needed, TablesFor;
    if mid < hi {
      NeededGrows(lo, mid, hi - 1, huge, t);
      NeededStep(lo, hi - 1, huge, t);
    }
  }

  // The page has a byte in [start, start + length), or is the unaligned page an empty range names.
  ghost predicate MeetsRange(page: nat, start: nat, length: nat) {
    start / PAGE <= page && page * PAGE < start + length + (if length == 0 && start % PAGE != 0 then 1 else 0)
  }

  lemma RangeStart(phys: nat, hhdm: nat)
    requires hhdm % PAGE == 0
    ensures (phys + hhdm) / PAGE * PAGE == phys / PAGE * PAGE + hhdm
  {
  }

  // Rounding the range out to page boundaries covers exactly the pages that meet it.
  lemma RangePages(phys: nat, hhdm: nat, length: nat, page: nat)
    requires hhdm % PAGE == 0
    ensures (phys + hhdm) / PAGE <= page < (phys + hhdm + length + (PAGE - 1)) / PAGE
       <==> MeetsRange(page, phys + hhdm, length)
  {
  }
}
