/** kernel/memory/pmm.c: the bitmap allocator of physical pages. */
module Pmm {
  import opened Bits
  import opened Width

  const PAGE_SIZE := 4096
  const MAX_MEMORY := 4 * 1024 * 1024 * 1024
  const BITMAP_SIZE := MAX_MEMORY / PAGE_SIZE / 8
  const PMM_BITMAP_PHYS := 0x20_0000

  /** kernel_panic ends the run. */
  datatype Outcome = Panic | Address(phys: nat)

  datatype Region = Region(base: nat, length: nat, usable: bool)

  // ----- the allocator -----

  /** Pages lo .. hi-1. */
  function Pages(lo: nat, hi: nat): set<nat> { set p: nat | p < hi && AtLeast(p, lo) }

  predicate AtLeast(p: nat, lo: nat) { lo <= p }

  lemma PagesStep(lo: nat, hi: nat)
    requires lo <= hi
    ensures Pages(lo, hi + 1) == Pages(lo, hi) + {hi} && Pages(lo, lo) == {}
  {
    assert AtLeast(hi, lo);
  }

  lemma {:induction false} PagesCount(n: nat)
    ensures |Pages(0, n)| == n
  {
    if n > 0 {
      PagesCount(n - 1);
      PagesStep(0, n - 1);
    } else {
      PagesStep(0, 0);
    }
  }

  lemma OneFewer(s: set<nat>, x: nat)
    requires x in s
    ensures |s - {x}| == |s| - 1
  {
  }

  /** Pages s .. s+count-1 exist and are all free. */
  ghost predicate FreeRun(used: set<nat>, total: nat, s: nat, count: nat) {
    s + count <= total && Pages(s, s + count) !! used
  }

  /** The search for a run of no pages looks for one page. */
  function Wanted(count: nat): nat { if count == 0 then 1 else count }

  /** Pages the usable region r frees, and pages pmm_init reserves afterwards. */
  predicate Freed(r: Region, p: nat) {
    r.usable && (r.base + PAGE_SIZE - 1) % TWO64 / PAGE_SIZE <= p < (r.base + r.length) % TWO64 / PAGE_SIZE
  }

  predicate InPages(base: nat, length: nat, p: nat) {
    base / PAGE_SIZE <= p < base / PAGE_SIZE + (length + PAGE_SIZE - 1) % TWO64 / PAGE_SIZE
  }

  function BitmapBytes(total: nat): nat { if total % 8 != 0 then total / 8 + 1 else total / 8 }

  predicate Reserved(total: nat, p: nat) {
    || InPages(0, 0x80000, p)
    || InPages(0x100000, 0x100000, p)
    || InPages(PMM_BITMAP_PHYS, (BitmapBytes(total) + PAGE_SIZE - 1) / PAGE_SIZE * PAGE_SIZE, p)
  }

  /** The reserved pages: the lowest 512KB, the second megabyte, and behind that one page of bitmap for every 128MB. */
  lemma ReservedPages(total: nat, p: nat)
    requires total <= 0x10_0000
    ensures Reserved(total, p) <==> p < 128 || 256 <= p < 512 + (total + 32767) / 32768
  {
  }

  ghost predicate NeverFreed(regions: seq<Region>, n: nat, p: nat)
    requires n <= |regions|
  {
    forall i :: 0 <= i < n ==> !Freed(regions[i], p)
  }

  /** Where a region ends, in 64 bits. */
  function EndOf(r: Region): nat { (r.base + r.length) % TWO64 }

  /** The highest end of a usable region among the first n, 0 if there is none. */
  function HighestEnd(regions: seq<Region>, n: nat): (h: nat)
    requires n <= |regions|
    ensures forall i :: 0 <= i < n && regions[i].usable ==> EndOf(regions[i]) <= h
    ensures h == 0 || exists i :: 0 <= i < n && regions[i].usable && EndOf(regions[i]) == h
  {
    if n == 0 then 0
    else
      var h, r := HighestEnd(regions, n - 1), regions[n - 1];
      if r.usable && EndOf(r) > h then EndOf(r) else h
  }

  /** pmm_total_pages: the memory up to the highest usable end, at most 4GB of it, in whole pages. */
  function TotalPages(regions: seq<Region>): nat {
    var h := HighestEnd(regions, |regions|);
    (if h > MAX_MEMORY then MAX_MEMORY else h) / PAGE_SIZE
  }

  /** Every whole page of a usable region is managed, unless it lies above 4GB. */
  lemma UsableIsManaged(regions: seq<Region>, i: nat, p: nat)
    requires i < |regions| && Freed(regions[i], p) && p < 0x10_0000
    ensures p < TotalPages(regions)
  {
    assert EndOf(regions[i]) <= HighestEnd(regions, |regions|);
  }

  /** Page p of a region is freed exactly when all of it lies in the region, and the region is usable. */
  lemma FreedPages(r: Region, p: nat)
    requires r.base + r.length < TWO64 && r.base + 4095 < TWO64
    ensures Freed(r, p) <==> r.usable && r.base <= 4096 * p && 4096 * p + 4096 <= r.base + r.length
  {
  }

  /** The managed memory ends within the last page of some usable region, or at 4GB. */
  lemma TotalIsReached(regions: seq<Region>)
    ensures TotalPages(regions) <= 0x10_0000
    ensures 0 < TotalPages(regions) ==>
              exists i :: 0 <= i < |regions| && regions[i].usable && 4096 * TotalPages(regions) <= EndOf(regions[i])
  {
    var h := HighestEnd(regions, |regions|);
  }

  class PageAllocator {
    const bitmap: array<bv8>
    var total: nat
    var used: nat

    ghost predicate Shape()
      reads this
    {
      bitmap.Length == BITMAP_SIZE && total <= 8 * BITMAP_SIZE
    }

    predicate Used(p: nat)
      requires Shape() && p < 8 * BITMAP_SIZE
      reads this, bitmap
    {
      Bit(bitmap[p / 8], p % 8)
    }

    ghost function UsedPages(): set<nat>
      requires Shape()
      reads this, bitmap
    {
      set p: nat | p < total && Used(p)
    }

    /** The free pages that single allocations can find: those of whole 32-page groups. */
    ghost function Spare(): set<nat>
      requires Shape()
      reads this, bitmap
    {
      Pages(0, total / 32 * 32) - UsedPages()
    }

    /** pmm_used_pages counts the set bits below pmm_total_pages. */
    ghost predicate Valid()
      reads this, bitmap
    {
      Shape() && used == |UsedPages()|
    }

    method BitmapSet(page: nat)
      requires Shape() && page < 8 * BITMAP_SIZE
      modifies bitmap
      ensures forall q: nat :: q < 8 * BITMAP_SIZE ==> (Used(q) <==> q == page || old(Used(q)))
    {
      hide Bit, Mask;
      ghost var b := bitmap[page / 8];
      bitmap[page / 8] := bitmap[page / 8] | Mask(page % 8);
      forall q: nat | q < 8 * BITMAP_SIZE ensures Used(q) <==> q == page || old(Used(q)) {
        SetBit(b, page % 8, q % 8);
      }
    }

    method BitmapClear(page: nat)
      requires Shape() && page < 8 * BITMAP_SIZE
      modifies bitmap
      ensures forall q: nat :: q < 8 * BITMAP_SIZE ==> (Used(q) <==> q != page && old(Used(q)))
    {
      hide Bit, Mask;
      ghost var b := bitmap[page / 8];
      bitmap[page / 8] := bitmap[page / 8] & !Mask(page % 8);
      forall q: nat | q < 8 * BITMAP_SIZE ensures Used(q) <==> q != page && old(Used(q)) {
        ClearBit(b, page % 8, q % 8);
      }
    }

    /** Set the bit of a free page and count it. */
    method Take(page: nat)
      requires Valid() && page < total && !Used(page)
      modifies bitmap, this`used
      ensures Valid() && UsedPages() == old(UsedPages()) + {page}
      ensures forall q: nat :: q < 8 * BITMAP_SIZE ==> (Used(q) <==> q == page || old(Used(q)))
    {
      BitmapSet(page);
      used := used + 1;
      assert UsedPages() == old(UsedPages()) + {page};
    }

    /** Clear the bit of a used page and uncount it. */
    method Drop(page: nat)
      requires Valid() && page < total && Used(page)
      modifies bitmap, this`used
      ensures Valid() && UsedPages() == old(UsedPages()) - {page}
      ensures forall q: nat :: q < 8 * BITMAP_SIZE ==> (Used(q) <==> q != page && old(Used(q)))
    {
      OneFewer(UsedPages(), page);
      BitmapClear(page);
      used := used - 1;
      assert UsedPages() == old(UsedPages()) - {page};
    }

    predicate DwordFull(i: nat)
      requires Shape() && 4 * i + 3 < BITMAP_SIZE
      reads this, bitmap
    {
      Dword(bitmap[4 * i], bitmap[4 * i + 1], bitmap[4 * i + 2], bitmap[4 * i + 3]) == 0xFFFF_FFFF
    }

    lemma ByteFullMeans(j: nat)
      requires Shape() && j < BITMAP_SIZE
      ensures bitmap[j] == 0xFF <==> forall p: nat :: 8 * j <= p < 8 * j + 8 ==> Used(p)
    {
      FullByte(bitmap[j]);
      if forall p: nat :: 8 * j <= p < 8 * j + 8 ==> Used(p) {
        forall k | 0 <= k < 8 ensures Bit(bitmap[j], k) { assert Used(8 * j + k); }
      }
    }

    lemma DwordFullMeans(i: nat)
      requires Shape() && 4 * i + 3 < BITMAP_SIZE
      ensures DwordFull(i) <==> forall p: nat :: 32 * i <= p < 32 * i + 32 ==> Used(p)
    {
      FullDword(bitmap[4 * i], bitmap[4 * i + 1], bitmap[4 * i + 2], bitmap[4 * i + 3]);
      ByteFullMeans(4 * i);
      ByteFullMeans(4 * i + 1);
      ByteFullMeans(4 * i + 2);
      ByteFullMeans(4 * i + 3);
    }

    /** bitmap_find_free: the lowest free page of the first 32 * floor(total / 32), or -1. */
    method FindFree() returns (page: int)
      requires Shape()
      ensures page == -1 || 0 <= page < total / 32 * 32
      ensures page == -1 ==> forall p: nat :: p < total / 32 * 32 ==> Used(p)
      ensures page >= 0 ==> !Used(page) && forall p: nat :: p < page ==> Used(p)
    {
      var dwords := total / 32;
      for i := 0 to dwords
        invariant forall p: nat :: p < 32 * i ==> Used(p)
      {
        DwordFullMeans(i);
        if !DwordFull(i) {
          for bit := 0 to 32
            invariant forall p: nat :: p < 32 * i + bit ==> Used(p)
          {
            page := i * 32 + bit;
            if page < total && !Used(page) {
              return;
            }
          }
        }
      }
      page := -1;
    }

    /** bitmap_find_free_region: the leftmost free run of count pages (of one page for count 0), or -1. */
    method FindFreeRegion(count: nat) returns (r: int)
      requires Shape()
      ensures r >= -1
      ensures r == -1 ==> forall s: nat :: !FreeRun(UsedPages(), total, s, Wanted(count))
      ensures r >= 0 ==> FreeRun(UsedPages(), total, r, Wanted(count))
      ensures r >= 0 ==> forall s: nat :: s < r ==> !FreeRun(UsedPages(), total, s, Wanted(count))
    {
      var consecutive, start := 0, 0;
      for i := 0 to total
        invariant consecutive <= i && consecutive < Wanted(count)
        invariant consecutive > 0 ==> start == i - consecutive
        invariant forall p: nat :: i - consecutive <= p < i ==> !Used(p)
        invariant forall s: nat :: s < i - consecutive ==> !FreeRun(UsedPages(), total, s, Wanted(count))
      {
        if !Used(i) {
          if consecutive == 0 { start := i; }
          consecutive := consecutive + 1;
          if consecutive >= count {
            return start;
          }
        } else {
          forall s: nat | i - consecutive <= s < i + 1 ensures !FreeRun(UsedPages(), total, s, Wanted(count)) {
            assert AtLeast(i, s) && i in UsedPages();
            assert i in Pages(s, s + Wanted(count));
          }
          consecutive := 0;
        }
      }
      r := -1;
    }

    /** pmm_alloc_page.  It panics exactly when every page of whole 32-page groups is used. */
    method AllocPage() returns (r: Outcome)
      requires Valid()
      modifies bitmap, this`used
      ensures Valid()
      ensures r == Panic <==> old(Spare()) == {}
      ensures r == Panic ==> UsedPages() == old(UsedPages()) && Spare() == {}
      ensures r.Address? ==>
                var page := r.phys / PAGE_SIZE;
                && r.phys == page * PAGE_SIZE && page in old(Spare()) && page < total && page !in old(UsedPages())
                && (forall p: nat :: p < page ==> p in old(UsedPages()))
                && (forall p :: p in old(Spare()) ==> page <= p)
                && UsedPages() == old(UsedPages()) + {page} && Spare() == old(Spare()) - {page}
    {
      hide Spare, UsedPages, Used;
      var page := FindFree();
      FoundSpare(page);
      if page == -1 { return Panic; }
      Take(page);
      SpareWithout({page});
      return Address(page * PAGE_SIZE);
    }

    twostate lemma SpareWithout(taken: set<nat>)
      requires old(Shape()) && Shape() && total == old(total) && UsedPages() == old(UsedPages()) + taken
      ensures Spare() == old(Spare()) - taken
    {
      hide UsedPages;
    }

    /** What the result of bitmap_find_free says about the set of spare pages. */
    lemma FoundSpare(page: int)
      requires Shape() && (page == -1 || 0 <= page < total / 32 * 32)
      requires page == -1 ==> forall p: nat :: p < total / 32 * 32 ==> Used(p)
      requires page >= 0 ==> !Used(page) && forall p: nat :: p < page ==> Used(p)
      ensures page == -1 <==> Spare() == {}
      ensures page >= 0 ==> page < total && page in Spare() && page !in UsedPages()
      ensures forall p: nat :: p < page ==> p in UsedPages()
      ensures forall p :: p in Spare() ==> page <= p
    {
      if page >= 0 {
        assert AtLeast(page, 0) && page in Spare();
      } else {
        forall p: nat | p < total / 32 * 32 ensures p in UsedPages() { assert Used(p); }
        assert Spare() == {};
      }
    }

    /** pmm_free_page: of an address outside memory or already free, nothing. */
    method FreePage(phys: nat)
      requires Valid()
      modifies bitmap, this`used
      ensures Valid() && UsedPages() == old(UsedPages()) - {phys / PAGE_SIZE}
    {
      var page := phys / PAGE_SIZE;
      if page >= total { return; }
      if Used(page) {
        Drop(page);
      }
    }

    /** pmm_alloc_pages: panics exactly when there is no free run; otherwise takes the leftmost. */
    method AllocPages(count: nat) returns (r: Outcome)
      requires Valid()
      modifies bitmap, this`used
      ensures Valid()
      ensures r == Panic <==> forall s: nat :: !FreeRun(old(UsedPages()), total, s, Wanted(count))
      ensures r == Panic ==> UsedPages() == old(UsedPages())
      ensures r.Address? ==>
                var s := r.phys / PAGE_SIZE;
                && r.phys == s * PAGE_SIZE && FreeRun(old(UsedPages()), total, s, Wanted(count))
                && (forall t: nat :: t < s ==> !FreeRun(old(UsedPages()), total, t, Wanted(count)))
                && (forall p: nat :: p in UsedPages() <==> s <= p < s + count || p in old(UsedPages()))
    {
      var start := FindFreeRegion(count);
      if start == -1 {
        return Panic;
      }
      forall p: nat | start <= p < start + count ensures p < total && p !in UsedPages() {
        assert AtLeast(p, start) && p in Pages(start, start + Wanted(count));
      }
      TakeRun(start, count);
      return Address(start * PAGE_SIZE);
    }

    /** The loop of pmm_alloc_pages. */
    method TakeRun(start: nat, count: nat)
      requires Valid() && forall p: nat :: start <= p < start + count ==> p < total && p !in UsedPages()
      modifies bitmap, this`used
      ensures Valid()
      ensures forall p: nat :: p in UsedPages() <==> start <= p < start + count || p in old(UsedPages())
    {
      ghost var before := UsedPages();
      for i := 0 to count
        invariant Valid() && total == old(total)
        invariant forall p: nat :: p in UsedPages() <==> start <= p < start + i || p in before
      {
        assert start + i !in UsedPages();
        Take(start + i);
      }
    }

    method FreePages(phys: nat, count: nat)
      requires Valid()
      modifies bitmap, this`used
      ensures Valid()
      ensures forall p: nat :: p in UsedPages() <==>
                !(phys / PAGE_SIZE <= p < phys / PAGE_SIZE + count) && p in old(UsedPages())
    {
      var start := phys / PAGE_SIZE;
      ghost var before := UsedPages();
      for i := 0 to count
        invariant Valid() && total == old(total)
        invariant forall p: nat :: p in UsedPages() <==> !(start <= p < start + i) && p in before
      {
        var page := start + i;
        if page < total && Used(page) {
          Drop(page);
        }
      }
    }

    method MarkRegionUsed(base: nat, length: nat)
      requires Valid()
      modifies bitmap, this`used
      ensures Valid()
      ensures forall p: nat :: p in UsedPages() <==> p < total && (InPages(base, length, p) || p in old(UsedPages()))
    {
      var start := base / PAGE_SIZE;
      var count := (length + PAGE_SIZE - 1) % TWO64 / PAGE_SIZE;
      MarkUsed(start, count);
    }

    /** The loop of pmm_mark_region_used. */
    method MarkUsed(start: nat, count: nat)
      requires Valid()
      modifies bitmap, this`used
      ensures Valid()
      ensures forall p: nat :: p in UsedPages() <==> p < total && (start <= p < start + count || p in old(UsedPages()))
    {
      ghost var before := UsedPages();
      for i := 0 to count
        invariant Valid() && total == old(total)
        invariant forall p: nat :: p in UsedPages() <==> p < total && (start <= p < start + i || p in before)
      {
        var page := start + i;
        if page < total && !Used(page) {
          Take(page);
        }
      }
    }

    method MarkRegionFree(base: nat, length: nat)
      requires Valid()
      modifies bitmap, this`used
      ensures Valid()
      ensures forall p: nat :: p in UsedPages() <==> !Freed(Region(base, length, true), p) && p in old(UsedPages())
    {
      var start := (base + PAGE_SIZE - 1) % TWO64 / PAGE_SIZE;
      var end := (base + length) % TWO64 / PAGE_SIZE;
      MarkFree(start, end);
    }

    /** The loop of pmm_mark_region_free. */
    method MarkFree(start: nat, end: nat)
      requires Valid()
      modifies bitmap, this`used
      ensures Valid()
      ensures forall p: nat :: p in UsedPages() <==> !(start <= p < end) && p in old(UsedPages())
    {
      ghost var before := UsedPages();
      var page := start;
      while page < end && page < total
        invariant Valid() && total == old(total) && start <= page && (page <= end || page == start)
        invariant forall p: nat :: p in UsedPages() <==> !(start <= p < page) && p in before
        decreases total - page
      {
        if Used(page) {
          Drop(page);
        }
        page := page + 1;
      }
    }

    /** pmm_init: all memory up to the limit is managed, and a page of it is used exactly when it is reserved
        or in no usable region. */
    method Init(regions: seq<Region>)
      requires bitmap.Length == BITMAP_SIZE
      modifies this, bitmap
      ensures Valid() && total == TotalPages(regions)
      ensures forall p: nat ::
        p in UsedPages() <==> p < total && (Reserved(total, p) || NeverFreed(regions, |regions|, p))
    {
      total := CountPages(regions);
      FillUsed();
      for i := 0 to |regions|
        invariant Valid() && total == TotalPages(regions)
        invariant forall p: nat :: p in UsedPages() <==> p < total && NeverFreed(regions, i, p)
      {
        ghost var before := UsedPages();
        if regions[i].usable {
          MarkRegionFree(regions[i].base, regions[i].length);
          assert regions[i] == Region(regions[i].base, regions[i].length, true);
        }
        assert forall p: nat :: p in UsedPages() <==> !Freed(regions[i], p) && p in before;
      }
      ghost var free := UsedPages();
      MarkRegionUsed(0, 0x80000);
      MarkRegionUsed(0x100000, 0x100000);
      MarkRegionUsed(PMM_BITMAP_PHYS, (BitmapBytes(total) + PAGE_SIZE - 1) / PAGE_SIZE * PAGE_SIZE);
    }

    method CountPages(regions: seq<Region>) returns (pages: nat)
      ensures pages == TotalPages(regions) <= MAX_MEMORY / PAGE_SIZE
    {
      var memory := 0;
      for i := 0 to |regions|
        invariant memory == HighestEnd(regions, i)
      {
        var end := EndOf(regions[i]);
        if end > memory && regions[i].usable { memory := end; }
      }
      if memory > MAX_MEMORY { memory := MAX_MEMORY; }
      pages := memory / PAGE_SIZE;
    }

    /** The memset of pmm_init. */
    method FillUsed()
      requires Shape()
      modifies bitmap, this`used
      ensures Valid() && UsedPages() == Pages(0, total)
    {
      for i := 0 to BitmapBytes(total)
        invariant forall j :: 0 <= j < i ==> bitmap[j] == 0xFF
      {
        bitmap[i] := 0xFF;
      }
      used := total;
      forall p: nat | p < total ensures Used(p) {
        FullByte(bitmap[p / 8]);
      }
      assert UsedPages() == Pages(0, total);
      PagesCount(total);
    }
  }
}
