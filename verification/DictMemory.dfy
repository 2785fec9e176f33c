/** vm/dictionary/dictionary.c, lines 19-47: the dictionary gets pages of its own, mapped and cleared. */
module DictMemory {
  import opened PageTables
  import opened Vmm
  import opened Words
  import C = Cells
  import D = Dictionary
  import Pmm

  const DICT_VIRT: bv64 := 0xFFFF_8000_1000_0000
  const DICT_PAGES := 256
  const RW_FLAGS: bv64 := PRESENT | WRITABLE

  /** The run of pages that pmm_alloc_pages takes for the dictionary. */
  ghost predicate IsRun(used: set<nat>, total: nat, first: nat) {
    && Pmm.FreeRun(used, total, first, DICT_PAGES)
    && forall s: nat :: s < first ==> !Pmm.FreeRun(used, total, s, DICT_PAGES)
  }

  predicate InRun(first: nat, p: nat) { first <= p < first + DICT_PAGES }

  /** No huge page lies where the dictionary will be. */
  ghost predicate FreeOfHuge(t: Memory, root: bv64) {
    forall i: nat :: i < DICT_PAGES ==> NoHugeOn(t, root, PathAt(DICT_VIRT, i))
  }

  /** The range of the dictionary maps to the run, and every other lookup is as before. */
  ghost predicate Mapped(t: Memory, u: Memory, root: bv64, first: nat) {
    first < 0x10_0000 && RangeMapped(t, u, root, DICT_VIRT, FrameWord(first), RW_FLAGS, DICT_PAGES)
  }

  /** And every page of it can be written. */
  ghost predicate Writable(u: Memory, root: bv64) {
    forall i: nat :: i < DICT_PAGES ==> WriteAllowed(u, root, 4, PathAt(DICT_VIRT, i))
  }

  /** No table lies in the run, so that no write to the dictionary changes a translation. */
  ghost predicate ClearOfTables(lvl: Levels, first: nat) {
    forall p :: p in lvl ==> !InRun(first, PageNumber(p.frame))
  }

  /** dict_init.  It panics if there is no free run of 256 pages, if the lowest one starts at page 0, or if a table
      cannot be had. */
  method DictInit(dict: D.Dict, space: AddressSpace) returns (panicked: bool, ghost first: nat)
    requires dict.Valid() && space.Valid() && FreeOfHuge(space.mem, space.root)
    modifies dict, dict.bytes, space, space.pmm`used, space.pmm.bitmap
    ensures space.Valid()
    ensures !panicked ==>
              && dict.Memory() == D.Blank() && first > 0
              && IsRun(old(space.pmm.UsedPages()), space.pmm.total, first)
              && Mapped(old(space.mem), space.mem, space.root, first) && ClearOfTables(space.lvl, first)
              && Writable(space.mem, space.root)
              && forall p :: InRun(first, p) ==> p in space.pmm.UsedPages()
    // with page 0 in use, a run elsewhere and three spare frames a page it succeeds
    ensures forall s: nat :: Suffices(old(space.pmm.UsedPages()), old(space.pmm.Spare()), space.pmm.total, s) ==>
              !panicked
  {
    hide FreeOfHuge, IsRun, Tree, NoGiant, RangeMapped, Grown, PageAligned, NoHugeOn, ClearOfTables;
    hide AllCounted, Pmm.Pages, Pmm.FreeRun, Suffices, Mapped, Writable;
    hide Pmm.PageAllocator.Spare, Pmm.PageAllocator.UsedPages;
    ghost var used, spare := space.pmm.UsedPages(), space.pmm.Spare();
    var r := TakeRun(space);
    if r == Pmm.Panic {
      NothingSuffices(used, spare, space.pmm.total);
      return true, 0;
    }
    var page := r.phys / Pmm.PAGE_SIZE;
    first := page;
    ThisSuffices(used, spare, space.pmm.total, first);
    if r.phys == 0 {
      return true, 0;
    }
    RunTaken(space.pmm.UsedPages(), first);
    var ok := MapRun(space, page, used);
    if !ok {
      return true, first;
    }
    dict.DictInit();
    panicked := false;
  }

  /** vmm_map_range for the dictionary, when the pages of the run have been added to the used ones. */
  method MapRun(space: AddressSpace, page: nat, ghost used: set<nat>) returns (ok: bool)
    requires space.Valid() && FreeOfHuge(space.mem, space.root) && page < 0x10_0000
    requires AllCounted(space.lvl, used) && IsRun(used, space.pmm.total, page)
    requires space.pmm.UsedPages() == used + Pmm.Pages(page, page + DICT_PAGES)
    modifies space, space.pmm`used, space.pmm.bitmap
    ensures space.Valid() && old(space.pmm.UsedPages()) <= space.pmm.UsedPages()
    ensures ok ==> Mapped(old(space.mem), space.mem, space.root, page) && ClearOfTables(space.lvl, page)
    ensures ok ==> Writable(space.mem, space.root)
    ensures 0 !in old(space.pmm.Spare()) && |old(space.pmm.Spare())| >= 3 * DICT_PAGES ==> ok
  {
    hide FreeOfHuge, IsRun, Tree, NoGiant, RangeMapped, Grown, PageAligned, NoHugeOn, ClearOfTables, AllCounted;
    hide Pmm.PageAllocator.Spare, Pmm.PageAllocator.UsedPages, Pmm.Pages, WriteAllowed, IsWritable;
    DictRange(space.mem, space.root);
    ghost var lvl, now := space.lvl, space.pmm.UsedPages();
    var s;
    ghost var mapped;
    s, mapped := space.MapRange(DICT_VIRT, FrameWord(page), DICT_PAGES * Pmm.PAGE_SIZE, RW_FLAGS);
    TablesClear(lvl, space.lvl, used, now, space.pmm.total, page);
    ok := s == Done;
  }

  /** The pages suffice for the run at s and for the tables of its mapping. */
  ghost predicate Suffices(used: set<nat>, spare: set<nat>, total: nat, s: nat) {
    && s > 0 && IsRun(used, total, s) && 0 !in spare
    && |spare - Pmm.Pages(s, s + DICT_PAGES)| >= 3 * DICT_PAGES
  }

  /** pmm_alloc_pages leaves the tables alone. */
  method TakeRun(space: AddressSpace) returns (r: Pmm.Outcome)
    requires space.Valid()
    modifies space.pmm`used, space.pmm.bitmap
    ensures space.Valid()
    ensures r == Pmm.Panic <==>
              forall s: nat :: !Pmm.FreeRun(old(space.pmm.UsedPages()), space.pmm.total, s, DICT_PAGES)
    ensures r.Address? ==>
              var first := r.phys / Pmm.PAGE_SIZE;
              && r.phys == first * Pmm.PAGE_SIZE && IsRun(old(space.pmm.UsedPages()), space.pmm.total, first)
              && first + DICT_PAGES <= 0x10_0000
              && space.pmm.UsedPages() == old(space.pmm.UsedPages()) + Pmm.Pages(first, first + DICT_PAGES)
              && space.pmm.Spare() == old(space.pmm.Spare()) - Pmm.Pages(first, first + DICT_PAGES)
  {
    hide Tree, NoGiant, AllCounted;
    assert Pmm.Wanted(DICT_PAGES) == DICT_PAGES;
    r := space.pmm.AllocPages(DICT_PAGES);
    StillCounted(space.lvl, old(space.pmm.UsedPages()), space.pmm.UsedPages());
    if r.Address? {
      var first := r.phys / Pmm.PAGE_SIZE;
      hide Pmm.PageAllocator.Spare, Pmm.PageAllocator.UsedPages;
      RunAdded(old(space.pmm.UsedPages()), space.pmm.UsedPages(), first);
      space.pmm.SpareWithout(Pmm.Pages(first, first + DICT_PAGES));
    }
  }

  lemma RunAdded(used: set<nat>, now: set<nat>, first: nat)
    requires forall p: nat :: p in now <==> first <= p < first + DICT_PAGES || p in used
    ensures now == used + Pmm.Pages(first, first + DICT_PAGES)
  {
    var run := Pmm.Pages(first, first + DICT_PAGES);
    forall p: nat ensures p in run <==> InRun(first, p) { assert InRun(first, p) ==> Pmm.AtLeast(p, first); }
  }

  lemma RunTaken(now: set<nat>, first: nat)
    requires Pmm.Pages(first, first + DICT_PAGES) <= now
    ensures forall p: nat :: InRun(first, p) ==> p in now
  {
    forall p: nat | InRun(first, p) ensures p in now {
      assert Pmm.AtLeast(p, first) && p in Pmm.Pages(first, first + DICT_PAGES);
    }
  }

  lemma NothingSuffices(used: set<nat>, spare: set<nat>, total: nat)
    requires forall s: nat :: !Pmm.FreeRun(used, total, s, DICT_PAGES)
    ensures forall s: nat :: !Suffices(used, spare, total, s)
  {
  }

  lemma ThisSuffices(used: set<nat>, spare: set<nat>, total: nat, first: nat)
    requires IsRun(used, total, first)
    ensures forall s: nat :: Suffices(used, spare, total, s) ==>
              && first == s && s > 0 && 0 !in spare
              && |spare - Pmm.Pages(first, first + DICT_PAGES)| >= 3 * DICT_PAGES
  {
    hide Pmm.FreeRun, Pmm.Pages;
  }

  lemma DictRange(t: Memory, root: bv64)
    requires FreeOfHuge(t, root)
    ensures PageAligned(DICT_VIRT) && RW_FLAGS & ADDR_MASK == 0 && PageCount(DICT_PAGES * Pmm.PAGE_SIZE) == DICT_PAGES
    ensures forall i: nat :: i < DICT_PAGES ==> NoHugeOn(t, root, PathAt(DICT_VIRT, i))
    ensures IsWritable(RW_FLAGS)
  {
    hide NoHugeOn, PathAt;
  }

  lemma TablesClear(lvl: Levels, l: Levels, used: set<nat>, now: set<nat>, total: nat, first: nat)
    requires AllCounted(lvl, used) && Grown(lvl, l, now)
    requires now == used + Pmm.Pages(first, first + DICT_PAGES) && IsRun(used, total, first)
    ensures ClearOfTables(l, first)
  {
    hide PageNumber;
    forall p | p in l ensures !InRun(first, PageNumber(p.frame)) {
      var n, run := PageNumber(p.frame), Pmm.Pages(first, first + DICT_PAGES);
      if p in lvl { assert Counted(p, used); } else { assert !Counted(p, now); }
      assert n !in run;
      assert InRun(first, n) ==> Pmm.AtLeast(n, first);
    }
  }

  /** The mapped range is the region of dictionary.c: one megabyte from DICT_VIRT on. */
  lemma RangeIsRegion()
    ensures DICT_VIRT as nat == C.BASE && DICT_PAGES * 4096 == C.SIZE
  {
  }

  /** Byte o of page i of the dictionary is then byte o of page i of the run, for all 256 pages. */
  lemma DictTranslates(t: Memory, u: Memory, root: bv64, first: nat, i: nat, o: bv64)
    requires Mapped(t, u, root, first) && first + DICT_PAGES <= 0x10_0000 && i < DICT_PAGES && o < 0x1000
    ensures Lookup(u, root, Plus(PageAt(DICT_VIRT, i), o)) == Plus(PageAt(FrameWord(first), i), o)
  {
    hide RangeMapped, PageAligned, Frame, Lookup, Plus;
    NextFrame(first, i);
    DictAligned();
    RangeTranslates(t, u, root, DICT_VIRT, FrameWord(first), RW_FLAGS, DICT_PAGES, i, o);
  }

  lemma DictAligned()
    ensures PageAligned(DICT_VIRT) && RW_FLAGS & ADDR_MASK == 0
  {
  }

  lemma NextFrame(first: nat, i: nat)
    requires first < 0x10_0000 && i < 256 && first + 256 <= 0x10_0000
    ensures Frame(PageAt(FrameWord(first), i)) == PageAt(FrameWord(first), i)
  {
    hide ToWord;
    FewPages(ToWord(i));
    BelowLimit(ToWord(first));
    FrameSum(ToWord(first), ToWord(i));
  }

  lemma FrameSum(x: bv64, y: bv64)
    requires x < 0x10_0000 && y < 256
    ensures Frame((x << 12) + (y << 12)) == (x << 12) + (y << 12)
  {
  }

  /** The tables of the boot code leave the place free. */
  lemma BootLeavesRoom(t: Memory)
    requires IsBootTables(t)
    ensures FreeOfHuge(t, PML4)
  {
    hide Find, PathOf, NoHugeOn, ToWord;
    forall i: nat | i < DICT_PAGES ensures NoHugeOn(t, PML4, PathAt(DICT_VIRT, i)) {
      var x := ToWord(i);
      FewPages(x);
      DictPath(x);
      NothingThere(t, PathOf(Shifted(DICT_VIRT, x)));
    }
  }

  lemma FewPages(x: bv64)
    requires x as nat < 256
    ensures x < 256
  {
  }

  lemma DictPath(x: bv64)
    requires x < 256
    ensures PathOf(Shifted(DICT_VIRT, x)) == Path(256, 0, 128, x)
  {
  }

  lemma NothingThere(t: Memory, p: Path)
    requires IsBootTables(t) && p.i4 == 256 && p.i3 == 0 && p.i2 == 128
    ensures Find(t, PML4, 4, p) == Hole && NoHugeOn(t, PML4, p)
  {
    BootStep(t, PML4, 4, p, PDPT_HIGHER);
    BootStep(t, PDPT_HIGHER, 3, p, PD_HIGHER);
    assert Entry(t, PD_HIGHER, p.i2) == BootEntry(PD_HIGHER, p.i2);
  }
}
