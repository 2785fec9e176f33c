/** kernel/memory/vmm.c: mapping and unmapping in the live page tables. */
module Vmm {
  import opened PageTables
  import opened Words
  import Pmm

  /** What vmm_get_or_create_table gives: no return after a panic, NULL, or a table. */
  datatype Walk = Halted | Null | Table(frame: bv64)

  /** What vmm_map_page and vmm_map_range give: no return after a panic, -1, or 0. */
  datatype Status = Panic | Failed | Done

  // ----- frame addresses as machine words -----

  /** Number of the page frame that starts at f. */
  function PageNumber(f: bv64): nat { (f >> 12) as nat }

  lemma ShiftedFrame(x: bv64)
    requires x < 0x10_0000
    ensures Frame(x << 12) == x << 12 && (x << 12) >> 12 == x
  {
  }

  lemma BelowLimit(x: bv64)
    requires x as nat < 0x10_0000
    ensures x < 0x10_0000
  {
  }

  function FrameWord(page: nat): (f: bv64)
    requires page < 0x10_0000
    ensures Frame(f) == f && PageNumber(f) == page
  {
    var x := ToWord(page);
    BelowLimit(x);
    ShiftedFrame(x);
    x << 12
  }

  /** No 2MB or 1GB page lies on the path. */
  ghost predicate NoHugeOn(t: Memory, root: bv64, p: Path) {
    Find(t, root, 4, p).Leaf? ==> Find(t, root, 4, p).level == 1
  }

  ghost predicate SameLookups(t: Memory, u: Memory, root: bv64) {
    forall q: Path :: Find(u, root, 4, q) == Find(t, root, 4, q)
  }

  /** Path p now ends at e, and every other path ends where it did. */
  ghost predicate OneLookup(t: Memory, u: Memory, root: bv64, p: Path, e: End) {
    forall q: Path :: Find(u, root, 4, q) == if q == p then e else Find(t, root, 4, q)
  }

  /** The frame of p counts as used. */
  ghost predicate Counted(p: Page, used: set<nat>) { PageNumber(p.frame) in used }

  ghost predicate AllCounted(lvl: Levels, used: set<nat>) {
    forall p {:trigger Counted(p, used)} :: p in lvl ==> Counted(p, used)
  }

  /** Table frames only get added, and each new one was free in the page allocator. */
  ghost predicate Grown(lvl: Levels, l: Levels, used: set<nat>) {
    && (forall p :: p in lvl ==> p in l && l[p] == lvl[p])
    && (forall p {:trigger Counted(p, used)} :: p in l && p !in lvl ==> !Counted(p, used))
  }

  lemma GrownTrans(a: Levels, b: Levels, c: Levels, u: set<nat>, v: set<nat>)
    requires Grown(a, b, u) && Grown(b, c, v) && u <= v
    ensures Grown(a, c, u)
  {
    forall p | p in c && p !in a ensures !Counted(p, u) {
      assert Counted(p, u) ==> Counted(p, v);
    }
  }

  lemma FreshFrame(lvl: Levels, used: set<nat>, n: bv64, page: nat)
    requires AllCounted(lvl, used) && PageNumber(n) == page && page !in used
    ensures Page(n) !in lvl && !Counted(Page(n), used)
  {
    assert !Counted(Page(n), used);
  }

  lemma CountedNow(lvl: Levels, l: Levels, used: set<nat>, more: set<nat>, n: bv64, k: int)
    requires AllCounted(lvl, more) && l == lvl[Page(n) := k]
    requires Page(n) !in lvl && !Counted(Page(n), used) && Counted(Page(n), more)
    ensures AllCounted(l, more) && Grown(lvl, l, used)
  {
  }

  lemma StillCounted(lvl: Levels, used: set<nat>, more: set<nat>)
    requires AllCounted(lvl, used) && used <= more
    ensures AllCounted(lvl, more)
  {
    forall p | p in lvl ensures Counted(p, more) { assert Counted(p, used); }
  }

  /** What a step of the walk that needs `need` new tables does to the spare frames s, leaving s2: it gets NULL
      exactly when it would take page 0, panics exactly when there are too few, and else takes that many. */
  ghost predicate Charged(r: Walk, need: nat, s: set<nat>, s2: set<nat>) {
    && (r == Null <==> need > 0 && 0 in s)
    && (r == Halted <==> 0 !in s && |s| < need)
    && (r == Halted ==> s2 == {})
    && s2 <= s && (r.Table? ==> |s2| == |s| - need)
  }

  /** A table was made of frame n for entry i of table g: the entry is the address of n with the present and the
      writable bit and no other, n is all zero, and every other word is as before. */
  ghost predicate Created(t: Memory, u: Memory, g: bv64, i: bv64, n: bv64) {
    && Entry(u, g, i) == n | 3 && Zeroed(u, n)
    && forall f, j :: f != n && !(f == g && j == i) ==> Entry(u, f, j) == Entry(t, f, j)
  }

  /** The frame is the lowest spare one. */
  ghost predicate Lowest(f: bv64, s: set<nat>) { PageNumber(f) in s && forall p :: p in s ==> PageNumber(f) <= p }

  /** One page costs at most three frames. */
  lemma ChargedPage(r: Status, need: nat, s: set<nat>, s2: set<nat>)
    requires Charged(AsWalk(r), need, s, s2) && need <= 3
    ensures s2 <= s && (r == Done ==> |s2| >= |s| - 3)
    ensures (r == Failed ==> 0 in s) && (r == Panic ==> s2 == {})
    ensures 0 !in s && |s| >= 3 ==> r == Done
  {
  }

  lemma ChargedTwice(a: bv64, r: Walk, need: nat, more: nat, s: set<nat>, s1: set<nat>, s2: set<nat>)
    requires Charged(Table(a), need, s, s1) && Charged(r, more, s1, s2)
    ensures Charged(r, need + more, s, s2)
  {
    if need == 0 { SameSize(s1, s); }
  }

  lemma SameSize(a: set<nat>, b: set<nat>)
    requires a <= b && |a| == |b|
    ensures a == b
  {
    assert b == a + (b - a);
  }

  lemma NoCharge(a: bv64, s: set<nat>)
    ensures Charged(Table(a), 0, s, s)
  {
  }

  lemma ChargedOne(r: Walk, s: set<nat>, page: nat)
    requires page in s && (0 in s ==> page == 0) && if page == 0 then r == Null else r.Table?
    ensures Charged(r, 1, s, s - {page})
  {
  }

  lemma ChargedNothing(s: set<nat>)
    requires s == {}
    ensures Charged(Halted, 1, s, s)
  {
  }

  function AsWalk(r: Status): Walk {
    match r
    case Panic => Halted
    case Failed => Null
    case Done => Table(0)
  }

  function StatusOf(w: Walk): Status {
    match w
    case Halted => Panic
    case Null => Failed
    case Table(_) => Done
  }

  /** Mapping p took the tables that were missing from the spare frames s, and p ends at e if it is done. */
  ghost predicate Mapped(t: Memory, u: Memory, root: bv64, p: Path, e: bv64, r: Status, s: set<nat>, s2: set<nat>) {
    && Charged(AsWalk(r), Missing(t, root, 4, p), s, s2)
    && if r == Done then OneLookup(t, u, root, p, Leaf(1, e)) else SameLookups(t, u, root)
  }

  /** The entry for p went into the 2MB page that p ends at, and p still ends there. */
  ghost predicate Lost(t: Memory, u: Memory, root: bv64, p: Path, e: bv64, r: Status) {
    var frame := UnderFrame(t, root, p);
    && r == (if frame == 0 then Failed else Done) && SameLookups(t, u, root)
    && (r == Done ==> Entry(u, frame, p.i1) == e)
  }

  /** The frame that the page found at p lies in. */
  function UnderFrame(t: Memory, root: bv64, p: Path): bv64 {
    var e := Find(t, root, 4, p);
    if e.Leaf? then Frame(e.entry) else 0
  }

  ghost predicate OffTables(t: Memory, lvl: Levels, root: bv64, p: Path) { Page(UnderFrame(t, root, p)) !in lvl }

  /** The walk along p has come to table a of level k, and has taken from the spare frames s the tables that
      were missing so far, out of m. */
  ghost predicate Stage(t: Memory, spare: set<nat>, root: bv64, p: Path, a: bv64, k: nat, s: set<nat>, m: nat)
    requires 1 <= k <= 4
  {
    Missing(t, a, k, p) <= m && Charged(Table(a), m - Missing(t, a, k, p), s, spare)
  }

  lemma StartStage(t: Memory, root: bv64, p: Path, s: set<nat>)
    ensures Stage(t, s, root, p, root, 4, s, Missing(t, root, 4, p))
  {
    NoCharge(root, s);
  }

  lemma AtRoot(t: Memory, root: bv64, p: Path)
    ensures Reaches(t, root, 4, p, root, 4)
  {
  }

  lemma EndStage(t: Memory, spare: set<nat>, root: bv64, p: Path, a: bv64, s: set<nat>, m: nat)
    requires Stage(t, spare, root, p, a, 1, s, m)
    ensures Charged(Table(a), m, s, spare)
  {
  }

  lemma NextStage(t: Memory, u: Memory, root: bv64, p: Path, a: bv64, r: Walk, k: nat, need: nat,
                  s: set<nat>, s1: set<nat>, s2: set<nat>, m: nat)
    requires 2 <= k <= 4 && Stage(t, s1, root, p, a, k, s, m) && Charged(r, need, s1, s2)
    requires need <= Missing(t, a, k, p)
    requires r.Table? ==> Missing(u, r.frame, k - 1, p) == Missing(t, a, k, p) - need
    ensures if r.Table? then Stage(u, s2, root, p, r.frame, k - 1, s, m) else Charged(r, m, s, s2)
  {
    hide Missing;
    ChargedTwice(a, r, m - Missing(t, a, k, p), need, s, s1, s2);
  }

  /** Under a 2MB page the entries on the way are present, down to that of the page. */
  lemma HugeAhead(t: Memory, root: bv64, p: Path, a: bv64, k: nat)
    requires 2 <= k <= 4 && NoGiant(t, root) && !NoHugeOn(t, root, p) && Reaches(t, root, 4, p, a, k)
    ensures IsPresent(Entry(t, a, p.At(k)))
    ensures k == 2 ==> IsLeaf(2, Entry(t, a, p.At(2))) && Frame(Entry(t, a, p.At(2))) == UnderFrame(t, root, p)
    ensures k > 2 ==> !IsLeaf(k, Entry(t, a, p.At(k)))
  {
    FindVia(t, root, 4, p, a, k);
    assert !IsGiant(Find(t, root, 4, p));
  }

  /** Any other present entry on the way leads to a table, which is not at address 0. */
  lemma PointerAhead(t: Memory, lvl: Levels, root: bv64, p: Path, a: bv64, k: nat)
    requires 2 <= k <= 4 && NoGiant(t, root) && Tree(t, lvl, root) && Page(0) !in lvl && Reaches(t, root, 4, p, a, k)
    requires IsPresent(Entry(t, a, p.At(k))) && (k > 2 || NoHugeOn(t, root, p))
    ensures !IsLeaf(k, Entry(t, a, p.At(k))) && Frame(Entry(t, a, p.At(k))) != 0
    ensures Missing(t, a, k, p) == Missing(t, Frame(Entry(t, a, p.At(k))), k - 1, p)
  {
    FindVia(t, root, 4, p, a, k);
    assert !IsGiant(Find(t, root, 4, p));
    ReachesStep(t, root, 4, p, a, k);
    ReachesDown(t, lvl, root, root, 4, p, Frame(Entry(t, a, p.At(k))), k - 1);
  }

  lemma TablesAhead(t: Memory, u: Memory, p: Path, a: bv64, f: bv64, k: nat)
    requires 2 <= k <= 4 && !IsPresent(Entry(t, a, p.At(k)))
    ensures Missing(t, a, k, p) == k - 1
    ensures Zeroed(u, f) ==> Missing(u, f, k - 1, p) == k - 2
  {
    if Zeroed(u, f) { assert Entry(u, f, p.At(k - 1)) == 0; }
  }

  lemma SameTwice(t: Memory, u: Memory, w: Memory, root: bv64)
    requires SameLookups(t, u, root) && SameLookups(u, w, root)
    ensures SameLookups(t, w, root)
  {
  }

  lemma NotNull(n: bv64)
    requires PageNumber(n) != 0
    ensures n != 0
  {
  }

  /** Writing the page table entry of p maps it. */
  lemma IsMapped(t: Memory, u: Memory, v: Memory, root: bv64, p: Path, e: bv64, w: Walk, s: set<nat>, s2: set<nat>)
    requires SameLookups(t, u, root) && Charged(w, Missing(t, root, 4, p), s, s2)
    requires if w.Table? then OneLookup(u, v, root, p, Leaf(1, e)) else v == u
    ensures Mapped(t, v, root, p, e, StatusOf(w), s, s2)
  {
    hide Find, Missing;
  }

  lemma IsLost(t: Memory, v: Memory, root: bv64, p: Path, e: bv64, w: Walk)
    requires var frame := UnderFrame(t, root, p);
             && w == (if frame == 0 then Null else Table(frame))
             && if w.Table? then SameLookups(t, v, root) && Entry(v, frame, p.i1) == e else v == t
    ensures Lost(t, v, root, p, e, StatusOf(w))
  {
    hide Find, UnderFrame;
  }

  lemma MappedLeaf(t: Memory, lvl: Levels, root: bv64, p: Path, g: bv64, e: bv64)
    requires Tree(t, lvl, root) && Reaches(t, root, 4, p, g, 1) && IsPresent(e) && NoGiant(t, root)
    ensures var u := Put(t, g, p.i1, e); Tree(u, lvl, root) && NoGiant(u, root) && OneLookup(t, u, root, p, Leaf(1, e))
  {
    var u := Put(t, g, p.i1, e);
    MapLeaf(t, lvl, root, p, g, e, p);
    forall q: Path ensures Find(u, root, 4, q) == if q == p then Leaf(1, e) else Find(t, root, 4, q) {
      MapLeaf(t, lvl, root, p, g, e, q);
    }
    forall q: Path ensures !IsGiant(Find(u, root, 4, q)) { assert !IsGiant(Find(t, root, 4, q)); }
  }

  /** Under a 2MB page vmm_map_page takes the frame of that page for a page table.  The write changes a word of it,
      the tables stay as they are, and no lookup changes, unless the frame is itself a table. */
  lemma MappingUnderHugePageIsLost(t: Memory, lvl: Levels, root: bv64, p: Path, e: bv64)
    requires Tree(t, lvl, root) && NoGiant(t, root) && OffTables(t, lvl, root, p)
    ensures var g := UnderFrame(t, root, p);
            var u := Put(t, g, p.i1, e);
            && Tree(u, lvl, root) && NoGiant(u, root) && SameLookups(t, u, root) && Entry(u, g, p.i1) == e
  {
    var g := UnderFrame(t, root, p);
    var u := Put(t, g, p.i1, e);
    forall q: Path ensures Find(u, root, 4, q) == Find(t, root, 4, q) {
      PutOffTree(t, lvl, root, root, 4, q, g, p.i1, e);
    }
    SameNoGiant(t, u, root);
    OffTreeKept(t, lvl, root, g, p.i1, e);
    EntryOfPut(t, g, p.i1, e, g, p.i1);
  }

  lemma OffTreeKept(t: Memory, lvl: Levels, root: bv64, g: bv64, i: bv64, e: bv64)
    requires Tree(t, lvl, root) && Page(g) !in lvl
    ensures Tree(Put(t, g, i, e), lvl, root)
  {
    var u := Put(t, g, i, e);
    forall f, j ensures Page(f) in lvl ==> Entry(u, f, j) == Entry(t, f, j) { EntryOfPut(t, g, i, e, f, j); }
    assert forall f, j :: Pointer(u, lvl, f, j) == Pointer(t, lvl, f, j);
  }

  lemma TreeShape(t: Memory, lvl: Levels, root: bv64)
    requires Tree(t, lvl, root)
    ensures Shape(lvl, root)
  {
  }

  lemma NothingDone(t: Memory, lvl: Levels, root: bv64, used: set<nat>)
    ensures SameLookups(t, t, root) && Grown(lvl, lvl, used)
  {
  }

  lemma SameNoGiant(t: Memory, u: Memory, root: bv64)
    requires NoGiant(t, root) && SameLookups(t, u, root)
    ensures NoGiant(u, root)
  {
  }

  ghost predicate Counts(lvl: Levels, pmm: Pmm.PageAllocator)
    reads pmm, pmm.bitmap
  {
    pmm.Valid() && AllCounted(lvl, pmm.UsedPages())
  }

  class AddressSpace {
    var mem: Memory
    const root: bv64
    const pmm: Pmm.PageAllocator
    ghost var lvl: Levels

    /** The tables are a tree, and every table frame counts as used; no table is at physical address 0, which
        cannot be told from NULL, and no 1GB page is mapped. */
    ghost predicate Valid()
      reads this, pmm, pmm.bitmap
    {
      Tree(mem, lvl, root) && Counts(lvl, pmm) && Page(0) !in lvl && NoGiant(mem, root)
    }

    /** The tables of the boot loader, whose five frames pmm_init reserves. */
    constructor (ram: Memory, pages: Pmm.PageAllocator)
      requires IsBootTables(ram) && pages.Valid() && {0x70, 0x71, 0x72, 0x73, 0x74} <= pages.UsedPages()
      ensures Valid() && mem == ram && root == PML4 && pmm == pages
    {
      mem, root, pmm := ram, PML4, pages;
      lvl := BootLevels();
      new;
      BootTree(mem);
      BootNoGiant(mem);
      BootNumbers();
    }

    /** vmm_get_phys */
    method GetPhys(virt: bv64) returns (phys: bv64)
      ensures phys == Lookup(mem, root, virt)
    {
      var e := Walk4(PathOf(virt));
      phys := Physical(e, virt);
    }

    /** The walk of vmm_get_phys, up to the entry it ends at. */
    method Walk4(p: Path) returns (e: End)
      ensures e == Find(mem, root, 4, p)
    {
      var e4 := Entry(mem, root, p.At(4));
      if !IsPresent(e4) { return Hole; }
      e := Walk3(Frame(e4), p);
    }

    method Walk3(pdpt: bv64, p: Path) returns (e: End)
      ensures e == Find(mem, pdpt, 3, p)
    {
      var e3 := Entry(mem, pdpt, p.At(3));
      if !IsPresent(e3) { return Hole; }
      if IsHuge(e3) { return Leaf(3, e3); }
      e := Walk2(Frame(e3), p);
    }

    method Walk2(pd: bv64, p: Path) returns (e: End)
      ensures e == Find(mem, pd, 2, p)
    {
      var e2 := Entry(mem, pd, p.At(2));
      if !IsPresent(e2) { return Hole; }
      if IsHuge(e2) { return Leaf(2, e2); }
      var e1 := Entry(mem, Frame(e2), p.At(1));
      if !IsPresent(e1) { return Hole; }
      return Leaf(1, e1);
    }

    /** vmm_get_or_create_table for the entry of table that path p takes.  Of a present entry it returns the frame,
        also when that is a 2MB page; for an absent one it takes a spare frame, zeroes it and sets the entry. */
    method GetOrCreateTable(table: bv64, index: bv64, ghost p: Path, ghost k: nat) returns (r: Walk)
      requires Valid() && 2 <= k <= 4 && Reaches(mem, root, 4, p, table, k) && index == p.At(k)
      modifies this, pmm`used, pmm.bitmap
      ensures Valid() && SameLookups(old(mem), mem, root)
      ensures Grown(old(lvl), lvl, old(pmm.UsedPages())) && old(pmm.UsedPages()) <= pmm.UsedPages()
      ensures var e := Entry(old(mem), table, index);
              IsPresent(e) ==>
                && r == (if Frame(e) == 0 then Null else Table(Frame(e)))
                && mem == old(mem) && lvl == old(lvl) && pmm.UsedPages() == old(pmm.UsedPages())
      ensures !IsPresent(Entry(old(mem), table, index)) ==>
                && Charged(r, 1, old(pmm.Spare()), pmm.Spare())
                && (r.Table? ==> Page(r.frame) !in old(lvl) && Created(old(mem), mem, table, index, r.frame))
                && (r.Table? ==> Lowest(r.frame, old(pmm.Spare())))
                && (!r.Table? ==> mem == old(mem))
      ensures r.Table? && !(IsPresent(Entry(old(mem), table, index)) && IsLeaf(k, Entry(old(mem), table, index))) ==>
                Reaches(mem, root, 4, p, r.frame, k - 1)
    {
      if !IsPresent(Entry(mem, table, index)) {
        r := NewTable(table, index, p, k);
      } else {
        if !IsLeaf(k, Entry(mem, table, index)) { ReachesStep(mem, root, 4, p, table, k); }
        var f := Frame(Entry(mem, table, index));
        r := if f == 0 then Null else Table(f);
      }
    }

    /** The absent case. */
    method NewTable(table: bv64, index: bv64, ghost p: Path, ghost k: nat) returns (r: Walk)
      requires Valid() && 2 <= k <= 4 && Reaches(mem, root, 4, p, table, k) && index == p.At(k)
      requires !IsPresent(Entry(mem, table, index))
      modifies this, pmm`used, pmm.bitmap
      ensures Valid() && SameLookups(old(mem), mem, root)
      ensures Grown(old(lvl), lvl, old(pmm.UsedPages())) && old(pmm.UsedPages()) <= pmm.UsedPages()
      ensures Charged(r, 1, old(pmm.Spare()), pmm.Spare())
      ensures r.Table? ==> Reaches(mem, root, 4, p, r.frame, k - 1) && Page(r.frame) !in old(lvl)
      ensures r.Table? ==> Created(old(mem), mem, table, index, r.frame) && Lowest(r.frame, old(pmm.Spare()))
      ensures !r.Table? ==> mem == old(mem)
    {
      hide Charged, Tree, Find, Reaches, NoGiant, Created, AllCounted, SameLookups, Grown, Counted, Lowest, PageNumber;
      ghost var l, t := lvl, mem;
      TreeShape(mem, lvl, root);
      r := TakeFrame();
      if r.Table? {
        AttachTable(table, index, r.frame, p, k);
        SameNoGiant(t, mem, root);
        CountedNow(l, lvl, old(pmm.UsedPages()), pmm.UsedPages(), r.frame, k - 1);
      } else {
        NothingDone(mem, lvl, root, old(pmm.UsedPages()));
      }
    }

    /** A frame for a table; physical page 0 cannot be told from NULL. */
    method TakeFrame() returns (r: Walk)
      requires Counts(lvl, pmm) && Shape(lvl, root)
      modifies pmm`used, pmm.bitmap
      ensures Counts(lvl, pmm) && old(pmm.UsedPages()) <= pmm.UsedPages()
      ensures Charged(r, 1, old(pmm.Spare()), pmm.Spare())
      ensures r.Table? ==> r.frame != 0 && Frame(r.frame) == r.frame && Page(r.frame) !in lvl
      ensures r.Table? ==> !Counted(Page(r.frame), old(pmm.UsedPages())) && Counted(Page(r.frame), pmm.UsedPages())
      ensures r.Table? ==> Lowest(r.frame, old(pmm.Spare()))
    {
      hide Charged, AllCounted, PageNumber, Frame, Pmm.PageAllocator.Spare, Pmm.PageAllocator.UsedPages;
      var a := pmm.AllocPage();
      StillCounted(lvl, old(pmm.UsedPages()), pmm.UsedPages());
      if a == Pmm.Panic {
        ChargedNothing(old(pmm.Spare()));
        return Halted;
      }
      var page := a.phys / Pmm.PAGE_SIZE;
      r := FrameOf(page, old(pmm.UsedPages()));
      ChargedOne(r, old(pmm.Spare()), page);
    }

    /** The frame of a page, unless that is page 0. */
    method FrameOf(page: nat, ghost used: set<nat>) returns (r: Walk)
      requires page < 0x10_0000 && AllCounted(lvl, used) && page !in used
      ensures if page == 0 then r == Null else r.Table?
      ensures r.Table? ==> r.frame != 0 && Frame(r.frame) == r.frame && Page(r.frame) !in lvl
      ensures r.Table? ==> !Counted(Page(r.frame), used) && PageNumber(r.frame) == page
    {
      if page == 0 { return Null; }
      var n := FrameWord(page);
      FreshFrame(lvl, used, n, page);
      NotNull(n);
      return Table(n);
    }

    /** The rest of the absent case: clear the new frame and set the entry. */
    method AttachTable(table: bv64, index: bv64, n: bv64, ghost p: Path, ghost k: nat)
      requires Tree(mem, lvl, root) && 2 <= k <= 4 && Reaches(mem, root, 4, p, table, k) && index == p.At(k)
      requires !IsPresent(Entry(mem, table, index)) && Page(n) !in lvl && Frame(n) == n
      modifies this
      ensures lvl == old(lvl)[Page(n) := k - 1] && Tree(mem, lvl, root) && SameLookups(old(mem), mem, root)
      ensures Created(old(mem), mem, table, index, n) && Reaches(mem, root, 4, p, n, k - 1)
    {
      ghost var t := mem;
      ReachesDown(t, lvl, root, root, 4, p, table, k);
      AttachKeepsTree(t, lvl, root, table, k, index, n);
      forall q: Path ensures Find(Attach(t, table, index, n), root, 4, q) == Find(t, root, 4, q) {
        AttachKeepsLookup(t, lvl, root, table, k, index, n, q);
      }
      AttachReaches(t, lvl, root, root, 4, p, table, k, n);
      AttachedCreated(t, table, index, n);
      mem := Clear(mem, n);
      mem := Put(mem, table, index, n | PRESENT | WRITABLE);
      lvl := lvl[Page(n) := k - 1];
    }

    /** vmm_map_page, for flags that leave the address bits alone.  Off huge pages it fails only when page 0 is
        spare, panics only when there are too few spare frames for the missing tables, and on success the page of
        virt maps to the frame of phys and every other lookup is as before.  Under a 2MB page whose frame is no
        table it overwrites a word of that frame (or fails if that is frame 0) and changes no lookup. */
    method MapPage(virt: bv64, phys: bv64, flags: bv64) returns (r: Status)
      requires Valid() && flags & ADDR_MASK == 0
      requires NoHugeOn(mem, root, PathOf(virt)) || OffTables(mem, lvl, root, PathOf(virt))
      modifies this, pmm`used, pmm.bitmap
      ensures Valid()
      ensures Grown(old(lvl), lvl, old(pmm.UsedPages())) && old(pmm.UsedPages()) <= pmm.UsedPages()
      ensures var p, e := PathOf(virt), PageEntry(phys, flags);
              if NoHugeOn(old(mem), root, p) then Mapped(old(mem), mem, root, p, e, r, old(pmm.Spare()), pmm.Spare())
              else Lost(old(mem), mem, root, p, e, r) && pmm.UsedPages() == old(pmm.UsedPages())
      // writes to the page are let through exactly when the flags say so
      ensures r == Done && NoHugeOn(old(mem), root, PathOf(virt)) ==>
                (WriteAllowed(mem, root, 4, PathOf(virt)) <==> IsWritable(flags))
    {
      hide Find, Tree, Charged, Grown, NoHugeOn, NoGiant, Missing, Lost, WriteAllowed, PathOf, PageEntry, OffTables;
      ghost var t := mem;
      LeafEntry(phys, flags);
      r := MapPath(PathOf(virt), PageEntry(phys, flags));
      if r == Done && NoHugeOn(t, root, PathOf(virt)) {
        assert OneLookup(t, mem, root, PathOf(virt), Leaf(1, PageEntry(phys, flags)));
        FlagsDecide(mem, lvl, root, PathOf(virt), phys, flags);
      }
    }

    /** vmm_map_page, given the four indices and the page table entry. */
    method MapPath(p: Path, e: bv64) returns (r: Status)
      requires Valid() && IsPresent(e) && (NoHugeOn(mem, root, p) || OffTables(mem, lvl, root, p))
      modifies this, pmm`used, pmm.bitmap
      ensures Valid()
      ensures Grown(old(lvl), lvl, old(pmm.UsedPages())) && old(pmm.UsedPages()) <= pmm.UsedPages()
      ensures if NoHugeOn(old(mem), root, p) then Mapped(old(mem), mem, root, p, e, r, old(pmm.Spare()), pmm.Spare())
              else Lost(old(mem), mem, root, p, e, r) && pmm.UsedPages() == old(pmm.UsedPages())
    {
      ghost var s, t, off := pmm.Spare(), mem, NoHugeOn(mem, root, p);
      hide Find, Tree, Charged, Grown, NoHugeOn, NoGiant, Missing, UnderFrame, SameLookups, OneLookup;
      hide Reaches, OffTables, Mapped, Lost;
      var w := PageTableOf(p);
      ghost var u := mem;
      if w.Table? { WriteLeaf(w.frame, p, e, off); }
      r := StatusOf(w);
      if off { IsMapped(t, u, mem, root, p, e, w, s, pmm.Spare()); } else { IsLost(t, mem, root, p, e, w); }
    }

    /** The last step of vmm_map_page: the entry is written into the page table, or into the 2MB page. */
    method WriteLeaf(table: bv64, p: Path, e: bv64, ghost off: bool)
      requires Valid() && IsPresent(e)
      requires if off then Reaches(mem, root, 4, p, table, 1)
               else OffTables(mem, lvl, root, p) && table == UnderFrame(mem, root, p)
      modifies this`mem
      ensures Valid() && pmm.UsedPages() == old(pmm.UsedPages()) && pmm.Spare() == old(pmm.Spare())
      ensures off ==> OneLookup(old(mem), mem, root, p, Leaf(1, e))
      ensures !off ==> SameLookups(old(mem), mem, root) && Entry(mem, table, p.i1) == e
    {
      hide Find, Tree, Reaches, NoGiant, UnderFrame, SameLookups, OneLookup, OffTables;
      if off {
        MappedLeaf(mem, lvl, root, p, table, e);
      } else {
        MappingUnderHugePageIsLost(mem, lvl, root, p, e);
      }
      mem := Put(mem, table, p.At(1), e);
    }

    /** The walk of vmm_map_page down to the page table, or to the 2MB page taken for one. */
    method PageTableOf(p: Path) returns (w: Walk)
      requires Valid() && (NoHugeOn(mem, root, p) || OffTables(mem, lvl, root, p))
      modifies this, pmm`used, pmm.bitmap
      ensures Valid() && SameLookups(old(mem), mem, root)
      ensures Grown(old(lvl), lvl, old(pmm.UsedPages())) && old(pmm.UsedPages()) <= pmm.UsedPages()
      ensures NoHugeOn(old(mem), root, p) ==>
                && Charged(w, Missing(old(mem), root, 4, p), old(pmm.Spare()), pmm.Spare())
                && (w.Table? ==> Reaches(mem, root, 4, p, w.frame, 1))
      ensures !NoHugeOn(old(mem), root, p) ==>
                && w == (if UnderFrame(old(mem), root, p) == 0 then Null else Table(UnderFrame(old(mem), root, p)))
                && mem == old(mem) && lvl == old(lvl) && pmm.UsedPages() == old(pmm.UsedPages())
    {
      hide Find, Tree, Charged, Grown, Reaches, SameLookups, NoGiant, Stage, Missing;
      ghost var s, m, t := pmm.Spare(), Missing(mem, root, 4, p), mem;
      w := PageDirectoryOf(p, s, m);
      if !w.Table? { return; }
      ghost var l2, u2, m2 := lvl, pmm.UsedPages(), mem;
      w := Descend(w.frame, p, 2, s, m);
      GrownTrans(old(lvl), l2, lvl, old(pmm.UsedPages()), u2);
      SameTwice(t, m2, mem, root);
      if NoHugeOn(t, root, p) && w.Table? { EndStage(mem, pmm.Spare(), root, p, w.frame, s, m); }
    }

    /** The first two steps of the walk. */
    method PageDirectoryOf(p: Path, ghost s: set<nat>, ghost m: nat) returns (w: Walk)
      requires Valid() && s == pmm.Spare() && m == Missing(mem, root, 4, p)
      modifies this, pmm`used, pmm.bitmap
      ensures Valid() && SameLookups(old(mem), mem, root)
      ensures Grown(old(lvl), lvl, old(pmm.UsedPages())) && old(pmm.UsedPages()) <= pmm.UsedPages()
      ensures w.Table? ==> Reaches(mem, root, 4, p, w.frame, 2)
      ensures NoHugeOn(old(mem), root, p) ==>
                if w.Table? then Stage(mem, pmm.Spare(), root, p, w.frame, 2, s, m) else Charged(w, m, s, pmm.Spare())
      ensures !NoHugeOn(old(mem), root, p) ==>
                mem == old(mem) && lvl == old(lvl) && pmm.UsedPages() == old(pmm.UsedPages()) && w.Table?
    {
      hide Find, Tree, Charged, Grown, Reaches, SameLookups, NoGiant, Stage, Missing;
      StartStage(mem, root, p, s);
      AtRoot(mem, root, p);
      w := Descend(root, p, 4, s, m);
      if !w.Table? { return; }
      ghost var l3, u3, m3 := lvl, pmm.UsedPages(), mem;
      w := Descend(w.frame, p, 3, s, m);
      GrownTrans(old(lvl), l3, lvl, old(pmm.UsedPages()), u3);
      SameTwice(old(mem), m3, mem, root);
    }

    /** One step of that walk; s are the frames that were spare and m the tables that were missing at its start. */
    method Descend(table: bv64, p: Path, k: nat, ghost s: set<nat>, ghost m: nat) returns (r: Walk)
      requires Valid() && 2 <= k <= 4 && Reaches(mem, root, 4, p, table, k)
      requires NoHugeOn(mem, root, p) ==> Stage(mem, pmm.Spare(), root, p, table, k, s, m)
      modifies this, pmm`used, pmm.bitmap
      ensures Valid() && SameLookups(old(mem), mem, root)
      ensures Grown(old(lvl), lvl, old(pmm.UsedPages())) && old(pmm.UsedPages()) <= pmm.UsedPages()
      ensures r.Table? && (k > 2 || NoHugeOn(old(mem), root, p)) ==> Reaches(mem, root, 4, p, r.frame, k - 1)
      ensures NoHugeOn(old(mem), root, p) ==>
                if r.Table? then Stage(mem, pmm.Spare(), root, p, r.frame, k - 1, s, m)
                else Charged(r, m, s, pmm.Spare())
      ensures !NoHugeOn(old(mem), root, p) ==>
                && mem == old(mem) && lvl == old(lvl) && pmm.UsedPages() == old(pmm.UsedPages())
                && (k > 2 ==> r.Table?)
                && (k == 2 ==> r == var f := UnderFrame(mem, root, p); if f == 0 then Null else Table(f))
    {
      hide Find, Tree, Charged, Grown, Reaches, SameLookups, NoGiant, Stage, Missing;
      ghost var e, s1, t := Entry(mem, table, p.At(k)), pmm.Spare(), mem;
      if !NoHugeOn(mem, root, p) { HugeAhead(mem, root, p, table, k); }
      if IsPresent(e) && (k > 2 || NoHugeOn(mem, root, p)) { PointerAhead(mem, lvl, root, p, table, k); }
      r := GetOrCreateTable(table, p.At(k), p, k);
      if NoHugeOn(t, root, p) {
        ghost var need := if IsPresent(e) then 0 else 1;
        if IsPresent(e) {
          NoCharge(r.frame, s1);
        } else {
          TablesAhead(t, mem, p, table, if r.Table? then r.frame else 0, k);
        }
        NextStage(t, mem, root, p, table, r, k, need, s, s1, pmm.Spare(), m);
      }
    }

    /** vmm_unmap_page removes the 4KB page, or the whole 2MB page, that holds virt. */
    method UnmapPage(virt: bv64)
      requires Valid()
      modifies this`mem
      ensures Valid()
      ensures forall q: Path :: Find(mem, root, 4, q) == Unmapped(old(mem), root, PathOf(virt), q)
    {
      UnmapPath(PathOf(virt));
    }

    method UnmapPath(p: Path)
      requires Valid()
      modifies this`mem
      ensures Valid()
      ensures forall q: Path :: Find(mem, root, 4, q) == Unmapped(old(mem), root, p, q)
    {
      assert !IsGiant(Find(mem, root, 4, p));
      if !IsPresent(Entry(mem, root, p.At(4))) { return; }
      ReachesStep(mem, root, 4, p, root, 4);
      var pdpt := Frame(Entry(mem, root, p.At(4)));
      FindVia(mem, root, 4, p, pdpt, 3);
      if !IsPresent(Entry(mem, pdpt, p.At(3))) { return; }
      ReachesStep(mem, root, 4, p, pdpt, 3);
      var pd := Frame(Entry(mem, pdpt, p.At(3)));
      UnmapDirectory(p, pd);
    }

    /** vmm_unmap_page from the page directory on. */
    method UnmapDirectory(p: Path, pd: bv64)
      requires Valid() && Reaches(mem, root, 4, p, pd, 2)
      modifies this`mem
      ensures Valid()
      ensures forall q: Path :: Find(mem, root, 4, q) == Unmapped(old(mem), root, p, q)
    {
      ghost var t := mem;
      FindVia(t, root, 4, p, pd, 2);
      if !IsPresent(Entry(mem, pd, p.At(2))) { return; }
      if IsHuge(Entry(mem, pd, p.At(2))) {
        ClearHuge(p, pd);
        return;
      }
      var pt := Frame(Entry(mem, pd, p.At(2)));
      ReachesStep(t, root, 4, p, pd, 2);
      FindVia(t, root, 4, p, pt, 1);
      ClearSmall(p, pt);
    }

    method ClearHuge(p: Path, pd: bv64)
      requires Valid() && Reaches(mem, root, 4, p, pd, 2) && IsHuge(Entry(mem, pd, p.At(2)))
      modifies this`mem
      ensures Valid()
      ensures forall q: Path ::
        Find(mem, root, 4, q) == if q.Upper() == p.Upper() then Hole else Find(old(mem), root, 4, q)
    {
      forall q: Path
        ensures Find(Put(mem, pd, p.i2, 0), root, 4, q) ==
                if q.Upper() == p.Upper() then Hole else Find(mem, root, 4, q)
      {
        UnmapHuge(mem, lvl, root, p, pd, q);
      }
      UnmapHuge(mem, lvl, root, p, pd, p);
      mem := Put(mem, pd, p.At(2), 0);
    }

    method ClearSmall(p: Path, pt: bv64)
      requires Valid() && Reaches(mem, root, 4, p, pt, 1)
      modifies this`mem
      ensures Valid() && OneLookup(old(mem), mem, root, p, Hole)
    {
      forall q: Path ensures Find(Put(mem, pt, p.i1, 0), root, 4, q) == if q == p then Hole else Find(mem, root, 4, q) {
        MapLeaf(mem, lvl, root, p, pt, 0, q);
      }
      MapLeaf(mem, lvl, root, p, pt, 0, p);
      mem := Put(mem, pt, p.At(1), 0);
    }

    /** One round of the loop of vmm_map_range, which began with the tables t. */
    method MapNth(virt: bv64, phys: bv64, flags: bv64, i: nat, ghost t: Memory) returns (r: Status)
      requires Valid() && flags & ADDR_MASK == 0 && PageAligned(virt) && i < 0x10_0000_0000
      requires NoHugeOn(mem, root, PathAt(virt, i)) && NoHugeKept(t, mem, root)
      requires RangeMapped(t, mem, root, virt, phys, flags, i)
      modifies this, pmm`used, pmm.bitmap
      ensures Valid()
      ensures Grown(old(lvl), lvl, old(pmm.UsedPages())) && old(pmm.UsedPages()) <= pmm.UsedPages()
      ensures pmm.Spare() <= old(pmm.Spare()) && (r == Done ==> |pmm.Spare()| >= |old(pmm.Spare())| - 3)
      ensures (r == Failed ==> 0 in old(pmm.Spare())) && (r == Panic ==> pmm.Spare() == {})
      ensures 0 !in old(pmm.Spare()) && |old(pmm.Spare())| >= 3 ==> r == Done
      ensures NoHugeKept(t, mem, root)
      ensures RangeMapped(t, mem, root, virt, phys, flags, if r == Done then i + 1 else i)
    {
      ghost var before, s := mem, pmm.Spare();
      hide RangeMapped, NoHugeKept, Charged, AsWalk, Find, SameLookups, OneLookup, Grown, PathOf, NoHugeOn, Tree;
      hide NoGiant, Missing, Counts, OffTables, PageEntry;
      r := MapPage(PageAt(virt, i), PageAt(phys, i), flags);
      ChargedPage(r, Missing(before, root, 4, PathAt(virt, i)), s, pmm.Spare());
      if r == Done {
        ExtendRange(t, before, mem, root, virt, phys, flags, i);
        KeptByOne(t, before, mem, root, PathAt(virt, i), LeafAt(phys, flags, i));
      } else {
        RangeKept(t, before, mem, root, virt, phys, flags, i);
      }
    }

    /** vmm_map_range.  It maps the first `mapped` pages of the range, page i to frame i, and nothing else; these are
        all of them exactly when it succeeds.  It fails only when page 0 is spare and panics only when no spare frame
        is left; three spare frames a page, without page 0, are always enough. */
    method MapRange(virt: bv64, phys: bv64, size: nat, flags: bv64) returns (r: Status, ghost mapped: nat)
      requires Valid() && flags & ADDR_MASK == 0
      requires PageAligned(virt) && PageCount(size) <= 0x10_0000_0000
      requires forall i: nat :: i < PageCount(size) ==> NoHugeOn(mem, root, PathAt(virt, i))
      modifies this, pmm`used, pmm.bitmap
      ensures Valid()
      ensures Grown(old(lvl), lvl, old(pmm.UsedPages())) && old(pmm.UsedPages()) <= pmm.UsedPages()
      ensures mapped <= PageCount(size) && (r == Done <==> mapped == PageCount(size))
      ensures RangeMapped(old(mem), mem, root, virt, phys, flags, mapped)
      // writes to a mapped page are let through exactly when the flags say so
      ensures forall j: nat :: j < mapped ==> (WriteAllowed(mem, root, 4, PathAt(virt, j)) <==> IsWritable(flags))
      ensures r == Failed ==> 0 in old(pmm.Spare())
      ensures r == Panic ==> pmm.Spare() == {}
      ensures 0 !in old(pmm.Spare()) && |old(pmm.Spare())| >= 3 * PageCount(size) ==> r == Done
    {
      hide RangeMapped, NoHugeKept, Grown, Missing, WriteAllowed, IsWritable;
      var pages := (size + PAGE_SIZE - 1) / PAGE_SIZE;
      var i := 0;
      RangeStarts(mem, root, virt, phys, flags);
      NothingDone(mem, lvl, root, pmm.UsedPages());
      while i < pages
        invariant i <= pages && Valid()
        invariant Grown(old(lvl), lvl, old(pmm.UsedPages())) && old(pmm.UsedPages()) <= pmm.UsedPages()
        invariant NoHugeKept(old(mem), mem, root)
        invariant RangeMapped(old(mem), mem, root, virt, phys, flags, i)
        invariant pmm.Spare() <= old(pmm.Spare()) && |pmm.Spare()| >= |old(pmm.Spare())| - 3 * i
      {
        ghost var l, u := lvl, pmm.UsedPages();
        StillOff(old(mem), mem, root, virt, i);
        r := MapNth(virt, phys, flags, i, old(mem));
        GrownTrans(old(lvl), l, lvl, old(pmm.UsedPages()), u);
        if r != Done {
          AllWritable(old(mem), mem, lvl, root, virt, phys, flags, i);
          return r, i;
        }
        i := i + 1;
      }
      AllWritable(old(mem), mem, lvl, root, virt, phys, flags, i);
      return Done, i;
    }
  }

  lemma RangeStarts(t: Memory, root: bv64, virt: bv64, phys: bv64, flags: bv64)
    ensures RangeMapped(t, t, root, virt, phys, flags, 0) && NoHugeKept(t, t, root)
  {
  }

  lemma RangeKept(t: Memory, u: Memory, w: Memory, root: bv64, virt: bv64, phys: bv64, flags: bv64, n: nat)
    requires n <= 0x10_0000_0000 && RangeMapped(t, u, root, virt, phys, flags, n) && NoHugeKept(t, u, root)
    requires SameLookups(u, w, root)
    ensures RangeMapped(t, w, root, virt, phys, flags, n) && NoHugeKept(t, w, root)
  {
  }

  lemma StillOff(t: Memory, u: Memory, root: bv64, virt: bv64, i: nat)
    requires i < 0x10_0000_0000 && NoHugeOn(t, root, PathAt(virt, i)) && NoHugeKept(t, u, root)
    ensures NoHugeOn(u, root, PathAt(virt, i))
  {
  }

  lemma AttachedCreated(t: Memory, g: bv64, i: bv64, n: bv64)
    requires n != g
    ensures Created(t, Attach(t, g, i, n), g, i, n)
  {
    var u := Attach(t, g, i, n);
    TableBits(n);
    forall f, j ensures Entry(u, f, j) == if f == g && j == i then n | 3 else if f == n then 0 else Entry(t, f, j) {
      EntryOfPut(Clear(t, n), g, i, n | PRESENT | WRITABLE, f, j);
      EntryOfClear(t, n, f, j);
    }
  }

  lemma TableBits(n: bv64)
    ensures n | PRESENT | WRITABLE == n | 3
  {
  }

  lemma BootNumbers()
    ensures forall p :: p in BootLevels() ==> PageNumber(p.frame) in {0x70, 0x71, 0x72, 0x73, 0x74}
  {
  }

  lemma LeafEntry(phys: bv64, flags: bv64)
    requires flags & ADDR_MASK == 0
    ensures IsPresent(PageEntry(phys, flags)) && Frame(PageEntry(phys, flags)) == Frame(phys)
    ensures PageEntry(phys, flags) & 0xFFF0_0000_0000_0FFF == flags | 1
    ensures IsWritable(flags) ==> IsWritable(PageEntry(phys, flags))
    ensures IsWritable(PageEntry(phys, flags)) ==> IsWritable(flags)
  {
  }

  lemma FlagsDecide(t: Memory, lvl: Levels, root: bv64, p: Path, phys: bv64, flags: bv64)
    requires Tree(t, lvl, root) && flags & ADDR_MASK == 0 && Find(t, root, 4, p) == Leaf(1, PageEntry(phys, flags))
    ensures WriteAllowed(t, root, 4, p) <==> IsWritable(flags)
  {
    hide Find, WriteAllowed, PageEntry, IsWritable, Frame;
    LeafDecides(t, lvl, root, root, 4, p);
    LeafEntry(phys, flags);
  }

  /** The pages of a mapped range let writes through exactly when the flags say so. */
  lemma RangeWritable(t: Memory, u: Memory, lvl: Levels, root: bv64, virt: bv64, phys: bv64, flags: bv64, n: nat,
                      i: nat)
    requires Tree(u, lvl, root) && flags & ADDR_MASK == 0 && i < n <= 0x10_0000_0000
    requires RangeMapped(t, u, root, virt, phys, flags, n)
    ensures WriteAllowed(u, root, 4, PathAt(virt, i)) <==> IsWritable(flags)
  {
    hide Find, Tree, PathAt, WriteAllowed, PageEntry, IsWritable, PageAt;
    assert Find(u, root, 4, PathAt(virt, i)) == LeafAt(phys, flags, i);
    FlagsDecide(u, lvl, root, PathAt(virt, i), PageAt(phys, i), flags);
  }

  lemma AllWritable(t: Memory, u: Memory, lvl: Levels, root: bv64, virt: bv64, phys: bv64, flags: bv64, n: nat)
    requires Tree(u, lvl, root) && flags & ADDR_MASK == 0 && n <= 0x10_0000_0000
    requires RangeMapped(t, u, root, virt, phys, flags, n)
    ensures forall j: nat :: j < n ==> (WriteAllowed(u, root, 4, PathAt(virt, j)) <==> IsWritable(flags))
  {
    hide RangeMapped, Tree, PathAt, WriteAllowed, IsWritable;
    forall j: nat | j < n ensures WriteAllowed(u, root, 4, PathAt(virt, j)) <==> IsWritable(flags) {
      RangeWritable(t, u, lvl, root, virt, phys, flags, n, j);
    }
  }

  /** The lookup of path q after unmapping path p. */
  ghost function Unmapped(t: Memory, root: bv64, p: Path, q: Path): End {
    var e := Find(t, root, 4, p);
    if e.Leaf? && e.level == 2 then (if q.Upper() == p.Upper() then Hole else Find(t, root, 4, q))
    else if q == p then Hole
    else Find(t, root, 4, q)
  }

  // ----- ranges -----

  const PAGE_SIZE := 4096

  /** The least number of pages that hold so many bytes. */
  function PageCount(size: nat): (n: nat)
    ensures size <= 4096 * n < size + 4096
  {
    (size + PAGE_SIZE - 1) / PAGE_SIZE
  }

  /** addr + i * PAGE_SIZE in 64 bits. */
  function PageAt(addr: bv64, i: nat): bv64
    requires i < 0x10_0000_0000
  {
    Shifted(addr, ToWord(i))
  }

  function Shifted(addr: bv64, i: bv64): bv64 { addr + (i << 12) }

  predicate PageAligned(addr: bv64) { addr & 0xFFF == 0 }

  function PathAt(virt: bv64, i: nat): Path
    requires i < 0x10_0000_0000
  {
    PathOf(PageAt(virt, i))
  }
  /** The page table entry vmm_map_page writes. */
  function PageEntry(phys: bv64, flags: bv64): bv64 { Frame(phys) | flags | PRESENT }

  function LeafAt(phys: bv64, flags: bv64, i: nat): End
    requires i < 0x10_0000_0000
  {
    Leaf(1, PageEntry(PageAt(phys, i), flags))
  }

  ghost predicate NoHugeKept(t: Memory, u: Memory, root: bv64) {
    forall q: Path :: NoHugeOn(t, root, q) ==> NoHugeOn(u, root, q)
  }

  ghost predicate Outside(virt: bv64, n: nat, q: Path)
    requires n <= 0x10_0000_0000
  {
    forall i: nat :: i < n ==> PathAt(virt, i) != q
  }

  /** The first n pages from virt map to the first n frames from phys; every other path ends where it did. */
  ghost predicate RangeMapped(t: Memory, u: Memory, root: bv64, virt: bv64, phys: bv64, flags: bv64, n: nat)
    requires n <= 0x10_0000_0000
  {
    && (forall i: nat :: i < n ==> Find(u, root, 4, PathAt(virt, i)) == LeafAt(phys, flags, i))
    && (forall q: Path :: Outside(virt, n, q) ==> Find(u, root, 4, q) == Find(t, root, 4, q))
  }

  lemma DistinctPages(virt: bv64, i: nat, j: nat)
    requires PageAligned(virt) && i < j < 0x10_0000_0000
    ensures PathAt(virt, i) != PathAt(virt, j)
  {
    if PathAt(virt, i) == PathAt(virt, j) {
      hide ToWord, PathOf, SamePage, PageAligned;
      var x, y := ToWord(i), ToWord(j);
      SamePathSamePage(Shifted(virt, x), Shifted(virt, y));
      hide Shifted;
      SmallIndex(x);
      SmallIndex(y);
      SamePageSameIndex(virt, x, y);
    }
  }

  lemma SmallIndex(x: bv64)
    requires x as nat < 0x10_0000_0000
    ensures x < 0x10_0000_0000
  {
  }

  // Two addresses virt + i * 4096 in one page have the same i: they differ by a multiple of 4096 below 2^48 whose
  // bits 12 to 47 are clear.

  lemma SamePageSameIndex(v: bv64, i: bv64, j: bv64)
    requires SamePage(Shifted(v, i), Shifted(v, j)) && PageAligned(v) && i < 0x10_0000_0000 && j < 0x10_0000_0000
    ensures i == j
  {
    LowDifference(v, i, j);
    SameIndex(i, j);
  }

  lemma LowDifference(v: bv64, i: bv64, j: bv64)
    requires SamePage(Shifted(v, i), Shifted(v, j)) && PageAligned(v)
    ensures ((j << 12) - (i << 12)) & 0xFFFF_FFFF_FFFF == 0
  {
    ShiftedAligned(v, i);
    ShiftedAligned(v, j);
    SumDifference(v, i, j);
  }

  lemma ShiftedAligned(v: bv64, i: bv64)
    requires PageAligned(v)
    ensures PageAligned(Shifted(v, i))
  {
  }

  lemma SumDifference(v: bv64, i: bv64, j: bv64)
    requires SamePage(v + (i << 12), v + (j << 12)) && PageAligned(v + (i << 12)) && PageAligned(v + (j << 12))
    ensures ((j << 12) - (i << 12)) & 0xFFFF_FFFF_FFFF == 0
  {
    AlignedDifference();
  }

  lemma AlignedDifference()
    ensures forall x, y {:trigger SamePage(x, y)} ::
              SamePage(x, y) && PageAligned(x) && PageAligned(y) ==> (y - x) & 0xFFFF_FFFF_FFFF == 0
  {
    forall x, y | SamePage(x, y) && PageAligned(x) && PageAligned(y) ensures (y - x) & 0xFFFF_FFFF_FFFF == 0 {
      AlignedPair(x, y);
    }
  }

  lemma AlignedPair(x: bv64, y: bv64)
    requires SamePage(x, y) && PageAligned(x) && PageAligned(y)
    ensures (y - x) & 0xFFFF_FFFF_FFFF == 0
  {
  }

  lemma SameIndex(i: bv64, j: bv64)
    requires i < 0x10_0000_0000 && j < 0x10_0000_0000 && ((j << 12) - (i << 12)) & 0xFFFF_FFFF_FFFF == 0
    ensures i == j
  {
  }

  lemma KeptByOne(t: Memory, u: Memory, w: Memory, root: bv64, p: Path, e: End)
    requires NoHugeKept(t, u, root) && OneLookup(u, w, root, p, e) && e.Leaf? && e.level == 1
    ensures NoHugeKept(t, w, root)
  {
  }

  lemma ExtendRange(t: Memory, u: Memory, w: Memory, root: bv64, virt: bv64, phys: bv64, flags: bv64, n: nat)
    requires PageAligned(virt) && n < 0x10_0000_0000
    requires RangeMapped(t, u, root, virt, phys, flags, n)
    requires OneLookup(u, w, root, PathAt(virt, n), LeafAt(phys, flags, n))
    ensures RangeMapped(t, w, root, virt, phys, flags, n + 1)
  {
    forall i: nat | i < n + 1 ensures Find(w, root, 4, PathAt(virt, i)) == LeafAt(phys, flags, i) {
      if i < n { DistinctPages(virt, i, n); }
    }
    forall q: Path | Outside(virt, n + 1, q) ensures Find(w, root, 4, q) == Find(t, root, 4, q) {
      assert Outside(virt, n, q) && q != PathAt(virt, n);
    }
  }

  // ----- what callers see: the tables as a flat map from addresses to addresses -----

  /** After a successful vmm_map_page, vmm_get_phys gives the frame of phys with the offset of w for
      every address w in the page of virt ... */
  lemma MappedHere(t: Memory, u: Memory, root: bv64, virt: bv64, phys: bv64, flags: bv64, w: bv64)
    requires flags & ADDR_MASK == 0 && SamePage(virt, w)
    requires OneLookup(t, u, root, PathOf(virt), Leaf(1, Frame(phys) | flags | PRESENT))
    ensures Lookup(u, root, w) == Frame(phys) | (w & 0xFFF)
  {
    hide Find, Frame, PathOf, SamePage, IsPresent, Lookup;
    LeafEntry(phys, flags);
    SamePageSamePath(virt, w);
    LeafLookup(u, root, w, PageEntry(phys, flags));
  }

  lemma LeafLookup(t: Memory, root: bv64, v: bv64, e: bv64)
    requires Find(t, root, 4, PathOf(v)) == Leaf(1, e)
    ensures Lookup(t, root, v) == Frame(e) | (v & 0xFFF)
  {
    hide Find;
  }

  /** ... and is unchanged for every address that differs from virt in bits 12-47. */
  lemma MappedElsewhere(t: Memory, u: Memory, root: bv64, virt: bv64, e: End, w: bv64)
    requires OneLookup(t, u, root, PathOf(virt), e) && !SamePage(virt, w)
    ensures Lookup(u, root, w) == Lookup(t, root, w)
  {
    OtherPageOtherPath(virt, w);
  }

  /** After vmm_unmap_page under a 2MB page, exactly the addresses of that page are unmapped. */
  lemma UnmappedHugePage(t: Memory, u: Memory, root: bv64, virt: bv64, w: bv64)
    requires forall q: Path :: Find(u, root, 4, q) == Unmapped(t, root, PathOf(virt), q)
    requires Find(t, root, 4, PathOf(virt)).Leaf? && Find(t, root, 4, PathOf(virt)).level == 2
    ensures Lookup(u, root, w) == if SameHugePage(virt, w) then 0xFFFF_FFFF_FFFF_FFFF else Lookup(t, root, w)
  {
    if SameHugePage(virt, w) { SameHugePageSamePath(virt, w); } else { OtherHugePageOtherPath(virt, w); }
  }

  /** Otherwise exactly the addresses of the 4KB page are unmapped. */
  lemma UnmappedPage(t: Memory, u: Memory, root: bv64, virt: bv64, w: bv64)
    requires forall q: Path :: Find(u, root, 4, q) == Unmapped(t, root, PathOf(virt), q)
    requires Find(t, root, 4, PathOf(virt)).Leaf? ==> Find(t, root, 4, PathOf(virt)).level != 2
    ensures Lookup(u, root, w) == if SamePage(virt, w) then 0xFFFF_FFFF_FFFF_FFFF else Lookup(t, root, w)
  {
    if SamePage(virt, w) { SamePageSamePath(virt, w); } else { OtherPageOtherPath(virt, w); }
  }

  function Plus(addr: bv64, o: bv64): bv64 { addr + o }

  /** After a successful vmm_map_range byte o of page i of the range translates to byte o of frame i ... */
  lemma RangeTranslates(t: Memory, u: Memory, root: bv64, virt: bv64, phys: bv64, flags: bv64, n: nat, i: nat, o: bv64)
    requires flags & ADDR_MASK == 0 && PageAligned(virt) && i < n <= 0x10_0000_0000 && o < 0x1000
    requires RangeMapped(t, u, root, virt, phys, flags, n) && Frame(PageAt(phys, i)) == PageAt(phys, i)
    ensures Lookup(u, root, Plus(PageAt(virt, i), o)) == Plus(PageAt(phys, i), o)
  {
    hide Find, Physical, SamePage, PageAligned, Plus, Frame, PathOf, Shifted, PageEntry, IsPresent;
    ShiftedAligned(virt, ToWord(i));
    LeafEntry(PageAt(phys, i), flags);
    InnerAddress(PageAt(virt, i), o);
    SamePageSamePath(PageAt(virt, i), Plus(PageAt(virt, i), o));
    assert Find(u, root, 4, PathAt(virt, i)) == LeafAt(phys, flags, i);
    LeafAddress(PageEntry(PageAt(phys, i), flags), PageAt(phys, i), Plus(PageAt(virt, i), o), o);
  }

  lemma LeafAddress(e: bv64, f: bv64, w: bv64, o: bv64)
    requires Frame(e) == f && Frame(f) == f && w & 0xFFF == o && o < 0x1000
    ensures Physical(Leaf(1, e), w) == Plus(f, o)
  {
    WithOffset(f, o);
  }

  /** ... and every address in no page of the range translates as before. */
  lemma RangeElsewhere(t: Memory, u: Memory, root: bv64, virt: bv64, phys: bv64, flags: bv64, n: nat, w: bv64)
    requires n <= 0x10_0000_0000 && RangeMapped(t, u, root, virt, phys, flags, n)
    requires forall j: nat :: j < n ==> !SamePage(PageAt(virt, j), w)
    ensures Lookup(u, root, w) == Lookup(t, root, w)
  {
    forall j: nat | j < n ensures PathAt(virt, j) != PathOf(w) {
      OtherPageOtherPath(PageAt(virt, j), w);
    }
    assert Outside(virt, n, PathOf(w));
  }

  lemma InnerAddress(v: bv64, o: bv64)
    requires PageAligned(v) && o < 0x1000
    ensures SamePage(v, Plus(v, o)) && Plus(v, o) & 0xFFF == o
  {
  }

  lemma WithOffset(f: bv64, o: bv64)
    requires Frame(f) == f && o < 0x1000
    ensures f | o == Plus(f, o)
  {
  }

  // In a 1GB page the low 30 bits of an address carry over, in a 2MB page 21 and in a 4KB page 12, and the others are
  // those of the entry, when that is aligned as its level asks.

  lemma InGigabytePage(t: Memory, root: bv64, v: bv64, e: bv64)
    requires Find(t, root, 4, PathOf(v)) == Leaf(3, e) && Frame(e) & 0x3FFF_FFFF == 0
    ensures Lookup(t, root, v) & 0x3FFF_FFFF == v & 0x3FFF_FFFF
    ensures Lookup(t, root, v) & 0xFFFF_FFFF_C000_0000 == Frame(e)
  {
    ThirtyBits(v, Frame(e));
    hide Find, Frame, PathOf;
  }

  lemma ThirtyBits(v: bv64, f: bv64)
    requires f & 0x3FFF_FFFF == 0
    ensures (f | (v & 0x3FFF_FFFF)) & 0x3FFF_FFFF == v & 0x3FFF_FFFF
    ensures (f | (v & 0x3FFF_FFFF)) & 0xFFFF_FFFF_C000_0000 == f
  {
  }

  lemma InHugePage(t: Memory, root: bv64, v: bv64, e: bv64)
    requires Find(t, root, 4, PathOf(v)) == Leaf(2, e) && Frame(e) & 0x1F_FFFF == 0
    ensures Lookup(t, root, v) & 0x1F_FFFF == v & 0x1F_FFFF
    ensures Lookup(t, root, v) & 0xFFFF_FFFF_FFE0_0000 == Frame(e)
  {
    TwentyOneBits(v, Frame(e));
    hide Find, Frame, PathOf;
  }

  lemma TwentyOneBits(v: bv64, f: bv64)
    requires f & 0x1F_FFFF == 0
    ensures (f | (v & 0x1F_FFFF)) & 0x1F_FFFF == v & 0x1F_FFFF
    ensures (f | (v & 0x1F_FFFF)) & 0xFFFF_FFFF_FFE0_0000 == f
  {
  }

  lemma InSmallPage(t: Memory, root: bv64, v: bv64, e: bv64)
    requires Find(t, root, 4, PathOf(v)) == Leaf(1, e) && Frame(e) & 0xFFF == 0
    ensures Lookup(t, root, v) & 0xFFF == v & 0xFFF
    ensures Lookup(t, root, v) & 0xFFFF_FFFF_FFFF_F000 == Frame(e)
  {
    TwelveBits(v, Frame(e));
    hide Find, Frame, PathOf;
  }

  lemma TwelveBits(v: bv64, f: bv64)
    requires f & 0xFFF == 0
    ensures (f | (v & 0xFFF)) & 0xFFF == v & 0xFFF
    ensures (f | (v & 0xFFF)) & 0xFFFF_FFFF_FFFF_F000 == f
  {
  }

  // ----- why a huge page on the path is excluded -----

  /** Writing to a frame that is not a table disturbs no lookup. */
  lemma {:induction false} PutOffTree(t: Memory, lvl: Levels, root: bv64, f: bv64, level: nat, q: Path,
                                      g: bv64, i: bv64, e: bv64)
    requires Tree(t, lvl, root) && 1 <= level <= 4 && IsTable(lvl, f, level) && Page(g) !in lvl
    ensures Find(Put(t, g, i, e), f, level, q) == Find(t, f, level, q)
    decreases level
  {
    var x := Entry(t, f, q.At(level));
    EntryOfPut(t, g, i, e, f, q.At(level));
    if IsPresent(x) && !IsLeaf(level, x) {
      assert Pointer(t, lvl, f, q.At(level));
      PutOffTree(t, lvl, root, Frame(x), level - 1, q, g, i, e);
    }
  }

  /** Where vmm_map_page goes wrong from the start: every address of the first 4MB lies under a 2MB page of the boot
      tables, whose frame is no table.  A call for 0x1000 fails, since that frame is at address 0; one for 0x201000
      reports success, and changes nothing but a word at 0x200008. */
  lemma BootUnderHuge(t: Memory, v: bv64)
    requires IsBootTables(t) && v < 0x40_0000
    ensures !NoHugeOn(t, PML4, PathOf(v)) && OffTables(t, BootLevels(), PML4, PathOf(v))
    ensures UnderFrame(t, PML4, PathOf(v)) == if v < 0x20_0000 then 0 else 0x20_0000
    ensures PathOf(0x20_1000).i1 == 1
  {
    hide Find;
    LowPath(v);
    BootWalk(t, PathOf(v));
    UnderBits(v);
  }

  lemma UnderBits(v: bv64)
    requires v < 0x40_0000
    ensures Frame(((v >> 21) << 21) | RW_HUGE) == if v < 0x20_0000 then 0 else 0x20_0000
  {
  }
}
