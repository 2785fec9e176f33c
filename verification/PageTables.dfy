/**
  Four-level page tables as values (Intel SDM volume 3A, section 4.5), and the lookup that
  kernel/memory/vmm.c performs on them.

  `Memory` is physical memory as 8-byte words: a Slot is a frame and an index 0 to 511 in it,
  and a slot that is not listed holds zero.  The ghost map `lvl` records which frames serve as
  tables and at which level (4 = PML4 ... 1 = PT); it exists because the tables form a tree.
 */
module PageTables {
  const ADDR_MASK: bv64 := 0x000F_FFFF_FFFF_F000
  const PRESENT: bv64 := 0x1
  const WRITABLE: bv64 := 0x2
  const HUGE: bv64 := 0x80
  const NOT_MAPPED: bv64 := 0xFFFF_FFFF_FFFF_FFFF

  datatype Slot = Slot(frame: bv64, index: bv64)
  datatype Page = Page(frame: bv64)

  type Memory = map<Slot, bv64>
  type Levels = map<Page, int>

  predicate IsPresent(e: bv64) { e & PRESENT != 0 }
  predicate IsWritable(e: bv64) { e & WRITABLE != 0 }
  predicate IsHuge(e: bv64) { e & HUGE != 0 }
  function Frame(e: bv64): bv64 { e & ADDR_MASK }

  // ----- virtual addresses -----

  /** The four table indices of an address, level 4 first. */
  datatype Path = Path(i4: bv64, i3: bv64, i2: bv64, i1: bv64) {
    function At(level: int): bv64 {
      if level == 4 then i4 else if level == 3 then i3 else if level == 2 then i2 else i1
    }
    function Upper(): Path { this.(i1 := 0) }
  }

  /** pml4_index, pdpt_index, pd_index and pt_index. */
  function PathOf(v: bv64): Path {
    Path((v >> 39) & 0x1FF, (v >> 30) & 0x1FF, (v >> 21) & 0x1FF, (v >> 12) & 0x1FF)
  }

  /** The bits of an address below the page size of a level. */
  function Offset(level: int, v: bv64): bv64 {
    if level == 3 then v & 0x3FFF_FFFF else if level == 2 then v & 0x1F_FFFF else v & 0xFFF
  }

  /** Bits 12 to 47 agree. */
  predicate SamePage(v: bv64, w: bv64) { (v ^ w) & 0x0000_FFFF_FFFF_F000 == 0 }
  /** Bits 21 to 47 agree. */
  predicate SameHugePage(v: bv64, w: bv64) { (v ^ w) & 0x0000_FFFF_FFE0_0000 == 0 }

  lemma SamePageSamePath(v: bv64, w: bv64)
    requires SamePage(v, w)
    ensures PathOf(v) == PathOf(w)
  {
  }

  lemma SamePathSamePage(v: bv64, w: bv64)
    requires PathOf(v) == PathOf(w)
    ensures SamePage(v, w)
  {
  }

  lemma SameHugePageSamePath(v: bv64, w: bv64)
    requires SameHugePage(v, w)
    ensures PathOf(v).Upper() == PathOf(w).Upper()
  {
  }

  lemma SamePathSameHugePage(v: bv64, w: bv64)
    requires PathOf(v).Upper() == PathOf(w).Upper()
    ensures SameHugePage(v, w)
  {
  }

  lemma OtherPageOtherPath(v: bv64, w: bv64)
    requires !SamePage(v, w)
    ensures PathOf(v) != PathOf(w)
  {
    if PathOf(v) == PathOf(w) { SamePathSamePage(v, w); }
  }

  lemma OtherHugePageOtherPath(v: bv64, w: bv64)
    requires !SameHugePage(v, w)
    ensures PathOf(v).Upper() != PathOf(w).Upper()
  {
    if PathOf(v).Upper() == PathOf(w).Upper() { SamePathSameHugePage(v, w); }
  }

  // ----- lookup -----

  function Entry(t: Memory, f: bv64, i: bv64): bv64 {
    if Slot(f, i) in t then t[Slot(f, i)] else 0
  }

  /** The entry maps a page rather than pointing to a table (the huge bit counts at levels 3 and 2). */
  predicate IsLeaf(level: int, e: bv64) { level == 1 || (level <= 3 && IsHuge(e)) }

  /** Where the walk along a path ends: at an absent entry, or at an entry that maps a page. */
  datatype End = Hole | Leaf(level: int, entry: bv64)

  function Find(t: Memory, f: bv64, level: nat, p: Path): End
    requires 1 <= level <= 4
    decreases level
  {
    var e := Entry(t, f, p.At(level));
    if !IsPresent(e) then Hole
    else if IsLeaf(level, e) then Leaf(level, e)
    else Find(t, Frame(e), level - 1, p)
  }

  /** The address that the end of the walk stands for. */
  function Physical(e: End, v: bv64): bv64 {
    match e
    case Hole => NOT_MAPPED
    case Leaf(level, entry) => Frame(entry) | Offset(level, v)
  }

  /** vmm_get_phys */
  function Lookup(t: Memory, root: bv64, v: bv64): bv64 {
    Physical(Find(t, root, 4, PathOf(v)), v)
  }

  // ----- what a walk lacks -----

  /** Tables that have to be created before the walk along p from table f of a level gets to a page table. */
  function Missing(t: Memory, f: bv64, level: nat, p: Path): (n: nat)
    requires 1 <= level <= 4
    ensures n < level
    decreases level
  {
    if level == 1 then 0
    else
      var e := Entry(t, f, p.At(level));
      if !IsPresent(e) then level - 1 else if IsLeaf(level, e) then 0 else Missing(t, Frame(e), level - 1, p)
  }

  ghost predicate Zeroed(t: Memory, f: bv64) { forall i :: Entry(t, f, i) == 0 }

  ghost predicate IsGiant(e: End) { e.Leaf? && e.level == 3 }

  /** No 1GB page is mapped. */
  ghost predicate NoGiant(t: Memory, root: bv64) { forall p: Path :: !IsGiant(Find(t, root, 4, p)) }

  // ----- the tree -----

  ghost predicate IsTable(lvl: Levels, f: bv64, level: int) { Page(f) in lvl && lvl[Page(f)] == level }

  /** Entry i of table f points to a table. */
  ghost predicate Pointer(t: Memory, lvl: Levels, f: bv64, i: bv64) {
    && Page(f) in lvl && lvl[Page(f)] > 1
    && IsPresent(Entry(t, f, i)) && !IsLeaf(lvl[Page(f)], Entry(t, f, i))
  }

  ghost predicate Shape(lvl: Levels, root: bv64) {
    && IsTable(lvl, root, 4)
    && forall p :: p in lvl ==> 1 <= lvl[p] <= 4 && Frame(p.frame) == p.frame
  }

  /** Every pointer leads to a table one level down. */
  ghost predicate Linked(t: Memory, lvl: Levels) {
    forall f, i :: Pointer(t, lvl, f, i) ==> IsTable(lvl, Frame(Entry(t, f, i)), lvl[Page(f)] - 1)
  }

  /** No two pointers lead to the same table. */
  ghost predicate Unshared(t: Memory, lvl: Levels) {
    forall f, i, g, j {:trigger Pointer(t, lvl, f, i), Pointer(t, lvl, g, j)} ::
      Pointer(t, lvl, f, i) && Pointer(t, lvl, g, j) && Frame(Entry(t, f, i)) == Frame(Entry(t, g, j)) ==>
        f == g && i == j
  }

  /** Every pointer lets writes through. */
  ghost predicate Open(t: Memory, lvl: Levels) {
    forall f, i :: Pointer(t, lvl, f, i) ==> IsWritable(Entry(t, f, i))
  }

  ghost predicate Tree(t: Memory, lvl: Levels, root: bv64) {
    Shape(lvl, root) && Linked(t, lvl) && Unshared(t, lvl) && Open(t, lvl)
  }

  /** The walk along p from table f of one level gets to table g of a lower level. */
  ghost predicate Reaches(t: Memory, f: bv64, level: nat, p: Path, g: bv64, goal: nat)
    requires 1 <= goal <= level <= 4
    decreases level
  {
    if level == goal then f == g
    else
      var e := Entry(t, f, p.At(level));
      IsPresent(e) && !IsLeaf(level, e) && Reaches(t, Frame(e), level - 1, p, g, goal)
  }

  lemma {:induction false} ReachesDown(t: Memory, lvl: Levels, root: bv64, f: bv64, level: nat, p: Path,
                                       g: bv64, goal: nat)
    requires Tree(t, lvl, root) && 1 <= goal <= level <= 4 && IsTable(lvl, f, level)
    requires Reaches(t, f, level, p, g, goal)
    ensures IsTable(lvl, g, goal)
    decreases level
  {
    if level > goal {
      assert Pointer(t, lvl, f, p.At(level));
      ReachesDown(t, lvl, root, Frame(Entry(t, f, p.At(level))), level - 1, p, g, goal);
    }
  }

  /** The two paths take the same entries on the levels above goal. */
  ghost predicate SameAbove(p: Path, q: Path, level: nat, goal: nat) {
    level > goal ==> p.At(level) == q.At(level) && SameAbove(p, q, level - 1, goal)
  }

  /** Two tables of one level from which the same table is reached are the same table, and so are the paths. */
  lemma {:induction false} PathsMeet(t: Memory, lvl: Levels, root: bv64, x: bv64, y: bv64, level: nat,
                                     p: Path, q: Path, g: bv64, goal: nat)
    requires Tree(t, lvl, root) && 1 <= goal <= level <= 4
    requires IsTable(lvl, x, level) && IsTable(lvl, y, level)
    requires Reaches(t, x, level, p, g, goal) && Reaches(t, y, level, q, g, goal)
    ensures x == y && SameAbove(p, q, level, goal)
    decreases level
  {
    if level > goal {
      var i, j := p.At(level), q.At(level);
      assert Pointer(t, lvl, x, i) && Pointer(t, lvl, y, j);
      PathsMeet(t, lvl, root, Frame(Entry(t, x, i)), Frame(Entry(t, y, j)), level - 1, p, q, g, goal);
    }
  }

  /** The walk along p from table f meets present and writable entries only, that of the page included: the
      processor then lets a write through. */
  predicate WriteAllowed(t: Memory, f: bv64, level: nat, p: Path)
    requires 1 <= level <= 4
    decreases level
  {
    var e := Entry(t, f, p.At(level));
    IsPresent(e) && IsWritable(e) && (IsLeaf(level, e) || WriteAllowed(t, Frame(e), level - 1, p))
  }

  /** In the tree that is up to the entry of the page alone. */
  lemma {:induction false} LeafDecides(t: Memory, lvl: Levels, root: bv64, f: bv64, level: nat, p: Path)
    requires Tree(t, lvl, root) && 1 <= level <= 4 && IsTable(lvl, f, level)
    ensures var x := Find(t, f, level, p); WriteAllowed(t, f, level, p) <==> x.Leaf? && IsWritable(x.entry)
    decreases level
  {
    hide Unshared, Frame;
    var e := Entry(t, f, p.At(level));
    if IsPresent(e) && !IsLeaf(level, e) {
      assert Pointer(t, lvl, f, p.At(level));
      LeafDecides(t, lvl, root, Frame(e), level - 1, p);
    }
  }

  /** So a path that ends where it did is as open to writes as it was. */
  lemma AccessKept(t: Memory, u: Memory, lvl: Levels, l: Levels, root: bv64, q: Path)
    requires Tree(t, lvl, root) && Tree(u, l, root) && Find(u, root, 4, q) == Find(t, root, 4, q)
    ensures WriteAllowed(u, root, 4, q) <==> WriteAllowed(t, root, 4, q)
  {
    hide Find, WriteAllowed, IsWritable, Linked, Unshared, Open;
    LeafDecides(t, lvl, root, root, 4, q);
    LeafDecides(u, l, root, root, 4, q);
  }

  // ----- writing one entry -----

  function Put(t: Memory, g: bv64, i: bv64, e: bv64): Memory { t[Slot(g, i) := e] }

  lemma EntryOfPut(t: Memory, g: bv64, i: bv64, e: bv64, f: bv64, j: bv64)
    ensures Entry(Put(t, g, i, e), f, j) == if f == g && j == i then e else Entry(t, f, j)
  {
  }

  /** The walk along q from table f uses entry i of table g, which is of level k. */
  ghost predicate Uses(t: Memory, f: bv64, level: nat, q: Path, g: bv64, k: nat, i: bv64)
    requires 1 <= level <= 4 && 1 <= k
  {
    k <= level && Reaches(t, f, level, q, g, k) && q.At(k) == i
  }

  /** A walk that does not use the entry is not affected by writing it. */
  lemma {:induction false} PutElsewhere(t: Memory, lvl: Levels, root: bv64, f: bv64, level: nat, q: Path,
                                        g: bv64, k: nat, i: bv64, e: bv64)
    requires Tree(t, lvl, root) && 1 <= level <= 4 && 1 <= k && IsTable(lvl, f, level) && IsTable(lvl, g, k)
    requires !Uses(t, f, level, q, g, k, i)
    ensures Find(Put(t, g, i, e), f, level, q) == Find(t, f, level, q)
    decreases level
  {
    var x := Entry(t, f, q.At(level));
    EntryOfPut(t, g, i, e, f, q.At(level));
    if IsPresent(x) && !IsLeaf(level, x) {
      assert Pointer(t, lvl, f, q.At(level));
      PutElsewhere(t, lvl, root, Frame(x), level - 1, q, g, k, i, e);
    }
  }

  /** A walk that uses the entry gets to its table as before. */
  lemma {:induction false} PutHere(t: Memory, lvl: Levels, root: bv64, f: bv64, level: nat, q: Path,
                                   g: bv64, k: nat, i: bv64, e: bv64)
    requires Tree(t, lvl, root) && 1 <= level <= 4 && 1 <= k && IsTable(lvl, f, level) && IsTable(lvl, g, k)
    requires Uses(t, f, level, q, g, k, i)
    ensures Find(Put(t, g, i, e), f, level, q) == Find(Put(t, g, i, e), g, k, q)
    ensures Find(t, f, level, q) == Find(t, g, k, q)
    decreases level
  {
    if level > k {
      var x := Entry(t, f, q.At(level));
      EntryOfPut(t, g, i, e, f, q.At(level));
      assert Pointer(t, lvl, f, q.At(level));
      PutHere(t, lvl, root, Frame(x), level - 1, q, g, k, i, e);
    }
  }

  /** Writing an entry that does not point to a table keeps the tree. */
  lemma PutKeepsTree(t: Memory, lvl: Levels, root: bv64, g: bv64, i: bv64, e: bv64)
    requires Tree(t, lvl, root) && !Pointer(Put(t, g, i, e), lvl, g, i)
    ensures Tree(Put(t, g, i, e), lvl, root)
  {
    var u := Put(t, g, i, e);
    forall f, j | Pointer(u, lvl, f, j)
      ensures Pointer(t, lvl, f, j) && Entry(u, f, j) == Entry(t, f, j)
    {
      EntryOfPut(t, g, i, e, f, j);
    }
  }

  // ----- vmm_map_page: the page table entry -----

  /** Writing the page table entry of path p changes the lookup of p and of no other path. */
  lemma MapLeaf(t: Memory, lvl: Levels, root: bv64, p: Path, g: bv64, e: bv64, q: Path)
    requires Tree(t, lvl, root) && Reaches(t, root, 4, p, g, 1)
    ensures Tree(Put(t, g, p.i1, e), lvl, root)
    ensures Find(Put(t, g, p.i1, e), root, 4, q) ==
            if q == p then (if IsPresent(e) then Leaf(1, e) else Hole) else Find(t, root, 4, q)
  {
    ReachesDown(t, lvl, root, root, 4, p, g, 1);
    PutKeepsTree(t, lvl, root, g, p.i1, e);
    if Uses(t, root, 4, q, g, 1, p.i1) {
      PathsMeet(t, lvl, root, root, root, 4, p, q, g, 1);
      assert SameAbove(p, q, 3, 1) && SameAbove(p, q, 2, 1);
      PutHere(t, lvl, root, root, 4, q, g, 1, p.i1, e);
      EntryOfPut(t, g, p.i1, e, g, p.i1);
    } else {
      PutElsewhere(t, lvl, root, root, 4, q, g, 1, p.i1, e);
    }
  }

  // ----- vmm_get_or_create_table -----

  /** memset of a whole frame to zero. */
  function Clear(t: Memory, n: bv64): Memory { map s | s in t && s.frame != n :: t[s] }

  /** Clear frame n and hang it under entry i of table g. */
  function Attach(t: Memory, g: bv64, i: bv64, n: bv64): Memory {
    Put(Clear(t, n), g, i, n | PRESENT | WRITABLE)
  }

  lemma TablePointer(n: bv64)
    requires Frame(n) == n
    ensures Frame(n | PRESENT | WRITABLE) == n && IsPresent(n | PRESENT | WRITABLE) && !IsHuge(n | PRESENT | WRITABLE)
    ensures IsWritable(n | PRESENT | WRITABLE)
  {
  }

  lemma EntryOfClear(t: Memory, n: bv64, f: bv64, j: bv64)
    ensures Entry(Clear(t, n), f, j) == if f == n then 0 else Entry(t, f, j)
  {
  }

  lemma SpareTable(t: Memory, lvl: Levels, root: bv64, n: bv64, level: int)
    requires Tree(t, lvl, root) && Page(n) !in lvl && Frame(n) == n && 1 <= level <= 4
    ensures Tree(Clear(t, n), lvl[Page(n) := level], root)
  {
    var s, k := Clear(t, n), lvl[Page(n) := level];
    forall f, j | Pointer(s, k, f, j)
      ensures Pointer(t, lvl, f, j) && Entry(s, f, j) == Entry(t, f, j) && f != n
    {
      EntryOfClear(t, n, f, j);
    }
  }

  /** Clearing a frame that is not a table disturbs no lookup. */
  lemma {:induction false} ClearElsewhere(t: Memory, lvl: Levels, root: bv64, f: bv64, level: nat, q: Path, n: bv64)
    requires Tree(t, lvl, root) && 1 <= level <= 4 && IsTable(lvl, f, level) && Page(n) !in lvl
    ensures Find(Clear(t, n), f, level, q) == Find(t, f, level, q)
    decreases level
  {
    var x := Entry(t, f, q.At(level));
    EntryOfClear(t, n, f, q.At(level));
    if IsPresent(x) && !IsLeaf(level, x) {
      assert Pointer(t, lvl, f, q.At(level));
      ClearElsewhere(t, lvl, root, Frame(x), level - 1, q, n);
    }
  }

  /** Hanging a cleared table under an absent entry keeps the tree ... */
  lemma AttachKeepsTree(t: Memory, lvl: Levels, root: bv64, g: bv64, k: nat, i: bv64, n: bv64)
    requires Tree(t, lvl, root) && 2 <= k <= 4 && IsTable(lvl, g, k) && !IsPresent(Entry(t, g, i))
    requires Page(n) !in lvl && Frame(n) == n
    ensures Tree(Attach(t, g, i, n), lvl[Page(n) := k - 1], root)
  {
    var s, l := Clear(t, n), lvl[Page(n) := k - 1];
    TablePointer(n);
    SpareTable(t, lvl, root, n, k - 1);
    EntryOfClear(t, n, g, i);
    forall f, j | Pointer(s, l, f, j) ensures Frame(Entry(s, f, j)) != n {
      EntryOfClear(t, n, f, j);
      assert Pointer(t, lvl, f, j);
    }
    AddPointer(s, l, root, g, k, i, n | PRESENT | WRITABLE);
  }

  lemma AddPointer(s: Memory, l: Levels, root: bv64, g: bv64, k: nat, i: bv64, e: bv64)
    requires Tree(s, l, root) && 2 <= k <= 4 && IsTable(l, g, k) && IsTable(l, Frame(e), k - 1) && IsWritable(e)
    requires forall f, j :: Pointer(s, l, f, j) ==> Frame(Entry(s, f, j)) != Frame(e)
    ensures Tree(Put(s, g, i, e), l, root)
  {
    hide Put, Entry, Frame, IsPresent, IsWritable, Linked, Unshared, Open;
    var u := Put(s, g, i, e);
    forall f, j | Pointer(u, l, f, j) ensures OldOrNew(s, u, l, g, i, e, f, j) {
      EntryOfPut(s, g, i, e, f, j);
    }
    NewLinked(s, u, l, g, k, i, e);
    NewUnshared(s, u, l, g, i, e);
    NewOpen(s, u, l, g, i, e);
  }

  /** Pointer j of table f is the new one, e in entry i of g, or was there before. */
  ghost predicate OldOrNew(s: Memory, u: Memory, l: Levels, g: bv64, i: bv64, e: bv64, f: bv64, j: bv64) {
    if f == g && j == i then Entry(u, f, j) == e else Pointer(s, l, f, j) && Entry(u, f, j) == Entry(s, f, j)
  }

  lemma NewLinked(s: Memory, u: Memory, l: Levels, g: bv64, k: nat, i: bv64, e: bv64)
    requires Linked(s, l) && IsTable(l, g, k) && IsTable(l, Frame(e), k - 1)
    requires forall f, j :: Pointer(u, l, f, j) ==> OldOrNew(s, u, l, g, i, e, f, j)
    ensures Linked(u, l)
  {
    hide Pointer, Frame, Entry;
  }

  lemma NewUnshared(s: Memory, u: Memory, l: Levels, g: bv64, i: bv64, e: bv64)
    requires Unshared(s, l) && forall f, j :: Pointer(s, l, f, j) ==> Frame(Entry(s, f, j)) != Frame(e)
    requires forall f, j :: Pointer(u, l, f, j) ==> OldOrNew(s, u, l, g, i, e, f, j)
    ensures Unshared(u, l)
  {
    hide Pointer, Frame, Entry;
  }

  lemma NewOpen(s: Memory, u: Memory, l: Levels, g: bv64, i: bv64, e: bv64)
    requires Open(s, l) && IsWritable(e)
    requires forall f, j :: Pointer(u, l, f, j) ==> OldOrNew(s, u, l, g, i, e, f, j)
    ensures Open(u, l)
  {
    hide Pointer, Frame, Entry, IsWritable;
  }

  /** ... and every lookup. */
  lemma AttachKeepsLookup(t: Memory, lvl: Levels, root: bv64, g: bv64, k: nat, i: bv64, n: bv64, q: Path)
    requires Tree(t, lvl, root) && 2 <= k <= 4 && IsTable(lvl, g, k) && !IsPresent(Entry(t, g, i))
    requires Page(n) !in lvl && Frame(n) == n
    ensures Find(Attach(t, g, i, n), root, 4, q) == Find(t, root, 4, q)
  {
    hide Find, Entry, Frame, IsPresent, IsWritable, Put, Clear, Linked, Unshared, Open;
    var e, s, l := n | PRESENT | WRITABLE, Clear(t, n), lvl[Page(n) := k - 1];
    ClearElsewhere(t, lvl, root, root, 4, q, n);
    SpareTable(t, lvl, root, n, k - 1);
    if Uses(s, root, 4, q, g, k, i) {
      PutHere(s, l, root, root, 4, q, g, k, i, e);
      AttachedHole(t, g, k, i, n, q);
    } else {
      PutElsewhere(s, l, root, root, 4, q, g, k, i, e);
    }
  }

  lemma AttachedHole(t: Memory, g: bv64, k: nat, i: bv64, n: bv64, q: Path)
    requires 2 <= k <= 4 && !IsPresent(Entry(t, g, i)) && n != g && Frame(n) == n && q.At(k) == i
    ensures Find(Attach(t, g, i, n), g, k, q) == Hole == Find(Clear(t, n), g, k, q)
  {
    var e, s := n | PRESENT | WRITABLE, Clear(t, n);
    TablePointer(n);
    EntryOfPut(s, g, i, e, g, i);
    EntryOfPut(s, g, i, e, n, q.At(k - 1));
    EntryOfClear(t, n, n, q.At(k - 1));
    EntryOfClear(t, n, g, i);
  }

  /** A walk that reaches a table ends where the walk from that table ends. */
  lemma {:induction false} FindVia(t: Memory, f: bv64, level: nat, p: Path, g: bv64, k: nat)
    requires 1 <= k <= level <= 4 && Reaches(t, f, level, p, g, k)
    ensures Find(t, f, level, p) == Find(t, g, k, p)
    decreases level
  {
    if level > k {
      FindVia(t, Frame(Entry(t, f, p.At(level))), level - 1, p, g, k);
    }
  }

  lemma {:induction false} ReachesStep(t: Memory, f: bv64, level: nat, p: Path, g: bv64, k: nat)
    requires 2 <= k <= level <= 4 && Reaches(t, f, level, p, g, k)
    requires IsPresent(Entry(t, g, p.At(k))) && !IsLeaf(k, Entry(t, g, p.At(k)))
    ensures Reaches(t, f, level, p, Frame(Entry(t, g, p.At(k))), k - 1)
    decreases level
  {
    if level > k {
      ReachesStep(t, Frame(Entry(t, f, p.At(level))), level - 1, p, g, k);
    }
  }

  /** The path that asked for the table now reaches it. */
  lemma {:induction false} AttachReaches(t: Memory, lvl: Levels, root: bv64, f: bv64, level: nat, p: Path,
                                         g: bv64, k: nat, n: bv64)
    requires Tree(t, lvl, root) && 2 <= k <= level <= 4 && IsTable(lvl, f, level) && IsTable(lvl, g, k)
    requires Reaches(t, f, level, p, g, k) && Page(n) !in lvl && Frame(n) == n
    ensures Reaches(Attach(t, g, p.At(k), n), f, level, p, n, k - 1)
    decreases level
  {
    var e, s := n | PRESENT | WRITABLE, Clear(t, n);
    EntryOfPut(s, g, p.At(k), e, f, p.At(level));
    EntryOfClear(t, n, f, p.At(level));
    if level > k {
      assert Pointer(t, lvl, f, p.At(level));
      AttachReaches(t, lvl, root, Frame(Entry(t, f, p.At(level))), level - 1, p, g, k, n);
    } else {
      TablePointer(n);
      assert Reaches(Attach(t, g, p.At(k), n), n, k - 1, p, n, k - 1);
    }
  }

  // ----- vmm_unmap_page -----

  /** Clearing the directory entry of a 2MB page removes that page and nothing else. */
  lemma UnmapHuge(t: Memory, lvl: Levels, root: bv64, p: Path, g: bv64, q: Path)
    requires Tree(t, lvl, root) && Reaches(t, root, 4, p, g, 2) && IsHuge(Entry(t, g, p.i2))
    ensures Tree(Put(t, g, p.i2, 0), lvl, root)
    ensures Find(Put(t, g, p.i2, 0), root, 4, q) == if q.Upper() == p.Upper() then Hole else Find(t, root, 4, q)
  {
    ReachesDown(t, lvl, root, root, 4, p, g, 2);
    EntryOfPut(t, g, p.i2, 0, g, p.i2);
    PutKeepsTree(t, lvl, root, g, p.i2, 0);
    if Uses(t, root, 4, q, g, 2, p.i2) {
      PathsMeet(t, lvl, root, root, root, 4, p, q, g, 2);
      assert SameAbove(p, q, 3, 2);
      PutHere(t, lvl, root, root, 4, q, g, 2, p.i2, 0);
    } else {
      if q.Upper() == p.Upper() { UpperUses(t, root, p, q, g); }
      PutElsewhere(t, lvl, root, root, 4, q, g, 2, p.i2, 0);
    }
  }

  lemma UpperUses(t: Memory, root: bv64, p: Path, q: Path, g: bv64)
    requires Reaches(t, root, 4, p, g, 2) && q.Upper() == p.Upper()
    ensures Uses(t, root, 4, q, g, 2, p.i2)
  {
    assert q.At(4) == p.At(4) && q.At(3) == p.At(3) && q.At(2) == p.At(2);
    var x := Entry(t, root, p.At(4));
    assert Reaches(t, Frame(x), 3, p, g, 2);
  }

  // ----- the tables the boot loader leaves (boot/paging.asm) -----

  const PML4: bv64 := 0x70000
  const PDPT_IDENT: bv64 := 0x71000
  const PD_IDENT: bv64 := 0x72000
  const PDPT_HIGHER: bv64 := 0x73000
  const PD_HIGHER: bv64 := 0x74000
  const RW: bv64 := 0x3
  const RW_HUGE: bv64 := 0x83

  /** Entry i of the page directory of the higher half: sixteen 2MB pages. */
  function HigherEntry(i: bv64): bv64 { if i < 16 then (i << 21) | RW_HUGE else 0 }

  function BootEntry(f: bv64, i: bv64): bv64 {
    if f == PML4 then (if i == 0 then PDPT_IDENT | RW else if i == 256 then PDPT_HIGHER | RW else 0)
    else if f == PDPT_IDENT then (if i == 0 then PD_IDENT | RW else 0)
    else if f == PDPT_HIGHER then (if i == 0 then PD_HIGHER | RW else 0)
    else if f == PD_IDENT then (if i == 0 then RW_HUGE else if i == 1 then 0x20_0000 | RW_HUGE else 0)
    else if f == PD_HIGHER then HigherEntry(i)
    else 0
  }

  ghost predicate IsBootTables(t: Memory) { forall f, i :: Entry(t, f, i) == BootEntry(f, i) }

  function BootLevels(): Levels {
    map[Page(PML4) := 4, Page(PDPT_IDENT) := 3, Page(PDPT_HIGHER) := 3, Page(PD_IDENT) := 2, Page(PD_HIGHER) := 2]
  }

  function LowTables(): Memory {
    map[Slot(PML4, 0) := PDPT_IDENT | RW, Slot(PML4, 256) := PDPT_HIGHER | RW,
        Slot(PDPT_IDENT, 0) := PD_IDENT | RW,
        Slot(PD_IDENT, 0) := RW_HUGE, Slot(PD_IDENT, 1) := 0x20_0000 | RW_HUGE,
        Slot(PDPT_HIGHER, 0) := PD_HIGHER | RW]
  }

  lemma LowEntries(f: bv64, j: bv64)
    ensures Entry(LowTables(), f, j) == if f == PD_HIGHER then 0 else BootEntry(f, j)
  {
  }

  /** setup_paging: the single entries, then the loop over the page directory of the higher half. */
  method SetupPaging() returns (t: Memory)
    ensures IsBootTables(t)
  {
    t := LowTables();
    var i: bv64, eax: bv64 := 0, RW_HUGE;
    var ecx := 16;
    forall f, j ensures Entry(t, f, j) == FilledTo(i, f, j) { LowEntries(f, j); }
    while ecx != 0
      invariant 0 <= ecx <= 16 && i <= 16 && i as int + ecx == 16
      invariant eax == (i << 21) | RW_HUGE
      invariant forall f, j :: Entry(t, f, j) == FilledTo(i, f, j)
    {
      NextHuge(i);
      forall f, j ensures Entry(Put(t, PD_HIGHER, i, eax), f, j) == FilledTo(i + 1, f, j) {
        FillOne(t, i, eax, f, j);
      }
      t := Put(t, PD_HIGHER, i, eax);
      eax := eax + 0x20_0000;
      i := i + 1;
      ecx := ecx - 1;
    }
    forall f, j ensures Entry(t, f, j) == BootEntry(f, j) { FilledAll(i, f, j); }
  }

  /** The boot tables with the higher half filled up to entry i. */
  function FilledTo(i: bv64, f: bv64, j: bv64): bv64 {
    if f == PD_HIGHER && i <= j then 0 else BootEntry(f, j)
  }

  lemma FilledAll(i: bv64, f: bv64, j: bv64)
    requires i as int == 16
    ensures FilledTo(i, f, j) == BootEntry(f, j)
  {
  }

  lemma FillOne(t: Memory, i: bv64, e: bv64, f: bv64, j: bv64)
    requires i < 16 && e == (i << 21) | RW_HUGE && Entry(t, f, j) == FilledTo(i, f, j)
    ensures Entry(Put(t, PD_HIGHER, i, e), f, j) == FilledTo(i + 1, f, j)
  {
    EntryOfPut(t, PD_HIGHER, i, e, f, j);
  }

  lemma NextHuge(i: bv64)
    requires i < 16
    ensures ((i << 21) | RW_HUGE) + 0x20_0000 == ((i + 1) << 21) | RW_HUGE && (i + 1) as int == i as int + 1
  {
  }

  /** The four pointers of the boot tables and where they lead. */
  predicate IsBootPointer(f: bv64, i: bv64) {
    (f == PML4 && (i == 0 || i == 256)) || ((f == PDPT_IDENT || f == PDPT_HIGHER) && i == 0)
  }

  function BootTarget(f: bv64, i: bv64): bv64 {
    if f == PML4 then (if i == 0 then PDPT_IDENT else PDPT_HIGHER)
    else if f == PDPT_IDENT then PD_IDENT else PD_HIGHER
  }

  lemma BootPointer(t: Memory, f: bv64, i: bv64)
    requires IsBootTables(t) && Pointer(t, BootLevels(), f, i)
    ensures IsBootPointer(f, i) && Frame(Entry(t, f, i)) == BootTarget(f, i) && IsWritable(Entry(t, f, i))
  {
    assert Entry(t, f, i) == BootEntry(f, i);
  }

  lemma BootLink(f: bv64, i: bv64)
    requires IsBootPointer(f, i)
    ensures Page(f) in BootLevels() && IsTable(BootLevels(), BootTarget(f, i), BootLevels()[Page(f)] - 1)
  {
  }

  lemma BootUnshared(f: bv64, i: bv64, g: bv64, j: bv64)
    requires IsBootPointer(f, i) && IsBootPointer(g, j) && BootTarget(f, i) == BootTarget(g, j)
    ensures f == g && i == j
  {
  }

  lemma BootTree(t: Memory)
    requires IsBootTables(t)
    ensures Tree(t, BootLevels(), PML4)
  {
    forall f, i | Pointer(t, BootLevels(), f, i)
      ensures IsWritable(Entry(t, f, i))
      ensures IsTable(BootLevels(), Frame(Entry(t, f, i)), BootLevels()[Page(f)] - 1)
    {
      BootPointer(t, f, i);
      BootLink(f, i);
    }
    forall f, i, g, j | && Pointer(t, BootLevels(), f, i) && Pointer(t, BootLevels(), g, j)
                        && Frame(Entry(t, f, i)) == Frame(Entry(t, g, j))
      ensures f == g && i == j
    {
      BootPointer(t, f, i);
      BootPointer(t, g, j);
      BootUnshared(f, i, g, j);
    }
  }

  /** The boot tables map no 1GB page. */
  lemma BootNoGiant(t: Memory)
    requires IsBootTables(t)
    ensures NoGiant(t, PML4)
  {
    forall p: Path ensures !IsGiant(Find(t, PML4, 4, p)) {
      BootTables(p.i4, p.i3);
      assert Entry(t, PML4, p.i4) == BootEntry(PML4, p.i4);
      if p.i4 == 0 || p.i4 == 256 {
        var f := BootTarget(PML4, p.i4);
        assert Entry(t, f, p.i3) == BootEntry(f, p.i3);
      }
    }
  }

  lemma BootTables(i: bv64, j: bv64)
    ensures i == 0 || i == 256 ==> IsPresent(BootEntry(PML4, i)) && Frame(BootEntry(PML4, i)) == BootTarget(PML4, i)
    ensures i != 0 && i != 256 ==> !IsPresent(BootEntry(PML4, i))
    ensures i == 0 || i == 256 ==> !IsHuge(BootEntry(BootTarget(PML4, i), j))
  {
  }

  const KERNEL_BASE: bv64 := 0xFFFF_8000_0000_0000

  /** The first 4MB are mapped to themselves and the first 32MB also at the higher-half base. */
  lemma BootLookup(t: Memory, v: bv64)
    requires IsBootTables(t)
    ensures v < 0x40_0000 ==> Lookup(t, PML4, v) == v
    ensures v < 0x200_0000 ==> Lookup(t, PML4, KERNEL_BASE + v) == v
  {
    if v < 0x40_0000 { BootIdentity(t, v); }
    if v < 0x200_0000 { BootHigher(t, v); }
  }

  lemma BootWalk(t: Memory, p: Path)
    requires IsBootTables(t) && p.i3 == 0
    ensures p.i4 == 0 && p.i2 < 2 ==> Find(t, PML4, 4, p) == Leaf(2, (p.i2 << 21) | 0x83)
    ensures p.i4 == 256 && p.i2 < 16 ==> Find(t, PML4, 4, p) == Leaf(2, (p.i2 << 21) | 0x83)
  {
    if p.i4 == 0 && p.i2 < 2 {
      BootStep(t, PML4, 4, p, PDPT_IDENT);
      BootStep(t, PDPT_IDENT, 3, p, PD_IDENT);
      assert Entry(t, PD_IDENT, p.i2) == BootEntry(PD_IDENT, p.i2);
    } else if p.i4 == 256 && p.i2 < 16 {
      BootStep(t, PML4, 4, p, PDPT_HIGHER);
      BootStep(t, PDPT_HIGHER, 3, p, PD_HIGHER);
      assert Entry(t, PD_HIGHER, p.i2) == BootEntry(PD_HIGHER, p.i2);
    }
  }

  lemma BootStep(t: Memory, f: bv64, level: nat, p: Path, g: bv64)
    requires IsBootTables(t) && 2 <= level <= 4
    requires BootEntry(f, p.At(level)) == g | RW && Frame(g | RW) == g && !IsHuge(g | RW)
    ensures Find(t, f, level, p) == Find(t, g, level - 1, p)
  {
    assert Entry(t, f, p.At(level)) == BootEntry(f, p.At(level));
  }

  lemma BootIdentity(t: Memory, v: bv64)
    requires IsBootTables(t) && v < 0x40_0000
    ensures Lookup(t, PML4, v) == v
  {
    LowPath(v);
    BootWalk(t, PathOf(v));
    LeafBits(v, v);
  }

  lemma BootHigher(t: Memory, v: bv64)
    requires IsBootTables(t) && v < 0x200_0000
    ensures Lookup(t, PML4, KERNEL_BASE + v) == v
  {
    HighPath(v);
    HigherWalk(t, v, KERNEL_BASE + v, PathOf(KERNEL_BASE + v));
  }

  lemma HigherWalk(t: Memory, v: bv64, w: bv64, p: Path)
    requires IsBootTables(t) && v < 0x200_0000 && p == PathOf(w) && w & 0x1F_FFFF == v & 0x1F_FFFF
    requires p.i4 == 256 && p.i3 == 0 && p.i2 < 16 && p.i2 == v >> 21
    ensures Lookup(t, PML4, w) == v
  {
    BootWalk(t, p);
    LeafBits(v, w);
  }

  lemma LowPath(v: bv64)
    requires v < 0x40_0000
    ensures PathOf(v).i4 == 0 && PathOf(v).i3 == 0 && PathOf(v).i2 < 2 && PathOf(v).i2 == v >> 21
  {
  }

  lemma HighPath(v: bv64)
    requires v < 0x200_0000
    ensures PathOf(KERNEL_BASE + v).i4 == 256 && PathOf(KERNEL_BASE + v).i3 == 0
    ensures PathOf(KERNEL_BASE + v).i2 < 16 && PathOf(KERNEL_BASE + v).i2 == v >> 21
    ensures (KERNEL_BASE + v) & 0x1F_FFFF == v & 0x1F_FFFF
  {
  }

  lemma LeafBits(v: bv64, w: bv64)
    requires v < 0x200_0000 && w & 0x1F_FFFF == v & 0x1F_FFFF
    ensures Frame(((v >> 21) << 21) | RW_HUGE) | Offset(2, w) == v
  {
  }
}
