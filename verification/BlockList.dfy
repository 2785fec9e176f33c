/**
  The block list of the kernel heap, as a value.

  A heap is a sequence of blocks in address order.  Each block is a 32-byte header
  followed by `size` payload bytes.  This module gives the list operations of the
  allocator (first fit, split, coalesce) as functions and proves what every run of
  requests keeps.  Module KernelHeap refines these functions to header words in memory.
 */
module BlockList {
  import opened Width

  const HEADER := 32
  const MIN_BLOCK := 64
  const HEAP_START := 0xFFFF_8000_0030_0000
  const HEAP_SIZE := 0x10_0000
  const HEAP_END := HEAP_START + HEAP_SIZE

  datatype Block = Block(addr: int, size: int, free: bool) {
    function End(): int { addr + HEADER + size }
    function Payload(): int { addr + HEADER }
  }

  /** The blocks cover [lo, hi) exactly: each one ends where the next one starts. */
  ghost predicate Tiles(bs: seq<Block>, lo: int, hi: int) {
    && |bs| > 0
    && bs[0].addr == lo
    && bs[|bs| - 1].End() == hi
    && (forall i :: 0 <= i < |bs| ==> 0 <= bs[i].size)
    && (forall i :: 0 <= i < |bs| - 1 ==> Meet(bs, i))
  }

  ghost predicate Meet(bs: seq<Block>, i: int)
    requires 0 <= i < |bs| - 1
  {
    bs[i].End() == bs[i + 1].addr
  }

  ghost predicate Aligned(bs: seq<Block>) {
    forall i :: 0 <= i < |bs| ==> AlignedAt(bs, i)
  }

  ghost predicate AlignedAt(bs: seq<Block>, i: int)
    requires 0 <= i < |bs|
  {
    bs[i].addr % 16 == 0 && bs[i].size % 16 == 0
  }

  ghost predicate NoAdjacentFree(bs: seq<Block>) {
    forall i :: 0 <= i < |bs| - 1 ==> !BothFree(bs, i)
  }

  ghost predicate BothFree(bs: seq<Block>, i: int)
    requires 0 <= i < |bs| - 1
  {
    bs[i].free && bs[i + 1].free
  }

  /** The invariant of the allocator. */
  ghost predicate Inv(bs: seq<Block>) {
    Tiles(bs, HEAP_START, HEAP_END) && Aligned(bs) && NoAdjacentFree(bs)
  }

  function Initial(): seq<Block> { [Block(HEAP_START, HEAP_SIZE - HEADER, true)] }

  ghost function Live(bs: seq<Block>): set<Block> { set b | b in bs && !b.free }

  function LiveBytes(bs: seq<Block>): int {
    if bs == [] then 0 else (if bs[0].free then 0 else bs[0].size) + LiveBytes(bs[1..])
  }

  // ----- the list operations -----

  /** Round up to 16 with the wrap-around of 64-bit arithmetic. */
  function Round(size: nat): nat { (size + 15) % TWO64 / 16 * 16 }

  /** Index of the first free block of at least n bytes, or |bs|. */
  function FirstFit(bs: seq<Block>, n: nat): (k: nat)
    ensures k <= |bs|
    ensures k < |bs| ==> bs[k].free && n <= bs[k].size
    ensures forall i :: 0 <= i < k ==> !(bs[i].free && n <= bs[i].size)
  {
    if bs == [] then 0
    else if bs[0].free && n <= bs[0].size then 0
    else 1 + FirstFit(bs[1..], n)
  }

  /** What heap_split leaves of a block that is to hold n bytes, and the free block it cuts off. */
  function Shrunk(b: Block, n: nat): Block {
    if b.size <= n + HEADER + MIN_BLOCK then b else b.(size := n)
  }

  function Remainder(b: Block, n: nat): seq<Block> {
    if b.size <= n + HEADER + MIN_BLOCK then [] else [Block(b.addr + HEADER + n, b.size - n - HEADER, true)]
  }

  function Split(bs: seq<Block>, k: nat, n: nat): seq<Block>
    requires k < |bs|
  {
    bs[..k] + ([Shrunk(bs[k], n)] + Remainder(bs[k], n)) + bs[k + 1..]
  }

  /** The block a successful request takes out of the free block bs[k]. */
  function Carved(bs: seq<Block>, k: nat, n: nat): (b: Block)
    requires k < |bs|
    ensures b.addr == bs[k].addr && !b.free
    ensures n <= bs[k].size ==> n <= b.size <= n + HEADER + MIN_BLOCK
  {
    Shrunk(bs[k], n).(free := false)
  }

  function Carve(bs: seq<Block>, k: nat, n: nat): seq<Block>
    requires k < |bs|
  {
    bs[..k] + ([Carved(bs, k, n)] + Remainder(bs[k], n)) + bs[k + 1..]
  }

  function Merge(a: Block, b: Block): Block { a.(size := a.size + HEADER + b.size) }

  function Coalesce(bs: seq<Block>): seq<Block>
    decreases |bs|
  {
    if |bs| < 2 then bs
    else if bs[0].free && bs[1].free then Coalesce([Merge(bs[0], bs[1])] + bs[2..])
    else [bs[0]] + Coalesce(bs[1..])
  }

  function Release(bs: seq<Block>, k: nat): seq<Block>
    requires k < |bs|
  {
    Coalesce(bs[k := bs[k].(free := true)])
  }

  // ----- tiling -----

  lemma {:induction false} AddressesAscend(bs: seq<Block>, lo: int, hi: int, i: nat, j: nat)
    requires Tiles(bs, lo, hi) && i < j < |bs|
    ensures bs[i].End() <= bs[j].addr
    decreases j - i
  {
    assert Meet(bs, i);
    if i + 1 < j {
      AddressesAscend(bs, lo, hi, i + 1, j);
    }
  }

  lemma InsideTheHeap(bs: seq<Block>, lo: int, hi: int, i: nat)
    requires Tiles(bs, lo, hi) && i < |bs|
    ensures lo <= bs[i].addr && bs[i].End() <= hi
  {
    if 0 < i {
      AddressesAscend(bs, lo, hi, 0, i);
    }
    if i < |bs| - 1 {
      AddressesAscend(bs, lo, hi, i, |bs| - 1);
    }
  }

  /** Every address of the range lies in the extent of some block. */
  lemma {:induction false} TilesCover(bs: seq<Block>, lo: int, hi: int, x: int) returns (k: nat)
    requires Tiles(bs, lo, hi) && lo <= x < hi
    ensures k < |bs| && bs[k].addr <= x < bs[k].End()
  {
    k := 0;
    while bs[k].End() <= x
      invariant k < |bs| && bs[k].addr <= x
      decreases |bs| - k
    {
      assert k + 1 < |bs|;
      assert Meet(bs, k);
      k := k + 1;
    }
  }

  /** Distinct blocks never overlap, so a block is determined by its address. */
  lemma BlocksDisjoint(bs: seq<Block>, lo: int, hi: int, i: nat, j: nat)
    requires Tiles(bs, lo, hi) && i < |bs| && j < |bs| && i != j
    ensures bs[i].End() <= bs[j].addr || bs[j].End() <= bs[i].addr
  {
    if i < j {
      AddressesAscend(bs, lo, hi, i, j);
    } else {
      AddressesAscend(bs, lo, hi, j, i);
    }
  }

  // ----- kmalloc -----

  lemma {:induction false} LiveBytesConcat(a: seq<Block>, b: seq<Block>)
    ensures LiveBytes(a + b) == LiveBytes(a) + LiveBytes(b)
  {
    if a == [] {
      assert a + b == b;
    } else {
      assert (a + b)[1..] == a[1..] + b;
      LiveBytesConcat(a[1..], b);
    }
  }

  lemma LiveConcat(a: seq<Block>, b: seq<Block>)
    ensures Live(a + b) == Live(a) + Live(b)
  {
  }

  lemma LiveInside(a: seq<Block>, mid: seq<Block>, c: seq<Block>)
    ensures Live(a + mid + c) == Live(a) + Live(mid) + Live(c)
    ensures LiveBytes(a + mid + c) == LiveBytes(a) + LiveBytes(mid) + LiveBytes(c)
  {
    LiveConcat(a + mid, c);
    LiveConcat(a, mid);
    LiveBytesConcat(a + mid, c);
    LiveBytesConcat(a, mid);
  }

  /** Carving a free block keeps the invariant, adds exactly one live block, and counts its bytes. */
  lemma CarveKeepsInv(bs: seq<Block>, k: nat, n: nat)
    requires Inv(bs) && k < |bs| && bs[k].free && n <= bs[k].size && n % 16 == 0
    ensures Inv(Carve(bs, k, n))
    ensures k < |Carve(bs, k, n)| && Carve(bs, k, n)[k] == Carved(bs, k, n)
    ensures Live(Carve(bs, k, n)) == Live(bs) + {Carved(bs, k, n)}
    ensures Carved(bs, k, n) !in Live(bs)
    ensures LiveBytes(Carve(bs, k, n)) == LiveBytes(bs) + Carved(bs, k, n).size
  {
    CarveTiles(bs, k, n);
    CarveLive(bs, k, n);
    forall i: nat | i < |bs| && !bs[i].free ensures bs[i] != Carved(bs, k, n) {
      BlocksDisjoint(bs, HEAP_START, HEAP_END, i, k);
    }
  }

  lemma LiveOfOne(b: Block)
    ensures Live([b]) == if b.free then {} else {b}
    ensures LiveBytes([b]) == if b.free then 0 else b.size
  {
    assert b in [b];
  }

  lemma CarveLive(bs: seq<Block>, k: nat, n: nat)
    requires k < |bs| && bs[k].free
    ensures Live(Carve(bs, k, n)) == Live(bs) + {Carved(bs, k, n)}
    ensures LiveBytes(Carve(bs, k, n)) == LiveBytes(bs) + Carved(bs, k, n).size
  {
    hide Live, LiveBytes, Remainder;
    var b, c, rest := bs[k], Carved(bs, k, n), Remainder(bs[k], n);
    assert bs == bs[..k] + [b] + bs[k + 1..];
    LiveInside(bs[..k], [b], bs[k + 1..]);
    LiveOfOne(b);
    PieceLive(b, c, n);
    LiveInside(bs[..k], [c] + rest, bs[k + 1..]);
  }

  lemma PieceLive(b: Block, c: Block, n: nat)
    requires !c.free
    ensures Live([c] + Remainder(b, n)) == {c} && LiveBytes([c] + Remainder(b, n)) == c.size
  {
    var rest := Remainder(b, n);
    LiveConcat([c], rest);
    LiveBytesConcat([c], rest);
    LiveOfOne(c);
    if rest != [] { LiveOfOne(rest[0]); }
  }

  lemma CarveTiles(bs: seq<Block>, k: nat, n: nat)
    requires Inv(bs) && k < |bs| && bs[k].free && n <= bs[k].size && n % 16 == 0
    ensures Inv(Carve(bs, k, n))
  {
    if bs[k].size > n + HEADER + MIN_BLOCK {
      SplitTiles(bs, k, n);
    } else {
      var r, b := Carve(bs, k, n), bs[k];
      assert r == bs[k := b.(free := false)];
      forall i | 0 <= i < |r| - 1 ensures Meet(r, i) && !BothFree(r, i) {
        assert Meet(bs, i) && !BothFree(bs, i);
      }
      forall i | 0 <= i < |r| ensures AlignedAt(r, i) {
        assert AlignedAt(bs, i);
      }
    }
  }

  lemma SplitTiles(bs: seq<Block>, k: nat, n: nat)
    requires Inv(bs) && k < |bs| && bs[k].free && n % 16 == 0 && bs[k].size > n + HEADER + MIN_BLOCK
    ensures Inv(Carve(bs, k, n))
  {
    var r, b := Carve(bs, k, n), bs[k];
    assert AlignedAt(bs, k);
    assert r == bs[..k] + [Block(b.addr, n, false), Block(b.addr + HEADER + n, b.size - n - HEADER, true)]
                + bs[k + 1..];
    forall i | 0 <= i < |r| - 1 ensures Meet(r, i) && !BothFree(r, i) {
      if i < k {
        assert Meet(bs, i) && !BothFree(bs, i);
      } else if i > k {
        assert Meet(bs, i - 1) && !BothFree(bs, i - 1);
      }
    }
    forall i | 0 <= i < |r| ensures AlignedAt(r, i) {
      if i < k { assert AlignedAt(bs, i); } else if i > k + 1 { assert AlignedAt(bs, i - 1); }
    }
  }

  // ----- kfree -----

  lemma {:induction false} CoalesceTiles(bs: seq<Block>, lo: int, hi: int)
    requires Tiles(bs, lo, hi) && Aligned(bs)
    ensures Tiles(Coalesce(bs), lo, hi) && Aligned(Coalesce(bs)) && NoAdjacentFree(Coalesce(bs))
    ensures bs[0].free <==> Coalesce(bs)[0].free
    decreases |bs|
  {
    if |bs| < 2 {
    } else if bs[0].free && bs[1].free {
      var m := [Merge(bs[0], bs[1])] + bs[2..];
      assert Meet(bs, 0) && AlignedAt(bs, 0) && AlignedAt(bs, 1);
      forall i | 0 <= i < |m| - 1 ensures Meet(m, i) {
        assert Meet(bs, i + 1);
      }
      forall i | 0 <= i < |m| ensures AlignedAt(m, i) {
        assert AlignedAt(bs, i + 1);
      }
      CoalesceTiles(m, lo, hi);
    } else {
      var t := bs[1..];
      assert Meet(bs, 0) && AlignedAt(bs, 0);
      forall i | 0 <= i < |t| - 1 ensures Meet(t, i) {
        assert Meet(bs, i + 1);
      }
      forall i | 0 <= i < |t| ensures AlignedAt(t, i) {
        assert AlignedAt(bs, i + 1);
      }
      CoalesceTiles(t, bs[1].addr, hi);
      var c := Coalesce(t);
      var r := [bs[0]] + c;
      forall i | 0 <= i < |r| - 1 ensures Meet(r, i) && !BothFree(r, i) {
        if 0 < i { assert Meet(c, i - 1) && !BothFree(c, i - 1); }
      }
      forall i | 0 <= i < |r| ensures AlignedAt(r, i) {
        if 0 < i { assert AlignedAt(c, i - 1); }
      }
    }
  }

  lemma {:induction false} CoalesceKeepsLive(bs: seq<Block>)
    ensures Live(Coalesce(bs)) == Live(bs)
    ensures LiveBytes(Coalesce(bs)) == LiveBytes(bs)
    decreases |bs|
  {
    if |bs| < 2 {
    } else if bs[0].free && bs[1].free {
      var m := [Merge(bs[0], bs[1])] + bs[2..];
      CoalesceKeepsLive(m);
      assert bs == [bs[0], bs[1]] + bs[2..];
      assert m[1..] == bs[2..] && bs[1..][1..] == bs[2..];
      assert Live(m) == Live(bs);
    } else {
      CoalesceKeepsLive(bs[1..]);
      var c := Coalesce(bs[1..]);
      assert bs == [bs[0]] + bs[1..];
      assert ([bs[0]] + c)[1..] == c;
      assert Live([bs[0]] + c) == Live([bs[0]]) + Live(c);
      assert Live([bs[0]] + bs[1..]) == Live([bs[0]]) + Live(bs[1..]);
    }
  }

  /** Freeing a live block keeps the invariant, removes exactly that block, and gives its bytes back. */
  lemma ReleaseKeepsInv(bs: seq<Block>, k: nat)
    requires Inv(bs) && k < |bs| && !bs[k].free
    ensures Inv(Release(bs, k))
    ensures Live(Release(bs, k)) == Live(bs) - {bs[k]}
    ensures LiveBytes(Release(bs, k)) == LiveBytes(bs) - bs[k].size
  {
    var m := bs[k := bs[k].(free := true)];
    MarkTiles(bs, k);
    CoalesceTiles(m, HEAP_START, HEAP_END);
    CoalesceKeepsLive(m);
    MarkLive(bs, k);
  }

  lemma MarkTiles(bs: seq<Block>, k: nat)
    requires Inv(bs) && k < |bs|
    ensures Tiles(bs[k := bs[k].(free := true)], HEAP_START, HEAP_END)
    ensures Aligned(bs[k := bs[k].(free := true)])
  {
    var m := bs[k := bs[k].(free := true)];
    forall i | 0 <= i < |m| - 1 ensures Meet(m, i) {
      assert Meet(bs, i);
    }
    forall i | 0 <= i < |m| ensures AlignedAt(m, i) {
      assert AlignedAt(bs, i);
    }
  }

  lemma MarkLive(bs: seq<Block>, k: nat)
    requires Inv(bs) && k < |bs| && !bs[k].free
    ensures Live(bs[k := bs[k].(free := true)]) == Live(bs) - {bs[k]}
    ensures LiveBytes(bs[k := bs[k].(free := true)]) == LiveBytes(bs) - bs[k].size
  {
    hide Live, LiveBytes, Inv;
    var b := bs[k];
    var m := bs[k := b.(free := true)];
    LiveInside(bs[..k], [b], bs[k + 1..]);
    LiveInside(bs[..k], [m[k]], bs[k + 1..]);
    assert bs == bs[..k] + [b] + bs[k + 1..] && m == bs[..k] + [m[k]] + bs[k + 1..];
    LiveOfOne(b);
    LiveOfOne(m[k]);
    forall x | x in bs[..k] || x in bs[k + 1..] ensures x != b {
      OtherBlock(bs, k, x);
    }
    OnlyIn(bs[..k], bs[k + 1..], b);
  }

  lemma OtherBlock(bs: seq<Block>, k: nat, b: Block)
    requires Inv(bs) && k < |bs| && (b in bs[..k] || b in bs[k + 1..])
    ensures b != bs[k]
  {
    if b in bs[..k] {
      var i: nat :| i < k && bs[i] == b;
      BlocksDisjoint(bs, HEAP_START, HEAP_END, i, k);
    } else {
      var i: nat :| i < |bs| - k - 1 && bs[k + 1..][i] == b;
      BlocksDisjoint(bs, HEAP_START, HEAP_END, k + 1 + i, k);
    }
  }

  lemma OnlyIn(pre: seq<Block>, post: seq<Block>, b: Block)
    requires b !in pre && b !in post
    ensures b !in Live(pre) && b !in Live(post)
  {
  }

  // ----- what a reader of the free list cannot see: gaps -----

  /** The place at x has room for a header and n bytes: it lies in the heap and touches no live block. */
  ghost predicate Gap(bs: seq<Block>, x: int, n: int) {
    && HEAP_START <= x && x + HEADER + n <= HEAP_END
    && forall i :: 0 <= i < |bs| && !bs[i].free ==> bs[i].End() <= x || x + HEADER + n <= bs[i].addr
  }

  /** A gap lies inside one free block, because no two free blocks are adjacent. */
  lemma GapInOneBlock(bs: seq<Block>, x: int, n: nat) returns (k: nat)
    requires Inv(bs) && Gap(bs, x, n)
    ensures k < |bs| && bs[k].free && bs[k].addr <= x && x + HEADER + n <= bs[k].End()
  {
    k := TilesCover(bs, HEAP_START, HEAP_END, x);
    assert k + 1 < |bs| ==> Meet(bs, k) && !BothFree(bs, k);
  }

  /** First fit fails exactly when no gap has room for the header and n bytes,
      and otherwise it takes the gap of lowest address. */
  lemma FirstFitIsLowestGap(bs: seq<Block>, n: nat)
    requires Inv(bs)
    ensures FirstFit(bs, n) == |bs| <==> forall x :: !Gap(bs, x, n)
    ensures FirstFit(bs, n) < |bs| ==> Gap(bs, bs[FirstFit(bs, n)].addr, n)
    ensures FirstFit(bs, n) < |bs| ==> forall x :: Gap(bs, x, n) ==> bs[FirstFit(bs, n)].addr <= x
  {
    var f := FirstFit(bs, n);
    if f < |bs| {
      var x := bs[f].addr;
      InsideTheHeap(bs, HEAP_START, HEAP_END, f);
      forall i: nat | i < |bs| && !bs[i].free ensures bs[i].End() <= x || x + HEADER + n <= bs[i].addr {
        BlocksDisjoint(bs, HEAP_START, HEAP_END, i, f);
      }
      assert Gap(bs, x, n);
    }
    forall x | Gap(bs, x, n) ensures f < |bs| && bs[f].addr <= x {
      var k := GapInOneBlock(bs, x, n);
      if f < k {
        AddressesAscend(bs, HEAP_START, HEAP_END, f, k);
      }
    }
  }

  // ----- whole runs -----

  datatype Request = Malloc(size: nat) | Free(ptr: int)

  /** Index of the block whose payload starts at ptr, or |bs|. */
  function IndexOf(bs: seq<Block>, ptr: int): (k: nat)
    ensures k <= |bs|
    ensures k < |bs| ==> bs[k].Payload() == ptr
    ensures forall i :: 0 <= i < k ==> bs[i].Payload() != ptr
  {
    if bs == [] || bs[0].Payload() == ptr then 0 else 1 + IndexOf(bs[1..], ptr)
  }

  /** One request; a panic leaves the list as it was (the run ends there). */
  function Step(bs: seq<Block>, r: Request): seq<Block> {
    match r
    case Malloc(size) =>
      var k := FirstFit(bs, Round(size));
      if size == 0 || k == |bs| then bs else Carve(bs, k, Round(size))
    case Free(ptr) =>
      var k := IndexOf(bs, ptr);
      if ptr == 0 || k == |bs| || bs[k].free then bs else Release(bs, k)
  }

  function Run(bs: seq<Block>, rs: seq<Request>): seq<Block>
    decreases |rs|
  {
    if rs == [] then bs else Run(Step(bs, rs[0]), rs[1..])
  }

  lemma StepKeepsInv(bs: seq<Block>, r: Request)
    requires Inv(bs)
    ensures Inv(Step(bs, r))
  {
    match r
    case Malloc(size) =>
      var k := FirstFit(bs, Round(size));
      if size != 0 && k < |bs| {
        CarveKeepsInv(bs, k, Round(size));
      }
    case Free(ptr) =>
      var k := IndexOf(bs, ptr);
      if k < |bs| && !bs[k].free {
        ReleaseKeepsInv(bs, k);
      }
  }

  /** Every run of requests from the initial heap keeps the blocks tiling the heap,
      with 16-aligned, pairwise disjoint payloads inside it. */
  lemma {:induction false} RunKeepsInv(bs: seq<Block>, rs: seq<Request>)
    requires Inv(bs)
    ensures Inv(Run(bs, rs))
    ensures forall b :: b in Live(Run(bs, rs)) ==> b.Payload() % 16 == 0 && HEAP_START <= b.addr && b.End() <= HEAP_END
    ensures forall b, c :: b in Live(Run(bs, rs)) && c in Live(Run(bs, rs)) && b != c ==>
              b.Payload() + b.size <= c.addr || c.Payload() + c.size <= b.addr
    decreases |rs|
  {
    if rs == [] {
      forall b | b in Live(bs) ensures b.Payload() % 16 == 0 && HEAP_START <= b.addr && b.End() <= HEAP_END {
        var i: nat :| i < |bs| && bs[i] == b;
        assert AlignedAt(bs, i);
        InsideTheHeap(bs, HEAP_START, HEAP_END, i);
      }
      forall b, c | b in Live(bs) && c in Live(bs) && b != c ensures b.End() <= c.addr || c.End() <= b.addr {
        var i: nat :| i < |bs| && bs[i] == b;
        var j: nat :| j < |bs| && bs[j] == c;
        BlocksDisjoint(bs, HEAP_START, HEAP_END, i, j);
      }
    } else {
      StepKeepsInv(bs, rs[0]);
      RunKeepsInv(Step(bs, rs[0]), rs[1..]);
    }
  }

  lemma InitialInv()
    ensures Inv(Initial()) && Live(Initial()) == {} && LiveBytes(Initial()) == 0
  {
  }

  function FreeAll(ptrs: seq<int>): seq<Request> {
    seq(|ptrs|, i requires 0 <= i < |ptrs| => Free(ptrs[i]))
  }

  ghost function LivePtrs(bs: seq<Block>): set<int> { set b | b in Live(bs) :: b.Payload() }

  /** With nothing live the heap is one free block again. */
  lemma NothingLive(bs: seq<Block>)
    requires Inv(bs) && Live(bs) == {}
    ensures bs == Initial()
  {
    forall i | 0 <= i < |bs| ensures bs[i].free {
      assert bs[i] in bs;
      assert bs[i] !in Live(bs);
    }
    assert |bs| > 1 ==> BothFree(bs, 0);
  }

  /** Freeing every live pointer, once each and in any order, restores the initial block. */
  lemma {:induction false} FreeingAllRestores(bs: seq<Block>, ptrs: seq<int>)
    requires Inv(bs)
    requires forall i, j :: 0 <= i < j < |ptrs| ==> ptrs[i] != ptrs[j]
    requires forall p :: p in ptrs <==> p in LivePtrs(bs)
    ensures Run(bs, FreeAll(ptrs)) == Initial()
    decreases |ptrs|
  {
    if ptrs == [] {
      assert forall b :: b in Live(bs) ==> b.Payload() in LivePtrs(bs);
      NothingLive(bs);
    } else {
      var p := ptrs[0];
      assert p in ptrs;
      var b :| b in Live(bs) && b.Payload() == p;
      var i: nat :| i < |bs| && bs[i] == b;
      var k := IndexOf(bs, p);
      if k != i {
        BlocksDisjoint(bs, HEAP_START, HEAP_END, k, i);
      }
      InsideTheHeap(bs, HEAP_START, HEAP_END, k);
      ReleaseKeepsInv(bs, k);
      var s := Step(bs, Free(p));
      assert s == Release(bs, k);
      forall q ensures q in ptrs[1..] <==> q in LivePtrs(s) {
        LivePtrsAfter(bs, s, b, q);
        if q in ptrs[1..] { assert q in ptrs; }
      }
      assert FreeAll(ptrs)[0] == Free(p) && FreeAll(ptrs)[1..] == FreeAll(ptrs[1..]);
      FreeingAllRestores(s, ptrs[1..]);
    }
  }

  lemma LivePtrsAfter(bs: seq<Block>, s: seq<Block>, b: Block, q: int)
    requires Inv(bs) && b in Live(bs) && Live(s) == Live(bs) - {b}
    ensures q in LivePtrs(s) <==> q in LivePtrs(bs) && q != b.Payload()
  {
    if q in LivePtrs(s) {
      var c :| c in Live(s) && c.Payload() == q;
      var i: nat :| i < |bs| && bs[i] == c;
      var j: nat :| j < |bs| && bs[j] == b;
      BlocksDisjoint(bs, HEAP_START, HEAP_END, i, j);
    }
    if q in LivePtrs(bs) && q != b.Payload() {
      var c :| c in Live(bs) && c.Payload() == q;
      assert c in Live(s);
    }
  }

  // ----- the size a caller gets -----

  /** A request is served with at least its size exactly when rounding does not wrap. */
  lemma RoundIsEnough(size: nat)
    requires size < TWO64
    ensures size <= Round(size) <==> size <= TWO64 - 16
    ensures size > TWO64 - 16 ==> Round(size) == 0
    ensures Round(size) % 16 == 0 && (size <= TWO64 - 16 ==> Round(size) < size + 16)
  {
  }

  /** On the fresh heap a request for 2^64 - 1 bytes succeeds with a payload of no bytes at all. */
  lemma HugeRequestGetsNothing()
    ensures Carved(Initial(), FirstFit(Initial(), Round(TWO64 - 1)), Round(TWO64 - 1)).size == 0
  {
  }
}
