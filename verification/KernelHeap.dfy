/**
  kernel/memory/heap.c: the heap as header words in memory.

  Headers and payloads share one memory.  A cell of `mem` is either the 32-byte header that
  starts at its address or the payload word there.  The ghost field `blocks` is the list the
  headers spell out.
 */
module KernelHeap {
  import opened BlockList
  import opened Masks
  import Pmm
  import opened Width

  const HEAP_PHYS_START := 0x30_0000
  const MAGIC := 0xDEAD_BEEF_CAFE_BABE
  const NULL := 0

  /** kernel_panic does not return; `Panic` ends the run. */
  datatype Outcome = Panic | Returned(ptr: int)

  datatype Cell = Hdr(size: int, next: int, magic: int, free: bool) | Word(value: int)

  type Memory = map<int, Cell>

  ghost predicate Spans(mem: Memory) { forall a :: HEAP_START <= a < HEAP_END ==> a in mem }

  ghost predicate Header(mem: Memory, b: Block, next: int) {
    b.addr in mem && mem[b.addr] == Hdr(b.size, next, MAGIC, b.free)
  }

  function Next(bs: seq<Block>, i: nat): int
    requires i < |bs|
  {
    if i + 1 < |bs| then bs[i + 1].addr else NULL
  }

  lemma NextNull(bs: seq<Block>, k: nat)
    requires Tiles(bs, HEAP_START, HEAP_END) && k < |bs|
    ensures bs[k].addr != NULL && (Next(bs, k) == NULL <==> k + 1 == |bs|)
  {
    InsideTheHeap(bs, HEAP_START, HEAP_END, k);
    if k + 1 < |bs| { InsideTheHeap(bs, HEAP_START, HEAP_END, k + 1); }
  }

  lemma SplitNothing(bs: seq<Block>, k: nat, n: nat)
    requires k < |bs| && Remainder(bs[k], n) == []
    ensures Split(bs, k, n) == bs
  {
  }

  /** The headers in memory spell out the list bs. */
  ghost predicate Headers(mem: Memory, bs: seq<Block>) {
    forall i :: 0 <= i < |bs| ==> HeaderAt(mem, bs, i)
  }

  ghost predicate HeaderAt(mem: Memory, bs: seq<Block>, i: int)
    requires 0 <= i < |bs|
  {
    Header(mem, bs[i], Next(bs, i))
  }

  /** The two memories agree outside [lo, hi). */
  ghost predicate AgreeOutside(m: Memory, n: Memory, lo: int, hi: int) {
    m.Keys == n.Keys && forall a :: a in m && !(lo <= a < hi) ==> n[a] == m[a]
  }

  /** Every word of every payload live in bs is the same in both memories. */
  ghost predicate PayloadsKept(m: Memory, n: Memory, live: set<Block>) {
    forall b :: b in live ==> PayloadKept(m, n, b)
  }

  ghost predicate PayloadKept(m: Memory, n: Memory, b: Block) {
    forall a :: a in m && b.Payload() <= a < b.End() ==> a in n && n[a] == m[a]
  }

  lemma HeadersElsewhere(m: Memory, n: Memory, bs: seq<Block>, k: nat, i: nat)
    requires Tiles(bs, HEAP_START, HEAP_END) && k < |bs| && i < |bs| && i != k
    requires Headers(m, bs) && AgreeOutside(m, n, bs[k].addr, bs[k].End())
    ensures HeaderAt(n, bs, i)
  {
    BlocksDisjoint(bs, HEAP_START, HEAP_END, i, k);
    assert HeaderAt(m, bs, i);
  }

  lemma PayloadsElsewhere(m: Memory, n: Memory, bs: seq<Block>, k: nat)
    requires Tiles(bs, HEAP_START, HEAP_END) && k < |bs| && bs[k].free
    requires AgreeOutside(m, n, bs[k].addr, bs[k].End())
    ensures PayloadsKept(m, n, Live(bs))
  {
    forall b | b in Live(bs) ensures PayloadKept(m, n, b) {
      var i: nat :| i < |bs| && bs[i] == b;
      BlocksDisjoint(bs, HEAP_START, HEAP_END, i, k);
    }
  }

  /** Once the cut-off block and bs[k] have their headers, these spell out the split list. */
  lemma SplitHeaders(m: Memory, n: Memory, bs: seq<Block>, k: nat, size: nat)
    requires Tiles(bs, HEAP_START, HEAP_END) && k < |bs| && Headers(m, bs) && Remainder(bs[k], size) != []
    requires AgreeOutside(m, n, bs[k].addr, bs[k].End())
    requires Header(n, Shrunk(bs[k], size), Remainder(bs[k], size)[0].addr)
    requires Header(n, Remainder(bs[k], size)[0], Next(bs, k))
    ensures Headers(n, Split(bs, k, size))
  {
    var r := Split(bs, k, size);
    assert r == bs[..k] + [Shrunk(bs[k], size), Remainder(bs[k], size)[0]] + bs[k + 1..];
    forall i | 0 <= i < |r| ensures HeaderAt(n, r, i) {
      if i < k {
        HeadersElsewhere(m, n, bs, k, i);
      } else if i > k + 1 {
        HeadersElsewhere(m, n, bs, k, i - 1);
      }
    }
  }

  /** The list after the loop of heap_coalesce has merged block k with its successor. */
  function MergeAt(bs: seq<Block>, k: nat): seq<Block>
    requires k + 1 < |bs|
  {
    bs[..k] + [Merge(bs[k], bs[k + 1])] + bs[k + 2..]
  }

  lemma MergeHeaders(m: Memory, n: Memory, bs: seq<Block>, k: nat)
    requires Tiles(bs, HEAP_START, HEAP_END) && k + 1 < |bs| && Headers(m, bs)
    requires AgreeOutside(m, n, bs[k].addr, bs[k].Payload())
    requires Header(n, Merge(bs[k], bs[k + 1]), Next(bs, k + 1))
    ensures Headers(n, MergeAt(bs, k))
    ensures PayloadsKept(m, n, Live(bs))
  {
    var r := MergeAt(bs, k);
    assert AgreeOutside(m, n, bs[k].addr, bs[k].End());
    forall i | 0 <= i < |r| ensures HeaderAt(n, r, i) {
      if i < k {
        HeadersElsewhere(m, n, bs, k, i);
      } else if i > k {
        HeadersElsewhere(m, n, bs, k, i + 1);
      }
    }
    forall b | b in Live(bs) ensures PayloadKept(m, n, b) {
      var i: nat :| i < |bs| && bs[i] == b;
      if i != k { BlocksDisjoint(bs, HEAP_START, HEAP_END, i, k); }
    }
  }

  lemma MergeTiles(bs: seq<Block>, k: nat)
    requires Tiles(bs, HEAP_START, HEAP_END) && k + 1 < |bs|
    ensures Tiles(MergeAt(bs, k), HEAP_START, HEAP_END)
  {
    var r := MergeAt(bs, k);
    assert Meet(bs, k);
    forall i | 0 <= i < |r| - 1 ensures Meet(r, i) {
      if i < k { assert Meet(bs, i); } else { assert Meet(bs, i + 1); }
    }
  }

  lemma MergeLive(bs: seq<Block>, k: nat)
    requires k + 1 < |bs| && bs[k].free && bs[k + 1].free
    ensures Live(MergeAt(bs, k)) == Live(bs)
  {
    var a, b, c := bs[k], bs[k + 1], Merge(bs[k], bs[k + 1]);
    assert bs == bs[..k] + [a, b] + bs[k + 2..];
    LiveInside(bs[..k], [a, b], bs[k + 2..]);
    LiveInside(bs[..k], [c], bs[k + 2..]);
    assert Live([a, b]) == {} && Live([c]) == {};
  }

  /** Merging block k and going on from there is what coalescing from block k does. */
  lemma CoalesceStep(bs: seq<Block>, k: nat)
    requires k + 1 < |bs|
    ensures bs[k].free && bs[k + 1].free ==>
              MergeAt(bs, k)[..k] + Coalesce(MergeAt(bs, k)[k..]) == bs[..k] + Coalesce(bs[k..])
    ensures !(bs[k].free && bs[k + 1].free) ==>
              bs[..k + 1] + Coalesce(bs[k + 1..]) == bs[..k] + Coalesce(bs[k..])
  {
    if bs[k].free && bs[k + 1].free { MergeStep(bs, k); } else { SkipStep(bs, k); }
  }

  lemma MergeStep(bs: seq<Block>, k: nat)
    requires k + 1 < |bs| && bs[k].free && bs[k + 1].free
    ensures MergeAt(bs, k)[..k] + Coalesce(MergeAt(bs, k)[k..]) == bs[..k] + Coalesce(bs[k..])
  {
    var s := bs[k..];
    assert MergeAt(bs, k)[k..] == [Merge(s[0], s[1])] + s[2..];
    assert MergeAt(bs, k)[..k] == bs[..k];
    assert Coalesce(s) == Coalesce([Merge(s[0], s[1])] + s[2..]);
  }

  lemma SkipStep(bs: seq<Block>, k: nat)
    requires k + 1 < |bs| && !(bs[k].free && bs[k + 1].free)
    ensures bs[..k + 1] + Coalesce(bs[k + 1..]) == bs[..k] + Coalesce(bs[k..])
  {
    var s := bs[k..];
    assert s[1..] == bs[k + 1..] && bs[..k + 1] == bs[..k] + [s[0]];
    assert Coalesce(s) == [s[0]] + Coalesce(s[1..]);
  }

  class Heap {
    var mem: Memory
    var head: int
    var used: int
    ghost var blocks: seq<Block>

    ghost predicate Valid()
      reads this
    {
      && Spans(mem) && head == HEAP_START && Headers(mem, blocks)
      && Inv(blocks) && used == LiveBytes(blocks)
    }

    /** heap_init: the megabyte from 3MB on is taken from the page allocator and becomes one free block. */
    constructor (ram: Memory, pmm: Pmm.PageAllocator)
      requires Spans(ram) && pmm.Valid()
      modifies pmm.bitmap, pmm`used
      ensures Valid() && blocks == Initial() && pmm.Valid()
      ensures forall p: nat ::
        p in pmm.UsedPages() <==> p < pmm.total && (0x300 <= p < 0x400 || p in old(pmm.UsedPages()))
    {
      head := HEAP_START;
      mem := ram[HEAP_START := Hdr(HEAP_SIZE - HEADER, NULL, MAGIC, true)];
      used := 0;
      blocks := Initial();
      new;
      InitialInv();
      pmm.MarkRegionUsed(HEAP_PHYS_START, HEAP_SIZE);
      assert forall p: nat :: Pmm.InPages(HEAP_PHYS_START, HEAP_SIZE, p) <==> 0x300 <= p < 0x400;
    }

    method HeapSplit(block: int, size: nat, ghost k: nat)
      requires Spans(mem) && Headers(mem, blocks) && Tiles(blocks, HEAP_START, HEAP_END)
      requires k < |blocks| && blocks[k].addr == block && blocks[k].free && size <= blocks[k].size
      modifies this`mem, this`blocks
      ensures Spans(mem) && Headers(mem, blocks)
      ensures blocks == Split(old(blocks), k, size)
      ensures AgreeOutside(old(mem), mem, block, old(blocks)[k].End())
    {
      InsideTheHeap(blocks, HEAP_START, HEAP_END, k);
      assert HeaderAt(mem, blocks, k);
      if mem[block].size <= size + HEADER + MIN_BLOCK {
        SplitNothing(blocks, k, size);
        return;
      }
      ghost var m := mem;
      var rest := block + HEADER + size;
      mem := mem[rest := Hdr(mem[block].size - size - HEADER, mem[block].next, MAGIC, true)];
      mem := mem[block := mem[block].(size := size, next := rest)];
      SplitHeaders(m, mem, blocks, k, size);
      blocks := Split(blocks, k, size);
    }

    /** The body of the loop of heap_coalesce: block k swallows its free successor. */
    method AbsorbNext(block: int, ghost k: nat)
      requires Spans(mem) && Headers(mem, blocks) && Tiles(blocks, HEAP_START, HEAP_END)
      requires k + 1 < |blocks| && blocks[k].addr == block && blocks[k].free && blocks[k + 1].free
      modifies this`mem, this`blocks
      ensures Spans(mem) && Headers(mem, blocks) && Tiles(blocks, HEAP_START, HEAP_END)
      ensures blocks == MergeAt(old(blocks), k) && Live(blocks) == Live(old(blocks))
      ensures PayloadsKept(old(mem), mem, Live(blocks))
    {
      ghost var m := mem;
      assert HeaderAt(mem, blocks, k) && HeaderAt(mem, blocks, k + 1);
      var next := mem[block].next;
      mem := mem[block := mem[block].(size := mem[block].size + HEADER + mem[next].size, next := mem[next].next)];
      MergeHeaders(m, mem, blocks, k);
      MergeTiles(blocks, k);
      MergeLive(blocks, k);
      blocks := MergeAt(blocks, k);
    }

    method HeapCoalesce()
      requires Spans(mem) && Headers(mem, blocks) && head == HEAP_START
      requires Tiles(blocks, HEAP_START, HEAP_END)
      modifies this`mem, this`blocks
      ensures Spans(mem) && Headers(mem, blocks)
      ensures blocks == Coalesce(old(blocks))
      ensures PayloadsKept(old(mem), mem, Live(old(blocks)))
    {
      var block := head;
      ghost var k := 0;
      while block != NULL && mem[block].next != NULL
        invariant Spans(mem) && Headers(mem, blocks) && Tiles(blocks, HEAP_START, HEAP_END)
        invariant k < |blocks| && block == blocks[k].addr != NULL && HeaderAt(mem, blocks, k)
        invariant blocks[..k] + Coalesce(blocks[k..]) == Coalesce(old(blocks))
        invariant Live(blocks) == Live(old(blocks)) && PayloadsKept(old(mem), mem, Live(old(blocks)))
        decreases |blocks| - k
      {
        NextNull(blocks, k);
        assert HeaderAt(mem, blocks, k + 1);
        NextNull(blocks, k + 1);
        CoalesceStep(blocks, k);
        var next := mem[block].next;
        if mem[block].free && mem[next].free {
          AbsorbNext(block, k);
        } else {
          block := next;
          k := k + 1;
        }
      }
      NextNull(blocks, k);
      assert |blocks[k..]| == 1 && blocks[..k] + blocks[k..] == blocks;
    }

    /** The corruption panic is never reached; the out-of-memory panic exactly when no gap fits. */
    method Kmalloc(size: nat) returns (r: Outcome)
      requires Valid() && size < TWO64
      modifies this
      ensures Valid()
      ensures PayloadsKept(old(mem), mem, Live(old(blocks)))
      ensures size == 0 ==> r == Returned(NULL) && blocks == old(blocks)
      ensures size > 0 && FirstFit(old(blocks), Round(size)) == |old(blocks)| ==> r == Panic && blocks == old(blocks)
      ensures size > 0 && FirstFit(old(blocks), Round(size)) < |old(blocks)| ==>
                var k := FirstFit(old(blocks), Round(size));
                && blocks == Carve(old(blocks), k, Round(size))
                && r == Returned(old(blocks)[k].Payload())
                && Carved(old(blocks), k, Round(size)) in Live(blocks)
    {
      if size == 0 {
        return Returned(NULL);
      }
      var n := (size + 15) % TWO64 / 16 * 16;
      var block := head;
      ghost var k := 0;
      ghost var f := FirstFit(blocks, n);
      assert HeaderAt(mem, blocks, 0);
      while block != NULL
        invariant mem == old(mem) && blocks == old(blocks) && used == old(used) && head == old(head)
        invariant k <= |blocks| && k <= f
        invariant block == (if k < |blocks| then blocks[k].addr else NULL) && (block == NULL <==> k == |blocks|)
        decreases |blocks| - k
      {
        assert HeaderAt(mem, blocks, k);
        if mem[block].magic != MAGIC {
          return Panic;
        }
        if mem[block].free && mem[block].size >= n {
          assert k == f;
          TakeBlock(block, n, k);
          return Returned(block + HEADER);
        }
        NextNull(blocks, k);
        block := mem[block].next;
        k := k + 1;
      }
      return Panic;
    }

    /** The success branch of kmalloc: split, mark used, count. */
    method TakeBlock(block: int, n: nat, ghost k: nat)
      requires Valid() && k < |blocks| && n % 16 == 0
      requires blocks[k].addr == block && blocks[k].free && n <= blocks[k].size
      modifies this
      ensures Valid() && blocks == Carve(old(blocks), k, n)
      ensures Carved(old(blocks), k, n) in Live(blocks)
      ensures PayloadsKept(old(mem), mem, Live(old(blocks)))
    {
      ghost var bs, m0 := blocks, mem;
      CarveKeepsInv(bs, k, n);
      InsideTheHeap(blocks, HEAP_START, HEAP_END, k);
      HeapSplit(block, n, k);
      ghost var m1 := mem;
      assert HeaderAt(mem, blocks, k);
      mem := mem[block := mem[block].(free := false)];
      used := used + mem[block].size;
      blocks := Carve(bs, k, n);
      MarkedHeaders(m1, mem, bs, k, n);
      PayloadsElsewhere(m0, mem, bs, k);
    }

    /** kfree of NULL, of a block already free, of a live block, or of a place without a header, which panics. */
    method Kfree(ptr: int) returns (panicked: bool)
      requires Valid() && (ptr == NULL || IndexOf(blocks, ptr) < |blocks| || Unmarked(mem, ptr))
      modifies this
      ensures Valid()
      ensures panicked <==> ptr != NULL && IndexOf(old(blocks), ptr) == |old(blocks)|
      ensures var k := IndexOf(old(blocks), ptr);
              blocks == if ptr == NULL || panicked || old(blocks)[k].free then old(blocks) else Release(old(blocks), k)
      ensures panicked ==> mem == old(mem) && used == old(used)
      ensures PayloadsKept(old(mem), mem, Live(blocks))
    {
      if ptr == NULL {
        return false;
      }
      var block := ptr - HEADER;
      ghost var k := IndexOf(blocks, ptr);
      assert k < |blocks| ==> HeaderAt(mem, blocks, k);
      if MagicAt(mem, block) != MAGIC {
        return true;
      }
      if !mem[block].free {
        GiveBack(block, k);
      }
      return false;
    }

    /** The last branch of kfree: mark free, uncount, coalesce. */
    method GiveBack(block: int, ghost k: nat)
      requires Valid() && k < |blocks| && blocks[k].addr == block && !blocks[k].free
      modifies this
      ensures Valid() && blocks == Release(old(blocks), k)
      ensures PayloadsKept(old(mem), mem, Live(blocks))
    {
      ghost var bs, m := blocks, mem;
      assert HeaderAt(mem, bs, k);
      ReleaseKeepsInv(bs, k);
      mem := mem[block := mem[block].(free := true)];
      used := used - mem[block].size;
      FreedHeaders(m, mem, bs, k);
      blocks := bs[k := bs[k].(free := true)];
      MarkTiles(bs, k);
      MarkLive(bs, k);
      HeapCoalesce();
    }

    /** memcpy of n bytes between places that do not overlap. */
    method Memcpy(dst: int, src: int, n: nat)
      requires forall a :: dst <= a < dst + n ==> a in mem
      requires forall a :: src <= a < src + n ==> a in mem
      requires dst + n <= src || src + n <= dst
      modifies this`mem
      ensures AgreeOutside(old(mem), mem, dst, dst + n)
      ensures CopyOf(old(mem), src, mem, dst, n)
    {
      mem := map a | a in mem :: if dst <= a < dst + n then mem[src + (a - dst)] else mem[a];
    }

    /** krealloc of NULL, of a live pointer, or of a place without a header, which panics.  The bound on
        newSize is the one kmalloc needs to serve it. */
    method Krealloc(ptr: int, newSize: nat) returns (r: Outcome)
      requires Valid() && newSize <= TWO64 - 16
      requires ptr == NULL || IsLive(blocks, ptr) || Unmarked(mem, ptr)
      modifies this
      ensures Valid()
      // it panics exactly when the pointer is invalid or a new block is needed and no gap fits
      ensures r == Panic <==> if ptr == NULL || IsLive(old(blocks), ptr) then NoFit(old(blocks), ptr, newSize) else true
      ensures r == Panic ==> blocks == old(blocks)
      ensures r.Returned? && newSize == 0 ==>
                && r == Returned(NULL)
                && blocks == if ptr == NULL then old(blocks) else Release(old(blocks), IndexOf(old(blocks), ptr))
      ensures r.Returned? && ptr != NULL && 0 < newSize <= BlockAt(old(blocks), ptr).size ==>
                r == Returned(ptr) && blocks == old(blocks) && mem == old(mem)
      ensures r.Returned? && NeedsBlock(old(blocks), ptr, newSize) ==> Grown(old(blocks), blocks, ptr, newSize, r.ptr)
      ensures r.Returned? && newSize > 0 ==> IsLive(blocks, r.ptr) && newSize <= BlockAt(blocks, r.ptr).size
      // the leading bytes are the old payload
      ensures r.Returned? && ptr != NULL && newSize > 0 ==>
                CopyOf(old(mem), ptr, mem, r.ptr, BlockAt(old(blocks), ptr).size)
      // every other live payload stays, in place and in content
      ensures ptr == NULL || IsLive(old(blocks), ptr) ==> OthersKept(old(mem), old(blocks), mem, blocks, ptr)
    {
      hide Carve, Carved, FirstFit;
      if ptr == NULL {
        r := Kmalloc(newSize);
        if r.Returned? && newSize > 0 { RoundIsEnough(newSize); CarveGives(old(blocks), Round(newSize)); }
      } else if newSize == 0 {
        assert IndexOf(blocks, ptr) < |blocks| ==> HeaderAt(mem, blocks, IndexOf(blocks, ptr));
        if IsLive(blocks, ptr) { ReleaseKeepsInv(blocks, IndexOf(blocks, ptr)); }
        var panicked := Kfree(ptr);
        r := if panicked then Panic else Returned(NULL);
      } else {
        assert IsLive(blocks, ptr) ==> HeaderAt(mem, blocks, IndexOf(blocks, ptr));
        r := if MagicAt(mem, ptr - HEADER) != MAGIC then Panic else Returned(NULL);
        if r.Returned? { r := Resize(ptr, newSize); }
      }
    }

    /** krealloc past its two early returns. */
    method Resize(ptr: int, newSize: nat) returns (r: Outcome)
      requires Valid() && 0 < newSize <= TWO64 - 16 && IsLive(blocks, ptr) && ptr != NULL
      modifies this
      ensures Valid()
      ensures r == Panic <==> NoFit(old(blocks), ptr, newSize)
      ensures r == Panic ==> blocks == old(blocks)
      ensures BlockAt(old(blocks), ptr).size >= newSize ==>
                r == Returned(ptr) && blocks == old(blocks) && mem == old(mem)
      ensures r.Returned? && NeedsBlock(old(blocks), ptr, newSize) ==> Grown(old(blocks), blocks, ptr, newSize, r.ptr)
      ensures r.Returned? ==> IsLive(blocks, r.ptr) && newSize <= BlockAt(blocks, r.ptr).size
      ensures r.Returned? ==> CopyOf(old(mem), ptr, mem, r.ptr, BlockAt(old(blocks), ptr).size)
      ensures OthersKept(old(mem), old(blocks), mem, blocks, ptr)
    {
      hide Carve, Carved, FirstFit;
      ghost var b := BlockAt(blocks, ptr);
      var block := ptr - HEADER;
      LiveWithin(blocks, b);
      assert HeaderAt(mem, blocks, IndexOf(blocks, ptr));
      if mem[block].size >= newSize {
        return Returned(ptr);
      }
      r := Kmalloc(newSize);
      if r.Returned? {
        RoundIsEnough(newSize); CarveGives(old(blocks), Round(newSize));
        ghost var m, c := mem, BlockAt(blocks, r.ptr);
        MoveTo(ptr, r.ptr, b, c);
        CopyBefore(old(mem), m, mem, b, r.ptr);
        KeptTrans(old(mem), m, mem, Live(old(blocks)) - {b});
      }
    }

    /** The end of krealloc: copy the old payload to the new block and free the old one. */
    method MoveTo(ptr: int, newPtr: int, ghost b: Block, ghost c: Block)
      requires Valid() && b in Live(blocks) && c in Live(blocks) && b != c && b.size <= c.size
      requires ptr == b.Payload() && newPtr == c.Payload() && ptr != NULL
      modifies this
      ensures Valid() && Live(blocks) == Live(old(blocks)) - {b}
      ensures IsLive(blocks, newPtr) && BlockAt(blocks, newPtr) == c
      ensures CopyOf(old(mem), ptr, mem, newPtr, b.size)
      ensures PayloadsKept(old(mem), mem, Live(old(blocks)) - {b, c})
    {
      LiveWithin(blocks, b);
      LiveWithin(blocks, c);
      LiveApart(blocks, b, c);
      CopyPayload(ptr, newPtr, b, c);
      ghost var m := mem;
      ReleaseKeepsInv(blocks, IndexOf(blocks, ptr));
      var panicked := Kfree(ptr);
      LiveIndex(blocks, c);
      CopyAfter(old(mem), ptr, m, mem, c, b.size);
      KeptTrans(old(mem), m, mem, Live(old(blocks)) - {b, c});
    }

    method CopyPayload(ptr: int, newPtr: int, ghost b: Block, ghost c: Block)
      requires Valid() && b in Live(blocks) && c in Live(blocks) && b != c && b.size <= c.size
      requires ptr == b.Payload() && newPtr == c.Payload()
      modifies this`mem
      ensures Valid()
      ensures CopyOf(old(mem), ptr, mem, newPtr, b.size)
      ensures PayloadsKept(old(mem), mem, Live(blocks) - {c})
    {
      LiveWithin(blocks, b);
      LiveWithin(blocks, c);
      LiveApart(blocks, b, c);
      ghost var m := mem;
      assert HeaderAt(mem, blocks, IndexOf(blocks, ptr));
      Memcpy(newPtr, ptr, mem[ptr - HEADER].size);
      PayloadWrite(m, mem, blocks, IndexOf(blocks, newPtr), newPtr, newPtr + b.size);
    }

    /** kmalloc_aligned.  The place lies inside the block for every alignment, and is a multiple of a power of two. */
    method KmallocAligned(size: nat, alignment: nat) returns (r: Outcome)
      requires Valid() && 0 < alignment && size + alignment + 8 <= TWO64 - 16
      modifies this
      ensures Valid()
      ensures r == Panic <==> FirstFit(old(blocks), Round(size + alignment + 8)) == |old(blocks)|
      ensures r == Panic ==> blocks == old(blocks)
      ensures r.Returned? ==>
                var n := Round(size + alignment + 8);
                var k := FirstFit(old(blocks), n);
                && blocks == Carve(old(blocks), k, n)
                && Live(blocks) == Live(old(blocks)) + {Carved(old(blocks), k, n)}
                && AlignedInside(mem, Carved(old(blocks), k, n), r.ptr, size, alignment)
      ensures PayloadsKept(old(mem), mem, Live(old(blocks)))
    {
      hide Carve, Carved, FirstFit, AlignedInside, Inv;
      var total := size + alignment + 8;
      r := Kmalloc(total);
      if r.Returned? {
        RoundIsEnough(total); CarveGives(old(blocks), Round(total));
        ghost var m, c := mem, Carved(old(blocks), FirstFit(old(blocks), Round(total)), Round(total));
        var aligned := PlaceAligned(r.ptr, size, alignment, c);
        assert Live(old(blocks)) == Live(blocks) - {c};
        KeptTrans(old(mem), m, mem, Live(old(blocks)));
        r := Returned(aligned);
      }
    }

    /** The end of kmalloc_aligned: choose the place and store the back pointer before it. */
    method PlaceAligned(raw: int, size: nat, alignment: nat, ghost b: Block) returns (aligned: int)
      requires Valid() && b in Live(blocks) && raw == b.Payload() && 0 < alignment && size + alignment + 8 <= b.size
      modifies this`mem
      ensures Valid() && AlignedInside(mem, b, aligned, size, alignment)
      ensures PayloadsKept(old(mem), mem, Live(blocks) - {b})
    {
      LiveWithin(blocks, b);
      var addr := raw + 8;
      assert addr + alignment - 1 < TWO64;
      aligned := AndNot(addr + alignment - 1, alignment - 1);
      AndNotNear(addr + alignment - 1, alignment - 1);
      if PowerOfTwo(alignment) { MaskRounds(addr + alignment - 1, alignment); }
      ghost var m := mem;
      mem := mem[aligned - 8 := Word(raw)];
      assert AgreeOutside(m, mem, aligned - 8, aligned);
      PayloadWrite(m, mem, blocks, IndexOf(blocks, raw), aligned - 8, aligned);
    }
  }

  /** Clearing the free flag of the block just split off turns the split list into the carved one. */
  lemma MarkedHeaders(m: Memory, n: Memory, bs: seq<Block>, k: nat, size: nat)
    requires Inv(bs) && k < |bs| && bs[k].free && size <= bs[k].size && size % 16 == 0
    requires Headers(m, Split(bs, k, size)) && bs[k].addr in m && m[bs[k].addr].Hdr?
    requires n == m[bs[k].addr := m[bs[k].addr].(free := false)]
    ensures Headers(n, Carve(bs, k, size))
  {
    var s, r := Split(bs, k, size), Carve(bs, k, size);
    CarveKeepsInv(bs, k, size);
    assert r == s[k := r[k]];
    forall i | 0 <= i < |r| ensures HeaderAt(n, r, i) {
      assert HeaderAt(m, s, i);
      if i != k { BlocksDisjoint(r, HEAP_START, HEAP_END, i, k); }
    }
  }

  lemma FreedHeaders(m: Memory, n: Memory, bs: seq<Block>, k: nat)
    requires Inv(bs) && k < |bs| && Headers(m, bs) && HeaderAt(m, bs, k)
    requires n == m[bs[k].addr := m[bs[k].addr].(free := true)]
    ensures Headers(n, bs[k := bs[k].(free := true)])
    ensures PayloadsKept(m, n, Live(bs))
  {
    var r := bs[k := bs[k].(free := true)];
    forall i | 0 <= i < |r| ensures HeaderAt(n, r, i) {
      assert HeaderAt(m, bs, i);
      if i != k { BlocksDisjoint(bs, HEAP_START, HEAP_END, i, k); }
    }
    forall b | b in Live(bs) ensures PayloadKept(m, n, b) {
      var i: nat :| i < |bs| && bs[i] == b;
      if i != k { BlocksDisjoint(bs, HEAP_START, HEAP_END, i, k); }
    }
  }

  // ----- krealloc and kmalloc_aligned -----

  predicate IsLive(bs: seq<Block>, ptr: int) {
    var k := IndexOf(bs, ptr); k < |bs| && !bs[k].free
  }

  function BlockAt(bs: seq<Block>, ptr: int): Block
    requires IsLive(bs, ptr)
  {
    bs[IndexOf(bs, ptr)]
  }

  /** The magic field of a header at a; where there is no header, the word that lies there. */
  function MagicAt(mem: Memory, a: int): int
    requires a in mem && (mem[a].Word? ==> a + 16 in mem && mem[a + 16].Word?)
  {
    if mem[a].Hdr? then mem[a].magic else mem[a + 16].value
  }

  /** No header, in use or left over, overlaps the place of one before ptr, and the word there is not the magic. */
  ghost predicate Unmarked(mem: Memory, ptr: int) {
    var a := ptr - HEADER;
    && (forall x :: a - 24 <= x <= a + 24 && x in mem ==> mem[x].Word?)
    && a in mem && a + 16 in mem && mem[a + 16].value != MAGIC
  }

  /** A request krealloc passes on to kmalloc: there is no old block, or it is too small. */
  predicate NeedsBlock(bs: seq<Block>, ptr: int, newSize: nat)
    requires ptr == NULL || IsLive(bs, ptr)
  {
    newSize > 0 && (ptr == NULL || BlockAt(bs, ptr).size < newSize)
  }

  predicate NoFit(bs: seq<Block>, ptr: int, newSize: nat)
    requires ptr == NULL || IsLive(bs, ptr)
  {
    NeedsBlock(bs, ptr, newSize) && FirstFit(bs, Round(newSize)) == |bs|
  }

  /** The first block that fits has been taken, and the old one, if any, given back. */
  ghost predicate Grown(bs: seq<Block>, cs: seq<Block>, ptr: int, newSize: nat, newPtr: int)
    requires ptr == NULL || IsLive(bs, ptr)
  {
    var n := Round(newSize);
    var k := FirstFit(bs, n);
    && k < |bs| && newPtr == bs[k].Payload()
    && Live(cs) == Live(bs) + {Carved(bs, k, n)} - if ptr == NULL then {} else {BlockAt(bs, ptr)}
  }

  /** The len bytes of n at dst are those of m at src. */
  ghost predicate CopyOf(m: Memory, src: int, n: Memory, dst: int, len: int) {
    forall a :: dst <= a < dst + len ==> Copied(m, src, n, dst, a)
  }

  ghost predicate Copied(m: Memory, src: int, n: Memory, dst: int, a: int) {
    src + (a - dst) in m && a in n && n[a] == m[src + (a - dst)]
  }

  /** Every live block but the one at ptr is still live and its payload is untouched. */
  ghost predicate OthersKept(m: Memory, bs: seq<Block>, n: Memory, cs: seq<Block>, ptr: int)
    requires ptr == NULL || IsLive(bs, ptr)
  {
    var others := if ptr == NULL then Live(bs) else Live(bs) - {BlockAt(bs, ptr)};
    others <= Live(cs) && PayloadsKept(m, n, others)
  }

  /** An aligned region of size bytes inside the payload of b, with b's payload address stored just before it. */
  ghost predicate AlignedInside(mem: Memory, b: Block, ptr: int, size: nat, alignment: nat)
    requires 0 < alignment
  {
    && b.addr >= 0 && ptr == AndNot(b.Payload() + 8 + alignment - 1, alignment - 1)
    && (PowerOfTwo(alignment) ==> ptr % alignment == 0)
    && b.Payload() <= ptr - 8 && ptr + size <= b.End()
    && ptr - 8 in mem && mem[ptr - 8] == Word(b.Payload())
  }

  /** A live block is found by its payload address. */
  lemma LiveIndex(bs: seq<Block>, b: Block)
    requires Tiles(bs, HEAP_START, HEAP_END) && b in Live(bs)
    ensures IsLive(bs, b.Payload()) && BlockAt(bs, b.Payload()) == b
  {
    var i: nat :| i < |bs| && bs[i] == b;
    var k := IndexOf(bs, b.Payload());
    if k != i { BlocksDisjoint(bs, HEAP_START, HEAP_END, i, k); }
  }

  lemma LiveWithin(bs: seq<Block>, b: Block)
    requires Tiles(bs, HEAP_START, HEAP_END) && b in Live(bs)
    ensures IsLive(bs, b.Payload()) && BlockAt(bs, b.Payload()) == b
    ensures HEAP_START <= b.addr && b.End() <= HEAP_END && 0 <= b.size
  {
    LiveIndex(bs, b);
    InsideTheHeap(bs, HEAP_START, HEAP_END, IndexOf(bs, b.Payload()));
  }

  lemma LiveApart(bs: seq<Block>, b: Block, c: Block)
    requires Tiles(bs, HEAP_START, HEAP_END) && b in Live(bs) && c in Live(bs) && b != c
    ensures b.End() <= c.addr || c.End() <= b.addr
  {
    LiveIndex(bs, b);
    LiveIndex(bs, c);
    BlocksDisjoint(bs, HEAP_START, HEAP_END, IndexOf(bs, b.Payload()), IndexOf(bs, c.Payload()));
  }

  /** What a successful kmalloc hands out. */
  lemma CarveGives(bs: seq<Block>, n: nat)
    requires Inv(bs) && n % 16 == 0 && FirstFit(bs, n) < |bs|
    ensures var k := FirstFit(bs, n);
            var c := Carved(bs, k, n);
            && Inv(Carve(bs, k, n)) && Live(Carve(bs, k, n)) == Live(bs) + {c} && c !in Live(bs)
            && IsLive(Carve(bs, k, n), c.Payload()) && BlockAt(Carve(bs, k, n), c.Payload()) == c
            && c.addr == bs[k].addr && c.size == if bs[k].size > n + 96 then n else bs[k].size
  {
    var k := FirstFit(bs, n);
    CarveKeepsInv(bs, k, n);
    LiveIndex(Carve(bs, k, n), Carved(bs, k, n));
  }

  /** Writing inside one payload disturbs neither a header nor any other payload. */
  lemma PayloadWrite(m: Memory, n: Memory, bs: seq<Block>, k: nat, lo: int, hi: int)
    requires Tiles(bs, HEAP_START, HEAP_END) && k < |bs| && !bs[k].free && Headers(m, bs)
    requires bs[k].Payload() <= lo && hi <= bs[k].End() && AgreeOutside(m, n, lo, hi)
    ensures Headers(n, bs) && PayloadsKept(m, n, Live(bs) - {bs[k]})
  {
    forall i | 0 <= i < |bs| ensures HeaderAt(n, bs, i) {
      assert HeaderAt(m, bs, i);
      if i != k { BlocksDisjoint(bs, HEAP_START, HEAP_END, i, k); }
    }
    forall b | b in Live(bs) - {bs[k]} ensures PayloadKept(m, n, b) {
      var i: nat :| i < |bs| && bs[i] == b;
      BlocksDisjoint(bs, HEAP_START, HEAP_END, i, k);
    }
  }

  lemma KeptTrans(m: Memory, m1: Memory, n: Memory, live: set<Block>)
    requires PayloadsKept(m, m1, live) && PayloadsKept(m1, n, live)
    ensures PayloadsKept(m, n, live)
  {
    forall b | b in live ensures PayloadKept(m, n, b) {
      assert PayloadKept(m, m1, b) && PayloadKept(m1, n, b);
    }
  }

  lemma CopyBefore(m: Memory, m1: Memory, n: Memory, b: Block, dst: int)
    requires PayloadKept(m, m1, b) && CopyOf(m1, b.Payload(), n, dst, b.size)
    requires Spans(m) && HEAP_START <= b.addr && b.End() <= HEAP_END
    ensures CopyOf(m, b.Payload(), n, dst, b.size)
  {
    forall a | dst <= a < dst + b.size ensures Copied(m, b.Payload(), n, dst, a) {
      assert Copied(m1, b.Payload(), n, dst, a);
      assert b.Payload() + (a - dst) in m;
    }
  }

  lemma CopyAfter(m: Memory, src: int, m1: Memory, n: Memory, c: Block, len: int)
    requires CopyOf(m, src, m1, c.Payload(), len) && PayloadKept(m1, n, c) && len <= c.size
    ensures CopyOf(m, src, n, c.Payload(), len)
  {
    forall a | c.Payload() <= a < c.Payload() + len ensures Copied(m, src, n, c.Payload(), a) {
      assert Copied(m, src, m1, c.Payload(), a);
    }
  }

  /** For other alignments the mask does not round: not for the first block of the heap and 48. */
  lemma AlignmentOf48()
    ensures Initial()[0].Payload() + 8 + 47 == 0xFFFF_8000_0030_0057
    ensures AndNot(0xFFFF_8000_0030_0057, 47) == 0xFFFF_8000_0030_0050 && !Aligns(0xFFFF_8000_0030_0057, 48)
  {
    hide AndNot;
    AndNotNear(0x3FF_FE00_0000_C001, 0);
    HalfStep(0x7FF_FC00_0001_8002, 1, 0x3FF_FE00_0000_C001);
    HalfStep(0xFFF_F800_0003_0005, 2, 0x7FF_FC00_0001_8002);
    HalfStep(0x1FFF_F000_0006_000A, 5, 0xFFF_F800_0003_0005);
    HalfStep(0x3FFF_E000_000C_0015, 11, 0x1FFF_F000_0006_000A);
    HalfStep(0x7FFF_C000_0018_002B, 23, 0x3FFF_E000_000C_0014);
    HalfStep(0xFFFF_8000_0030_0057, 47, 0x7FFF_C000_0018_0028);
  }
}
