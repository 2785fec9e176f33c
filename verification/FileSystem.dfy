/**
  fs/filesystem.c: formatting and block allocation on top of the cache.

  fs_alloc_block hands out 5, 6, 7, ... up to 8063 and then panics, whatever other disciplined
  traffic goes through the cache in between and however often the machine is flushed and restarted.
 */
module FileSystem {
  import opened Bits
  import opened BlockCache
  import opened BlockDevice
  import opened Width

  const FS_MAGIC: bv32 := 0x4854_5246
  const BITS := 8 * DATA_SIZE

  datatype Outcome = Panic | Allocated(n: nat)

  // ----- the allocation bitmap -----

  /** A byte whose lowest k bits are set. */
  function LowBits(k: nat): bv8
    requires k <= 8
  {
    [0, 1, 3, 7, 15, 31, 63, 127, 255][k]
  }

  /** The bitmap in which exactly the blocks 0 .. k-1 are in use. */
  function Filled(k: nat): (s: seq<bv8>)
    ensures |s| == DATA_SIZE
  {
    seq(DATA_SIZE, j requires 0 <= j < DATA_SIZE =>
      LowBits(if k <= 8 * j then 0 else if k >= 8 * j + 8 then 8 else k - 8 * j))
  }

  lemma LowBitsOf(k: nat, j: nat)
    requires k <= 8 && j < 8
    ensures Bit(LowBits(k), j) <==> j < k
  {
    MaskValue(j);
    if k == 0 {} else if k == 1 {} else if k == 2 {} else if k == 3 {} else if k == 4 {}
    else if k == 5 {} else if k == 6 {} else if k == 7 {}
  }

  lemma NextLowBits(k: nat)
    requires k < 8
    ensures LowBits(k) | Mask(k) == LowBits(k + 1) && LowBits(k) != 0xFF
  {
    MaskValue(k);
    if k == 0 {} else if k == 1 {} else if k == 2 {} else if k == 3 {}
    else if k == 4 {} else if k == 5 {} else if k == 6 {}
  }

  /** The search of fs_alloc_block: the first clear bit, or -1. */
  method FindClear(data: seq<bv8>) returns (byte: nat, bit: nat, found: bool)
    requires |data| == DATA_SIZE
    ensures found ==> byte < DATA_SIZE && bit < 8 && !Bit(data[byte], bit)
    ensures found ==> forall j :: 0 <= j < byte ==> data[j] == 0xFF
    ensures found ==> forall j :: 0 <= j < bit ==> Bit(data[byte], j)
    ensures !found ==> forall j :: 0 <= j < DATA_SIZE ==> data[j] == 0xFF
  {
    byte := 0;
    while byte < DATA_SIZE
      invariant byte <= DATA_SIZE && forall j :: 0 <= j < byte ==> data[j] == 0xFF
    {
      if data[byte] != 0xFF {
        bit := 0;
        while bit < 8
          invariant bit <= 8 && forall j :: 0 <= j < bit ==> Bit(data[byte], j)
        {
          if data[byte] & Mask(bit) == 0 {
            return byte, bit, true;
          }
          bit := bit + 1;
        }
        FullByte(data[byte]);
      }
      byte := byte + 1;
    }
    return byte, 0, false;
  }

  predicate BitAt(data: seq<bv8>, p: nat)
    requires p < 8 * |data|
  {
    Bit(data[p / 8], p % 8)
  }

  /** The lowest clear bit from p on, or 8 * |data|. */
  function FirstClear(data: seq<bv8>, p: nat): (r: nat)
    requires p <= 8 * |data|
    ensures p <= r <= 8 * |data| && (r < 8 * |data| ==> !BitAt(data, r))
    ensures forall q: nat :: p <= q < r ==> BitAt(data, q)
    decreases 8 * |data| - p
  {
    if p == 8 * |data| || !BitAt(data, p) then p else FirstClear(data, p + 1)
  }

  function WithBit(data: seq<bv8>, p: nat): seq<bv8>
    requires p < 8 * |data|
  {
    data[p / 8 := data[p / 8] | Mask(p % 8)]
  }

  lemma FilledBit(k: nat, p: nat)
    requires p < BITS
    ensures BitAt(Filled(k), p) <==> p < k
  {
    var j := p / 8;
    LowBitsOf(if k <= 8 * j then 0 else if k >= 8 * j + 8 then 8 else k - 8 * j, p % 8);
  }

  /** With blocks 0 .. k-1 in use the search finds k, and marking it gives the next such bitmap. */
  lemma FilledStep(k: nat)
    requires k <= BITS
    ensures FirstClear(Filled(k), 0) == k
    ensures k < BITS ==> WithBit(Filled(k), k) == Filled(k + 1)
  {
    hide BitAt, Filled, WithBit;
    var r := FirstClear(Filled(k), 0);
    if r < BITS { FilledBit(k, r); }
    if k < r { FilledBit(k, k); }
    if k < BITS { FilledNext(k); }
  }

  lemma FilledNext(k: nat)
    requires k < BITS
    ensures WithBit(Filled(k), k) == Filled(k + 1)
  {
    hide LowBits, Mask;
    NextLowBits(k % 8);
    var e, f, i := WithBit(Filled(k), k), Filled(k + 1), k / 8;
    assert f[i] == if k % 8 == 7 then LowBits(8) else LowBits(k % 8 + 1);
    forall j | 0 <= j < DATA_SIZE ensures e[j] == f[j] {
      if j != i { assert e[j] == Filled(k)[j]; }
    }
  }

  lemma FoundClear(data: seq<bv8>, byte: nat, bit: nat)
    requires |data| == DATA_SIZE && byte < DATA_SIZE && bit < 8 && !Bit(data[byte], bit)
    requires forall j :: 0 <= j < byte ==> data[j] == 0xFF
    requires forall j :: 0 <= j < bit ==> Bit(data[byte], j)
    ensures FirstClear(data, 0) == byte * 8 + bit
  {
    var r := FirstClear(data, 0);
    assert !BitAt(data, byte * 8 + bit);
  }

  lemma NoneClear(data: seq<bv8>)
    requires |data| == DATA_SIZE && forall j :: 0 <= j < DATA_SIZE ==> data[j] == 0xFF
    ensures FirstClear(data, 0) == BITS
  {
    var r := FirstClear(data, 0);
    if r < BITS { FullByte(data[r / 8]); }
  }

  // ----- the operations on the cache -----

  /** What holds of the cache in or out of discipline. */
  ghost predicate AllFit(c: Cache) {
    && |c.bufs| == NUM_BUFFERS && c.recent < NUM_BUFFERS && DiskShape(c.disk)
    && forall i :: 0 <= i < NUM_BUFFERS ==> Fits(c.bufs[i])
  }

  lemma GetFits(c: Cache, n: nat, tick: nat, v: nat)
    requires AllFit(c) && n < TWO32 && v < NUM_BUFFERS
    ensures var g := Get(c, n, tick, v); AllFit(g) && Holds(g.bufs[g.recent], n)
  {
    hide WriteBuffer, Lookup;
    var i, e := Lookup(c.bufs, n), WriteBuffer(c, v);
    if i == |c.bufs| { assert forall j :: 0 <= j < NUM_BUFFERS ==> Fits(e.bufs[j]); }
  }

  /** fs_alloc_block: the bitmap is block 2.  A panic leaves the block as it was. */
  function AllocStep(c: Cache, tick: nat, v: nat): (Cache, Outcome)
    requires AllFit(c) && v < NUM_BUFFERS
  {
    GetFits(c, 2, tick, v);
    var g := Get(c, 2, tick, v);
    var b := g.bufs[g.recent].block;
    var p := FirstClear(b.data, 0);
    if p == BITS then (g, Panic) else (EditAndUpdate(g, b.(data := WithBit(b.data, p))), Allocated(p))
  }

  /** The superblock and the bitmap that fs_format writes. */
  function Superblock(b: Block): Block { b.(kind := FS_MAGIC, data := Word(10000) + seq(DATA_SIZE - 4, _ => 0)) }
  function FreshBitmap(b: Block): Block { b.(data := [0x1F] + seq(DATA_SIZE - 1, _ => 0)) }

  lemma FreshBitmapIsFilled(b: Block)
    ensures FreshBitmap(b).data == Filled(5) && Superblock(b).Sized()
  {
  }

  /** The state of a formatted disk: the superblock is recognised and blocks 0 .. k-1 are taken. */
  ghost predicate Formatted(c: Cache, u: set<nat>, k: nat) {
    && Inv(c, u) && 1 in u && 2 in u && k <= BITS
    && Content(c, 1).kind == FS_MAGIC && Content(c, 2).data == Filled(k)
  }

  // ----- formatting -----

  /** fs_format up to its flush. */
  function FormatStep(c: Cache, t1: nat, v1: nat, t2: nat, v2: nat): (m: Cache)
    requires AllFit(c) && v1 < NUM_BUFFERS && v2 < NUM_BUFFERS
    ensures AllFit(m)
  {
    GetFits(c, 1, t1, v1);
    var s := Get(c, 1, t1, v1);
    var e := EditAndUpdate(s, Superblock(s.bufs[s.recent].block));
    FreshBitmapIsFilled(s.bufs[s.recent].block);
    GetFits(e, 2, t2, v2);
    var m := Get(e, 2, t2, v2);
    FreshBitmapIsFilled(m.bufs[m.recent].block);
    EditAndUpdate(m, FreshBitmap(m.bufs[m.recent].block))
  }

  /** fs_format */
  function Format(c: Cache, t1: nat, v1: nat, t2: nat, v2: nat): Cache
    requires AllFit(c) && v1 < NUM_BUFFERS && v2 < NUM_BUFFERS
  {
    FlushTo(FormatStep(c, t1, v1, t2, v2), NUM_BUFFERS)
  }

  /** Before the flush the cache holds the two blocks. */
  lemma FormatStepHolds(c: Cache, u: set<nat>, t1: nat, v1: nat, t2: nat, v2: nat)
    requires Inv(c, u) && 1 in u && 2 in u && v1 < NUM_BUFFERS && v2 < NUM_BUFFERS
    ensures AllFit(c) && Inv(FormatStep(c, t1, v1, t2, v2), u)
    ensures var m := FormatStep(c, t1, v1, t2, v2);
            && Content(m, 1).kind == 0x4854_5246 && Content(m, 1).data == Word(10000) + seq(1004, _ => 0)
            && Content(m, 2).data == [0x1F] + seq(1007, _ => 0)
  {
    hide Word;
    FitsAll(c, u);
    GetKeeps(c, u, 1, t1, v1);
    GetFits(c, 1, t1, v1);
    var s := Get(c, 1, t1, v1);
    var sb := Superblock(s.bufs[s.recent].block);
    FreshBitmapIsFilled(sb);
    EditKeeps(s, u, 1, sb);
    var e := EditAndUpdate(s, sb);
    FitsAll(e, u);
    GetKeeps(e, u, 2, t2, v2);
    var m := Get(e, 2, t2, v2);
    FreshBitmapIsFilled(m.bufs[m.recent].block);
    EditKeeps(m, u, 2, FreshBitmap(m.bufs[m.recent].block));
  }

  /** Formatting leaves a recognised disk with blocks 0 to 4 taken, so that the k-th allocation
      after it returns 4 + k. */
  lemma FormatFormats(c: Cache, u: set<nat>, t1: nat, v1: nat, t2: nat, v2: nat)
    requires Inv(c, u) && 1 in u && 2 in u && v1 < NUM_BUFFERS && v2 < NUM_BUFFERS
    ensures AllFit(c) && Formatted(Format(c, t1, v1, t2, v2), u, 5)
  {
    hide FormatStep, Word;
    FormatStepHolds(c, u, t1, v1, t2, v2);
    var m := FormatStep(c, t1, v1, t2, v2);
    FitsAll(m, u);
    FlushKeeps(m, u, NUM_BUFFERS);
    FreshBitmapIsFilled(Content(m, 2));
  }

  predicate Zeros(s: seq<bv8>) { forall i :: 0 <= i < |s| ==> s[i] == 0 }

  /** The bytes fs_format leaves on the disk: in sector 1026 the magic number, behind the header the number 10000, in
      sector 1028 behind the header the bits of blocks 0 to 4, and otherwise zeros. */
  lemma FormatLayout(c: Cache, u: set<nat>, t1: nat, v1: nat, t2: nat, v2: nat)
    requires Inv(c, u) && 1 in u && 2 in u && v1 < NUM_BUFFERS && v2 < NUM_BUFFERS
    ensures AllFit(c)
    ensures var d := Format(c, t1, v1, t2, v2).disk;
            && {1026, 1027, 1028, 1029} <= d.Keys && |d[1026]| == |d[1028]| == 512
            && d[1026][..4] == [0x46, 0x52, 0x54, 0x48] && d[1026][16..20] == [0x10, 0x27, 0, 0]
            && Zeros(d[1026][20..]) && Zeros(d[1027])
            && d[1028][16] == 0x1F && Zeros(d[1028][17..]) && Zeros(d[1029])
  {
    hide FormatStep, Word, Decode, FlushTo;
    FormatStepHolds(c, u, t1, v1, t2, v2);
    var m := FormatStep(c, t1, v1, t2, v2);
    FitsAll(m, u);
    FlushReachesDisk(m, u, 1);
    FlushReachesDisk(m, u, 2);
    var d := Format(c, t1, v1, t2, v2).disk;
    FormatWords();
    SuperblockBytes(d[1026], d[1027], DiskBlock(d, 1));
    BitmapBytes(d[1028], d[1029], DiskBlock(d, 2));
  }

  lemma FormatWords()
    ensures Word(0x4854_5246) == [0x46, 0x52, 0x54, 0x48] && Word(10000) == [0x10, 0x27, 0, 0]
  {
  }

  /** The data of a block in its two sectors. */
  lemma DataBytes(x: seq<bv8>, y: seq<bv8>, b: Block)
    requires |x| == |y| == 512 && b == Decode(x + y)
    ensures |b.data| == DATA_SIZE && x[..4] == Word(b.kind)
    ensures x[16..] == b.data[..496] && y == b.data[496..]
  {
    hide Word, Decode;
    var s := x + y;
    BlockLayout(s, b);
    assert x[..4] == s[..4] && x[16..] == s[16..][..496] && y == s[16..][496..];
  }

  lemma SuperblockBytes(x: seq<bv8>, y: seq<bv8>, b: Block)
    requires |x| == |y| == 512 && b == Decode(x + y)
    requires b.kind == 0x4854_5246 && b.data == [0x10, 0x27, 0, 0] + seq(1004, _ => 0)
    ensures x[..4] == Word(0x4854_5246) && x[16..20] == [0x10, 0x27, 0, 0] && Zeros(x[20..]) && Zeros(y)
  {
    hide Word, Decode;
    DataBytes(x, y, b);
    assert x[16..20] == x[16..][..4] && x[20..] == x[16..][4..];
  }

  lemma BitmapBytes(x: seq<bv8>, y: seq<bv8>, b: Block)
    requires |x| == |y| == 512 && b == Decode(x + y) && b.data == [0x1F] + seq(1007, _ => 0)
    ensures x[16] == 0x1F && Zeros(x[17..]) && Zeros(y)
  {
    hide Word, Decode;
    DataBytes(x, y, b);
    assert x[16] == x[16..][0] && x[17..] == x[16..][1..];
  }

  /** fs_init: the superblock is fetched, and the disk formatted unless that carries the magic number. */
  function FsInitStep(c: Cache, t0: nat, v0: nat, t1: nat, v1: nat, t2: nat, v2: nat): Cache
    requires AllFit(c) && v0 < NUM_BUFFERS && v1 < NUM_BUFFERS && v2 < NUM_BUFFERS
  {
    GetFits(c, 1, t0, v0);
    var g := Get(c, 1, t0, v0);
    if g.bufs[g.recent].block.kind == FS_MAGIC then g else Format(g, t1, v1, t2, v2)
  }

  // ----- the allocator over the cache -----

  /** Allocations, cache traffic, and restarts: block_flush, block_init on the same disk, fs_init. */
  datatype FsOp =
    | Alloc(tick: nat, victim: nat)
    | Traffic(op: Op)
    | Restart(t0: nat, v0: nat, t1: nat, v1: nat, t2: nat, v2: nat)

  /** The victims are buffers, and the traffic is that of a disciplined client. */
  ghost predicate Runs(f: FsOp, u: set<nat>) {
    match f
    case Alloc(_, v) => v < NUM_BUFFERS
    case Traffic(op) => Allowed(op, u)
    case Restart(_, v0, _, v1, _, v2) => v0 < NUM_BUFFERS && v1 < NUM_BUFFERS && v2 < NUM_BUFFERS
  }

  /** The operation does not store to the superblock or the bitmap. */
  predicate Spares(f: FsOp) { f.Traffic? && f.op.Store? ==> f.op.n != 1 && f.op.n != 2 }

  /** block_flush, then block_init on the same disk. */
  function Reboot(c: Cache): Cache
    requires AllFit(c)
  {
    Cache(seq(NUM_BUFFERS, _ => Empty()), c.recent, FlushTo(c, NUM_BUFFERS).disk)
  }

  lemma RebootKeeps(c: Cache, u: set<nat>)
    requires Inv(c, u)
    ensures AllFit(c) && Inv(Reboot(c), u) && SameContent(c, Reboot(c), u)
  {
    FitsAll(c, u);
    FlushKeeps(c, u, NUM_BUFFERS);
    InitInv(Reboot(c), u);
    forall n | n in u ensures Content(Reboot(c), n) == Content(c, n) {
      FlushReachesDisk(c, u, n);
    }
  }

  /** An allocation on a formatted disk returns the next number, or panics when all are taken. */
  lemma AllocNext(c: Cache, u: set<nat>, k: nat, tick: nat, v: nat)
    requires Formatted(c, u, k) && v < NUM_BUFFERS
    ensures AllFit(c)
    ensures var (e, r) := AllocStep(c, tick, v);
            && r == (if k < BITS then Allocated(k) else Panic)
            && Formatted(e, u, if k < BITS then k + 1 else k)
  {
    FitsAll(c, u);
    GetKeeps(c, u, 2, tick, v);
    FilledStep(k);
    var g := Get(c, 2, tick, v);
    var b := g.bufs[g.recent].block;
    assert b.data == Filled(k);
    if k < BITS {
      EditKeeps(g, u, 2, b.(data := Filled(k + 1)));
    }
  }

  /** An allocation keeps the cache in discipline, whatever block 2 holds. */
  lemma AllocKeepsInv(c: Cache, u: set<nat>, tick: nat, v: nat)
    requires Inv(c, u) && 2 in u && v < NUM_BUFFERS
    ensures AllFit(c) && Inv(AllocStep(c, tick, v).0, u)
  {
    FitsAll(c, u);
    GetKeeps(c, u, 2, tick, v);
    var g := Get(c, 2, tick, v);
    var b := g.bufs[g.recent].block;
    FitsAll(g, u);
    var p := FirstClear(b.data, 0);
    if p < BITS { EditKeeps(g, u, 2, b.(data := WithBit(b.data, p))); }
  }

  /** fs_init keeps every content of a recognised disk; any other disk it formats. */
  lemma FsInitKeeps(c: Cache, u: set<nat>, t0: nat, v0: nat, t1: nat, v1: nat, t2: nat, v2: nat)
    requires Inv(c, u) && 1 in u && 2 in u && v0 < NUM_BUFFERS && v1 < NUM_BUFFERS && v2 < NUM_BUFFERS
    ensures AllFit(c)
    ensures var e := FsInitStep(c, t0, v0, t1, v1, t2, v2);
            && Inv(e, u)
            && if Content(c, 1).kind == FS_MAGIC then SameContent(c, e, u) else Formatted(e, u, 5)
  {
    FitsAll(c, u);
    GetKeeps(c, u, 1, t0, v0);
    FormatFormats(Get(c, 1, t0, v0), u, t1, v1, t2, v2);
  }

  /** One operation: the new cache, and what it returns to the caller of fs_alloc_block. */
  ghost function FsStep(c: Cache, f: FsOp, u: set<nat>): (e: (Cache, seq<Outcome>))
    requires Inv(c, u) && 1 in u && 2 in u && Runs(f, u)
    ensures Inv(e.0, u)
  {
    match f
    case Alloc(tick, v) =>
      AllocKeepsInv(c, u, tick, v);
      var (e, r) := AllocStep(c, tick, v);
      (e, [r])
    case Traffic(op) => (Step(c, op, u), [])
    case Restart(t0, v0, t1, v1, t2, v2) =>
      RebootKeeps(c, u);
      FsInitKeeps(Reboot(c), u, t0, v0, t1, v1, t2, v2);
      (FsInitStep(Reboot(c), t0, v0, t1, v1, t2, v2), [])
  }

  function Taken(f: FsOp, k: nat): nat { if f.Alloc? && k < BITS then k + 1 else k }

  /** A restart of a recognised disk takes the branch that formats nothing. */
  lemma RestartKeeps(c: Cache, f: FsOp, u: set<nat>, k: nat)
    requires Formatted(c, u, k) && f.Restart? && Runs(f, u)
    ensures Formatted(FsStep(c, f, u).0, u, k) && FsStep(c, f, u).1 == []
  {
    RebootKeeps(c, u);
    FsInitKeeps(Reboot(c), u, f.t0, f.v0, f.t1, f.v1, f.t2, f.v2);
  }

  /** A restart after the superblock has been overwritten formats the disk: the next allocation returns 5. */
  lemma RestartFormats(c: Cache, f: FsOp, u: set<nat>)
    requires Inv(c, u) && 1 in u && 2 in u && f.Restart? && Runs(f, u) && Content(c, 1).kind != FS_MAGIC
    ensures Formatted(FsStep(c, f, u).0, u, 5)
  {
    RebootKeeps(c, u);
    FsInitKeeps(Reboot(c), u, f.t0, f.v0, f.t1, f.v1, f.t2, f.v2);
  }

  lemma TrafficKeeps(c: Cache, op: Op, u: set<nat>, k: nat)
    requires Formatted(c, u, k) && Runs(Traffic(op), u) && Spares(Traffic(op))
    ensures Formatted(Step(c, op, u), u, k)
  {
    StepRefines(c, op, u);
    var e := Step(c, op, u);
    assert View(c, u)[1] == Content(c, 1) && View(c, u)[2] == Content(c, 2);
    assert View(e, u)[1] == Content(e, 1) && View(e, u)[2] == Content(e, 2);
  }

  lemma FsStepKeeps(c: Cache, f: FsOp, u: set<nat>, k: nat)
    requires Formatted(c, u, k) && Runs(f, u) && Spares(f)
    ensures Formatted(FsStep(c, f, u).0, u, Taken(f, k))
    ensures FsStep(c, f, u).1 == if f.Alloc? then [if k < BITS then Allocated(k) else Panic] else []
  {
    match f
    case Alloc(tick, v) => AllocNext(c, u, k, tick, v);
    case Traffic(op) => TrafficKeeps(c, op, u, k);
    case Restart(_, _, _, _, _, _) => RestartKeeps(c, f, u, k);
  }

  /** What the allocations of a run return, in order. */
  ghost function Results(c: Cache, fs: seq<FsOp>, u: set<nat>): seq<Outcome>
    requires Inv(c, u) && 1 in u && 2 in u && forall f :: f in fs ==> Runs(f, u)
    decreases |fs|
  {
    if fs == [] then []
    else
      var (e, r) := FsStep(c, fs[0], u);
      r + Results(e, fs[1..], u)
  }

  function Allocs(fs: seq<FsOp>): nat { if fs == [] then 0 else (if fs[0].Alloc? then 1 else 0) + Allocs(fs[1..]) }

  /** In every run that stores neither to the superblock nor to the bitmap, the i-th allocation returns block
      k + i while there is one, and from then on panics. */
  lemma {:induction false} AllocationsInOrder(c: Cache, fs: seq<FsOp>, u: set<nat>, k: nat)
    requires Formatted(c, u, k) && forall f :: f in fs ==> Runs(f, u) && Spares(f)
    ensures |Results(c, fs, u)| == Allocs(fs)
    ensures forall i :: 0 <= i < Allocs(fs) ==>
              Results(c, fs, u)[i] == if k + i < BITS then Allocated(k + i) else Panic
    decreases |fs|
  {
    hide FsStep, Runs, Spares, Inv;
    if fs != [] {
      FsStepKeeps(c, fs[0], u, k);
      AllocationsInOrder(FsStep(c, fs[0], u).0, fs[1..], u, Taken(fs[0], k));
    }
  }

  // ----- in place -----

  /** A client's write through the pointer it got last, followed by block_update. */
  method Put(d: Device, block: Block)
    requires d.Valid() && block.Sized()
    modifies d.buffers
    ensures d.Valid() && d.State() == EditAndUpdate(old(d.State()), block)
  {
    d.Edit(block);
    d.BlockUpdate();
    assert d.State().bufs == EditAndUpdate(old(d.State()), block).bufs;
  }

  /** fs_format on the live cache; the ghost results are the buffers its two misses would evict. */
  method FsFormat(d: Device, t1: nat, t2: nat) returns (ghost v1: nat, ghost v2: nat)
    requires d.Valid() && t1 < TWO64 && t2 < TWO64
    modifies d, d.buffers
    ensures d.Valid() && v1 < NUM_BUFFERS && v2 < NUM_BUFFERS
    ensures AllFit(old(d.State())) && d.State() == Format(old(d.State()), t1, v1, t2, v2)
  {
    var i, w;
    i, w, v1 := d.BlockGet(1, t1);
    FreshBitmapIsFilled(d.buffers[i].block);
    Put(d, Superblock(d.buffers[i].block));
    i, w, v2 := d.BlockGet(2, t2);
    FreshBitmapIsFilled(d.buffers[i].block);
    Put(d, FreshBitmap(d.buffers[i].block));
    d.BlockFlush();
  }

  /** fs_init: format unless the superblock is recognised. */
  method FsInit(d: Device, t0: nat, t1: nat, t2: nat) returns (ghost v0: nat, ghost v1: nat, ghost v2: nat)
    requires d.Valid() && t0 < TWO64 && t1 < TWO64 && t2 < TWO64
    modifies d, d.buffers
    ensures d.Valid() && v0 < NUM_BUFFERS && v1 < NUM_BUFFERS && v2 < NUM_BUFFERS
    ensures AllFit(old(d.State())) && d.State() == FsInitStep(old(d.State()), t0, v0, t1, v1, t2, v2)
  {
    var i, w;
    i, w, v0 := d.BlockGet(1, t0);
    v1, v2 := 0, 0;
    if d.buffers[i].block.kind != FS_MAGIC {
      v1, v2 := FsFormat(d, t1, t2);
    }
  }

  /** fs_alloc_block */
  method FsAllocBlock(d: Device, tick: nat) returns (r: Outcome, ghost v: nat)
    requires d.Valid() && tick < TWO64
    modifies d, d.buffers
    ensures d.Valid() && v < NUM_BUFFERS
    ensures AllFit(old(d.State())) && (d.State(), r) == AllocStep(old(d.State()), tick, v)
  {
    hide Get, EditAndUpdate, FirstClear, Mask, Bit;
    var i, w;
    i, w, v := d.BlockGet(2, tick);
    var b := d.buffers[i].block;
    var byte, bit, found := FindClear(b.data);
    if !found {
      NoneClear(b.data);
      return Panic, v;
    }
    FoundClear(b.data, byte, bit);
    assert (byte * 8 + bit) / 8 == byte && (byte * 8 + bit) % 8 == bit;
    Put(d, b.(data := b.data[byte := b.data[byte] | Mask(bit)]));
    return Allocated(byte * 8 + bit), v;
  }
}
