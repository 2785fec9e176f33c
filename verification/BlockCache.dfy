/**
  fs/block_device.c as values: eight write-back buffers over a disk of sectors.

  The theorem is transparency: whatever buffer each miss evicts and whatever the clock says,
  a client that edits only the block it has just fetched, and then updates, sees a plain map
  from block numbers to blocks (up to the crc field, which the cache owns).
 */
module BlockCache {
  import opened Bits
  import opened Crc
  import opened Folds
  import opened Width

  const DATA_SIZE := 1008
  const NUM_BUFFERS := 8
  const DISK_OFFSET := 1024

  /** block_t: the 16-byte header and the data. */
  datatype Block = Block(kind: bv32, prev: bv32, next: bv32, crc: bv32, data: seq<bv8>) {
    ghost predicate Sized() { |data| == DATA_SIZE }
    /** What a client may rely on. */
    function Strip(): Block { this.(crc := 0) }
  }

  // ----- blocks as 1024 bytes, little end first -----

  function Encode(b: Block): seq<bv8> { Word(b.kind) + Word(b.prev) + Word(b.next) + Word(b.crc) + b.data }

  function WordAt(s: seq<bv8>, i: nat): bv32
    requires i + 4 <= |s|
  {
    Dword(s[i], s[i + 1], s[i + 2], s[i + 3])
  }

  function Decode(s: seq<bv8>): Block
    requires |s| == 1024
  {
    Block(WordAt(s, 0), WordAt(s, 4), WordAt(s, 8), WordAt(s, 12), s[16..])
  }

  lemma DecodeEncode(b: Block)
    requires b.Sized()
    ensures |Encode(b)| == 1024 && Decode(Encode(b)) == b
  {
    WordRoundTrip(b.kind);
    WordRoundTrip(b.prev);
    WordRoundTrip(b.next);
    WordRoundTrip(b.crc);
    assert Encode(b)[16..] == b.data;
  }

  lemma BytesOfWord(b0: bv8, b1: bv8, b2: bv8, b3: bv8)
    ensures Word(Dword(b0, b1, b2, b3)) == [b0, b1, b2, b3]
  {
  }

  lemma EncodeDecode(s: seq<bv8>)
    requires |s| == 1024
    ensures Decode(s).Sized() && Encode(Decode(s)) == s
  {
    BytesOfWord(s[0], s[1], s[2], s[3]);
    BytesOfWord(s[4], s[5], s[6], s[7]);
    BytesOfWord(s[8], s[9], s[10], s[11]);
    BytesOfWord(s[12], s[13], s[14], s[15]);
    hide Word, Dword;
    FourWords(s);
  }

  lemma FourWords<T>(s: seq<T>)
    requires |s| >= 16
    ensures s == [s[0], s[1], s[2], s[3]] + [s[4], s[5], s[6], s[7]] + [s[8], s[9], s[10], s[11]]
                 + [s[12], s[13], s[14], s[15]] + s[16..]
  {
    assert [s[0], s[1], s[2], s[3]] == s[0..4] && [s[4], s[5], s[6], s[7]] == s[4..8];
    assert [s[8], s[9], s[10], s[11]] == s[8..12] && [s[12], s[13], s[14], s[15]] == s[12..16];
    assert s == s[0..4] + s[4..8] + s[8..12] + s[12..16] + s[16..];
  }

  /** Where the fields of the header lie, each little end first. */
  lemma BlockLayout(s: seq<bv8>, b: Block)
    requires |s| == 1024 && b == Decode(s)
    ensures s[..4] == Word(b.kind) && s[4..8] == Word(b.prev) && s[8..12] == Word(b.next)
    ensures s[12..16] == Word(b.crc) && s[16..] == b.data
  {
    EncodeDecode(s);
    hide Decode, Word;
    assert |Word(b.kind)| == |Word(b.prev)| == |Word(b.next)| == |Word(b.crc)| == 4 by { WordSize(b); }
    assert s == Encode(b);
  }

  lemma WordSize(b: Block)
    ensures |Word(b.kind)| == 4 && |Word(b.prev)| == 4 && |Word(b.next)| == 4 && |Word(b.crc)| == 4
  {
  }

  // ----- the disk -----

  type Disk = map<nat, seq<bv8>>

  ghost predicate DiskShape(d: Disk) { forall lba: nat :: lba < TWO28 ==> lba in d && |d[lba]| == 512 }

  /** First sector of a block: 32-bit arithmetic, then the 28 address bits the controller gets. */
  function Sector(n: nat): nat { (DISK_OFFSET + n * 2) % TWO32 % TWO28 }

  /** Two block numbers share their sectors. */
  predicate Alias(n: nat, m: nat) { n % TWO27 == m % TWO27 }

  lemma SectorFacts(n: nat, m: nat)
    requires n < TWO32 && m < TWO32
    ensures Sector(n) % 2 == 0 && Sector(n) + 1 < TWO28
    ensures Sector(n) == Sector(m) <==> Alias(n, m)
  {
    SectorValue(n);
    SectorValue(m);
    SameShifted(n, m);
  }

  lemma SectorValue(n: nat)
    ensures Sector(n) == 2 * ((512 + n) % TWO27)
  {
    ModMod(DISK_OFFSET + n * 2);
    DoubleMod(512 + n);
  }

  lemma ModMod(x: nat)
    ensures x % TWO32 % TWO28 == x % TWO28
  {
    var q, r := x / TWO32, x % TWO32;
    assert x == TWO28 * (16 * q) + r;
  }

  lemma DoubleMod(y: nat)
    ensures 2 * y % TWO28 == 2 * (y % TWO27)
  {
    var q, r := y / TWO27, y % TWO27;
    assert 2 * y == TWO28 * q + 2 * r;
  }

  lemma SameShifted(n: nat, m: nat)
    ensures (512 + n) % TWO27 == (512 + m) % TWO27 <==> n % TWO27 == m % TWO27
  {
    ShiftedMod(n);
    ShiftedMod(m);
  }

  lemma ShiftedMod(n: nat)
    ensures (512 + n) % TWO27 == if n % TWO27 < TWO27 - 512 then n % TWO27 + 512 else n % TWO27 + 512 - TWO27
  {
    var q, r := n / TWO27, n % TWO27;
    assert n == TWO27 * q + r;
  }

  function DiskBlock(d: Disk, n: nat): Block
    requires DiskShape(d) && n < TWO32
  {
    SectorFacts(n, n);
    Decode(d[Sector(n)] + d[Sector(n) + 1])
  }

  function WriteBlock(d: Disk, n: nat, b: Block): Disk
    requires b.Sized()
  {
    DecodeEncode(b);
    d[Sector(n) := Encode(b)[..512]][Sector(n) + 1 := Encode(b)[512..]]
  }

  lemma ReadWritten(d: Disk, n: nat, b: Block, m: nat)
    requires DiskShape(d) && b.Sized() && n < TWO32 && m < TWO32
    ensures DiskShape(WriteBlock(d, n, b))
    ensures DiskBlock(WriteBlock(d, n, b), m) == if Alias(n, m) then b else DiskBlock(d, m)
  {
    hide Encode, Decode, Sector, Alias;
    SectorFacts(n, m);
    SectorFacts(m, n);
    DecodeEncode(b);
    var e := WriteBlock(d, n, b);
    if Alias(n, m) {
      assert e[Sector(m)] + e[Sector(m) + 1] == Encode(b);
    }
  }

  // ----- the buffers -----

  datatype Buffer = Buffer(num: nat, dirty: bool, valid: bool, lastUsed: nat, block: Block)
  datatype Cache = Cache(bufs: seq<Buffer>, recent: nat, disk: Disk)

  predicate Holds(b: Buffer, n: nat) { b.valid && b.num == n }

  /** Index of the first buffer holding block n, or |bufs|. */
  function Lookup(bufs: seq<Buffer>, n: nat): (i: nat)
    ensures i <= |bufs| && (i < |bufs| ==> Holds(bufs[i], n))
    ensures forall j :: 0 <= j < i ==> !Holds(bufs[j], n)
  {
    if bufs == [] || Holds(bufs[0], n) then 0 else 1 + Lookup(bufs[1..], n)
  }

  ghost predicate AliasFree(u: set<nat>) {
    (forall n :: n in u ==> n < TWO32) && (forall n, m :: n in u && m in u && Alias(n, m) ==> n == m)
  }

  /** A valid buffer holds a block of u; a clean one agrees with the disk. */
  ghost predicate BufferOk(b: Buffer, d: Disk, u: set<nat>)
    requires DiskShape(d)
  {
    b.valid ==> b.num in u && b.num < TWO32 && b.block.Sized() && (!b.dirty ==> b.block == DiskBlock(d, b.num))
  }

  ghost predicate Apart(a: Buffer, b: Buffer) { a.valid && b.valid ==> a.num != b.num }

  ghost predicate Inv(c: Cache, u: set<nat>) {
    && |c.bufs| == NUM_BUFFERS && c.recent < NUM_BUFFERS && DiskShape(c.disk) && AliasFree(u)
    && (forall i :: 0 <= i < NUM_BUFFERS ==> BufferOk(c.bufs[i], c.disk, u))
    && (forall i, j :: 0 <= i < NUM_BUFFERS && 0 <= j < NUM_BUFFERS && i != j ==> Apart(c.bufs[i], c.bufs[j]))
  }

  /** What block n holds, for a client: its buffer if there is one, else the disk. */
  function Content(c: Cache, n: nat): Block
    requires DiskShape(c.disk) && n < TWO32
  {
    var i := Lookup(c.bufs, n);
    if i < |c.bufs| then c.bufs[i].block.Strip() else DiskBlock(c.disk, n).Strip()
  }

  ghost predicate SameContent(c: Cache, e: Cache, u: set<nat>)
    requires DiskShape(c.disk) && DiskShape(e.disk) && AliasFree(u)
  {
    forall n :: n in u ==> Content(e, n) == Content(c, n)
  }

  // ----- the operations -----

  function WithCrc(b: Block): Block { b.(crc := Crc32(b.data)) }

  /** What every valid buffer satisfies, in or out of discipline. */
  ghost predicate Fits(b: Buffer) { b.valid ==> b.block.Sized() && b.num < TWO32 }

  /** write_buffer_to_disk */
  function WriteBuffer(c: Cache, i: nat): (e: Cache)
    requires i < |c.bufs| && Fits(c.bufs[i]) && DiskShape(c.disk)
    ensures DiskShape(e.disk) && |e.bufs| == |c.bufs| && Fits(e.bufs[i])
    ensures forall j :: 0 <= j < |c.bufs| && j != i ==> e.bufs[j] == c.bufs[j]
  {
    var b := c.bufs[i];
    if !b.valid || !b.dirty then c
    else
      ReadWritten(c.disk, b.num, WithCrc(b.block), b.num);
      var sealed := WithCrc(b.block);
      Cache(c.bufs[i := b.(block := sealed, dirty := false)], c.recent, WriteBlock(c.disk, b.num, sealed))
  }

  /** The load that follows a miss, into buffer v. */
  function Load(c: Cache, n: nat, tick: nat, v: nat): Cache
    requires v < |c.bufs| && DiskShape(c.disk) && n < TWO32
  {
    Cache(c.bufs[v := Buffer(n, false, true, tick, DiskBlock(c.disk, n))], v, c.disk)
  }

  function Touch(c: Cache, i: nat, tick: nat): Cache
    requires i < |c.bufs|
  {
    c.(bufs := c.bufs[i := c.bufs[i].(lastUsed := tick)], recent := i)
  }

  /** block_get, evicting buffer v on a miss. */
  function Get(c: Cache, n: nat, tick: nat, v: nat): Cache
    requires v < |c.bufs| && DiskShape(c.disk) && n < TWO32 && Fits(c.bufs[v])
  {
    var i := Lookup(c.bufs, n);
    if i < |c.bufs| then Touch(c, i, tick)
    else Load(WriteBuffer(c, v), n, tick, v)
  }

  /** The client overwrites the block it got last, then calls block_update. */
  function EditAndUpdate(c: Cache, b: Block): Cache
    requires c.recent < |c.bufs|
  {
    var r := c.bufs[c.recent];
    c.(bufs := c.bufs[c.recent := r.(block := b, dirty := r.dirty || r.valid)])
  }

  /** block_flush, up to buffer k. */
  function FlushTo(c: Cache, k: nat): (e: Cache)
    requires k <= |c.bufs| && DiskShape(c.disk) && forall i :: 0 <= i < |c.bufs| ==> Fits(c.bufs[i])
    ensures |e.bufs| == |c.bufs| && DiskShape(e.disk) && forall i :: 0 <= i < |c.bufs| ==> Fits(e.bufs[i])
  {
    if k == 0 then c else WriteBuffer(FlushTo(c, k - 1), k - 1)
  }

  // ----- transparency, operation by operation -----

  lemma LookupHeld(c: Cache, u: set<nat>, i: nat, n: nat)
    requires Inv(c, u) && i < NUM_BUFFERS && Holds(c.bufs[i], n)
    ensures Lookup(c.bufs, n) == i
  {
    var k := Lookup(c.bufs, n);
    assert k != i ==> Apart(c.bufs[k], c.bufs[i]);
  }

  lemma LookupSame(a: seq<Buffer>, b: seq<Buffer>, n: nat)
    requires |a| == |b| && forall i :: 0 <= i < |a| ==> (Holds(a[i], n) <==> Holds(b[i], n))
    ensures Lookup(a, n) == Lookup(b, n)
  {
  }

  lemma OkFits(b: Buffer, d: Disk, u: set<nat>)
    requires DiskShape(d) && BufferOk(b, d, u)
    ensures Fits(b)
  {
  }

  lemma WrittenOk(c: Cache, u: set<nat>, i: nat, j: nat)
    requires Inv(c, u) && i < NUM_BUFFERS && j < NUM_BUFFERS && c.bufs[i].valid && c.bufs[i].dirty
    ensures Fits(c.bufs[i]) && BufferOk(WriteBuffer(c, i).bufs[j], WriteBuffer(c, i).disk, u)
  {
    hide Encode, Decode, DiskBlock, WriteBlock, Alias;
    var b := c.bufs[i];
    assert BufferOk(b, c.disk, u) && BufferOk(c.bufs[j], c.disk, u);
    ReadWritten(c.disk, b.num, WithCrc(b.block), b.num);
    SectorFacts(b.num, b.num);
    if j != i && c.bufs[j].valid {
      assert Apart(b, c.bufs[j]);
      ReadWritten(c.disk, b.num, WithCrc(b.block), c.bufs[j].num);
    }
  }

  lemma WrittenApart(c: Cache, u: set<nat>, i: nat, j: nat, k: nat)
    requires Inv(c, u) && i < NUM_BUFFERS && j < NUM_BUFFERS && k < NUM_BUFFERS && j != k
    ensures Fits(c.bufs[i]) && Apart(WriteBuffer(c, i).bufs[j], WriteBuffer(c, i).bufs[k])
  {
    hide WriteBlock;
    assert BufferOk(c.bufs[i], c.disk, u) && Apart(c.bufs[j], c.bufs[k]);
  }

  lemma WrittenContent(c: Cache, u: set<nat>, i: nat, n: nat)
    requires Inv(c, u) && i < NUM_BUFFERS && n in u && n < TWO32 && c.bufs[i].valid && c.bufs[i].dirty
    ensures Fits(c.bufs[i]) && Content(WriteBuffer(c, i), n) == Content(c, n)
  {
    hide Encode, Decode, DiskBlock, WriteBlock, Alias;
    var b := c.bufs[i];
    assert BufferOk(b, c.disk, u);
    LookupSame(c.bufs, WriteBuffer(c, i).bufs, n);
    if Lookup(c.bufs, n) == NUM_BUFFERS {
      assert !Holds(b, n);
      ReadWritten(c.disk, b.num, WithCrc(b.block), n);
    }
  }

  /** Writing a dirty buffer back changes what no client sees, and leaves the buffer clean. */
  lemma WriteBufferKeeps(c: Cache, u: set<nat>, i: nat)
    requires Inv(c, u) && i < NUM_BUFFERS
    ensures var e := WriteBuffer(c, i);
            Inv(e, u) && SameContent(c, e, u) && (e.bufs[i].valid ==> !e.bufs[i].dirty)
  {
    hide WriteBlock, DiskBlock, BufferOk, Apart, Content;
    OkFits(c.bufs[i], c.disk, u);
    var e := WriteBuffer(c, i);
    if c.bufs[i].valid && c.bufs[i].dirty {
      forall j | 0 <= j < NUM_BUFFERS ensures BufferOk(e.bufs[j], e.disk, u) { WrittenOk(c, u, i, j); }
      forall j, k | 0 <= j < NUM_BUFFERS && 0 <= k < NUM_BUFFERS && j != k ensures Apart(e.bufs[j], e.bufs[k]) {
        WrittenApart(c, u, i, j, k);
      }
      forall n | n in u ensures Content(e, n) == Content(c, n) { WrittenContent(c, u, i, n); }
    }
  }

  lemma TouchKeeps(c: Cache, u: set<nat>, i: nat, tick: nat)
    requires Inv(c, u) && i < NUM_BUFFERS
    ensures Inv(Touch(c, i, tick), u) && SameContent(c, Touch(c, i, tick), u)
  {
    var e := Touch(c, i, tick);
    forall j | 0 <= j < NUM_BUFFERS ensures BufferOk(e.bufs[j], e.disk, u) { assert BufferOk(c.bufs[j], c.disk, u); }
    forall j, k | 0 <= j < NUM_BUFFERS && 0 <= k < NUM_BUFFERS && j != k ensures Apart(e.bufs[j], e.bufs[k]) {
      assert Apart(c.bufs[j], c.bufs[k]);
    }
    forall n | n in u ensures Content(e, n) == Content(c, n) { LookupSame(c.bufs, e.bufs, n); }
  }

  /** Loading an uncached block over a clean buffer changes what no client sees. */
  lemma LoadKeeps(c: Cache, u: set<nat>, n: nat, tick: nat, v: nat)
    requires Inv(c, u) && n in u && n < TWO32 && v < NUM_BUFFERS && (c.bufs[v].valid ==> !c.bufs[v].dirty)
    requires Lookup(c.bufs, n) == NUM_BUFFERS
    ensures Inv(Load(c, n, tick, v), u) && SameContent(c, Load(c, n, tick, v), u)
  {
    var e := Load(c, n, tick, v);
    forall j | 0 <= j < NUM_BUFFERS ensures BufferOk(e.bufs[j], e.disk, u) {
      assert BufferOk(c.bufs[j], c.disk, u);
    }
    forall j, k | 0 <= j < NUM_BUFFERS && 0 <= k < NUM_BUFFERS && j != k ensures Apart(e.bufs[j], e.bufs[k]) {
      assert Apart(c.bufs[j], c.bufs[k]) && !Holds(c.bufs[j], n) && !Holds(c.bufs[k], n);
    }
    forall m | m in u ensures Content(e, m) == Content(c, m) { LoadContent(c, u, n, tick, v, m); }
  }

  lemma LoadContent(c: Cache, u: set<nat>, n: nat, tick: nat, v: nat, m: nat)
    requires Inv(c, u) && n in u && m in u && n < TWO32 && m < TWO32
    requires v < NUM_BUFFERS && (c.bufs[v].valid ==> !c.bufs[v].dirty)
    requires Lookup(c.bufs, n) == NUM_BUFFERS
    ensures Content(Load(c, n, tick, v), m) == Content(c, m)
  {
    var e, k := Load(c, n, tick, v), Lookup(c.bufs, m);
    assert BufferOk(c.bufs[v], c.disk, u);
    if m == n {
      forall j | 0 <= j < NUM_BUFFERS && j != v ensures !Holds(e.bufs[j], n) { assert !Holds(c.bufs[j], n); }
      assert Holds(e.bufs[v], n);
    } else if k == v {
      forall j | 0 <= j < NUM_BUFFERS && j != v ensures !Holds(e.bufs[j], m) { assert Apart(c.bufs[j], c.bufs[v]); }
      assert Lookup(e.bufs, m) == NUM_BUFFERS;
    } else {
      if k < NUM_BUFFERS { assert Apart(c.bufs[k], c.bufs[v]); }
      LookupSame(c.bufs, e.bufs, m);
    }
  }

  /** block_get changes no content, whichever buffer it evicts, and returns the content of the block. */
  lemma GetKeeps(c: Cache, u: set<nat>, n: nat, tick: nat, v: nat)
    requires Inv(c, u) && n in u && v < NUM_BUFFERS
    ensures n < TWO32 && Fits(c.bufs[v])
    ensures var e := Get(c, n, tick, v);
            Inv(e, u) && SameContent(c, e, u) && Holds(e.bufs[e.recent], n)
            && e.bufs[e.recent].block.Strip() == Content(c, n)
  {
    assert BufferOk(c.bufs[v], c.disk, u);
    var i := Lookup(c.bufs, n);
    if i < NUM_BUFFERS {
      TouchKeeps(c, u, i, tick);
    } else {
      WriteBufferKeeps(c, u, v);
      var w := WriteBuffer(c, v);
      LookupSame(c.bufs, w.bufs, n);
      LoadKeeps(w, u, n, tick, v);
      LookupHeld(Load(w, n, tick, v), u, v, n);
    }
  }

  /** Editing the block just fetched and updating changes the content of that block only. */
  lemma EditKeeps(c: Cache, u: set<nat>, n: nat, b: Block)
    requires Inv(c, u) && n in u && Holds(c.bufs[c.recent], n) && b.Sized()
    ensures var e := EditAndUpdate(c, b);
            Inv(e, u) && forall m :: m in u ==> Content(e, m) == if m == n then b.Strip() else Content(c, m)
  {
    var e := EditAndUpdate(c, b);
    forall j | 0 <= j < NUM_BUFFERS ensures BufferOk(e.bufs[j], e.disk, u) { assert BufferOk(c.bufs[j], c.disk, u); }
    forall j, k | 0 <= j < NUM_BUFFERS && 0 <= k < NUM_BUFFERS && j != k ensures Apart(e.bufs[j], e.bufs[k]) {
      assert Apart(c.bufs[j], c.bufs[k]);
    }
    forall m | m in u ensures Content(e, m) == if m == n then b.Strip() else Content(c, m) {
      LookupSame(c.bufs, e.bufs, m);
      LookupHeld(c, u, c.recent, n);
    }
  }

  lemma FitsAll(c: Cache, u: set<nat>)
    requires Inv(c, u)
    ensures forall i :: 0 <= i < |c.bufs| ==> Fits(c.bufs[i])
  {
    forall i | 0 <= i < |c.bufs| ensures Fits(c.bufs[i]) { assert BufferOk(c.bufs[i], c.disk, u); }
  }

  lemma {:induction false} FlushKeeps(c: Cache, u: set<nat>, k: nat)
    requires Inv(c, u) && k <= NUM_BUFFERS && forall i :: 0 <= i < |c.bufs| ==> Fits(c.bufs[i])
    ensures var e := FlushTo(c, k);
            Inv(e, u) && SameContent(c, e, u) && forall i :: 0 <= i < k && e.bufs[i].valid ==> !e.bufs[i].dirty
  {
    hide WriteBuffer, Content, BufferOk, Apart, AliasFree;
    if k > 0 {
      FlushKeeps(c, u, k - 1);
      WriteBufferKeeps(FlushTo(c, k - 1), u, k - 1);
    }
  }

  /** After block_flush the disk itself holds every content. */
  lemma FlushReachesDisk(c: Cache, u: set<nat>, n: nat)
    requires Inv(c, u) && n in u && n < TWO32
    ensures forall i :: 0 <= i < |c.bufs| ==> Fits(c.bufs[i])
    ensures DiskBlock(FlushTo(c, NUM_BUFFERS).disk, n).Strip() == Content(c, n)
  {
    FitsAll(c, u);
    FlushKeeps(c, u, NUM_BUFFERS);
    var e := FlushTo(c, NUM_BUFFERS);
    var i := Lookup(e.bufs, n);
    if i < NUM_BUFFERS { assert BufferOk(e.bufs[i], e.disk, u); }
  }

  // ----- whole runs against a plain map -----

  /** A disciplined client: fetch a block; fetch it, overwrite it and update; or flush. */
  datatype Op = Fetch(n: nat, tick: nat, victim: nat) | Store(n: nat, tick: nat, victim: nat, block: Block) | Flush

  ghost predicate Allowed(op: Op, u: set<nat>) {
    match op
    case Fetch(n, _, v) => n in u && v < NUM_BUFFERS
    case Store(n, _, v, b) => n in u && v < NUM_BUFFERS && b.Sized()
    case Flush => true
  }

  ghost function Step(c: Cache, op: Op, u: set<nat>): (e: Cache)
    requires Inv(c, u) && Allowed(op, u)
    ensures Inv(e, u)
  {
    match op
    case Fetch(n, tick, v) => GetKeeps(c, u, n, tick, v); Get(c, n, tick, v)
    case Store(n, tick, v, b) =>
      GetKeeps(c, u, n, tick, v);
      EditKeeps(Get(c, n, tick, v), u, n, b);
      EditAndUpdate(Get(c, n, tick, v), b)
    case Flush => FitsAll(c, u); FlushKeeps(c, u, NUM_BUFFERS); FlushTo(c, NUM_BUFFERS)
  }

  ghost function Run(c: Cache, ops: seq<Op>, u: set<nat>): (e: Cache)
    requires Inv(c, u) && forall op :: op in ops ==> Allowed(op, u)
    ensures Inv(e, u)
    decreases |ops|
  {
    if ops == [] then c else Run(Step(c, ops[0], u), ops[1..], u)
  }

  /** The blocks a client sees returned by its fetches. */
  ghost function Fetched(c: Cache, ops: seq<Op>, u: set<nat>): seq<Block>
    requires Inv(c, u) && forall op :: op in ops ==> Allowed(op, u)
    decreases |ops|
  {
    if ops == [] then []
    else
      var e := Step(c, ops[0], u);
      (if ops[0].Fetch? then [e.bufs[e.recent].block.Strip()] else []) + Fetched(e, ops[1..], u)
  }

  /** The plain map and what fetches from it return. */
  type BlockMap = map<nat, Block>

  function MapStep(m: BlockMap, op: Op): BlockMap { if op.Store? then m[op.n := op.block.Strip()] else m }

  function MapRun(m: BlockMap, ops: seq<Op>): BlockMap
    decreases |ops|
  {
    if ops == [] then m else MapRun(MapStep(m, ops[0]), ops[1..])
  }

  function MapFetched(m: BlockMap, ops: seq<Op>): seq<Block>
    decreases |ops|
  {
    if ops == [] then []
    else (if ops[0].Fetch? && ops[0].n in m then [m[ops[0].n]] else []) + MapFetched(MapStep(m, ops[0]), ops[1..])
  }

  ghost function View(c: Cache, u: set<nat>): BlockMap
    requires Inv(c, u)
  {
    map n | n in u :: Content(c, n)
  }

  lemma StepRefines(c: Cache, op: Op, u: set<nat>)
    requires Inv(c, u) && Allowed(op, u)
    ensures View(Step(c, op, u), u) == MapStep(View(c, u), op)
    ensures op.Fetch? ==> var e := Step(c, op, u); e.bufs[e.recent].block.Strip() == View(c, u)[op.n]
  {
    hide Get, EditAndUpdate, FlushTo, Content, BufferOk, Apart;
    match op
    case Fetch(n, tick, v) => GetKeeps(c, u, n, tick, v);
    case Store(n, tick, v, b) =>
      GetKeeps(c, u, n, tick, v);
      EditKeeps(Get(c, n, tick, v), u, n, b);
    case Flush => FitsAll(c, u); FlushKeeps(c, u, NUM_BUFFERS);
  }

  /** Transparency: every run over alias-free block numbers, for every eviction order and every clock,
      returns what the plain map returns and ends in the map's contents. */
  lemma {:induction false} Transparent(c: Cache, ops: seq<Op>, u: set<nat>)
    requires Inv(c, u) && forall op :: op in ops ==> Allowed(op, u)
    ensures View(Run(c, ops, u), u) == MapRun(View(c, u), ops)
    ensures Fetched(c, ops, u) == MapFetched(View(c, u), ops)
    decreases |ops|
  {
    if ops != [] {
      StepRefines(c, ops[0], u);
      Transparent(Step(c, ops[0], u), ops[1..], u);
    }
  }

  /** block_init: every buffer invalid.  Nothing is lost if the buffers were clean. */
  lemma InitInv(c: Cache, u: set<nat>)
    requires |c.bufs| == NUM_BUFFERS && c.recent < NUM_BUFFERS && DiskShape(c.disk) && AliasFree(u)
    requires forall i :: 0 <= i < NUM_BUFFERS ==> !c.bufs[i].valid
    ensures Inv(c, u) && forall n :: n in u && n < TWO32 ==> Content(c, n) == DiskBlock(c.disk, n).Strip()
  {
    forall i | 0 <= i < NUM_BUFFERS ensures BufferOk(c.bufs[i], c.disk, u) {}
    forall i, j | 0 <= i < NUM_BUFFERS && 0 <= j < NUM_BUFFERS && i != j ensures Apart(c.bufs[i], c.bufs[j]) {}
  }

  /** All block numbers below 2^27 are alias-free together, and so are all below 2^27 - 512,
      which moreover keep clear of the sectors before the first block. */
  lemma LowNumbersAliasFree(u: set<nat>)
    requires forall n :: n in u ==> n < TWO27
    ensures AliasFree(u)
    ensures forall n :: n in u && n < TWO27 - 512 ==> Sector(n) == DISK_OFFSET + 2 * n
  {
    forall n, m | n in u && m in u && Alias(n, m) ensures n == m {
      assert n % TWO27 == n && m % TWO27 == m;
    }
    forall n | n in u && n < TWO27 - 512 ensures Sector(n) == DISK_OFFSET + 2 * n {
      SectorValue(n);
    }
  }

  /** Without that, transparency fails: storing one of two aliases and flushing changes the other. */
  lemma AliasesClash(c: Cache, n: nat, m: nat, b: Block, tick: nat)
    requires |c.bufs| == NUM_BUFFERS && DiskShape(c.disk) && forall i :: 0 <= i < NUM_BUFFERS ==> !c.bufs[i].valid
    requires n < TWO32 && m < TWO32 && n != m && Alias(n, m) && b.Sized()
    ensures var stored := EditAndUpdate(Get(c, n, tick, 0), b);
            var flushed := WriteBuffer(stored, 0);
            var e := Get(flushed, m, tick, 1);
            e.bufs[e.recent].block.Strip() == b.Strip() && Content(c, m) == DiskBlock(c.disk, m).Strip()
  {
    assert Lookup(c.bufs, n) == NUM_BUFFERS && Lookup(c.bufs, m) == NUM_BUFFERS;
    var stored := EditAndUpdate(Get(c, n, tick, 0), b);
    assert stored.bufs[0] == Buffer(n, true, true, tick, b);
    var flushed := WriteBuffer(stored, 0);
    ReadWritten(c.disk, n, WithCrc(b), m);
    assert forall i :: 1 <= i < NUM_BUFFERS ==> !flushed.bufs[i].valid;
    assert Lookup(flushed.bufs, m) == NUM_BUFFERS;
  }

  // ----- the checksum on load -----

  /** The test after a load: warn unless the stored crc is zero or right. */
  predicate Warns(b: Block) { b.crc != 0 && b.crc != Crc32(b.data) }

  /** Writing a dirty buffer back stores its block with the checksum of its data, and in no other block. */
  lemma WriteBufferSeals(c: Cache, i: nat, m: nat)
    requires i < |c.bufs| && Fits(c.bufs[i]) && DiskShape(c.disk) && c.bufs[i].valid && c.bufs[i].dirty && m < TWO32
    ensures var b, e := c.bufs[i], WriteBuffer(c, i);
            && DiskBlock(e.disk, m) ==
                 (if Alias(b.num, m) then b.block.(crc := Crc32(b.block.data)) else DiskBlock(c.disk, m))
            && e.bufs[i] == b.(block := b.block.(crc := Crc32(b.block.data)), dirty := false)
  {
    hide Encode, Decode, DiskBlock, WriteBlock, Alias, Crc32;
    ReadWritten(c.disk, c.bufs[i].num, WithCrc(c.bufs[i].block), m);
  }

  /** block_flush, up to buffer k, has not touched the later buffers. */
  lemma {:induction false} FlushAhead(c: Cache, k: nat, j: nat)
    requires k <= j < |c.bufs| && DiskShape(c.disk) && forall i :: 0 <= i < |c.bufs| ==> Fits(c.bufs[i])
    ensures FlushTo(c, k).bufs[j] == c.bufs[j]
  {
    hide WriteBuffer, Fits;
    if k > 0 { FlushAhead(c, k - 1, j); }
  }

  /** What block_flush leaves on the disk: the dirty blocks, each with the checksum of its data, and every other
      block as it was. */
  lemma {:induction false} FlushSeals(c: Cache, u: set<nat>, k: nat, n: nat)
    requires Inv(c, u) && k <= NUM_BUFFERS && n in u && n < TWO32
    requires forall i :: 0 <= i < |c.bufs| ==> Fits(c.bufs[i])
    ensures var i := Lookup(c.bufs, n);
            DiskBlock(FlushTo(c, k).disk, n) ==
              if i < k && c.bufs[i].dirty then c.bufs[i].block.(crc := Crc32(c.bufs[i].block.data))
              else DiskBlock(c.disk, n)
  {
    hide WriteBuffer, DiskBlock, Crc32, Alias, AliasFree, Apart;
    if k > 0 {
      FlushSeals(c, u, k - 1, n);
      FlushKeeps(c, u, k - 1);
      FlushAhead(c, k - 1, k - 1);
      var e, b := FlushTo(c, k - 1), c.bufs[k - 1];
      assert BufferOk(b, c.disk, u);
      if b.valid && b.dirty {
        WriteBufferSeals(e, k - 1, n);
        OneOfAliases(u, b.num, n);
        if b.num == n { LookupHeld(c, u, k - 1, n); }
      } else {
        NothingToWrite(e, k - 1);
      }
    }
  }

  lemma OneOfAliases(u: set<nat>, n: nat, m: nat)
    requires AliasFree(u) && n in u && m in u
    ensures Alias(n, m) <==> n == m
  {
  }

  lemma NothingToWrite(c: Cache, i: nat)
    requires i < |c.bufs| && Fits(c.bufs[i]) && DiskShape(c.disk) && !(c.bufs[i].valid && c.bufs[i].dirty)
    ensures WriteBuffer(c, i) == c
  {
  }

  /** A block written back loads without a warning.  If afterwards its data on the disk changes inside one window
      of four bytes, the load warns exactly when the checksum of the data that was written is not zero. */
  lemma CorruptionIsFlagged(c: Cache, i: nat, d: Disk, j: nat)
    requires i < |c.bufs| && Fits(c.bufs[i]) && DiskShape(c.disk) && c.bufs[i].valid && c.bufs[i].dirty
    requires DiskShape(d)
    ensures var n := c.bufs[i].num;
            var w, x := DiskBlock(WriteBuffer(c, i).disk, n), DiskBlock(d, n);
            && w.data == c.bufs[i].block.data && !Warns(w)
            && (x.crc == w.crc && BurstAt(w.data, x.data, j) && j < DATA_SIZE && x.data != w.data ==>
                  (Warns(x) <==> Crc32(c.bufs[i].block.data) != 0))
  {
    hide DiskBlock, WriteBuffer, Crc32;
    var n := c.bufs[i].num;
    WriteBufferSeals(c, i, n);
    var w, x := DiskBlock(WriteBuffer(c, i).disk, n), DiskBlock(d, n);
    if BurstAt(w.data, x.data, j) && j < DATA_SIZE && x.data != w.data { BurstDetected(w.data, x.data, j); }
  }

  // ----- loads do not warn of what the cache itself has written -----

  /** No block of u would raise the warning. */
  ghost predicate Quiet(d: Disk, u: set<nat>)
    requires DiskShape(d)
  {
    forall n :: n in u && n < TWO32 ==> !Warns(DiskBlock(d, n))
  }

  lemma WriteBufferQuiet(c: Cache, u: set<nat>, i: nat)
    requires i < |c.bufs| && Fits(c.bufs[i]) && DiskShape(c.disk) && Quiet(c.disk, u)
    ensures Quiet(WriteBuffer(c, i).disk, u)
  {
    hide DiskBlock, WriteBuffer, Crc32;
    if c.bufs[i].valid && c.bufs[i].dirty {
      forall n | n in u && n < TWO32 ensures !Warns(DiskBlock(WriteBuffer(c, i).disk, n)) { WriteBufferSeals(c, i, n); }
    } else {
      NothingToWrite(c, i);
    }
  }

  lemma {:induction false} FlushQuiet(c: Cache, u: set<nat>, k: nat)
    requires k <= |c.bufs| && DiskShape(c.disk) && Quiet(c.disk, u)
    requires forall i :: 0 <= i < |c.bufs| ==> Fits(c.bufs[i])
    ensures Quiet(FlushTo(c, k).disk, u)
  {
    hide WriteBuffer, Quiet;
    if k > 0 {
      FlushQuiet(c, u, k - 1);
      WriteBufferQuiet(FlushTo(c, k - 1), u, k - 1);
    }
  }

  lemma StepQuiet(c: Cache, op: Op, u: set<nat>)
    requires Inv(c, u) && Allowed(op, u) && Quiet(c.disk, u)
    ensures Quiet(Step(c, op, u).disk, u)
  {
    hide WriteBuffer, Quiet, BufferOk, Apart, AliasFree;
    if op.Flush? {
      FitsAll(c, u);
      FlushQuiet(c, u, NUM_BUFFERS);
    } else {
      GetKeeps(c, u, op.n, op.tick, op.victim);
      WriteBufferQuiet(c, u, op.victim);
    }
  }

  lemma {:induction false} RunQuiet(c: Cache, ops: seq<Op>, u: set<nat>)
    requires Inv(c, u) && (forall op :: op in ops ==> Allowed(op, u)) && Quiet(c.disk, u)
    ensures Quiet(Run(c, ops, u).disk, u)
    decreases |ops|
  {
    hide Step, Quiet, Inv, Allowed;
    if ops != [] {
      StepQuiet(c, ops[0], u);
      RunQuiet(Step(c, ops[0], u), ops[1..], u);
    }
  }

  /** If no block on the disk would warn at first, no load after any run does: the cache writes no block that
      would. */
  lemma NoFalseAlarm(c: Cache, ops: seq<Op>, u: set<nat>, n: nat, tick: nat, v: nat)
    requires Inv(c, u) && (forall op :: op in ops ==> Allowed(op, u)) && Quiet(c.disk, u)
    requires n in u && n < TWO32 && v < NUM_BUFFERS
    ensures var e := Run(c, ops, u);
            Fits(e.bufs[v]) && (Lookup(e.bufs, n) == NUM_BUFFERS ==>
              var g := Get(e, n, tick, v); !Warns(g.bufs[g.recent].block))
  {
    hide WriteBuffer, BufferOk, Apart, AliasFree, Run, DiskBlock, Warns;
    var e := Run(c, ops, u);
    RunQuiet(c, ops, u);
    FitsAll(e, u);
    WriteBufferQuiet(e, u, v);
  }
}
