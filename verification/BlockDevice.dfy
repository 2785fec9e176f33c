/** fs/block_device.c: the cache functions as they update the buffers and the disk in place. */
module BlockDevice {
  import opened Crc
  import opened BlockCache
  import opened Width

  /** The buffer a miss reuses: the first invalid one, or else the first of the least recently used. */
  ghost predicate IsVictim(bufs: seq<Buffer>, v: nat) {
    && v < |bufs|
    && (bufs[v].valid ==> forall j :: 0 <= j < |bufs| ==> bufs[j].valid && bufs[v].lastUsed <= bufs[j].lastUsed)
    && (forall j :: 0 <= j < v ==> bufs[j].valid && (bufs[v].valid ==> bufs[v].lastUsed < bufs[j].lastUsed))
  }

  class Device {
    const buffers: array<Buffer>
    var mostRecent: nat
    var disk: Disk

    ghost predicate Valid()
      reads this, buffers
    {
      && buffers.Length == NUM_BUFFERS && mostRecent < NUM_BUFFERS && DiskShape(disk)
      && forall i :: 0 <= i < NUM_BUFFERS ==> Fits(buffers[i]) && buffers[i].lastUsed < TWO64
    }

    ghost function State(): Cache
      reads this, buffers
    {
      Cache(buffers[..], mostRecent, disk)
    }

    constructor (sectors: Disk)
      requires DiskShape(sectors)
      ensures Valid() && disk == sectors && fresh(buffers)
      ensures forall i :: 0 <= i < NUM_BUFFERS ==> !buffers[i].valid
    {
      buffers := new Buffer[NUM_BUFFERS](_ => Empty());
      mostRecent := 0;
      disk := sectors;
    }

    /** block_init: the buffers are cleared; most_recent_buffer and the disk are not touched. */
    method BlockInit()
      requires Valid()
      modifies buffers
      ensures Valid() && disk == old(disk) && mostRecent == old(mostRecent)
      ensures forall i :: 0 <= i < NUM_BUFFERS ==> !buffers[i].valid
    {
      var i := 0;
      while i < NUM_BUFFERS
        invariant i <= NUM_BUFFERS && Valid()
        invariant forall j :: 0 <= j < i ==> !buffers[j].valid
      {
        buffers[i] := Empty();
        i := i + 1;
      }
    }

    method WriteBufferToDisk(i: nat)
      requires Valid() && i < NUM_BUFFERS
      modifies this`disk, buffers
      ensures Valid() && State() == WriteBuffer(old(State()), i)
    {
      if !buffers[i].valid || !buffers[i].dirty { return; }
      var b := buffers[i];
      var crc := CalculateCrc32(b.block.data);
      var block := b.block.(crc := crc);
      DecodeEncode(block);
      ReadWritten(disk, b.num, block, b.num);
      var bytes, start := Encode(block), Sector(b.num);
      disk := disk[start := bytes[..512]];
      disk := disk[start + 1 := bytes[512..]];
      buffers[i] := b.(block := block, dirty := false);
    }

    /** block_get: the index of the buffer that now holds block n, and whether the load warned. */
    method BlockGet(n: nat, tick: nat) returns (i: nat, warned: bool, ghost v: nat)
      requires Valid() && n < TWO32 && tick < TWO64
      modifies this, buffers
      ensures Valid() && v < NUM_BUFFERS && State() == Get(old(State()), n, tick, v)
      ensures Lookup(old(buffers[..]), n) == NUM_BUFFERS ==> IsVictim(old(buffers[..]), v)
      ensures i == mostRecent && Holds(buffers[i], n)
      ensures warned <==> Lookup(old(buffers[..]), n) == NUM_BUFFERS && Warns(buffers[i].block)
    {
      i := 0;
      while i < NUM_BUFFERS
        invariant i <= NUM_BUFFERS
        invariant forall j :: 0 <= j < i ==> !Holds(buffers[j], n)
      {
        if buffers[i].valid && buffers[i].num == n {
          FoundAt(buffers[..], n, i);
          buffers[i] := buffers[i].(lastUsed := tick);
          mostRecent := i;
          return i, false, 0;
        }
        i := i + 1;
      }
      FoundAt(buffers[..], n, NUM_BUFFERS);
      var oldest := FindVictim();
      v := oldest;
      WriteBufferToDisk(oldest);
      SectorFacts(n, n);
      var block := Decode(disk[Sector(n)] + disk[Sector(n) + 1]);
      var expected := CalculateCrc32(block.data);
      warned := block.crc != 0 && block.crc != expected;
      buffers[oldest] := Buffer(n, false, true, tick, block);
      mostRecent := oldest;
      i := oldest;
    }

    /** The second loop of block_get. */
    method FindVictim() returns (oldest: nat)
      requires Valid()
      ensures IsVictim(buffers[..], oldest)
    {
      oldest := 0;
      var time := TWO64 - 1;
      var i := 0;
      while i < NUM_BUFFERS
        invariant i <= NUM_BUFFERS && oldest < NUM_BUFFERS && (oldest < i || oldest == 0)
        invariant forall j :: 0 <= j < i ==> buffers[j].valid && time <= buffers[j].lastUsed
        invariant time == buffers[oldest].lastUsed || (oldest == 0 && time == TWO64 - 1)
        invariant forall j :: 0 <= j < oldest ==> time < buffers[j].lastUsed
      {
        if !buffers[i].valid {
          oldest := i;
          return;
        }
        if buffers[i].lastUsed < time {
          time := buffers[i].lastUsed;
          oldest := i;
        }
        i := i + 1;
      }
    }

    /** The client writes through the pointer block_get returned last. */
    method Edit(block: Block)
      requires Valid() && block.Sized()
      modifies buffers
      ensures Valid()
      ensures var b := old(buffers[mostRecent]).(block := block);
              State() == old(State()).(bufs := old(buffers[..])[mostRecent := b])
    {
      buffers[mostRecent] := buffers[mostRecent].(block := block);
    }

    method BlockUpdate()
      requires Valid()
      modifies buffers
      ensures Valid()
      ensures var b := old(buffers[mostRecent]);
              State() == if b.valid then old(State()).(bufs := old(buffers[..])[mostRecent := b.(dirty := true)])
                         else old(State())
    {
      if buffers[mostRecent].valid {
        buffers[mostRecent] := buffers[mostRecent].(dirty := true);
      }
    }

    method BlockFlush()
      requires Valid()
      modifies this`disk, buffers
      ensures Valid() && State() == FlushTo(old(State()), NUM_BUFFERS)
    {
      var i := 0;
      while i < NUM_BUFFERS
        invariant i <= NUM_BUFFERS && Valid() && mostRecent == old(mostRecent)
        invariant State() == FlushTo(old(State()), i)
      {
        WriteBufferToDisk(i);
        i := i + 1;
      }
    }
  }

  function Empty(): Buffer { Buffer(0, false, false, 0, Block(0, 0, 0, 0, seq(DATA_SIZE, _ => 0))) }

  lemma FoundAt(bufs: seq<Buffer>, n: nat, i: nat)
    requires i <= |bufs| && (forall j :: 0 <= j < i ==> !Holds(bufs[j], n)) && (i < |bufs| ==> Holds(bufs[i], n))
    ensures Lookup(bufs, n) == i
  {
  }
}
