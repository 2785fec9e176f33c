/** fs/block_device.c: what the last_used fields are worth, over whole runs. */
module Lru {
  import opened BlockCache
  import opened BlockDevice
  import opened Width

  /** The place in the run of the latest operation that fetched block n, or -1. */
  function LastFetch(ops: seq<Op>, n: nat): (k: int)
    ensures -1 <= k < |ops| && (k >= 0 ==> !ops[k].Flush? && ops[k].n == n)
    ensures forall i :: k < i < |ops| ==> ops[i].Flush? || ops[i].n != n
  {
    if ops == [] then -1
    else if !ops[|ops| - 1].Flush? && ops[|ops| - 1].n == n then |ops| - 1
    else LastFetch(ops[..|ops| - 1], n)
  }

  /** The clock has moved between any two fetches. */
  ghost predicate Rising(ops: seq<Op>) {
    forall i, j :: 0 <= i < j < |ops| && !ops[i].Flush? && !ops[j].Flush? ==> ops[i].tick < ops[j].tick
  }

  /** The field of a valid buffer is the tick of the latest fetch of its block. */
  ghost predicate Stamped(b: Buffer, past: seq<Op>) {
    b.valid ==> var k := LastFetch(past, b.num); k >= 0 && b.lastUsed == past[k].tick
  }

  ghost predicate AllStamped(c: Cache, past: seq<Op>) { forall i :: 0 <= i < |c.bufs| ==> Stamped(c.bufs[i], past) }

  predicate SameStamp(b: Buffer, e: Buffer) { e.valid == b.valid && e.num == b.num && e.lastUsed == b.lastUsed }

  lemma LastAfter(past: seq<Op>, op: Op, n: nat)
    ensures LastFetch(past + [op], n) == if !op.Flush? && op.n == n then |past| else LastFetch(past, n)
  {
    assert (past + [op])[..|past|] == past;
  }

  lemma StampSame(b: Buffer, e: Buffer, past: seq<Op>)
    requires Stamped(b, past) && SameStamp(b, e)
    ensures Stamped(e, past)
  {
  }

  lemma StampKept(b: Buffer, e: Buffer, past: seq<Op>, op: Op)
    requires Stamped(b, past) && SameStamp(b, e)
    requires b.valid ==> op.Flush? || op.n != b.num
    ensures Stamped(e, past + [op])
  {
    if b.valid { LastAfter(past, op, b.num); }
  }

  lemma StampNew(e: Buffer, past: seq<Op>, op: Op)
    requires !op.Flush? && e.num == op.n && e.lastUsed == op.tick
    ensures Stamped(e, past + [op])
  {
    LastAfter(past, op, e.num);
  }

  /** Writing back alters neither the number nor the stamp of a buffer. */
  lemma WriteBufferStamps(c: Cache, i: nat, j: nat)
    requires i < |c.bufs| && j < |c.bufs| && Fits(c.bufs[i]) && DiskShape(c.disk)
    ensures SameStamp(c.bufs[j], WriteBuffer(c, i).bufs[j])
  {
  }

  lemma {:induction false} FlushStamps(c: Cache, k: nat, j: nat)
    requires k <= |c.bufs| && j < |c.bufs| && DiskShape(c.disk) && forall i :: 0 <= i < |c.bufs| ==> Fits(c.bufs[i])
    ensures SameStamp(c.bufs[j], FlushTo(c, k).bufs[j])
  {
    hide WriteBuffer, Fits;
    if k > 0 {
      FlushStamps(c, k - 1, j);
      WriteBufferStamps(FlushTo(c, k - 1), k - 1, j);
    }
  }

  lemma FetchStamps(c: Cache, op: Op, u: set<nat>, past: seq<Op>, j: nat)
    requires Inv(c, u) && !op.Flush? && Allowed(op, u) && AllStamped(c, past) && j < NUM_BUFFERS
    ensures op.n < TWO32 && Fits(c.bufs[op.victim])
    ensures var e := Get(c, op.n, op.tick, op.victim); |e.bufs| == NUM_BUFFERS && Stamped(e.bufs[j], past + [op])
  {
    hide WriteBuffer, DiskBlock;
    FitsAll(c, u);
    GetKeeps(c, u, op.n, op.tick, op.victim);
    var e := Get(c, op.n, op.tick, op.victim);
    if j == e.recent {
      StampNew(e.bufs[j], past, op);
    } else {
      WriteBufferStamps(c, op.victim, j);
      assert Apart(e.bufs[j], e.bufs[e.recent]);
      StampKept(c.bufs[j], e.bufs[j], past, op);
    }
  }

  lemma StepStamps(c: Cache, op: Op, u: set<nat>, past: seq<Op>)
    requires Inv(c, u) && Allowed(op, u) && AllStamped(c, past)
    ensures AllStamped(Step(c, op, u), past + [op])
  {
    hide Get, FlushTo, BufferOk, Apart, AliasFree, LastFetch;
    var e := Step(c, op, u);
    forall j | 0 <= j < |e.bufs| ensures Stamped(e.bufs[j], past + [op]) {
      if op.Flush? {
        FitsAll(c, u);
        FlushStamps(c, NUM_BUFFERS, j);
        StampKept(c.bufs[j], e.bufs[j], past, op);
      } else {
        FetchStamps(c, op, u, past, j);
        StampSame(Get(c, op.n, op.tick, op.victim).bufs[j], e.bufs[j], past + [op]);
      }
    }
  }

  lemma {:induction false} RunStamps(c: Cache, ops: seq<Op>, u: set<nat>, past: seq<Op>)
    requires Inv(c, u) && (forall op :: op in ops ==> Allowed(op, u)) && AllStamped(c, past)
    ensures AllStamped(Run(c, ops, u), past + ops)
    decreases |ops|
  {
    hide Step, AllStamped, Inv, Allowed;
    if ops == [] {
      assert past + ops == past;
    } else {
      StepStamps(c, ops[0], u, past);
      RunStamps(Step(c, ops[0], u), ops[1..], u, past + [ops[0]]);
      assert past + [ops[0]] + ops[1..] == past + ops;
    }
  }

  predicate Cached(c: Cache, m: nat) { exists i :: 0 <= i < |c.bufs| && Holds(c.bufs[i], m) }

  /** Least recently used: when every buffer is taken, the block that a miss drops, and it alone, is the one of the
      eight whose latest fetch lies farthest back in the run, if the clock moves between fetches. */
  lemma LeastRecentlyFetched(c: Cache, ops: seq<Op>, u: set<nat>, n: nat, tick: nat, v: nat)
    requires Inv(c, u) && (forall i :: 0 <= i < NUM_BUFFERS ==> !c.bufs[i].valid)
    requires (forall op :: op in ops ==> Allowed(op, u)) && Rising(ops) && n in u && n < TWO32
    requires var e := Run(c, ops, u); IsVictim(e.bufs, v) && e.bufs[v].valid && !Cached(e, n)
    ensures var e := Run(c, ops, u); var d := e.bufs[v].num;
            && Fits(e.bufs[v]) && LastFetch(ops, d) >= 0
            && (forall m :: Cached(Get(e, n, tick, v), m) <==> m == n || (Cached(e, m) && m != d))
            && (forall m :: Cached(e, m) && m != d ==> LastFetch(ops, d) < LastFetch(ops, m))
  {
    hide Run, Get, Rising, BufferOk, Apart, AliasFree, LastFetch;
    var e := Run(c, ops, u);
    RunStamps(c, ops, u, []);
    assert [] + ops == ops;
    FitsAll(e, u);
    MissReplaces(e, u, n, tick, v);
    assert Stamped(e.bufs[v], ops);
    forall m | Cached(e, m) && m != e.bufs[v].num ensures LastFetch(ops, e.bufs[v].num) < LastFetch(ops, m) {
      var j :| 0 <= j < |e.bufs| && Holds(e.bufs[j], m);
      OlderStamp(e.bufs[v], e.bufs[j], ops);
    }
  }

  lemma OlderStamp(b: Buffer, e: Buffer, ops: seq<Op>)
    requires Stamped(b, ops) && Stamped(e, ops) && b.valid && e.valid && b.num != e.num && Rising(ops)
    requires b.lastUsed <= e.lastUsed
    ensures LastFetch(ops, b.num) < LastFetch(ops, e.num)
  {
  }

  lemma MissReplaces(c: Cache, u: set<nat>, n: nat, tick: nat, v: nat)
    requires Inv(c, u) && n in u && n < TWO32 && v < NUM_BUFFERS && Fits(c.bufs[v]) && !Cached(c, n) && c.bufs[v].valid
    ensures forall m :: Cached(Get(c, n, tick, v), m) <==> m == n || (Cached(c, m) && m != c.bufs[v].num)
  {
    hide WriteBuffer, DiskBlock;
    var e := Get(c, n, tick, v);
    assert Lookup(c.bufs, n) == NUM_BUFFERS;
    forall j | 0 <= j < NUM_BUFFERS ensures SameStamp(c.bufs[j], WriteBuffer(c, v).bufs[j]) {
      WriteBufferStamps(c, v, j);
    }
    forall m ensures Cached(e, m) <==> m == n || (Cached(c, m) && m != c.bufs[v].num) {
      assert Holds(e.bufs[v], n);
      forall j | 0 <= j < NUM_BUFFERS && j != v
        ensures Holds(e.bufs[j], m) <==> Holds(c.bufs[j], m) && m != c.bufs[v].num
      {
        assert Apart(c.bufs[j], c.bufs[v]);
      }
    }
  }
}
