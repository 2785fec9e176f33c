/**
  kernel/scheduler/task.c as values: the ring of tasks in link order, and which one is current.
 */
module TaskRing {

  datatype TaskState = Running | Ready | Dead

  datatype Ring = Ring(states: seq<TaskState>, cur: nat)

  /** Only the current task can be Running, and it is Running unless it has exited. */
  ghost predicate Inv(r: Ring) {
    && r.cur < |r.states| && r.states[r.cur] != Ready
    && forall i :: 0 <= i < |r.states| && i != r.cur ==> r.states[i] != Running
  }

  /** The k-th task after the current one. */
  function After(r: Ring, k: nat): (i: nat)
    requires r.cur < |r.states|
    ensures i < |r.states|
  {
    (r.cur + k) % |r.states|
  }

  /** Steps to the first Ready task from the k-th one on, or to the current task again. */
  function Search(r: Ring, k: nat): (s: nat)
    requires r.cur < |r.states| && 1 <= k <= |r.states|
    ensures k <= s <= |r.states|
    ensures s < |r.states| ==> r.states[After(r, s)] == Ready
    ensures forall j :: k <= j < s ==> r.states[After(r, j)] != Ready
    decreases |r.states| - k
  {
    if k == |r.states| || r.states[After(r, k)] == Ready then k else Search(r, k + 1)
  }

  function Target(r: Ring): nat
    requires r.cur < |r.states|
  {
    After(r, Search(r, 1))
  }

  /** yield */
  function Yield(r: Ring): Ring
    requires r.cur < |r.states|
  {
    var next := Target(r);
    if next == r.cur then r
    else
      var s := if r.states[r.cur] == Running then r.states[r.cur := Ready] else r.states;
      Ring(s[next := Running], next)
  }

  function Kill(r: Ring): Ring
    requires r.cur < |r.states|
  {
    r.(states := r.states[r.cur := Dead])
  }

  datatype Op = YieldOp | ExitOp | CreateOp

  function Step(r: Ring, op: Op): (s: Ring)
    requires r.cur < |r.states|
    ensures s.cur < |s.states| && |s.states| == |r.states| + if op == CreateOp then 1 else 0
  {
    match op
    case YieldOp => Yield(r)
    case ExitOp => Yield(Kill(r))
    case CreateOp => r.(states := r.states + [Ready])
  }

  function Run(r: Ring, ops: seq<Op>): (s: Ring)
    requires r.cur < |r.states|
    ensures s.cur < |s.states| && |s.states| >= |r.states|
    decreases |ops|
  {
    if ops == [] then r else Run(Step(r, ops[0]), ops[1..])
  }

  lemma FullCircle(r: Ring)
    requires r.cur < |r.states|
    ensures After(r, |r.states|) == r.cur && After(r, 0) == r.cur
  {
    AfterValue(r, 0);
    AfterValue(r, |r.states|);
  }

  /** The k-th task after the current one is another one for 0 < k < n. */
  lemma AfterValue(r: Ring, k: nat)
    requires r.cur < |r.states| && k <= |r.states|
    ensures After(r, k) == if r.cur + k < |r.states| then r.cur + k else r.cur + k - |r.states|
  {
  }

  lemma AfterNext(r: Ring, k: nat)
    requires r.cur < |r.states| && k < |r.states|
    ensures After(r, k + 1) == if After(r, k) + 1 < |r.states| then After(r, k) + 1 else 0
  {
    AfterValue(r, k);
    AfterValue(r, k + 1);
  }

  lemma AfterElsewhere(r: Ring, k: nat)
    requires r.cur < |r.states| && 0 < k < |r.states|
    ensures After(r, k) != r.cur
  {
    AfterValue(r, k);
  }

  lemma StepKeepsInv(r: Ring, op: Op)
    requires Inv(r)
    ensures Inv(Step(r, op))
  {
    AfterValue(r, Search(r, 1));
    AfterValue(Kill(r), Search(Kill(r), 1));
  }

  /** Dead tasks stay dead, and one that is not current never becomes current again. */
  lemma {:induction false} DeadNeverRuns(r: Ring, ops: seq<Op>, t: nat)
    requires Inv(r) && t < |r.states| && r.states[t] == Dead && t != r.cur
    ensures Inv(Run(r, ops)) && Run(r, ops).states[t] == Dead && Run(r, ops).cur != t
    decreases |ops|
  {
    if ops != [] {
      StepKeepsInv(r, ops[0]);
      AfterValue(r, Search(r, 1));
      AfterValue(Kill(r), Search(Kill(r), 1));
      DeadNeverRuns(Step(r, ops[0]), ops[1..], t);
    }
  }

  // ----- fairness -----

  /** Links to follow from the current task to task t. */
  function Distance(r: Ring, t: nat): nat
    requires r.cur < |r.states| && t < |r.states|
  {
    if r.cur <= t then t - r.cur else t + |r.states| - r.cur
  }

  /** A switch either gives the processor to t or brings the current task closer to t. */
  lemma SwitchApproaches(r: Ring, op: Op, t: nat)
    requires Inv(r) && t < |r.states| && r.states[t] == Ready && op != CreateOp
    ensures var s := Step(r, op);
            Inv(s) && (s.cur == t || (s.states[t] == Ready && Distance(s, t) < Distance(r, t)))
  {
    var q := if op == ExitOp then Kill(r) else r;
    StepKeepsInv(r, op);
    var d := Distance(r, t);
    AfterValue(q, d);
    assert After(q, d) == t;
    var k := Search(q, 1);
    AfterValue(q, k);
    assert k <= d;
  }

  /** With no creation in between, a Ready task runs within as many switches as its ring distance. */
  lemma {:induction false} RunsWithinDistance(r: Ring, ops: seq<Op>, t: nat) returns (i: nat)
    requires Inv(r) && t < |r.states| && r.states[t] == Ready
    requires |ops| >= Distance(r, t) && CreateOp !in ops
    ensures 1 <= i <= Distance(r, t) && Run(r, ops[..i]).cur == t
    decreases |ops|
  {
    SwitchApproaches(r, ops[0], t);
    var s := Step(r, ops[0]);
    if s.cur == t {
      i := 1;
      assert ops[..1][1..] == [];
    } else {
      var j := RunsWithinDistance(s, ops[1..], t);
      i := j + 1;
      assert ops[..i][1..] == ops[1..][..j];
    }
  }
}
