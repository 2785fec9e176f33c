/** vm/stack/stack.c: stacks of 256 entries that drop a push when full and read 0 when empty. */
module Stacks {
  const STACK_SIZE := 256

  function Push<T>(s: seq<T>, v: T): (r: seq<T>)
    ensures |s| <= STACK_SIZE ==> |r| <= STACK_SIZE
  {
    if |s| >= STACK_SIZE then s else s + [v]
  }

  function Rest<T>(s: seq<T>): (r: seq<T>)
    ensures |r| <= |s|
  {
    if |s| == 0 then s else s[..|s| - 1]
  }

  /** The n-th entry from the top. */
  function Pick<T>(s: seq<T>, n: int, zero: T): T { if 0 <= n < |s| then s[|s| - 1 - n] else zero }

  function Peek<T>(s: seq<T>, zero: T): T { Pick(s, 0, zero) }

  /** What is pushed onto a stack that is not full comes back, and the stack with it. */
  lemma PopPushed<T>(s: seq<T>, v: T, zero: T)
    ensures (Rest(Push(s, v)) == s && Peek(Push(s, v), zero) == v) <==> |s| < 256
  {
    if |s| >= STACK_SIZE { assert |Rest(s)| < |s|; }
  }

  /** Entries are counted from the top, and what is not there reads 0. */
  lemma PickPushed<T>(s: seq<T>, v: T, n: nat, zero: T)
    requires |s| < 256
    ensures Pick(Push(s, v), 0, zero) == v && Pick(Push(s, v), n + 1, zero) == Pick(s, n, zero)
    ensures Pick([], n, zero) == zero && Pick(s, -1 - n, zero) == zero
  {
  }

  /** A full stack drops what is pushed; popping an empty one leaves it empty. */
  lemma FullAndEmpty<T>(s: seq<T>, v: T)
    ensures Push(s, v) == s <==> |s| >= 256
    ensures Rest(s) == s <==> s == []
  {
    if |s| < 256 { assert |Push(s, v)| == |s| + 1; }
    if s != [] { assert |Rest(s)| == |s| - 1; }
  }

  class BoundedStack<T> {
    const items: array<T>
    const zero: T
    var depth: nat

    constructor (zero: T)
      ensures Valid() && Contents() == [] && fresh(items) && this.zero == zero
    {
      items := new T[STACK_SIZE](_ => zero);
      this.zero := zero;
      depth := 0;
    }

    predicate Valid()
      reads this
    {
      depth <= items.Length == STACK_SIZE
    }

    function Contents(): seq<T>
      reads this, items
      requires Valid()
    {
      items[..depth]
    }

    method PushTop(v: T)
      requires Valid()
      modifies this, items
      ensures Valid() && Contents() == Push(old(Contents()), v)
    {
      if depth >= STACK_SIZE { return; }
      items[depth] := v;
      depth := depth + 1;
    }

    method PopTop() returns (v: T)
      requires Valid()
      modifies this
      ensures Valid() && Contents() == Rest(old(Contents())) && v == Peek(old(Contents()), zero)
    {
      if depth <= 0 { return zero; }
      depth := depth - 1;
      v := items[depth];
    }

    method PeekTop() returns (v: T)
      requires Valid()
      ensures v == Peek(Contents(), zero)
    {
      if depth <= 0 { return zero; }
      v := items[depth - 1];
    }

    method PickAt(n: int) returns (v: T)
      requires Valid()
      ensures v == Pick(Contents(), n, zero)
    {
      if n < 0 || n >= depth { return zero; }
      v := items[depth - 1 - n];
    }

    method Clear()
      requires Valid()
      modifies this
      ensures Valid() && Contents() == []
    {
      depth := 0;
    }
  }
}
