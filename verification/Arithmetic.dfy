/**
  vm/core/forth.c, lines 202-231: what the arithmetic, logic and comparison words leave on the stack, in terms of
  integers and of the bits of their 64-bit words.
 */
module Arithmetic {
  import opened Numbers
  import opened Stacks
  import opened ForthWords
  import opened Width
  import W = Words

  /** The word replaces the operands on top of any stack by the results. */
  ghost predicate Leaves(op: Op, operands: seq<I64>, results: seq<I64>) {
    forall s: seq<I64> :: |s| + |operands| <= STACK_SIZE && |s| + |results| <= STACK_SIZE ==>
      Apply(op, s + operands) == Some(s + results)
  }

  lemma OneLeaves(op: Op, a: I64)
    requires OneOperand(op)
    ensures Leaves(op, [a], [Unary(op, a)])
  {
    forall s: seq<I64> | |s| + 1 <= STACK_SIZE ensures Apply(op, s + [a]) == Some(s + [Unary(op, a)]) {
      PopTwo(s[..0], a, a);
      assert Rest(s + [a]) == s;
    }
  }

  lemma TwoLeave(op: Op, a: I64, b: I64)
    requires !Shuffles(op) && !Divides(op) && !OneOperand(op)
    ensures Leaves(op, [a, b], [Binary(op, a, b)])
  {
    forall s: seq<I64> | |s| + 2 <= STACK_SIZE ensures Apply(op, s + [a, b]) == Some(s + [Binary(op, a, b)]) {
      PopTwo(s, a, b);
    }
  }

  // ----- sums, differences and products -----

  /** r is what a 64-bit machine keeps of the integer v, and v itself if that fits. */
  predicate Keeps(r: I64, v: int) { (r - v) % TWO64 == 0 && (-TWO63 <= v < TWO63 ==> r == v) }

  lemma Sum(a: I64, b: I64) returns (r: I64)
    ensures Leaves(Plus, [a, b], [r]) && Keeps(r, a + b)
  {
    hide Leaves, Wrap, Bits, FromBits;
    r := Binary(Plus, a, b);
    TwoLeave(Plus, a, b);
    WrapCongruent(a + b);
  }

  /** Congruent words are equal. */
  lemma SameWord(x: I64, y: I64)
    requires (x - y) % TWO64 == 0
    ensures x == y
  {
  }

  lemma Difference(a: I64, b: I64) returns (r: I64)
    ensures Leaves(Minus, [a, b], [r]) && Keeps(r, a - b)
    // + undoes -
    ensures Leaves(Plus, [r, b], [a])
  {
    hide Leaves, Wrap, Bits, FromBits;
    r := Binary(Minus, a, b);
    TwoLeave(Minus, a, b);
    WrapCongruent(a - b);
    TwoLeave(Plus, r, b);
    WrapCongruent(r + b);
    SameWord(Binary(Plus, r, b), a);
  }

  lemma Product(a: I64, b: I64) returns (r: I64)
    ensures Leaves(Mul, [a, b], [r]) && Keeps(r, a * b)
  {
    hide Leaves, Wrap, Bits, FromBits;
    r := Binary(Mul, a, b);
    TwoLeave(Mul, a, b);
    WrapCongruent(a * b);
  }

  /** NEGATE, ABS, 1+, 1- and 2* */
  lemma Signs(a: I64) returns (n: I64, m: I64)
    ensures Leaves(Negate, [a], [n]) && Keeps(n, -(a as int))
    ensures Leaves(Abs, [a], [m]) && Keeps(m, if a < 0 then -(a as int) else a)
  {
    hide Leaves, Wrap, Bits, FromBits;
    n, m := Unary(Negate, a), Unary(Abs, a);
    OneLeaves(Negate, a);
    OneLeaves(Abs, a);
    WrapCongruent(-(a as int));
    WrapCongruent(if a < 0 then -(a as int) else a);
  }

  lemma StepsAndDouble(a: I64) returns (p: I64, m: I64, d: I64)
    ensures Leaves(OnePlus, [a], [p]) && Keeps(p, a + 1)
    ensures Leaves(OneMinus, [a], [m]) && Keeps(m, a - 1)
    ensures Leaves(TwoStar, [a], [d]) && Keeps(d, 2 * a)
  {
    hide Leaves, Wrap, Bits, FromBits;
    p, m, d := Unary(OnePlus, a), Unary(OneMinus, a), Unary(TwoStar, a);
    OneLeaves(OnePlus, a);
    OneLeaves(OneMinus, a);
    OneLeaves(TwoStar, a);
    WrapCongruent(a + 1);
    WrapCongruent(a - 1);
    WrapCongruent(2 * a);
  }

  /** 2/ rounds down. */
  lemma HalfDown(a: I64) returns (h: I64)
    ensures Leaves(TwoSlash, [a], [h]) && 2 * h <= a <= 2 * h + 1
  {
    hide Leaves, Bits, FromBits;
    h := Unary(TwoSlash, a);
    OneLeaves(TwoSlash, a);
  }

  // ----- comparisons -----

  /** All ones for true, 0 for false. */
  function Truth(b: bool): I64 { if b then -1 else 0 }

  lemma Equality(a: I64, b: I64)
    ensures Leaves(Eq, [a, b], [Truth(a == b)]) && Leaves(Neq, [a, b], [Truth(a != b)])
  {
    hide Leaves, Bits, FromBits, Wrap;
    TwoLeave(Eq, a, b);
    TwoLeave(Neq, a, b);
  }

  lemma Order(a: I64, b: I64)
    ensures Leaves(Lt, [a, b], [Truth(a < b)]) && Leaves(Gt, [a, b], [Truth(a > b)])
  {
    hide Leaves, Bits, FromBits, Wrap;
    TwoLeave(Lt, a, b);
    TwoLeave(Gt, a, b);
  }

  lemma WeakOrder(a: I64, b: I64)
    ensures Leaves(Le, [a, b], [Truth(a <= b)]) && Leaves(Ge, [a, b], [Truth(a >= b)])
  {
    hide Leaves, Bits, FromBits, Wrap;
    TwoLeave(Le, a, b);
    TwoLeave(Ge, a, b);
  }

  lemma ComparesWithZero(a: I64)
    ensures Leaves(ZeroEq, [a], [Truth(a == 0)]) && Leaves(ZeroLt, [a], [Truth(a < 0)])
    ensures Leaves(ZeroGt, [a], [Truth(a > 0)])
  {
    hide Leaves, Bits, FromBits;
    OneLeaves(ZeroEq, a);
    OneLeaves(ZeroLt, a);
    OneLeaves(ZeroGt, a);
  }

  lemma Extremes(a: I64, b: I64) returns (low: I64, high: I64)
    ensures Leaves(Min, [a, b], [low]) && low in {a, b} && low <= a && low <= b
    ensures Leaves(Max, [a, b], [high]) && high in {a, b} && high >= a && high >= b
  {
    hide Leaves, Bits, FromBits;
    low, high := Binary(Min, a, b), Binary(Max, a, b);
    TwoLeave(Min, a, b);
    TwoLeave(Max, a, b);
  }

  // ----- logic and shifts -----

  /** Bit i of the 64-bit word. */
  predicate BitOf(v: I64, i: nat) { W.BitAt(Unsigned(v), i) }

  lemma BitsRead(v: I64)
    ensures W.Nat(Bits(v)) == Unsigned(v)
  {
  }

  lemma BitsWritten(b: bv64)
    ensures Unsigned(FromBits(b)) == W.Nat(b)
  {
    hide W.Nat;
  }

  lemma Conjunction(a: I64, b: I64) returns (r: I64)
    ensures Leaves(And, [a, b], [r]) && forall i: nat :: BitOf(r, i) <==> BitOf(a, i) && BitOf(b, i)
  {
    hide Leaves, Bits, FromBits, W.Nat, W.And, W.BitAt, Unsigned;
    r := Binary(And, a, b);
    TwoLeave(And, a, b);
    BitsRead(a);
    BitsRead(b);
    BitsWritten(W.And(Bits(a), Bits(b)));
    forall i: nat ensures BitOf(r, i) <==> BitOf(a, i) && BitOf(b, i) { W.BitsOfAnd(Bits(a), Bits(b), i); }
  }

  lemma Disjunction(a: I64, b: I64) returns (r: I64)
    ensures Leaves(Or, [a, b], [r]) && forall i: nat :: BitOf(r, i) <==> BitOf(a, i) || BitOf(b, i)
  {
    hide Leaves, Bits, FromBits, W.Nat, W.Or, W.BitAt, Unsigned;
    r := Binary(Or, a, b);
    TwoLeave(Or, a, b);
    BitsRead(a);
    BitsRead(b);
    BitsWritten(W.Or(Bits(a), Bits(b)));
    forall i: nat ensures BitOf(r, i) <==> BitOf(a, i) || BitOf(b, i) { W.BitsOfOr(Bits(a), Bits(b), i); }
  }

  lemma ExclusiveOr(a: I64, b: I64) returns (r: I64)
    ensures Leaves(Xor, [a, b], [r]) && forall i: nat :: BitOf(r, i) <==> BitOf(a, i) != BitOf(b, i)
  {
    hide Leaves, Bits, FromBits, W.Nat, W.Xor, W.BitAt, Unsigned;
    r := Binary(Xor, a, b);
    TwoLeave(Xor, a, b);
    BitsRead(a);
    BitsRead(b);
    BitsWritten(W.Xor(Bits(a), Bits(b)));
    forall i: nat ensures BitOf(r, i) <==> BitOf(a, i) != BitOf(b, i) { W.BitsOfXor(Bits(a), Bits(b), i); }
  }

  lemma Inverts(a: I64) returns (r: I64)
    ensures Leaves(Invert, [a], [r]) && forall i: nat :: i < 64 ==> (BitOf(r, i) <==> !BitOf(a, i))
  {
    hide Leaves, Bits, FromBits, W.BitAt;
    r := Unary(Invert, a);
    OneLeaves(Invert, a);
    W.Pow64();
    ComplementOf(a);
    forall i: nat | i < 64 ensures BitOf(r, i) <==> !BitOf(a, i) { W.ComplementBits(64, Unsigned(a), i); }
  }

  lemma ComplementOf(a: I64)
    ensures Unsigned(Wrap(-1 - a)) == TWO64 - 1 - Unsigned(a)
  {
  }

  /** The shifts, for counts below 64; the left one loses what leaves the word, the right one fills with zeros. */
  lemma Shifts(a: I64, n: I64) returns (l: I64, r: I64)
    requires 0 <= n < 64
    ensures Pow(2, n) > 0
    ensures Leaves(LShift, [a, n], [l]) && (l - a * Pow(2, n)) % TWO64 == 0
    ensures Leaves(RShift, [a, n], [r]) && Unsigned(r) == Unsigned(a) / Pow(2, n)
  {
    hide Leaves, Bits, FromBits, W.Nat, W.ShiftLeft, W.ShiftRight, Pow, Unsigned;
    l, r := Binary(LShift, a, n), Binary(RShift, a, n);
    TwoLeave(LShift, a, n);
    TwoLeave(RShift, a, n);
    BitsRead(a);
    BitsWritten(W.ShiftLeft(Bits(a), n));
    BitsWritten(W.ShiftRight(Bits(a), n));
    W.LeftIsTimes(Bits(a), n);
    W.RightIsQuotient(Bits(a), n);
    ShiftedSigned(a, l, Pow(2, n));
  }

  lemma ShiftedSigned(a: I64, l: I64, p: nat)
    requires Unsigned(l) == Unsigned(a) * p % TWO64
    ensures (l - a * p) % TWO64 == 0
  {
    var k := if a < 0 then p else 0;
    assert Unsigned(a) * p == a * p + k * TWO64;
    Multiples(Unsigned(a) * p, a * p, k, l);
  }

  lemma Multiples(x: int, y: int, k: int, l: I64)
    requires x == y + k * TWO64 && Unsigned(l) == x % TWO64
    ensures (l - y) % TWO64 == 0
  {
  }

  // ----- division -----

  /** Quotient and remainder of C: the dividend is made of them, the remainder is smaller than the divisor and has the
      sign of the dividend. */
  predicate Divided(a: int, b: int, q: int, r: int) {
    && a == b * q + r && (if b > 0 then -b < r < b else b < r < -b)
    && (a >= 0 ==> r >= 0) && (a <= 0 ==> r <= 0)
  }

  lemma Division(a: I64, b: I64) returns (q: I64, r: I64)
    requires b != 0 && !(a == -TWO63 && b == -1)
    ensures Divided(a, b, q, r) && Leaves(Div, [a, b], [q]) && Leaves(Mod, [a, b], [r])
    ensures Leaves(DivMod, [a, b], [r, q])
  {
    QuotientFits(a, b);
    RemainderFits(a, b);
    q, r := Quotient(a, b), Remainder(a, b);
    Truncated(a, b);
    hide Quotient;
    DivisionLeaves(a, b);
  }

  lemma DivisionLeaves(a: I64, b: I64)
    requires b != 0 && !(a == -TWO63 && b == -1)
    ensures -TWO63 <= Quotient(a, b) < TWO63 && -TWO63 <= Remainder(a, b) < TWO63
    ensures Leaves(Div, [a, b], [Quotient(a, b)]) && Leaves(Mod, [a, b], [Remainder(a, b)])
    ensures Leaves(DivMod, [a, b], [Remainder(a, b), Quotient(a, b)])
  {
    QuotientFits(a, b);
    RemainderFits(a, b);
    hide Quotient, Remainder;
    var q, r := Quotient(a, b), Remainder(a, b);
    forall s: seq<I64> | |s| + 2 <= STACK_SIZE
      ensures Apply(Div, s + [a, b]) == Some(s + [q]) && Apply(Mod, s + [a, b]) == Some(s + [r])
      ensures Apply(DivMod, s + [a, b]) == Some(s + [r, q])
    {
      PopTwo(s, a, b);
      PushTwo(s, r, q);
    }
  }

  /** By zero they leave zeros and the dividend. */
  lemma ByZero(a: I64)
    ensures Leaves(Div, [a, 0], [a, 0]) && Leaves(Mod, [a, 0], [a, 0]) && Leaves(DivMod, [a, 0], [a, 0, 0])
  {
    hide Quotient, Remainder, Shuffle, Unary, Binary, Divide;
    forall s: seq<I64> | |s| + 2 <= STACK_SIZE
      ensures Apply(Div, s + [a, 0]) == Some(s + [a, 0]) && Apply(Mod, s + [a, 0]) == Some(s + [a, 0])
    {
      DivideByZero(s, a);
    }
    forall s: seq<I64> | |s| + 3 <= STACK_SIZE ensures Apply(DivMod, s + [a, 0]) == Some(s + [a, 0, 0]) {
      DivideByZero(s, a);
    }
  }

  lemma DivideByZero(s: seq<I64>, a: I64)
    requires |s| + 2 <= STACK_SIZE
    ensures Divide(Div, s + [a, 0]) == Divide(Mod, s + [a, 0]) == Some(s + [a, 0])
    ensures |s| + 3 <= STACK_SIZE ==> Divide(DivMod, s + [a, 0]) == Some(s + [a, 0, 0])
  {
    hide Quotient, Remainder;
    PopTwo(s, a, 0);
    assert s + [a] + [0] == s + [a, 0] && s + [a, 0] + [0] == s + [a, 0, 0];
  }

  /** The one quotient that does not fit traps, and nothing else does. */
  lemma Trapped(op: Op, s: seq<I64>, a: I64, b: I64)
    requires |s| + 2 <= STACK_SIZE
    ensures Apply(op, s + [a, b]) == None <==> op in {Div, Mod, DivMod} && a == -TWO63 && b == -1
  {
    hide Quotient, Remainder, Shuffle, Unary, Binary;
    PopTwo(s, a, b);
  }

  // ----- the words on memory -----

  /** ! takes the address from the top of the stack and the value from below it; @ gets the value back. */
  lemma StoreFetch(s: seq<I64>, vars: map<nat, I64>, v: I64, a: I64)
    requires |s| + 2 <= STACK_SIZE && Unsigned(a) in vars
    ensures var after := vars[Unsigned(a) := v];
            && OnStore(Store, St(s + [v, a], vars)) == Some(St(s, after))
            && OnStore(Fetch, St(s + [a], after)) == Some(St(s + [v], after))
  {
    hide Pick, Top;
    PopTwo(s, v, a);
    PopTwo(s, a, a);
  }

  /** +! adds the second entry to what the address holds. */
  lemma PlusStored(s: seq<I64>, vars: map<nat, I64>, v: I64, a: I64) returns (r: I64)
    requires |s| + 2 <= STACK_SIZE && Unsigned(a) in vars
    ensures OnStore(PlusStore, St(s + [v, a], vars)) == Some(St(s, vars[Unsigned(a) := r]))
    ensures Keeps(r, vars[Unsigned(a)] + v)
  {
    hide Pick, Top, Wrap;
    PopTwo(s, v, a);
    r := Wrap(vars[Unsigned(a)] + v);
    WrapCongruent(vars[Unsigned(a)] + v);
  }

  // ----- numbers, constants, variables and colon words -----

  /** A number pushes itself, a constant its value, a variable the address of its cell; a colon word does what its
      body does. */
  lemma ItemsDo(defs: seq<Def>, top: nat, it: Item, s: seq<I64>, vars: map<nat, I64>)
    requires Grounded(defs) && top <= |defs| && CallBelow(it, top) && |s| < STACK_SIZE
    ensures it.Lit? ==> Meaning(defs, top, [it], St(s, vars)) == Some(St(s + [it.v], vars))
    ensures it.Call? && defs[it.w].Constant? ==>
              Meaning(defs, top, [it], St(s, vars)) == Some(St(s + [defs[it.w].v], vars))
    ensures it.Call? && defs[it.w].Variable? && defs[it.w].cell < TWO64 ==>
              exists a: I64 :: Unsigned(a) == defs[it.w].cell
                               && Meaning(defs, top, [it], St(s, vars)) == Some(St(s + [a], vars))
    ensures it.Call? && defs[it.w].Colon? ==>
              BodyBelow(defs, it.w)
              && Meaning(defs, top, [it], St(s, vars)) == Meaning(defs, it.w, defs[it.w].body, St(s, vars))
  {
    assert [it][1..] == [];
    OneItem(defs, top, it, St(s, vars));
    if it.Call? && defs[it.w].Variable? && defs[it.w].cell < TWO64 { SignedUnsignedCell(defs[it.w].cell); }
  }

  lemma SignedUnsignedCell(c: nat)
    requires c < TWO64
    ensures Unsigned(Wrap(c)) == c
  {
  }

  lemma OneItem(defs: seq<Def>, top: nat, it: Item, st: Store)
    requires Grounded(defs) && top <= |defs| && CallBelow(it, top)
    ensures Meaning(defs, top, [it], st) == MeaningOf(defs, top, it, st)
  {
    assert [it][1..] == [];
  }
}
