/**
  vm/core/forth.c, lines 186-241: the primitive words on the data stack and on variables, and what a
  straight-line sequence of words means.
 */
module ForthWords {
  import opened Numbers
  import opened Stacks
  import opened Width
  import W = Words

  type I64 = v: int | -TWO63 <= v < TWO63
  type U64 = v: nat | v < TWO64
  type Data = s: seq<I64> | |s| <= STACK_SIZE

  datatype Option<+T> = None | Some(value: T)

  // ----- arithmetic of 64-bit signed words -----

  /** The sum, difference or product as the 64-bit machine leaves it. */
  function Wrap(v: int): I64 { Signed(v % TWO64) }

  /** C division: towards zero. */
  function Quotient(a: int, b: int): int
    requires b != 0
  {
    if a >= 0 then a / b else -((-a) / b)
  }

  function Remainder(a: int, b: int): int
    requires b != 0
  {
    a - b * Quotient(a, b)
  }

  /** C's division: the remainder is smaller than the divisor and has the sign of the dividend. */
  lemma Truncated(a: int, b: int)
    requires b != 0
    ensures var r := Remainder(a, b);
            (a >= 0 ==> 0 <= r) && (a <= 0 ==> r <= 0) && (if b > 0 then -b < r < b else b < r < -b)
  {
    hide Remainder;
    if a >= 0 { EuclidPositive(a, b); } else { EuclidNegative(a, b); }
  }

  lemma EuclidPositive(a: int, b: int)
    requires b != 0 && a >= 0
    ensures 0 <= Remainder(a, b) < if b > 0 then b else -b
    ensures a == 0 ==> Remainder(a, b) == 0
  {
    Euclid(a, b);
  }

  lemma EuclidNegative(a: int, b: int)
    requires b != 0 && a < 0
    ensures 0 <= -Remainder(a, b) < if b > 0 then b else -b
  {
    Euclid(-a, b);
    Negated(b, -a / b);
  }

  lemma Euclid(n: nat, b: int)
    requires b != 0
    ensures 0 <= n - b * (n / b) < if b > 0 then b else -b
  {
    assert n == b * (n / b) + n % b;
  }

  lemma Negated(b: int, q: int)
    ensures b * -q == -(b * q)
  {
  }

  lemma RemainderFits(a: I64, b: I64)
    requires b != 0
    ensures -TWO63 <= Remainder(a, b) < TWO63
  {
    Truncated(a, b);
  }

  lemma QuotientFits(a: I64, b: I64)
    requires b != 0 && !(a == -TWO63 && b == -1)
    ensures -TWO63 <= Quotient(a, b) < TWO63
  {
    var n: int := if a >= 0 then a as int else -(a as int);
    var m: int := if b > 0 then b as int else -(b as int);
    Shrinks(n, m);
    Magnitude(a, b, n, m);
  }

  lemma Magnitude(a: int, b: int, n: nat, m: nat)
    requires b != 0 && m == (if b > 0 then b else -b) && n == if a >= 0 then a else -a
    ensures Quotient(a, b) == if (a >= 0) == (b > 0) then n / m else -(n / m)
  {
    DivideNegative(n, m);
  }

  lemma DivideNegative(n: int, m: int)
    requires m > 0
    ensures n / -m == -(n / m)
  {
  }

  lemma Shrinks(n: nat, b: nat)
    requires b > 0
    ensures 0 <= n / b <= n && (b >= 2 && n > 0 ==> n / b < n)
  {
    if b >= 2 && n > 0 { QuotientSmaller(n, b); }
    if b == 1 { assert n / 1 == n; }
  }

  function Bits(v: I64): bv64 { W.ToWord(Unsigned(v)) }

  function AsSigned(u: U64): I64 { Signed(u) }

  function FromBits(b: bv64): I64 { AsSigned(W.Nat(b)) }

  function Flag(b: bool): I64 { if b then -1 else 0 }

  // ----- the primitives -----

  datatype Op =
    | Dup | Drop | Swap | Over | Rot | Nip | Tuck | TwoDup | TwoDrop | TwoSwap | QDup | Depth
    | Plus | Minus | Mul | Div | Mod | DivMod | Negate | Abs | Min | Max | OnePlus | OneMinus | TwoStar | TwoSlash
    | And | Or | Xor | Invert | LShift | RShift
    | Eq | Neq | Lt | Gt | Le | Ge | ZeroEq | ZeroLt | ZeroGt

  predicate Shuffles(op: Op) {
    op in {Dup, Drop, Swap, Over, Rot, Nip, Tuck, TwoDup, TwoDrop, TwoSwap, QDup, Depth}
  }

  predicate Divides(op: Op) { op in {Div, Mod, DivMod} }

  predicate OneOperand(op: Op) {
    op in {Negate, Abs, OnePlus, OneMinus, TwoStar, TwoSlash, Invert, ZeroEq, ZeroLt, ZeroGt}
  }

  function Top(s: Data): I64 { Peek(s, 0) }

  /** The stack words. */
  function Shuffle(op: Op, s: Data): Data
    requires Shuffles(op)
  {
    var a, s1: Data := Top(s), Rest(s);
    var b, s2: Data := Top(s1), Rest(s1);
    var c, s3: Data := Top(s2), Rest(s2);
    var d, s4: Data := Top(s3), Rest(s3);
    match op
    case Dup => Push(s, a)
    case Drop => s1
    case Swap => Push(Push(s2, a), b)
    case Over => Push(s, Pick(s, 1, 0))
    case Rot => Push(Push(Push(s3, b), a), c)
    case Nip => Push(s2, a)
    case Tuck => Push(Push(Push(s2, a), b), a)
    case TwoDup => Push(Push(s, Pick(s, 1, 0)), a)
    case TwoDrop => s2
    case TwoSwap => Push(Push(Push(Push(s4, b), a), d), c)
    case QDup => if a != 0 then Push(s, a) else s
    case Depth => Push(s, |s|)
  }

  /** The words that replace the top entry. */
  function Unary(op: Op, v: I64): I64
    requires OneOperand(op)
  {
    match op
    case Negate => Wrap(-(v as int))
    case Abs => Wrap(if v < 0 then -(v as int) else v)
    case OnePlus => Wrap(v + 1)
    case OneMinus => Wrap(v - 1)
    case TwoStar => Wrap(2 * v)
    case TwoSlash => v / 2
    case Invert => Wrap(-1 - v)
    case ZeroEq => Flag(v == 0)
    case ZeroLt => Flag(v < 0)
    case ZeroGt => Flag(v > 0)
  }

  /** The words that replace the two top entries; b is the top one. */
  function Binary(op: Op, a: I64, b: I64): I64
    requires !Shuffles(op) && !Divides(op) && !OneOperand(op)
  {
    match op
    case Plus => Wrap(a + b)
    case Minus => Wrap(a - b)
    case Mul => Wrap(a * b)
    case Min => if a < b then a else b
    case Max => if a > b then a else b
    case And => FromBits(W.And(Bits(a), Bits(b)))
    case Or => FromBits(W.Or(Bits(a), Bits(b)))
    case Xor => FromBits(W.Xor(Bits(a), Bits(b)))
    case LShift => FromBits(W.ShiftLeft(Bits(a), b % 64))
    case RShift => FromBits(W.ShiftRight(Bits(a), b % 64))
    case Eq => Flag(a == b)
    case Neq => Flag(a != b)
    case Lt => Flag(a < b)
    case Gt => Flag(a > b)
    case Le => Flag(a <= b)
    case Ge => Flag(a >= b)
  }

  /** The processor traps when the quotient does not fit. */
  predicate Traps(a: I64, b: I64) { a == -TWO63 && b == -1 }

  /** The division words; by zero they leave 0 and do not pop the dividend. */
  function Divide(op: Op, s: Data): Option<Data>
    requires Divides(op)
  {
    var b, s1: Data := Top(s), Rest(s);
    if b == 0 then Some(if op == DivMod then Push(Push(s1, 0), 0) else Push(s1, 0))
    else
      var a, s2: Data := Top(s1), Rest(s1);
      if Traps(a, b) then None
      else
        QuotientFits(a, b);
        RemainderFits(a, b);
        match op
        case Div => Some(Push(s2, Quotient(a, b)))
        case Mod => Some(Push(s2, Remainder(a, b)))
        case DivMod => Some(Push(Push(s2, Remainder(a, b)), Quotient(a, b)))
  }

  /** One primitive on the data stack; None when the processor traps. */
  function Apply(op: Op, s: Data): Option<Data> {
    if Shuffles(op) then Some(Shuffle(op, s))
    else if Divides(op) then Divide(op, s)
    else if OneOperand(op) then Some(Push(Rest(s), Unary(op, Top(s))))
    else Some(Push(Rest(Rest(s)), Binary(op, Top(Rest(s)), Top(s))))
  }

  /** Wrapped arithmetic is arithmetic modulo 2^64. */
  lemma WrapCongruent(v: int)
    ensures (Wrap(v) - v) % TWO64 == 0 && (-TWO63 <= v < TWO63 ==> Wrap(v) == v)
  {
    assert v == v / TWO64 * TWO64 + v % TWO64;
  }

  /** Pushing several entries onto a stack with room for them. */
  lemma PushTwo(s: seq<I64>, a: I64, b: I64)
    requires |s| + 2 <= STACK_SIZE
    ensures Push(Push(s, a), b) == s + [a, b]
  {
    assert s + [a] + [b] == s + [a, b];
  }

  lemma PushThree(s: seq<I64>, a: I64, b: I64, c: I64)
    requires |s| + 3 <= STACK_SIZE
    ensures Push(Push(Push(s, a), b), c) == s + [a, b, c]
  {
    assert s + [a] + [b] + [c] == s + [a, b, c];
  }

  lemma PushFour(s: seq<I64>, a: I64, b: I64, c: I64, d: I64)
    requires |s| + 4 <= STACK_SIZE
    ensures Push(Push(Push(Push(s, a), b), c), d) == s + [a, b, c, d]
  {
    assert s + [a] + [b] + [c] + [d] == s + [a, b, c, d];
  }

  /** Popping two, three or four entries. */
  lemma PopTwo(s: seq<I64>, a: I64, b: I64)
    requires |s| + 2 <= STACK_SIZE
    ensures Top(s + [a, b]) == b && Rest(s + [a, b]) == s + [a] && Top(s + [a]) == a && Rest(s + [a]) == s
    ensures Pick(s + [a, b], 1, 0) == a
  {
  }

  lemma PopFour(s: seq<I64>, a: I64, b: I64, c: I64, d: I64)
    requires |s| + 4 <= STACK_SIZE
    ensures Top(s + [a, b, c, d]) == d && Rest(s + [a, b, c, d]) == s + [a, b, c]
    ensures Top(s + [a, b, c]) == c && Rest(s + [a, b, c]) == s + [a, b]
  {
  }

  /** The stack diagrams of the words on two entries, on a stack with room. */
  lemma DiagramsOfTwo(s: seq<I64>, a: I64, b: I64)
    requires |s| + 4 <= STACK_SIZE
    ensures Apply(Dup, s + [a]) == Some(s + [a, a]) && Apply(Drop, s + [a]) == Some(s)
    ensures Apply(Swap, s + [a, b]) == Some(s + [b, a]) && Apply(Over, s + [a, b]) == Some(s + [a, b, a])
    ensures Apply(Nip, s + [a, b]) == Some(s + [b]) && Apply(Tuck, s + [a, b]) == Some(s + [b, a, b])
    ensures Apply(TwoDup, s + [a, b]) == Some(s + [a, b, a, b]) && Apply(TwoDrop, s + [a, b]) == Some(s)
    ensures Apply(QDup, s + [a]) == Some(s + if a == 0 then [a] else [a, a])
    ensures Apply(Depth, s) == Some(s + [|s|])
  {
    hide Top, Pick, Unary, Binary, Divide;
    PopTwo(s, a, b);
    PushTwo(s, a, a);
    PushTwo(s, b, a);
    PushThree(s, b, a, b);
    assert s + [a, b] + [a] == s + [a, b, a] && s + [a, b, a] + [b] == s + [a, b, a, b];
  }

  /** The stack diagrams of ROT and 2SWAP. */
  lemma DiagramsOfFour(s: seq<I64>, a: I64, b: I64, c: I64, d: I64)
    requires |s| + 4 <= STACK_SIZE
    ensures Apply(Rot, s + [a, b, c]) == Some(s + [b, c, a])
    ensures Apply(TwoSwap, s + [a, b, c, d]) == Some(s + [c, d, a, b])
  {
    hide Top, Pick, Unary, Binary, Divide;
    PopFour(s, a, b, c, d);
    PopTwo(s, a, b);
    PushThree(s, b, c, a);
    PushFour(s, c, d, a, b);
  }

  // ----- what a sequence of words means -----

  datatype Prim = Calc(op: Op) | Fetch | Store | PlusStore

  /** What a word refers to: a number, or the word at an index of the dictionary's list. */
  datatype Item = Lit(v: I64) | Call(w: nat)

  datatype Def = Native(p: Prim) | Colon(body: seq<Item>) | Variable(cell: nat) | Constant(v: I64) | Foreign

  /** The data stack, and the contents of the variables by address. */
  datatype Store = St(ds: Data, vars: map<nat, I64>)

  function OnStore(p: Prim, st: Store): Option<Store> {
    var s := st.ds;
    var a := Unsigned(Top(s));
    match p
    case Calc(op) => (match Apply(op, s) case None => None case Some(t) => Some(st.(ds := t)))
    case Fetch => if a in st.vars then Some(st.(ds := Push(Rest(s), st.vars[a]))) else None
    case Store => if a in st.vars then Some(St(Rest(Rest(s)), st.vars[a := Top(Rest(s))])) else None
    case PlusStore =>
      if a in st.vars then Some(St(Rest(Rest(s)), st.vars[a := Wrap(st.vars[a] + Top(Rest(s)))])) else None
  }

  predicate CallBelow(it: Item, n: nat) { it.Call? ==> it.w < n }

  predicate CallsBelow(items: seq<Item>, n: nat) { forall x :: 0 <= x < |items| ==> CallBelow(items[x], n) }

  /** A compiled word calls only older words. */
  predicate BodyBelow(defs: seq<Def>, i: nat)
    requires i < |defs|
  {
    defs[i].Colon? ==> CallsBelow(defs[i].body, i)
  }

  predicate Grounded(defs: seq<Def>) { forall i :: 0 <= i < |defs| ==> BodyBelow(defs, i) }

  /** The effect of running the items one after the other; None where a word leaves the fragment or traps. */
  function Meaning(defs: seq<Def>, top: nat, items: seq<Item>, st: Store): Option<Store>
    requires Grounded(defs) && top <= |defs| && CallsBelow(items, top)
    decreases top, |items|, 1
  {
    if items == [] then Some(st)
    else
      match MeaningOf(defs, top, items[0], st)
      case None => None
      case Some(s) =>
        Meaning(defs, top, items[1..], s)
  }

  function MeaningOf(defs: seq<Def>, top: nat, it: Item, st: Store): Option<Store>
    requires Grounded(defs) && top <= |defs| && CallBelow(it, top)
    decreases top, 0, 0
  {
    match it
    case Lit(v) => Some(st.(ds := Push(st.ds, v)))
    case Call(w) =>
      assert BodyBelow(defs, w);
      match defs[w]
      case Native(p) => OnStore(p, st)
      case Colon(body) => Meaning(defs, w, body, st)
      case Variable(cell) => Some(st.(ds := Push(st.ds, Wrap(cell))))
      case Constant(v) => Some(st.(ds := Push(st.ds, v)))
      case Foreign => None
  }

  /** The unfolded size: iterations of the inner interpreter. */
  function Cost(defs: seq<Def>, top: nat, items: seq<Item>): nat
    requires Grounded(defs) && top <= |defs| && CallsBelow(items, top)
    decreases top, |items|, 1
  {
    if items == [] then 0 else CostOf(defs, top, items[0]) + Cost(defs, top, items[1..])
  }

  function CostOf(defs: seq<Def>, top: nat, it: Item): (n: nat)
    requires Grounded(defs) && top <= |defs| && CallBelow(it, top)
    ensures n >= 1
    decreases top, 0, 0
  {
    if it.Call? && defs[it.w].Colon? then
      assert BodyBelow(defs, it.w);
      2 + Cost(defs, it.w, defs[it.w].body)
    else 1
  }

  /** The nesting of calls: entries needed on the return stack. */
  function Nesting(defs: seq<Def>, top: nat, items: seq<Item>): nat
    requires Grounded(defs) && top <= |defs| && CallsBelow(items, top)
    decreases top, |items|, 1
  {
    if items == [] then 0
    else
      var a, b := NestingOf(defs, top, items[0]), Nesting(defs, top, items[1..]);
      if a > b then a else b
  }

  function NestingOf(defs: seq<Def>, top: nat, it: Item): nat
    requires Grounded(defs) && top <= |defs| && CallBelow(it, top)
    decreases top, 0, 0
  {
    if it.Call? && defs[it.w].Colon? then
      assert BodyBelow(defs, it.w);
      1 + Nesting(defs, it.w, defs[it.w].body)
    else 0
  }

  /** New definitions do not change what older items mean, cost or need. */
  lemma {:induction false} MeaningExtends(defs: seq<Def>, more: seq<Def>, top: nat, items: seq<Item>, st: Store)
    requires Grounded(defs) && Grounded(more) && defs <= more && top <= |defs| && CallsBelow(items, top)
    ensures Meaning(more, top, items, st) == Meaning(defs, top, items, st)
    decreases top, |items|
  {
    if items != [] {
      var it := items[0];
      assert CallBelow(it, top);
      if it.Call? && defs[it.w].Colon? {
        assert BodyBelow(defs, it.w) && more[it.w] == defs[it.w];
        MeaningExtends(defs, more, it.w, defs[it.w].body, st);
      }
      assert it.Call? ==> more[it.w] == defs[it.w];
      match MeaningOf(defs, top, it, st)
      case None =>
      case Some(s) => MeaningExtends(defs, more, top, items[1..], s);
    }
  }

  lemma {:induction false} CostExtends(defs: seq<Def>, more: seq<Def>, top: nat, items: seq<Item>)
    requires Grounded(defs) && Grounded(more) && defs <= more && top <= |defs| && CallsBelow(items, top)
    ensures Cost(more, top, items) == Cost(defs, top, items)
    ensures Nesting(more, top, items) == Nesting(defs, top, items)
    decreases top, |items|
  {
    if items != [] {
      var it := items[0];
      assert CallBelow(it, top);
      if it.Call? && defs[it.w].Colon? {
        assert BodyBelow(defs, it.w) && more[it.w] == defs[it.w];
        CostExtends(defs, more, it.w, defs[it.w].body);
      }
      assert it.Call? ==> more[it.w] == defs[it.w];
      CostExtends(defs, more, top, items[1..]);
    }
  }
}
