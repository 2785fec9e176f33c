/** 64-bit machine words as numbers, and the bits of numbers. */
module Words {
  import Masks
  import opened Numbers
  import opened Width

  function Nat(b: bv64): (n: nat)
    ensures n < TWO64
  {
    b as nat
  }

  lemma Doubled(x: bv64)
    requires x < 0x8000_0000_0000_0000
    ensures Nat(x << 1) == 2 * Nat(x) && Nat((x << 1) | 1) == 2 * Nat(x) + 1
  {
  }

  lemma Below(x: bv64)
    requires x as nat < TWO63
    ensures x < 0x8000_0000_0000_0000
  {
  }

  /** The machine word of a number, bit by bit. */
  function ToWord(n: nat): (w: bv64)
    requires n < TWO64
    ensures w as nat == n
  {
    if n == 0 then 0
    else
      var x := ToWord(n / 2);
      Below(x);
      Doubled(x);
      if n % 2 == 0 then x << 1 else (x << 1) | 1
  }

  // ----- the bits of a number -----

  predicate BitAt(n: nat, i: nat) { if i == 0 then n % 2 == 1 else BitAt(n / 2, i - 1) }

  function Half(b: bv64): bv64 { b >> 1 }
  predicate Low(b: bv64) { b & 1 == 1 }
  function And(x: bv64, y: bv64): bv64 { x & y }
  function Or(x: bv64, y: bv64): bv64 { x | y }
  function Xor(x: bv64, y: bv64): bv64 { x ^ y }

  lemma Rebuilt(b: bv64)
    ensures b >> 1 < 0x8000_0000_0000_0000 && b == if b & 1 == 1 then (b >> 1 << 1) | 1 else b >> 1 << 1
  {
  }

  lemma Halved(b: bv64)
    ensures Nat(b) == 2 * Nat(Half(b)) + if Low(b) then 1 else 0
  {
    hide Nat;
    Rebuilt(b);
    Doubled(b >> 1);
  }

  lemma BitOfWord(b: bv64, i: nat)
    ensures BitAt(Nat(b), i) <==> if i == 0 then Low(b) else BitAt(Nat(Half(b)), i - 1)
  {
    Halved(b);
    hide Nat, Half, Low;
  }

  lemma AndHalf(x: bv64, y: bv64)
    ensures Half(And(x, y)) == And(Half(x), Half(y))
  {
  }

  lemma AndLow(x: bv64, y: bv64)
    ensures Low(And(x, y)) <==> Low(x) && Low(y)
  {
  }

  lemma {:induction false} BitsOfAnd(x: bv64, y: bv64, i: nat)
    ensures BitAt(Nat(And(x, y)), i) <==> BitAt(Nat(x), i) && BitAt(Nat(y), i)
    decreases i
  {
    hide Nat, Half, Low, And, BitAt;
    BitOfWord(x, i);
    BitOfWord(y, i);
    BitOfWord(And(x, y), i);
    AndHalf(x, y);
    AndLow(x, y);
    if i > 0 { BitsOfAnd(Half(x), Half(y), i - 1); }
  }

  lemma OrHalf(x: bv64, y: bv64)
    ensures Half(Or(x, y)) == Or(Half(x), Half(y))
  {
  }

  lemma OrLow(x: bv64, y: bv64)
    ensures Low(Or(x, y)) <==> Low(x) || Low(y)
  {
  }

  lemma {:induction false} BitsOfOr(x: bv64, y: bv64, i: nat)
    ensures BitAt(Nat(Or(x, y)), i) <==> BitAt(Nat(x), i) || BitAt(Nat(y), i)
    decreases i
  {
    hide Nat, Half, Low, Or, BitAt;
    BitOfWord(x, i);
    BitOfWord(y, i);
    BitOfWord(Or(x, y), i);
    OrHalf(x, y);
    OrLow(x, y);
    if i > 0 { BitsOfOr(Half(x), Half(y), i - 1); }
  }

  lemma XorHalf(x: bv64, y: bv64)
    ensures Half(Xor(x, y)) == Xor(Half(x), Half(y))
  {
  }

  lemma XorLow(x: bv64, y: bv64)
    ensures Low(Xor(x, y)) <==> Low(x) != Low(y)
  {
  }

  lemma {:induction false} BitsOfXor(x: bv64, y: bv64, i: nat)
    ensures BitAt(Nat(Xor(x, y)), i) <==> BitAt(Nat(x), i) != BitAt(Nat(y), i)
    decreases i
  {
    hide Nat, Half, Low, Xor, BitAt;
    BitOfWord(x, i);
    BitOfWord(y, i);
    BitOfWord(Xor(x, y), i);
    XorHalf(x, y);
    XorLow(x, y);
    if i > 0 { BitsOfXor(Half(x), Half(y), i - 1); }
  }

  /** The mask of kmalloc_aligned, x & ~m. */
  lemma {:induction false} BitsOfAndNot(x: nat, m: nat, i: nat)
    ensures BitAt(Masks.AndNot(x, m), i) <==> BitAt(x, i) && !BitAt(m, i)
    decreases i
  {
    if x == 0 {
      NoBits(i);
    } else if i > 0 {
      BitsOfAndNot(x / 2, m / 2, i - 1);
    }
  }

  lemma {:induction false} NoBits(i: nat)
    ensures !BitAt(0, i)
  {
    if i > 0 { NoBits(i - 1); }
  }

  lemma PowSquare(k: nat)
    ensures Pow(2, 2 * k) == Pow(2, k) * Pow(2, k)
  {
    if k > 0 {
      PowSquare(k - 1);
      var p, q := Pow(2, k - 1), Pow(2, 2 * k - 2);
      assert Pow(2, 2 * k - 1) == 2 * q;
      Four(p, q);
    }
  }

  lemma Four(p: nat, q: nat)
    requires q == p * p
    ensures 2 * p * (2 * p) == 2 * (2 * q)
  {
  }

  lemma Pow64()
    ensures Pow(2, 64) == TWO64
  {
    assert Pow(2, 4) == 16;
    PowSquare(4);
    PowSquare(8);
    PowSquare(16);
    PowSquare(32);
    hide Pow;
    assert Pow(2, 8) == 0x100;
    assert Pow(2, 16) == 0x1_0000;
    assert Pow(2, 32) == TWO32;
  }

  lemma {:induction false} ComplementBits(k: nat, n: nat, i: nat)
    requires i < k && n < Pow(2, k)
    ensures BitAt(Pow(2, k) - 1 - n, i) <==> !BitAt(n, i)
  {
    assert Pow(2, k) == 2 * Pow(2, k - 1);
    if i > 0 { ComplementBits(k - 1, n / 2, i - 1); }
  }

  // ----- shifts -----

  /** Shifting by one place n times. */
  function ShiftLeft(b: bv64, n: nat): bv64 { if n == 0 then b else ShiftLeft(b, n - 1) << 1 }
  function ShiftRight(b: bv64, n: nat): bv64 { if n == 0 then b else ShiftRight(b >> 1, n - 1) }

  lemma LowPart(b: bv64)
    ensures b << 1 == (b & 0x7FFF_FFFF_FFFF_FFFF) << 1 && b & 0x7FFF_FFFF_FFFF_FFFF < 0x8000_0000_0000_0000
    ensures b < 0x8000_0000_0000_0000 ==> b & 0x7FFF_FFFF_FFFF_FFFF == b
  {
  }

  lemma HighPart(b: bv64)
    requires b >= 0x8000_0000_0000_0000
    ensures Nat(b) == Nat(b & 0x7FFF_FFFF_FFFF_FFFF) + TWO63
  {
  }

  lemma TwiceModulo(b: bv64)
    ensures Nat(b << 1) == 2 * Nat(b) % TWO64
  {
    hide Nat;
    var c := b & 0x7FFF_FFFF_FFFF_FFFF;
    LowPart(b);
    Doubled(c);
    if b >= 0x8000_0000_0000_0000 { HighPart(b); }
  }

  /** n places to the left is times 2^n. */
  lemma {:induction false} LeftIsTimes(b: bv64, n: nat)
    ensures Nat(ShiftLeft(b, n)) == Nat(b) * Pow(2, n) % TWO64
  {
    hide Nat;
    if n > 0 {
      LeftIsTimes(b, n - 1);
      TwiceModulo(ShiftLeft(b, n - 1));
      TimesModulo(Nat(b), Pow(2, n - 1));
    }
  }

  lemma TimesModulo(x: nat, p: nat)
    ensures 2 * (x * p % TWO64) % TWO64 == x * (2 * p) % TWO64
  {
    var y := x * p;
    assert x * (2 * p) == 2 * y;
    DoubleModulo(y);
  }

  lemma DoubleModulo(y: nat)
    ensures 2 * (y % TWO64) % TWO64 == 2 * y % TWO64
  {
  }

  lemma PowPositive(k: nat)
    ensures Pow(2, k) > 0
  {
  }

  /** n places to the right is the quotient by 2^n. */
  lemma {:induction false} RightIsQuotient(b: bv64, n: nat)
    ensures Pow(2, n) > 0 && Nat(ShiftRight(b, n)) == Nat(b) / Pow(2, n)
  {
    hide Nat;
    PowPositive(n);
    if n > 0 {
      RightIsQuotient(b >> 1, n - 1);
      Halved(b);
      Masks.HalfDivides(Nat(b), Pow(2, n - 1));
    }
  }
}
