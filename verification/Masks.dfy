/** Rounding with a bit mask, as kernel/memory/heap.c does at line 158. */
module Masks {
  ghost predicate PowerOfTwo(n: nat)
    ensures PowerOfTwo(n) ==> 0 < n
  {
    n == 1 || (n > 1 && n % 2 == 0 && PowerOfTwo(n / 2))
  }

  /** x & ~m, bit by bit. */
  function AndNot(x: nat, m: nat): nat
    decreases x
  {
    if x == 0 then 0 else 2 * AndNot(x / 2, m / 2) + if x % 2 == 1 && m % 2 == 0 then 1 else 0
  }

  lemma {:induction false} AndNotNear(x: nat, m: nat)
    ensures x - m <= AndNot(x, m) <= x
    decreases x
  {
    if x > 0 { AndNotNear(x / 2, m / 2); }
  }

  /** For a power of two the mask rounds down to a multiple of it. */
  lemma {:induction false} MaskRounds(x: nat, a: nat)
    requires PowerOfTwo(a)
    ensures AndNot(x, a - 1) == x / a * a && AndNot(x, a - 1) % a == 0
    decreases a
  {
    if a == 1 {
      AndNotNear(x, 0);
    } else {
      var b := a / 2;
      MaskRounds(x / 2, b);
      OddMask(x, b);
      HalfDivides(x, b);
      Twice(x / a, b);
      ModOfMultiple(x / a, a);
    }
  }

  lemma Twice(q: nat, b: nat)
    ensures 2 * (q * b) == q * (2 * b)
  {
  }

  lemma OddMask(x: nat, b: nat)
    requires b > 0
    ensures AndNot(x, 2 * b - 1) == 2 * AndNot(x / 2, b - 1)
  {
    assert (2 * b - 1) / 2 == b - 1 && (2 * b - 1) % 2 == 1;
  }

  lemma HalfDivides(x: nat, b: nat)
    requires b > 0
    ensures x / 2 / b == x / (2 * b)
  {
    var q, r := x / (2 * b), x % (2 * b);
    assert x == 2 * (q * b) + r;
    assert x / 2 == q * b + r / 2 && r / 2 < b;
    SameQuotient(x / 2 / b, x / 2 % b, q, r / 2, b);
  }

  lemma SameQuotient(p: nat, r: nat, q: nat, s: nat, b: nat)
    requires p * b + r == q * b + s && r < b && s < b
    ensures p == q
  {
    Below(p - q, b, s - r);
    Below(q - p, b, r - s);
  }

  lemma Below(d: int, b: nat, e: int)
    requires d * b == e < b
    ensures d <= 0
  {
    assert (d - 1) * b == d * b - b < 0;
  }

  function Pow2(k: nat): (p: nat)
    ensures p > k
  {
    if k == 0 then 1 else 2 * Pow2(k - 1)
  }

  lemma {:induction false} HighBitStays(k: nat, m: nat)
    requires m < Pow2(k)
    ensures AndNot(Pow2(k), m) == Pow2(k)
  {
    if k > 0 {
      HighBitStays(k - 1, m / 2);
      assert Pow2(k) / 2 == Pow2(k - 1) && Pow2(k) % 2 == 0;
    }
  }

  lemma {:induction false} DivisorOfPower(k: nat, a: nat, c: nat)
    requires a * c == Pow2(k)
    ensures PowerOfTwo(a)
    decreases k
  {
    if k == 0 {
      OneFactor(a, c);
    } else if a % 2 == 0 {
      assert a == 2 * (a / 2) && a / 2 * c == Pow2(k - 1);
      DivisorOfPower(k - 1, a / 2, c);
    } else {
      OddFactor(a, c);
      assert c == 2 * (c / 2) && a * (c / 2) == Pow2(k - 1);
      DivisorOfPower(k - 1, a, c / 2);
    }
  }

  lemma OneFactor(a: nat, c: nat)
    requires a * c == 1
    ensures a == 1
  {
    Below(a - 1, c, 1 - c);
  }

  lemma OddFactor(a: nat, c: nat)
    requires a % 2 == 1 && a * c % 2 == 0
    ensures c % 2 == 0
  {
    var b := a / 2;
    assert a * c == 2 * (b * c) + c;
  }

  predicate Aligns(x: nat, a: nat)
    requires 0 < a
  {
    AndNot(x, a - 1) % a == 0
  }

  /** The mask rounds every address to a multiple of the alignment if and only if that is a power of two. */
  lemma AlignsIffPower(a: nat)
    requires 0 < a
    ensures (forall x: nat :: Aligns(x, a)) <==> PowerOfTwo(a)
  {
    if PowerOfTwo(a) {
      forall x: nat ensures Aligns(x, a) { MaskRounds(x, a); }
    } else {
      var x := Pow2(a);
      HighBitStays(a, a - 1);
      if x % a == 0 {
        assert a * (x / a) == x;
        DivisorOfPower(a, a, x / a);
      }
      assert !Aligns(x, a);
    }
  }

  lemma HalfStep(x: nat, m: nat, y: nat)
    requires y == AndNot(x / 2, m / 2)
    ensures AndNot(x, m) == 2 * y + if x % 2 == 1 && m % 2 == 0 then 1 else 0
  {
  }

  lemma ModOfMultiple(q: nat, n: nat)
    requires 0 < n
    ensures q * n % n == 0
  {
    var x := q * n;
    var d, m := x / n, x % n;
    assert x == n * d + m;
    assert n * (q - d) == m;
    Times(n, q - d);
  }

  lemma {:induction false} Times(n: nat, e: int)
    ensures e >= 1 ==> n * e >= n
    ensures e <= -1 ==> n * e <= 0 - n
    decreases if e < 0 then -e else e
  {
    if e > 1 { Times(n, e - 1); }
    if e < -1 { Times(n, e + 1); }
  }
}
