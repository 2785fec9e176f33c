/** The dictionary's memory: bytes, and the little-endian 64-bit cells written over them. */
module Cells {
  import opened Numbers
  import opened Width

  type Byte = c: char | c as int < 256
  type Text = seq<Byte>

  const BASE := 0xFFFF_8000_1000_0000
  const SIZE := 0x10_0000
  const LIMIT := BASE + SIZE

  type Region = m: Text | |m| == SIZE witness seq(SIZE, _ => '\0')

  // ----- the bytes of a number -----

  function Bytes(v: nat, n: nat): (s: Text)
    ensures |s| == n
  {
    if n == 0 then [] else [(v % 256) as char] + Bytes(v / 256, n - 1)
  }

  function Value(s: Text): nat {
    if s == [] then 0 else s[0] as int + 256 * Value(s[1..])
  }

  lemma {:induction false} ValueBytes(v: nat, n: nat)
    requires v < Pow(256, n)
    ensures Value(Bytes(v, n)) == v
  {
    if n > 0 {
      Division(v, 256, v / 256, v % 256);
      ValueBytes(v / 256, n - 1);
      assert Bytes(v, n)[1..] == Bytes(v / 256, n - 1);
    }
  }

  lemma {:induction false} ValueBound(s: Text)
    ensures Value(s) < Pow(256, |s|)
  {
    if s != [] { ValueBound(s[1..]); }
  }

  /** Different bytes, different numbers. */
  lemma {:induction false} ValueInjective(s: Text, t: Text)
    requires |s| == |t| && Value(s) == Value(t)
    ensures s == t
  {
    if s != [] {
      ValueInjective(s[1..], t[1..]);
      assert s == [s[0]] + s[1..] && t == [t[0]] + t[1..];
    }
  }

  /** Little end first. */
  lemma {:induction false} ByteAt(v: nat, n: nat, k: nat)
    requires k < n
    ensures Pow(256, k) > 0 && Bytes(v, n)[k] as int == v / Pow(256, k) % 256
  {
    PowMonotone(256, k, k);
    if k > 0 {
      ByteAt(v / 256, n - 1, k - 1);
      PowMonotone(256, k - 1, k - 1);
      DivideTwice(v, 256, Pow(256, k - 1));
    }
  }

  lemma DivideTwice(v: nat, a: nat, b: nat)
    requires a > 0 && b > 0
    ensures a * b > 0 && v / a / b == v / (a * b)
  {
    var q, r := v / a / b, v / a % b;
    Scaled(a, 1, b);
    Division(v, a, v / a, v % a);
    Division(v / a, b, q, r);
    Scaled(a, r, b - 1);
    Regroup(a, b, q);
    Unique(v, a * b, q, a * r + v % a);
  }

  lemma Unique(v: nat, m: nat, q: nat, r: nat)
    requires m > 0 && v == m * q + r && r < m
    ensures v / m == q
  {
    Division(v, m, v / m, v % m);
    if v / m > q { Scaled(m, q + 1, v / m); }
    if v / m < q { Scaled(m, v / m + 1, q); }
  }

  lemma Pow256()
    ensures Pow(256, 8) == TWO64
  {
    assert Pow(256, 4) == 0x1_0000_0000;
    PowSum(256, 4, 4);
  }

  // ----- cells -----

  /** A whole cell of the region lies at a. */
  predicate InCell(a: int) { BASE <= a && a + 8 <= LIMIT }

  function ReadCell(mem: Region, a: int): (v: nat)
    requires InCell(a)
    ensures v < TWO64
  {
    Pow256();
    ValueBound(mem[a - BASE..a - BASE + 8]);
    Value(mem[a - BASE..a - BASE + 8])
  }

  function WriteCell(mem: Region, a: int, v: nat): Region
    requires InCell(a)
  {
    mem[..a - BASE] + Bytes(v, 8) + mem[a - BASE + 8..]
  }

  lemma ReadWritten(mem: Region, a: int, v: nat)
    requires InCell(a) && v < TWO64
    ensures ReadCell(WriteCell(mem, a, v), a) == v
  {
    Pow256();
    ValueBytes(v, 8);
    assert WriteCell(mem, a, v)[a - BASE..a - BASE + 8] == Bytes(v, 8);
  }

  /** The bytes of a stored cell, little end first. */
  lemma WrittenBytes(mem: Region, a: int, v: nat, k: nat)
    requires InCell(a) && v < TWO64 && k < 8
    ensures Pow(256, k) > 0 && WriteCell(mem, a, v)[a - BASE + k] as int == v / Pow(256, k) % 256
  {
    ByteAt(v, 8, k);
  }

  /** The two memories agree on the bytes from `from` up to `to`. */
  ghost predicate Same(m: Region, n: Region, from: int, to: int) {
    forall i :: 0 <= i < SIZE && from <= BASE + i < to ==> m[i] == n[i]
  }

  lemma SameCell(m: Region, n: Region, a: int)
    requires InCell(a) && Same(m, n, a, a + 8)
    ensures ReadCell(m, a) == ReadCell(n, a)
  {
    assert m[a - BASE..a - BASE + 8] == n[a - BASE..a - BASE + 8];
  }

  lemma CellSame(m: Region, n: Region, a: int)
    requires InCell(a) && ReadCell(m, a) == ReadCell(n, a)
    ensures Same(m, n, a, a + 8)
  {
    var s, t := m[a - BASE..a - BASE + 8], n[a - BASE..a - BASE + 8];
    ValueInjective(s, t);
    forall i | 0 <= i < SIZE && a <= BASE + i < a + 8 ensures m[i] == n[i] {
      assert s[BASE + i - a] == m[i] && t[BASE + i - a] == n[i];
    }
  }

  /** A write changes only its own cell. */
  lemma WriteElsewhere(mem: Region, a: int, v: nat, from: int, to: int)
    requires InCell(a) && (to <= a || a + 8 <= from)
    ensures Same(mem, WriteCell(mem, a, v), from, to)
  {
  }

  lemma SamePart(m: Region, n: Region, from: int, to: int, lo: int, hi: int)
    requires Same(m, n, from, to) && from <= lo && hi <= to
    ensures Same(m, n, lo, hi)
  {
  }
}
