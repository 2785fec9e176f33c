/** Folding a message into a register, and what it takes to detect a burst of four symbols. */
module Folds {

  /** The register after all of data. */
  function Fold<S, D>(f: (S, D) -> S, data: seq<D>, c: S): S
    decreases |data|
  {
    if data == [] then c else Fold(f, data[1..], f(c, data[0]))
  }

  ghost predicate Injective<S(!new), D(!new)>(f: (S, D) -> S) {
    forall x, y, d {:trigger f(x, d), f(y, d)} :: f(x, d) == f(y, d) ==> x == y
  }

  function Four<S, D>(f: (S, D) -> S, c: S, d0: D, d1: D, d2: D, d3: D): S {
    f(f(f(f(c, d0), d1), d2), d3)
  }

  /** Four symbols in a row are absorbed injectively. */
  ghost predicate FourInjective<S(!new), D(!new)>(f: (S, D) -> S) {
    forall c, d0, d1, d2, d3, e0, e1, e2, e3 {:trigger Four(f, c, d0, d1, d2, d3), Four(f, c, e0, e1, e2, e3)} ::
      Four(f, c, d0, d1, d2, d3) == Four(f, c, e0, e1, e2, e3) ==> d0 == e0 && d1 == e1 && d2 == e2 && d3 == e3
  }

  lemma {:induction false} FoldConcat<S, D>(f: (S, D) -> S, a: seq<D>, b: seq<D>, c: S)
    ensures Fold(f, a + b, c) == Fold(f, b, Fold(f, a, c))
    decreases |a|
  {
    if a == [] {
      assert a + b == b;
    } else {
      assert (a + b)[1..] == a[1..] + b;
      FoldConcat(f, a[1..], b, f(c, a[0]));
    }
  }

  /** Distinct registers stay distinct over the same data. */
  lemma {:induction false} FoldInjective<S(!new), D(!new)>(f: (S, D) -> S, data: seq<D>, x: S, y: S)
    requires Injective(f) && Fold(f, data, x) == Fold(f, data, y)
    ensures x == y
    decreases |data|
  {
    if data != [] {
      FoldInjective(f, data[1..], f(x, data[0]), f(y, data[0]));
    }
  }

  lemma FoldFour<S, D>(f: (S, D) -> S, w: seq<D>, c: S)
    requires |w| == 4
    ensures Fold(f, w, c) == Four(f, c, w[0], w[1], w[2], w[3])
  {
    var w1, w2, w3 := w[1..], w[2..], w[3..];
    assert w1[1..] == w2 && w2[1..] == w3 && w3[1..] == [];
    var c1 := f(c, w[0]);
    var c2 := f(c1, w[1]);
    var c3 := f(c2, w[2]);
    assert Fold(f, w, c) == Fold(f, w1, c1) == Fold(f, w2, c2) == Fold(f, w3, c3) == Fold(f, [], f(c3, w[3]));
  }

  /** m and n have the same length and differ only inside the four symbols from i on. */
  ghost predicate BurstAt<D>(m: seq<D>, n: seq<D>, i: nat) {
    |m| == |n| && forall j :: 0 <= j < |m| && !(i <= j < i + 4) ==> m[j] == n[j]
  }

  lemma SameWindow<S(!new), D(!new)>(f: (S, D) -> S, m: seq<D>, n: seq<D>, i: nat, c: S)
    requires Injective(f) && FourInjective(f)
    requires BurstAt(m, n, i) && i + 4 <= |m| && Fold(f, m, c) == Fold(f, n, c)
    ensures m == n
  {
    var head, tail, x, y := m[..i], m[i + 4..], m[i..i + 4], n[i..i + 4];
    assert n[..i] == head && n[i + 4..] == tail;
    assert m == head + (x + tail) && n == head + (y + tail);
    FoldConcat(f, head, x + tail, c);
    FoldConcat(f, head, y + tail, c);
    var s := Fold(f, head, c);
    FoldConcat(f, x, tail, s);
    FoldConcat(f, y, tail, s);
    FoldInjective(f, tail, Fold(f, x, s), Fold(f, y, s));
    FoldFour(f, x, s);
    FoldFour(f, y, s);
    assert x == [x[0], x[1], x[2], x[3]] && y == [y[0], y[1], y[2], y[3]];
  }

  /** A burst anywhere, also at the end of a short message, is detected. */
  lemma BurstChangesFold<S(!new), D(!new)>(f: (S, D) -> S, m: seq<D>, n: seq<D>, i: nat, c: S)
    requires Injective(f) && FourInjective(f)
    requires BurstAt(m, n, i) && i < |m| && Fold(f, m, c) == Fold(f, n, c)
    ensures m == n
  {
    var pad := [m[0], m[0], m[0], m[0]];
    FoldConcat(f, m, pad, c);
    FoldConcat(f, n, pad, c);
    SameWindow(f, m + pad, n + pad, i, c);
    assert m == (m + pad)[..|m|] && n == (n + pad)[..|m|];
  }
}

/** The reflected CRC-32 (RFC 1952, section 8) of fs/block_device.c, and what it detects. */
module Crc {
  import opened Bits
  import opened Folds

  const POLYNOMIAL: bv32 := 0xEDB8_8320

  /** One round of the inner loop. */
  function StepBit(c: bv32): bv32 { (c >> 1) ^ (POLYNOMIAL & (0 - (c & 1))) }

  function StepByte(c: bv32): bv32 {
    StepBit(StepBit(StepBit(StepBit(StepBit(StepBit(StepBit(StepBit(c))))))))
  }

  function Absorb(c: bv32, d: bv8): bv32 { StepByte(c ^ (d as bv32)) }

  function Crc32(data: seq<bv8>): bv32 { !Fold(Absorb, data, 0xFFFF_FFFF) }

  /** calculate_crc32 */
  method CalculateCrc32(data: seq<bv8>) returns (r: bv32)
    ensures r == Crc32(data)
  {
    hide Absorb;
    var crc: bv32 := 0xFFFF_FFFF;
    var i := 0;
    while i < |data|
      invariant i <= |data| && Fold(Absorb, data[i..], crc) == Fold(Absorb, data, 0xFFFF_FFFF)
    {
      crc := AbsorbByte(crc, data[i]);
      assert data[i..][1..] == data[i + 1..];
      i := i + 1;
    }
    r := !crc;
  }

  /** The inner loop of calculate_crc32. */
  method AbsorbByte(start: bv32, byte: bv8) returns (crc: bv32)
    ensures crc == Absorb(start, byte)
  {
    crc := start ^ (byte as bv32);
    var j := 0;
    while j < 8
      invariant j <= 8 && Rounds(8 - j, crc) == Rounds(8, start ^ (byte as bv32))
    {
      crc := (crc >> 1) ^ (POLYNOMIAL & (0 - (crc & 1)));
      j := j + 1;
    }
    EightRounds(start ^ (byte as bv32));
  }

  function Rounds(n: nat, c: bv32): bv32 { if n == 0 then c else Rounds(n - 1, StepBit(c)) }

  lemma EightRounds(c: bv32)
    ensures Rounds(8, c) == StepByte(c)
  {
    var c1 := StepBit(c);
    var c2 := StepBit(c1);
    var c3 := StepBit(c2);
    var c4 := StepBit(c3);
    assert Rounds(8, c) == Rounds(7, c1) == Rounds(6, c2) == Rounds(5, c3) == Rounds(4, c4);
    var c5 := StepBit(c4);
    var c6 := StepBit(c5);
    var c7 := StepBit(c6);
    assert Rounds(4, c4) == Rounds(3, c5) == Rounds(2, c6) == Rounds(1, c7) == Rounds(0, StepBit(c7));
  }

  // ----- the step is a bijection -----

  lemma StepBitInjective(x: bv32, y: bv32)
    requires StepBit(x) == StepBit(y)
    ensures x == y
  {
  }

  lemma StepByteInjective(x: bv32, y: bv32)
    requires StepByte(x) == StepByte(y)
    ensures x == y
  {
    var x1, y1 := StepBit(x), StepBit(y);
    var x2, y2 := StepBit(x1), StepBit(y1);
    var x3, y3 := StepBit(x2), StepBit(y2);
    var x4, y4 := StepBit(x3), StepBit(y3);
    var x5, y5 := StepBit(x4), StepBit(y4);
    var x6, y6 := StepBit(x5), StepBit(y5);
    var x7, y7 := StepBit(x6), StepBit(y6);
    StepBitInjective(x7, y7);
    StepBitInjective(x6, y6);
    StepBitInjective(x5, y5);
    StepBitInjective(x4, y4);
    StepBitInjective(x3, y3);
    StepBitInjective(x2, y2);
    StepBitInjective(x1, y1);
    StepBitInjective(x, y);
  }

  // ----- bursts -----

  /** x and y agree in the bits of m. */
  predicate Agree(x: bv32, y: bv32, m: bv32) { (x ^ y) & m == 0 }

  /** Undoing one round: registers that agree in the bits of m afterwards, the top bit among them,
      agreed in the bits of m shifted up and in the low bit before. */
  lemma UndoBit(x: bv32, y: bv32, m: bv32)
    requires m & 0x8000_0000 != 0 && Agree(StepBit(x), StepBit(y), m)
    ensures Agree(x, y, (m << 1) | 1)
  {
  }

  lemma UndoByte(x: bv32, y: bv32, m: bv32, m1: bv32, m2: bv32, m3: bv32, m4: bv32, m5: bv32, m6: bv32, m7: bv32,
                 m8: bv32)
    requires m1 == (m << 1) | 1 && m2 == (m1 << 1) | 1 && m3 == (m2 << 1) | 1 && m4 == (m3 << 1) | 1
    requires m5 == (m4 << 1) | 1 && m6 == (m5 << 1) | 1 && m7 == (m6 << 1) | 1 && m8 == (m7 << 1) | 1
    requires m & 0x8000_0000 != 0 && m1 & 0x8000_0000 != 0 && m2 & 0x8000_0000 != 0 && m3 & 0x8000_0000 != 0
    requires m4 & 0x8000_0000 != 0 && m5 & 0x8000_0000 != 0 && m6 & 0x8000_0000 != 0 && m7 & 0x8000_0000 != 0
    requires Agree(StepByte(x), StepByte(y), m)
    ensures Agree(x, y, m8)
  {
    var x1, y1 := StepBit(x), StepBit(y);
    var x2, y2 := StepBit(x1), StepBit(y1);
    var x3, y3 := StepBit(x2), StepBit(y2);
    var x4, y4 := StepBit(x3), StepBit(y3);
    var x5, y5 := StepBit(x4), StepBit(y4);
    var x6, y6 := StepBit(x5), StepBit(y5);
    var x7, y7 := StepBit(x6), StepBit(y6);
    UndoBit(x7, y7, m);
    UndoBit(x6, y6, m1);
    UndoBit(x5, y5, m2);
    UndoBit(x4, y4, m3);
    UndoBit(x3, y3, m4);
    UndoBit(x2, y2, m5);
    UndoBit(x1, y1, m6);
    UndoBit(x, y, m7);
  }

  lemma Undo24(x: bv32, y: bv32)
    requires Agree(StepByte(x), StepByte(y), 0xFFFF_FF00)
    ensures Agree(x, y, 0xFFFF_00FF)
  {
    UndoByte(x, y, 0xFFFF_FF00, 0xFFFF_FE01, 0xFFFF_FC03, 0xFFFF_F807, 0xFFFF_F00F,
             0xFFFF_E01F, 0xFFFF_C03F, 0xFFFF_807F, 0xFFFF_00FF);
  }

  lemma Undo16(x: bv32, y: bv32)
    requires Agree(StepByte(x), StepByte(y), 0xFFFF_0000)
    ensures Agree(x, y, 0xFF00_00FF)
  {
    UndoByte(x, y, 0xFFFF_0000, 0xFFFE_0001, 0xFFFC_0003, 0xFFF8_0007, 0xFFF0_000F,
             0xFFE0_001F, 0xFFC0_003F, 0xFF80_007F, 0xFF00_00FF);
  }

  lemma Undo8(x: bv32, y: bv32)
    requires Agree(StepByte(x), StepByte(y), 0xFF00_0000)
    ensures Agree(x, y, 0xFF)
  {
    UndoByte(x, y, 0xFF00_0000, 0xFE00_0001, 0xFC00_0003, 0xF800_0007, 0xF000_000F,
             0xE000_001F, 0xC000_003F, 0x8000_007F, 0xFF);
  }

  /** The byte that is mixed in only touches the low byte. */
  lemma MixedByte(s: bv32, t: bv32, d: bv8, e: bv8, m: bv32)
    requires Agree(s ^ (d as bv32), t ^ (e as bv32), m)
    ensures Agree(s, t, m & 0xFFFF_FF00)
    ensures s == t && m & 0xFF == 0xFF ==> d == e
  {
  }

  // Undoing Absorb: what agreeing afterwards says about the registers and bytes before.

  lemma UndoAbsorb32(s: bv32, t: bv32, d: bv8, e: bv8)
    requires Absorb(s, d) == Absorb(t, e)
    ensures Agree(s, t, 0xFFFF_FF00) && (s == t ==> d == e)
  {
    StepByteInjective(s ^ (d as bv32), t ^ (e as bv32));
    MixedByte(s, t, d, e, 0xFFFF_FFFF);
  }

  lemma UndoAbsorb24(s: bv32, t: bv32, d: bv8, e: bv8)
    requires Agree(Absorb(s, d), Absorb(t, e), 0xFFFF_FF00)
    ensures Agree(s, t, 0xFFFF_0000) && (s == t ==> d == e)
  {
    Undo24(s ^ (d as bv32), t ^ (e as bv32));
    MixedByte(s, t, d, e, 0xFFFF_00FF);
  }

  lemma UndoAbsorb16(s: bv32, t: bv32, d: bv8, e: bv8)
    requires Agree(Absorb(s, d), Absorb(t, e), 0xFFFF_0000)
    ensures Agree(s, t, 0xFF00_0000) && (s == t ==> d == e)
  {
    Undo16(s ^ (d as bv32), t ^ (e as bv32));
    MixedByte(s, t, d, e, 0xFF00_00FF);
  }

  lemma UndoAbsorb8(s: bv32, t: bv32, d: bv8, e: bv8)
    requires Agree(Absorb(s, d), Absorb(t, e), 0xFF00_0000)
    ensures s == t ==> d == e
  {
    Undo8(s ^ (d as bv32), t ^ (e as bv32));
    MixedByte(s, t, d, e, 0xFF);
  }

  /** Four bytes are absorbed injectively. */
  lemma FourBytes(c: bv32, d0: bv8, d1: bv8, d2: bv8, d3: bv8, e0: bv8, e1: bv8, e2: bv8, e3: bv8)
    requires Absorb(Absorb(Absorb(Absorb(c, d0), d1), d2), d3) == Absorb(Absorb(Absorb(Absorb(c, e0), e1), e2), e3)
    ensures d0 == e0 && d1 == e1 && d2 == e2 && d3 == e3
  {
    var s1, t1 := Absorb(c, d0), Absorb(c, e0);
    var s2, t2 := Absorb(s1, d1), Absorb(t1, e1);
    var s3, t3 := Absorb(s2, d2), Absorb(t2, e2);
    UndoAbsorb32(s3, t3, d3, e3);
    UndoAbsorb24(s2, t2, d2, e2);
    UndoAbsorb16(s1, t1, d1, e1);
    UndoAbsorb8(c, c, d0, e0);
  }

  lemma AbsorbInjective(x: bv32, y: bv32, d: bv8)
    requires Absorb(x, d) == Absorb(y, d)
    ensures x == y
  {
    StepByteInjective(x ^ (d as bv32), y ^ (d as bv32));
    SameMix(x, y, d);
  }

  lemma SameMix(x: bv32, y: bv32, d: bv8)
    requires x ^ (d as bv32) == y ^ (d as bv32)
    ensures x == y
  {
  }

  /** Messages of any equal length that differ, and only inside one window of four consecutive bytes,
      have different checksums. */
  lemma BurstDetected(m: seq<bv8>, n: seq<bv8>, i: nat)
    requires BurstAt(m, n, i) && i < |m| && m != n
    ensures Crc32(m) != Crc32(n)
  {
    AbsorbIsInjective();
    AbsorbIsFourInjective();
    if Fold(Absorb, m, 0xFFFF_FFFF) == Fold(Absorb, n, 0xFFFF_FFFF) {
      BurstChangesFold(Absorb, m, n, i, 0xFFFF_FFFF);
    } else if Crc32(m) == Crc32(n) {
      SameComplement(Fold(Absorb, m, 0xFFFF_FFFF), Fold(Absorb, n, 0xFFFF_FFFF));
    }
  }

  lemma SameComplement(x: bv32, y: bv32)
    requires !x == !y
    ensures x == y
  {
  }

  lemma AbsorbIsInjective()
    ensures Injective(Absorb)
  {
    forall x, y, d | Absorb(x, d) == Absorb(y, d) ensures x == y { AbsorbInjective(x, y, d); }
  }

  lemma AbsorbIsFourInjective()
    ensures FourInjective(Absorb)
  {
    forall c, d0, d1, d2, d3, e0, e1, e2, e3 | Four(Absorb, c, d0, d1, d2, d3) == Four(Absorb, c, e0, e1, e2, e3)
      ensures d0 == e0 && d1 == e1 && d2 == e2 && d3 == e3
    {
      FourBytes(c, d0, d1, d2, d3, e0, e1, e2, e3);
    }
  }

  // ----- it is the CRC-32 of RFC 1952 -----

  function Mix(x: bv32, y: bv32): bv32 { x ^ y }

  function Half(c: bv32): bv32 { c >> 1 }
  predicate Odd(c: bv32) { c & 1 == 1 }

  lemma OddStep(c: bv32)
    requires Odd(c)
    ensures StepBit(c) == Mix(Half(c), POLYNOMIAL)
  {
  }

  lemma EvenStep(c: bv32)
    requires !Odd(c)
    ensures StepBit(c) == Half(c)
  {
  }

  lemma StepBitCases(c: bv32)
    ensures StepBit(c) == if Odd(c) then Mix(Half(c), POLYNOMIAL) else Half(c)
  {
    hide StepBit, Mix, Half, Odd;
    if Odd(c) { OddStep(c); } else { EvenStep(c); }
  }

  lemma MixBits(x: bv32, y: bv32)
    ensures Half(Mix(x, y)) == Mix(Half(x), Half(y))
    ensures Odd(Mix(x, y)) ==> Odd(x) != Odd(y)
    ensures Odd(x) && !Odd(y) ==> Odd(Mix(x, y))
    ensures !Odd(x) && Odd(y) ==> Odd(Mix(x, y))
  {
  }

  lemma MixThree(x: bv32, y: bv32, p: bv32)
    ensures Mix(Mix(x, p), y) == Mix(Mix(x, y), p) == Mix(x, Mix(y, p))
    ensures Mix(Mix(x, p), Mix(y, p)) == Mix(x, y)
  {
  }

  lemma StepBitLinear(x: bv32, y: bv32)
    ensures StepBit(Mix(x, y)) == Mix(StepBit(x), StepBit(y))
  {
    hide StepBit, Mix, Half, Odd;
    StepBitCases(x);
    StepBitCases(y);
    StepBitCases(Mix(x, y));
    MixBits(x, y);
    MixThree(Half(x), Half(y), POLYNOMIAL);
  }

  lemma StepByteLinear(x: bv32, y: bv32)
    ensures StepByte(Mix(x, y)) == Mix(StepByte(x), StepByte(y))
  {
    hide StepBit, Mix;
    var x1, y1 := StepBit(x), StepBit(y);
    var x2, y2 := StepBit(x1), StepBit(y1);
    var x3, y3 := StepBit(x2), StepBit(y2);
    var x4, y4 := StepBit(x3), StepBit(y3);
    var x5, y5 := StepBit(x4), StepBit(y4);
    var x6, y6 := StepBit(x5), StepBit(y5);
    StepBitLinear(x, y);
    StepBitLinear(x1, y1);
    StepBitLinear(x2, y2);
    StepBitLinear(x3, y3);
    StepBitLinear(x4, y4);
    StepBitLinear(x5, y5);
    StepBitLinear(x6, y6);
    StepBitLinear(StepBit(x6), StepBit(y6));
  }

  function Low(c: bv32): bv32 { c & 0xFF }
  function Above(c: bv32): bv32 { c & 0xFFFF_FF00 }
  function Shifted(c: bv32): bv32 { c >> 8 }

  lemma StepByteShifts(c: bv32)
    ensures StepByte(Above(c)) == Shifted(c)
  {
  }

  lemma Halves(c: bv32)
    ensures Mix(Above(c), Low(c)) == c
  {
  }

  /** A byte step shifts the register and mixes in what the low byte alone decides. */
  lemma StepByteTable(c: bv32)
    ensures StepByte(c) == Mix(Shifted(c), StepByte(Low(c)))
  {
    hide StepByte, Low, Above, Shifted, Mix;
    Halves(c);
    StepByteLinear(Above(c), Low(c));
    StepByteShifts(c);
  }

  // The entries of the table that the two laws below meet.

  lemma Table()
    ensures StepByte(0xFF) == 0x2D02_EF8D && StepByte(0x72) == 0xBE0B_1010 && StepByte(0) == 0
    ensures StepByte(0xED) == 0xDEBB_9EC5 && StepByte(0xCE) == 0x7CDC_EFB7 && StepByte(0x7A) == 0xB0D0_9822
    ensures StepByte(1) == 0x7707_3096 && StepByte(0x19) == 0x646B_A8C0 && StepByte(0x69) == 0x346E_D9FC
    ensures StepByte(0xD5) == 0xF6B9_265B && StepByte(0xA9) == 0xAF0A_1B4C && StepByte(0x58) == 0x65B0_D9C6
  {
  }

  lemma MixedLow(c: bv32, d: bv8)
    ensures Shifted(c ^ (d as bv32)) == Shifted(c)
  {
  }

  lemma AbsorbTable(c: bv32, d: bv8, low: bv32, next: bv32)
    requires Low(c ^ (d as bv32)) == low && Mix(Shifted(c), StepByte(low)) == next
    ensures Absorb(c, d) == next
  {
    hide StepByte, Low, Shifted, Mix;
    MixedLow(c, d);
    StepByteTable(c ^ (d as bv32));
  }

  /** The checksum of the digits 1 to 9 has its published value. */
  lemma CheckValue()
    ensures Crc32([0x31, 0x32, 0x33, 0x34, 0x35, 0x36, 0x37, 0x38, 0x39]) == 0xCBF4_3926
  {
    hide Absorb, StepByte;
    var one: seq<bv8>, five: seq<bv8>, nine: seq<bv8> := [0x31, 0x32, 0x33, 0x34], [0x35, 0x36, 0x37, 0x38], [0x39];
    CheckSteps();
    FoldConcat(Absorb, one, five + nine, 0xFFFF_FFFF);
    FoldConcat(Absorb, five, nine, 0x641C_1F5C);
    FoldFour(Absorb, one, 0xFFFF_FFFF);
    FoldFour(Absorb, five, 0x641C_1F5C);
    assert nine[1..] == [];
    assert Fold(Absorb, nine, 0x651F_2550) == Fold(Absorb, [], Absorb(0x651F_2550, 0x39));
    assert one + (five + nine) == [0x31, 0x32, 0x33, 0x34, 0x35, 0x36, 0x37, 0x38, 0x39];
  }

  lemma CheckSteps()
    ensures Absorb(0xFFFF_FFFF, 0x31) == 0x7C23_1048 && Absorb(0x7C23_1048, 0x32) == 0xB0AC_BB32
    ensures Absorb(0xB0AC_BB32, 0x33) == 0x77B7_9C2D && Absorb(0x77B7_9C2D, 0x34) == 0x641C_1F5C
    ensures Absorb(0x641C_1F5C, 0x35) == 0x340A_C5E3 && Absorb(0x340A_C5E3, 0x36) == 0xF68D_2C9E
    ensures Absorb(0xF68D_2C9E, 0x37) == 0xAFFC_9660 && Absorb(0xAFFC_9660, 0x38) == 0x651F_2550
    ensures Absorb(0x651F_2550, 0x39) == 0x340B_C6D9
  {
    hide Absorb, StepByte;
    Table();
    AbsorbTable(0xFFFF_FFFF, 0x31, 0xCE, 0x7C23_1048);
    AbsorbTable(0x7C23_1048, 0x32, 0x7A, 0xB0AC_BB32);
    AbsorbTable(0xB0AC_BB32, 0x33, 1, 0x77B7_9C2D);
    AbsorbTable(0x77B7_9C2D, 0x34, 0x19, 0x641C_1F5C);
    AbsorbTable(0x641C_1F5C, 0x35, 0x69, 0x340A_C5E3);
    AbsorbTable(0x340A_C5E3, 0x36, 0xD5, 0xF68D_2C9E);
    AbsorbTable(0xF68D_2C9E, 0x37, 0xA9, 0xAFFC_9660);
    AbsorbTable(0xAFFC_9660, 0x38, 0x58, 0x651F_2550);
    AbsorbTable(0x651F_2550, 0x39, 0x69, 0x340B_C6D9);
  }

  // The register after each byte of the checksum's own.

  function After1(s: bv32): bv32 { (s >> 8) ^ 0x2D02_EF8D }
  function After2(s: bv32): bv32 { (s >> 16) ^ 0xBE26_12FF }
  function After3(s: bv32): bv32 { (s >> 24) ^ 0xBE_2612 }

  lemma Residue1(s: bv32)
    ensures Absorb(s, (!s & 0xFF) as bv8) == After1(s)
  {
    hide Absorb, StepByte;
    Table();
    AbsorbTable(s, (!s & 0xFF) as bv8, 0xFF, After1(s));
  }

  lemma Residue2(s: bv32)
    ensures Absorb(After1(s), ((!s >> 8) & 0xFF) as bv8) == After2(s)
  {
    hide Absorb, StepByte;
    Table();
    AbsorbTable(After1(s), ((!s >> 8) & 0xFF) as bv8, 0x72, After2(s));
  }

  lemma Residue3(s: bv32)
    ensures Absorb(After2(s), ((!s >> 16) & 0xFF) as bv8) == After3(s)
  {
    hide Absorb, StepByte;
    Table();
    AbsorbTable(After2(s), ((!s >> 16) & 0xFF) as bv8, 0, After3(s));
  }

  lemma Residue4(s: bv32)
    ensures Absorb(After3(s), ((!s >> 24) & 0xFF) as bv8) == 0xDEBB_20E3
  {
    hide Absorb, StepByte;
    Table();
    AbsorbTable(After3(s), ((!s >> 24) & 0xFF) as bv8, 0xED, 0xDEBB_20E3);
  }

  lemma ResidueSteps(s: bv32)
    ensures Fold(Absorb, Word(!s), s) == 0xDEBB_20E3
  {
    FoldFour(Absorb, Word(!s), s);
    Residue1(s);
    Residue2(s);
    Residue3(s);
    Residue4(s);
    hide *;
    hide Absorb, After1, After2, After3;
  }

  /** A message followed by its own checksum, little end first, always has the same checksum. */
  lemma Residue(m: seq<bv8>)
    ensures Crc32(m + Word(Crc32(m))) == 0x2144_DF1C
  {
    hide Absorb, Word;
    var s := Fold(Absorb, m, 0xFFFF_FFFF);
    FoldConcat(Absorb, m, Word(!s), 0xFFFF_FFFF);
    ResidueSteps(s);
  }
}
