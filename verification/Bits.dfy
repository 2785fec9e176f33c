/** Single bits of a byte, and a 32-bit word as four bytes. */
module Bits {
  function Mask(k: nat): bv8
    requires k < 8
  {
    (1 as bv8) << k
  }

  predicate Bit(b: bv8, k: nat)
    requires k < 8
  {
    b & Mask(k) != 0
  }

  lemma MaskValue(k: nat)
    requires k < 8
    ensures Mask(k) == [1, 2, 4, 8, 16, 32, 64, 128][k]
  {
    if k == 0 {} else if k == 1 {} else if k == 2 {} else if k == 3 {}
    else if k == 4 {} else if k == 5 {} else if k == 6 {}
  }

  lemma SetBit(b: bv8, k: nat, j: nat)
    requires k < 8 && j < 8
    ensures Bit(b | Mask(k), j) <==> j == k || Bit(b, j)
  {
    MaskValue(k);
    MaskValue(j);
  }

  lemma ClearBit(b: bv8, k: nat, j: nat)
    requires k < 8 && j < 8
    ensures Bit(b & !Mask(k), j) <==> j != k && Bit(b, j)
  {
    MaskValue(k);
    MaskValue(j);
  }

  lemma FullByte(b: bv8)
    ensures b == 0xFF <==> forall k :: 0 <= k < 8 ==> Bit(b, k)
  {
    MaskValue(0); MaskValue(1); MaskValue(2); MaskValue(3);
    MaskValue(4); MaskValue(5); MaskValue(6); MaskValue(7);
    if forall k :: 0 <= k < 8 ==> Bit(b, k) {
      assert Bit(b, 0) && Bit(b, 1) && Bit(b, 2) && Bit(b, 3) && Bit(b, 4) && Bit(b, 5) && Bit(b, 6) && Bit(b, 7);
    }
    if b == 0xFF {
      forall k | 0 <= k < 8 ensures Bit(b, k) { MaskValue(k); }
    }
  }

  /** The 32-bit word the processor reads from four bytes. */
  function Dword(b0: bv8, b1: bv8, b2: bv8, b3: bv8): bv32 {
    (b0 as bv32) | ((b1 as bv32) << 8) | ((b2 as bv32) << 16) | ((b3 as bv32) << 24)
  }

  /** Its bytes in memory, little end first. */
  function Word(w: bv32): seq<bv8> {
    [(w & 0xFF) as bv8, ((w >> 8) & 0xFF) as bv8, ((w >> 16) & 0xFF) as bv8, ((w >> 24) & 0xFF) as bv8]
  }

  lemma WordRoundTrip(w: bv32)
    ensures Dword(Word(w)[0], Word(w)[1], Word(w)[2], Word(w)[3]) == w
  {
  }

  lemma FullDword(b0: bv8, b1: bv8, b2: bv8, b3: bv8)
    ensures Dword(b0, b1, b2, b3) == 0xFFFF_FFFF <==> b0 == 0xFF && b1 == 0xFF && b2 == 0xFF && b3 == 0xFF
  {
  }
}
