/** Bytes, and the bits of a byte that a frame header and a mask use. */
module Bits {

  type Byte = x: int | 0 <= x < 0x100

  predicate TopBit(b: Byte) { b >= 0x80 }

  function LowSeven(b: Byte): Byte { b % 0x80 }

  function Reserved(b: Byte): Byte { b / 0x10 % 8 }

  function LowFour(b: Byte): Byte { b % 0x10 }

  /** The arithmetic forms above are what the masks 0x80, 0x7F, 0x70 and 0x0F select. */
  lemma {:induction false} TopBitForm(x: bv8)
    ensures TopBit(x as int) <==> x & 0x80 != 0
  {
    assert x >= 0x80 <==> x & 0x80 != 0;
  }

  lemma {:induction false} LowSevenForm(x: bv8)
    ensures LowSeven(x as int) == (x & 0x7F) as int
  {
    assert x & 0x80 == 0 ==> x == x & 0x7F;
    assert x & 0x80 != 0 ==> x == (x & 0x7F) + 0x80;
    TopBitForm(x);
  }

  lemma LowBitForms(x: bv8)
    ensures Reserved(x as int) == 0 <==> x & 0x70 == 0
    ensures LowFour(x as int) == (x & 0x0F) as int
  {
  }

  function Pow2(k: nat): nat {
    if k == 0 then 1 else 2 * Pow2(k - 1)
  }

  /** Exclusive or of the lowest bits. */
  function XorLow(a: nat, b: nat): (bit: nat)
    ensures bit < 2
  {
    if a % 2 == b % 2 then 0 else 1
  }

  /** Exclusive or of the `k` low bits. */
  function XorBits(a: nat, b: nat, k: nat): (r: nat)
    ensures r < Pow2(k)
  {
    if k == 0 then 0 else 2 * XorBits(a / 2, b / 2, k - 1) + XorLow(a, b)
  }

  lemma HalfAndBit(x: nat, bit: nat)
    requires bit < 2
    ensures (2 * x + bit) / 2 == x && (2 * x + bit) % 2 == bit
  {
  }

  lemma XorLowTwice(a: nat, b: nat)
    ensures XorLow(XorLow(a, b), b) == a % 2
  {
  }

  lemma {:induction false} XorBitsTwice(a: nat, b: nat, k: nat)
    requires a < Pow2(k)
    ensures XorBits(XorBits(a, b, k), b, k) == a
  {
    if k > 0 {
      HalfAndBit(XorBits(a / 2, b / 2, k - 1), XorLow(a, b));
      XorLowTwice(a, b);
      XorBitsTwice(a / 2, b / 2, k - 1);
    }
  }

  lemma {:induction false} Pow2At8()
    ensures Pow2(8) == 0x100
  {
    assert Pow2(4) == 0x10;
    assert Pow2(8) == 0x10 * Pow2(4);
  }

  function Xor(a: Byte, b: Byte): Byte {
    Pow2At8();
    XorBits(a, b, 8)
  }

  lemma {:induction false} XorTwice(a: Byte, b: Byte)
    ensures Xor(Xor(a, b), b) == a
  {
    Pow2At8();
    XorBitsTwice(a, b, 8);
  }

  // ----- the same operation on bit vectors -----

  lemma {:induction false} HalfForm(x: bv8)
    ensures x as int / 2 == (x >> 1) as int && x as int % 2 == (x & 1) as int
    ensures x as int == 2 * ((x >> 1) as int) + (x & 1) as int
  {
  }

  lemma {:induction false} XorHalves(x: bv8, y: bv8)
    ensures (x ^ y) >> 1 == (x >> 1) ^ (y >> 1)
    ensures (x ^ y) & 1 == (if x & 1 == y & 1 then 0 else 1)
  {
  }

  lemma {:induction false} XorLowForm(x: bv8, y: bv8)
    ensures XorLow(x as int, y as int) == ((x ^ y) & 1) as int
  {
    HalfForm(x);
    HalfForm(y);
    XorHalves(x, y);
  }

  /** The value of a machine byte. */
  function Value(x: bv8): Byte {
    x as int
  }

  function Half(x: bv8): bv8 {
    x >> 1
  }

  function BitXor(x: bv8, y: bv8): bv8 {
    x ^ y
  }

  /** One bit of the recursion, with the bit-vector halves in place of the quotients. */
  lemma {:induction false} XorStepForm(x: bv8, y: bv8)
    ensures Value(x) / 2 == Value(Half(x)) && Value(y) / 2 == Value(Half(y))
    ensures Value(BitXor(x, y)) == 2 * Value(BitXor(Half(x), Half(y))) + XorLow(Value(x), Value(y))
  {
    XorLowForm(x, y);
    HalfForm(x);
    HalfForm(y);
    HalfForm(x ^ y);
    XorHalves(x, y);
  }

  lemma ZeroForm(x: bv8, y: bv8)
    requires Value(x) == 0 && Value(y) == 0
    ensures Value(BitXor(x, y)) == 0
  {
    assert x == 0 && y == 0;
  }

  lemma {:induction false} XorBitsForm(x: bv8, y: bv8, k: nat)
    requires Value(x) < Pow2(k) && Value(y) < Pow2(k)
    ensures XorBits(Value(x), Value(y), k) == Value(BitXor(x, y))
  {
    if k == 0 {
      ZeroForm(x, y);
    } else {
      XorStepForm(x, y);
      hide Value, Half, BitXor, XorLow;
      XorBitsForm(Half(x), Half(y), k - 1);
    }
  }

  /** `Xor` is the machine's exclusive or of two bytes. */
  lemma {:induction false} XorForm(x: bv8, y: bv8)
    ensures Xor(Value(x), Value(y)) == Value(x ^ y)
  {
    Pow2At8();
    XorBitsForm(x, y, 8);
  }
}
