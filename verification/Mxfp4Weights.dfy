/**
 * The weight tables of tools/fused_gemv.c.  A weight is an E2M1 code scaled by an E8M0 byte (OCP
 * Microscaling Formats v1.0, sections 5.3.3 and 5.4.1).  The kernels obtain its binary32 pattern by
 * integer addition on the top halfword; the scalar reference multiplies.  Section 3.4 of IEEE 754-2019
 * gives patterns their values, and decides for which scale bytes the two agree.
 */
module Mxfp4Weights {

  type Byte = b: nat | b < 256
  type Half = h: nat | h < 0x1_0000
  type Word = w: nat | w < 0x1_0000_0000
  type Code = c: nat | c < 16

  // ---------------------------------------------------------------- the halfword table

  /** Exponent of the E2M1 magnitudes 0.5, 1, 1.5, 2, 3, 4 and 6. */
  function Exponent(c: Code): int
    requires c % 8 != 0
  {
    var m := c % 8;
    if m == 1 then -1 else m / 2 - 1
  }

  /** The fraction bit: set for 1.5, 3 and 6. */
  function FractionBit(c: Code): nat {
    if c % 8 <= 1 then 0 else c % 2
  }

  /** The 16 base halfwords: the top half of the binary32 pattern of each code. */
  const BASE: seq<Half> := [
    0x0000, 0x3F00, 0x3F80, 0x3FC0, 0x4000, 0x4040, 0x4080, 0x40C0,
    0x8000, 0xBF00, 0xBF80, 0xBFC0, 0xC000, 0xC040, 0xC080, 0xC0C0]

  /** A signed sum reduced modulo 2^16, as a conversion to a 16-bit unsigned type does. */
  function ToHalf(x: int): Half { x % 0x1_0000 }

  /** One entry of the scale table: the zero codes are masked, the others have the exponent added. */
  function Entry(scale: Byte, c: Code): Half {
    ToHalf(BASE[c] + if c % 8 == 0 then 0 else ToHalf((scale - 127) * 128))
  }

  /** The weight pattern the kernels multiply with. */
  function Weight(scale: Byte, c: Code): Word { Entry(scale, c) * 0x1_0000 }

  lemma BaseFields(c: Code)
    ensures BASE[c] == c / 8 * 0x8000 + if c % 8 == 0 then 0 else (Exponent(c) + 127) * 128 + FractionBit(c) * 64
  {
  }

  /** For nonzero codes the table adds the scale to the exponent field, and only then may wrap. */
  lemma EntryFields(scale: Byte, c: Code)
    requires c % 8 != 0
    ensures Entry(scale, c) == ToHalf(c / 8 * 0x8000 + (Exponent(c) + scale) * 128 + FractionBit(c) * 64)
  {
    BaseFields(c);
  }

  // ---------------------------------------------------------------- binary32 values

  datatype Value = NaN | Infinite(negative: bool) | Finite(negative: bool, magnitude: real)

  function Pow2(k: int): real
    decreases if k < 0 then -k else k
  {
    if k == 0 then 1.0 else if k > 0 then 2.0 * Pow2(k - 1) else Pow2(k + 1) / 2.0
  }

  lemma Pow2Doubles(k: int)
    ensures Pow2(k + 1) == 2.0 * Pow2(k)
  {
  }

  /** A product of reals; its own name lets proofs treat it as a whole. */
  function Times(a: real, b: real): real { a * b }

  function Sign(w: Word): bool { w >= 0x8000_0000 }
  function ExponentField(w: Word): nat { (w / 0x80_0000) % 0x100 }
  function FractionField(w: Word): nat { w % 0x80_0000 }

  /** The value of a binary32 pattern. */
  function Decode(w: Word): Value {
    if ExponentField(w) == 255 then (if FractionField(w) == 0 then Infinite(Sign(w)) else NaN)
    else if ExponentField(w) == 0 then Finite(Sign(w), Times(Pow2(-126), FractionField(w) as real / 8388608.0))
    else Finite(Sign(w), Times(Pow2(ExponentField(w) - 127), 1.0 + FractionField(w) as real / 8388608.0))
  }

  /** The product of two values before rounding; magnitudes from 2^128 on overflow to infinity. */
  function Product(a: Value, b: Value): Value {
    if a.NaN? || b.NaN? then NaN
    else if a.Infinite? || b.Infinite? then
      if a == Finite(a.negative, 0.0) || b == Finite(b.negative, 0.0) then NaN else Infinite(a.negative != b.negative)
    else if Times(a.magnitude, b.magnitude) >= Pow2(128) then Infinite(a.negative != b.negative)
    else Finite(a.negative != b.negative, Times(a.magnitude, b.magnitude))
  }

  /** The E2M1 magnitudes of the scalar table. */
  const MAGNITUDE: seq<real> := [0.0, 0.5, 1.0, 1.5, 2.0, 3.0, 4.0, 6.0]

  function CodeValue(c: Code): Value { Finite(c >= 8, MAGNITUDE[c % 8]) }

  /** The scale as the reference reads it: the byte in the exponent field. */
  function ScalePattern(scale: Byte): Word { scale * 0x80_0000 }

  function ScaledValue(scale: Byte, c: Code): Value { Product(CodeValue(c), Decode(ScalePattern(scale))) }

  // ---------------------------------------------------------------- the multiplied weight

  function SignBit(c: Code): nat { if c >= 8 then 0x8000_0000 else 0 }

  /** The pattern a binary32 multiplication of a code by a scale returns. */
  function MultipliedWeight(scale: Byte, c: Code): Word {
    if c % 8 == 0 then (if scale == 255 then 0x7FC0_0000 else SignBit(c))
    else if scale == 0 then SignBit(c)
    else if scale == 255 || Exponent(c) + scale >= 255 then SignBit(c) + 0x7F80_0000
    else if Exponent(c) + scale <= 0 then SignBit(c) + 0x40_0000 + FractionBit(c) * 0x20_0000
    else SignBit(c) + (Exponent(c) + scale) * 0x80_0000 + FractionBit(c) * 0x40_0000
  }

  lemma {:induction false} Pow2Positive(k: int)
    ensures Pow2(k) > 0.0
    decreases if k < 0 then -k else k
  {
    if k > 0 {
      Pow2Positive(k - 1);
    } else if k < 0 {
      Pow2Positive(k + 1);
    }
  }

  lemma {:induction false} Pow2Grows(a: int, b: int)
    requires a <= b
    ensures Pow2(a) <= Pow2(b)
    decreases b - a
  {
    if a < b {
      Pow2Grows(a, b - 1);
      Pow2Doubles(b - 1);
      Pow2Positive(b - 1);
    }
  }

  /** The value of a scale byte is the power of two it stands for, except at both ends. */
  lemma ScaleValue(scale: Byte)
    ensures Decode(ScalePattern(scale)) ==
      if scale == 0 then Finite(false, 0.0) else if scale == 255 then Infinite(false)
        else Finite(false, Pow2(scale - 127))
  {
    assert ExponentField(ScalePattern(scale)) == scale && FractionField(ScalePattern(scale)) == 0;
  }

  function Mantissa(c: Code): real { if FractionBit(c) == 1 then 1.5 else 1.0 }

  /** The magnitude of a code is a power of two or one and a half of it. */
  lemma CodeMagnitude(c: Code)
    requires c % 8 != 0
    ensures MAGNITUDE[c % 8] == Times(Pow2(Exponent(c)), Mantissa(c))
  {
    assert Pow2(-1) == 0.5 && Pow2(1) == 2.0 && Pow2(2) == 2.0 * Pow2(1);
  }

  /** The fields of an assembled pattern. */
  lemma Fields(c: Code, e: nat, f: nat) returns (w: Word)
    requires e < 256 && f < 0x80_0000
    ensures w == SignBit(c) + e * 0x80_0000 + f
    ensures Sign(w) == (c >= 8) && ExponentField(w) == e && FractionField(w) == f
  {
    w := SignBit(c) + e * 0x80_0000 + f;
  }

  lemma NearbyPowers(e: int, k: int)
    requires -1 <= e <= 2
    ensures Pow2(e) * Pow2(k) == Pow2(e + k)
  {
    Pow2Doubles(k - 1);
    Pow2Doubles(k);
    Pow2Doubles(k + 1);
    assert Pow2(-1) == 0.5 && Pow2(1) == 2.0 && Pow2(2) == 4.0;
  }

  lemma Rearrange(p: real, m: real, q: real)
    ensures Times(Times(p, m), q) == Times(p * q, m)
  {
  }

  /** A nonzero code times a power of two, before rounding. */
  lemma ScaledMagnitude(scale: Byte, c: Code)
    requires c % 8 != 0 && 1 <= scale <= 254
    ensures Times(MAGNITUDE[c % 8], Pow2(scale - 127)) == Times(Pow2(Exponent(c) + scale - 127), Mantissa(c))
  {
    CodeMagnitude(c);
    NearbyPowers(Exponent(c), scale - 127);
    Rearrange(Pow2(Exponent(c)), Mantissa(c), Pow2(scale - 127));
  }

  /** Whether the product reaches 2^128 depends on the exponent alone. */
  lemma OverflowsAt(scale: Byte, c: Code)
    requires c % 8 != 0 && 1 <= scale <= 254
    ensures Times(MAGNITUDE[c % 8], Pow2(scale - 127)) >= Pow2(128) <==> Exponent(c) + scale >= 255
  {
    ScaledMagnitude(scale, c);
    var e := Exponent(c) + scale - 127;
    Pow2Positive(e);
    if e >= 128 {
      Pow2Grows(128, e);
    } else {
      Pow2Grows(e, 127);
      Pow2Doubles(127);
      Pow2Positive(127);
    }
  }

  /** The product of a nonzero code and a finite scale. */
  lemma FiniteProduct(scale: Byte, c: Code)
    requires c % 8 != 0 && 1 <= scale <= 254
    ensures ScaledValue(scale, c) ==
      if Exponent(c) + scale >= 255 then Infinite(c >= 8)
      else Finite(c >= 8, Times(Pow2(Exponent(c) + scale - 127), Mantissa(c)))
  {
    ScaleValue(scale);
    ScaledMagnitude(scale, c);
    OverflowsAt(scale, c);
    hide Pow2, Decode, Exponent, FractionBit, Times;
  }

  /** The value of a pattern assembled from its fields. */
  lemma DecodeFields(c: Code, e: nat, f: nat)
    requires e < 256 && f < 0x80_0000
    ensures Decode(SignBit(c) + e * 0x80_0000 + f) ==
      if e == 255 then (if f == 0 then Infinite(c >= 8) else NaN)
      else if e == 0 then Finite(c >= 8, Times(Pow2(-126), f as real / 8388608.0))
      else Finite(c >= 8, Times(Pow2(e - 127), 1.0 + f as real / 8388608.0))
  {
    var w := Fields(c, e, f);
    hide Pow2, SignBit, Sign, ExponentField, FractionField;
  }

  lemma NormalProduct(scale: Byte, c: Code)
    requires c % 8 != 0 && 1 <= scale <= 254 && 1 <= Exponent(c) + scale <= 254
    ensures Decode(MultipliedWeight(scale, c)) == ScaledValue(scale, c)
  {
    FiniteProduct(scale, c);
    var f := FractionBit(c) * 0x40_0000;
    assert 1.0 + f as real / 8388608.0 == Mantissa(c);
    DecodeFields(c, Exponent(c) + scale, f);
    hide Pow2, Decode, ScaledValue, FractionBit, Exponent, SignBit, Times, Mantissa;
  }

  /** Only the code 0.5 at the scale 1 has a subnormal product. */
  lemma SubnormalProduct(scale: Byte, c: Code)
    requires c % 8 != 0 && 1 <= scale <= 254 && Exponent(c) + scale <= 0
    ensures scale == 1 && c % 8 == 1
    ensures Decode(MultipliedWeight(scale, c)) == ScaledValue(scale, c)
    ensures ScaledValue(scale, c) != Decode(SignBit(c))
  {
    FiniteProduct(scale, c);
    DecodeFields(c, 0, 0x40_0000);
    DecodeFields(c, 0, 0);
    Pow2Doubles(-127);
    Pow2Positive(-127);
    hide Decode, ScaledValue, SignBit;
    assert 0x40_0000 as real / 8388608.0 == 0.5;
  }

  /** Products from 2^128 on, and products with the infinite scale. */
  lemma LargeProduct(scale: Byte, c: Code)
    requires c % 8 != 0 && 1 <= scale && (scale == 255 || Exponent(c) + scale >= 255)
    ensures Decode(MultipliedWeight(scale, c)) == ScaledValue(scale, c) == Infinite(c >= 8)
  {
    DecodeFields(c, 255, 0);
    if scale <= 254 {
      FiniteProduct(scale, c);
    } else {
      ScaleValue(scale);
    }
    hide Pow2, Decode, SignBit;
  }

  lemma ZeroProduct(scale: Byte, c: Code)
    requires c % 8 == 0 || scale == 0
    ensures Decode(MultipliedWeight(scale, c)) == ScaledValue(scale, c)
    ensures ScaledValue(scale, c) == if scale == 255 then NaN else Finite(c >= 8, 0.0)
  {
    ScaleValue(scale);
    Pow2Positive(128);
    var w := Fields(c, 0, 0);
    var n := Fields(0, 255, 0x40_0000);
  }

  /** The multiplied weight is the correctly rounded product for every code and every scale byte. */
  lemma MultipliedIsProduct(scale: Byte, c: Code)
    ensures Decode(MultipliedWeight(scale, c)) == ScaledValue(scale, c)
  {
    if c % 8 == 0 || scale == 0 {
      ZeroProduct(scale, c);
    } else if scale == 255 || Exponent(c) + scale >= 255 {
      LargeProduct(scale, c);
    } else if Exponent(c) + scale <= 0 {
      SubnormalProduct(scale, c);
    } else {
      NormalProduct(scale, c);
    }
  }

  // ---------------------------------------------------------------- where the table agrees

  /** In the middle range no exponent field leaves 1 .. 254, and the table entry is the multiplied weight. */
  lemma TableInRange(scale: Byte, c: Code)
    requires 2 <= scale <= 252
    ensures Weight(scale, c) == MultipliedWeight(scale, c)
  {
    BaseFields(c);
    if c % 8 != 0 {
      EntryFields(scale, c);
      assert 1 <= Exponent(c) + scale <= 254;
    }
  }

  /** Scales 253 and 254 push the code 6 past the largest exponent. */
  lemma TableOverflows(scale: Byte)
    requires 253 <= scale <= 254
    ensures Decode(Weight(scale, 7)) != ScaledValue(scale, 7)
  {
    EntryFields(scale, 7);
    assert Weight(scale, 7) == if scale == 253 then 0x7FC0_0000 else 0x8040_0000;
    LargeProduct(scale, 7);
    DecodeFields(0, 255, 0x40_0000);
    DecodeFields(8, 0, 0x40_0000);
    hide Decode, ScaledValue, Weight;
  }

  /** The scale 1 loses the subnormal 0.5 * 2^-126. */
  lemma TableUnderflows()
    ensures Decode(Weight(1, 1)) != ScaledValue(1, 1)
  {
    EntryFields(1, 1);
    assert Weight(1, 1) == 0 == SignBit(1);
    hide Decode, ScaledValue, Weight, SignBit;
    SubnormalProduct(1, 1);
  }

  /** The scale 0 borrows from the sign bit. */
  lemma TableBorrows()
    ensures Decode(Weight(0, 1)) != ScaledValue(0, 1)
  {
    EntryFields(0, 1);
    assert Weight(0, 1) == 0xFF80_0000 == SignBit(8) + 255 * 0x80_0000 + 0;
    hide *;
    ZeroProduct(0, 1);
    DecodeFields(8, 255, 0);
  }

  /** The zero codes stay zero at the scale 255, where the product is not a number. */
  lemma TableMissesNaN()
    ensures Decode(Weight(255, 0)) != ScaledValue(255, 0)
  {
    assert Weight(255, 0) == 0 == SignBit(0) + 0 * 0x80_0000 + 0;
    hide *;
    ZeroProduct(255, 0);
    DecodeFields(0, 0, 0);
  }

  /** The table holds the products of all sixteen codes exactly for the scale bytes 2 .. 252. */
  lemma TableIsProductExactly(scale: Byte)
    ensures (forall c: Code :: Decode(Weight(scale, c)) == ScaledValue(scale, c)) <==> 2 <= scale <= 252
  {
    hide *;
    if 2 <= scale <= 252 {
      forall c: Code ensures Decode(Weight(scale, c)) == ScaledValue(scale, c) {
        TableInRange(scale, c);
        MultipliedIsProduct(scale, c);
      }
    } else {
      TableOverflows(if scale == 254 then 254 else 253);
      TableUnderflows();
      TableBorrows();
      TableMissesNaN();
    }
  }
}
