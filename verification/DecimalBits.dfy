/** The two words of a decimal128: sign, exponent and coefficient in the binary integer encoding. */
module DecimalBits {
  import opened Bytes

  const EXPONENT_MAX: int := 6111
  const EXPONENT_MIN: int := -6176
  const EXPONENT_BIAS: int := 6176
  const MAX_DIGITS: int := 34
  const TWO_49: int := 0x2_0000_0000_0000
  const TWO_14: int := 0x4000
  const TWO_113: int := TWO_49 * TWO_64
  const TEN_17: int := 100_000_000_000_000_000
  const TEN_34: int := TEN_17 * TEN_17

  datatype Decimal128 = Decimal128(high: uint64, low: uint64)

  datatype Denoted = Finite(neg: bool, coefficient: nat, exponent: int) | Infinity(neg: bool) | NaN

  /** The five bits behind the sign. */
  function Combination(d: Decimal128): nat { d.high / TWO_32 / 0x400_0000 % 32 }

  /** Whether the two bits behind the sign are set: infinities, NaNs and oversized coefficients. */
  predicate Special(d: Decimal128) { Combination(d) / 8 == 3 }

  function BiasedExponent(d: Decimal128): nat {
    if Special(d) then d.high / TWO_32 / 0x8000 % TWO_14 else d.high / TWO_32 / 0x2_0000 % TWO_14
  }

  /** The top 32 bits of the coefficient: 14 stored ones under three or four more. */
  function TopPart(d: Decimal128): nat {
    var w := d.high / TWO_32;
    w % TWO_14 + TWO_14 * if Special(d) then 8 + w / TWO_14 % 2 else w / TWO_14 % 8
  }

  function RawCoefficient(d: Decimal128): nat {
    (TopPart(d) * TWO_32 + d.high % TWO_32) * TWO_64 + d.low
  }

  /** What the bits mean; a coefficient of more than 113 bits counts as zero. */
  function Meaning(d: Decimal128): Denoted {
    var neg := d.high >= TWO_63;
    if Combination(d) == 30 then Infinity(neg)
    else if Combination(d) == 31 then NaN
    else Finite(neg, if TopPart(d) >= 0x2_0000 then 0 else RawCoefficient(d), BiasedExponent(d) - EXPONENT_BIAS)
  }

  function SignBit(neg: bool): int { if neg then TWO_63 else 0 }

  function Pack(neg: bool, coefficient: nat, exponent: int): Decimal128
    requires coefficient < TWO_113 && EXPONENT_MIN <= exponent <= EXPONENT_MAX
  {
    Decimal128(SignBit(neg) + (exponent + EXPONENT_BIAS) * TWO_49 + coefficient / TWO_64, coefficient % TWO_64)
  }

  const NAN: Decimal128 := Decimal128(0x7c00_0000_0000_0000, 0)

  function Inf(neg: bool): Decimal128 { Decimal128(0x7800_0000_0000_0000 + SignBit(neg), 0) }

  /** A word is its sign, its 14 exponent bits and the 49 bits below them. */
  lemma Fields(high: uint64, s: nat, e: nat, c: nat)
    requires s <= 1 && e < 12288 && c < TWO_49 && high == s * TWO_63 + e * TWO_49 + c
    ensures var d := Decimal128(high, 0);
            && !Special(d) && BiasedExponent(d) == e
            && TopPart(d) == c / TWO_32 && high % TWO_32 == c % TWO_32
            && (high >= TWO_63 <==> s == 1)
  {
    var w, t := high / TWO_32, c / TWO_32;
    assert c == t * TWO_32 + c % TWO_32 && t < 0x2_0000;
    assert w == s * 0x8000_0000 + e * 0x2_0000 + t;
    assert w / 0x2_0000 == s * 0x4000 + e;
    assert w / 0x2_0000 % TWO_14 == e;
    assert w / 0x400_0000 == s * 32 + e / 512;
    assert Combination(Decimal128(high, 0)) == e / 512 < 24;
    assert w / TWO_14 == s * 0x2_0000 + e * 8 + t / TWO_14;
    assert w % TWO_14 == t % TWO_14;
  }

  lemma FieldsIgnoreLow(high: uint64, low: uint64)
    ensures var d, z := Decimal128(high, low), Decimal128(high, 0);
            Special(d) == Special(z) && BiasedExponent(d) == BiasedExponent(z) && TopPart(d) == TopPart(z)
            && Combination(d) == Combination(z)
  {}

  lemma PackMeaning(neg: bool, coefficient: nat, exponent: int)
    requires coefficient < TWO_113 && EXPONENT_MIN <= exponent <= EXPONENT_MAX
    ensures Meaning(Pack(neg, coefficient, exponent)) == Finite(neg, coefficient, exponent)
  {
    var d := Pack(neg, coefficient, exponent);
    var c := coefficient / TWO_64;
    Fields(d.high, if neg then 1 else 0, exponent + EXPONENT_BIAS, c);
    FieldsIgnoreLow(d.high, d.low);
    assert TopPart(d) * TWO_32 + d.high % TWO_32 == c;
  }

  /** A finite number whose coefficient fits is stored in exactly one way. */
  lemma MeaningPack(d: Decimal128)
    requires !Special(d)
    ensures RawCoefficient(d) < TWO_113 && EXPONENT_MIN <= BiasedExponent(d) - EXPONENT_BIAS <= EXPONENT_MAX
    ensures Pack(d.high >= TWO_63, RawCoefficient(d), BiasedExponent(d) - EXPONENT_BIAS) == d
  {
    var s, rest := d.high / TWO_63, d.high % TWO_63;
    var e, c := rest / TWO_49, rest % TWO_49;
    assert d.high == s * TWO_63 + e * TWO_49 + c;
    var w, t := d.high / TWO_32, c / TWO_32;
    assert c == t * TWO_32 + c % TWO_32 && t < 0x2_0000;
    assert w == s * 0x8000_0000 + e * 0x2_0000 + t;
    assert w / 0x400_0000 == s * 32 + e / 512;
    assert e < 12288;
    Fields(d.high, s, e, c);
    FieldsIgnoreLow(d.high, d.low);
    assert TopPart(d) * TWO_32 + d.high % TWO_32 == c;
  }

  lemma SpecialConstants()
    ensures Meaning(NAN) == NaN && Meaning(Inf(false)) == Infinity(false) && Meaning(Inf(true)) == Infinity(true)
  {}

  /** Some words in full: one, a thousand, minus zero of the least exponent, the greatest number, and the three special ones. */
  lemma KnownWords()
    ensures Pack(false, 1, 0) == Decimal128(0x3040_0000_0000_0000, 1)
    ensures Pack(false, 1, 3) == Decimal128(0x3046_0000_0000_0000, 1)
    ensures Pack(true, 0, -6176) == Decimal128(0x8000_0000_0000_0000, 0)
    ensures TEN_34 - 1 == 9_999_999_999_999_999_999_999_999_999_999_999 < TWO_113 && MAX_DIGITS == 34
    ensures Pack(false, TEN_34 - 1, 6111) == Decimal128(0x5fff_ed09_bead_87c0, 0x378d_8e63_ffff_ffff)
    ensures Inf(false) == Decimal128(0x7800_0000_0000_0000, 0) && Inf(true) == Decimal128(0xf800_0000_0000_0000, 0)
    ensures NAN == Decimal128(0x7c00_0000_0000_0000, 0)
  {}
}
