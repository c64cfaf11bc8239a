/** The decimal printer and parser undo each other, and the parser stores exactly what it is given. */
module DecimalRoundTrip {
  import opened Bytes
  import opened DecimalDigits
  import opened DecimalText
  import opened DecimalBits
  import opened DecimalRange
  import opened DecimalPrinter

  /** A finite value whose coefficient has at most 34 digits, or an infinity with no stray bits. */
  predicate Canonical(d: Decimal128) {
    d == Inf(false) || d == Inf(true) || (Meaning(d).Finite? && RawCoefficient(d) < TEN_34)
  }

  lemma CanonicalIsPlain(d: Decimal128)
    requires Meaning(d).Finite? && RawCoefficient(d) < TEN_34
    ensures !Special(d) && TopPart(d) < 0x2_0000
    ensures EXPONENT_MIN <= Meaning(d).exponent <= EXPONENT_MAX
    ensures Meaning(d).coefficient == RawCoefficient(d)
    ensures Pack(Meaning(d).neg, RawCoefficient(d), Meaning(d).exponent) == d
  {
    assert TopPart(d) < 0x2_0000;
    assert !Special(d);
    MeaningPack(d);
  }

  /** Without leading zeros, the digits of a number keep its value. */
  lemma StrippedDigits(c: nat)
    ensures Value(StripZeros(Digits(c))) == c && |StripZeros(Digits(c))| <= |Digits(c)|
    ensures c > 0 ==> StripZeros(Digits(c)) == Digits(c)
    ensures c == 0 ==> StripZeros(Digits(c)) == []
  {
    ValueOfDigits(c);
    if c > 0 {
      DigitsLead(c);
    } else {
      assert Digits(0) == [0];
    }
  }

  lemma {:induction false} DigitsLead(c: nat)
    requires c > 0
    ensures Digits(c)[0] != 0
  {
    if c >= 10 {
      DigitsLead(c / 10);
    }
  }

  lemma TextLength(neg: bool, digits: seq<digit>, e: int)
    requires 1 <= |digits| <= MAX_DIGITS && EXPONENT_MIN <= e <= EXPONENT_MAX
    ensures |Render(neg, digits, e)| < STRING_SIZE
  {
    hide Chars, SignedText;
    var scientific := |digits| - 1 + e;
    if scientific < -6 || e > 0 {
      ExponentText(scientific);
    }
  }

  /** The text of a canonical finite number reads back as that number. */
  lemma FiniteRoundTrip(neg: bool, c: nat, e: int)
    requires c < TEN_34 < TWO_113 && EXPONENT_MIN <= e <= EXPONENT_MAX
    ensures |Render(neg, Digits(c), e)| < STRING_SIZE
    ensures Outcome(Render(neg, Digits(c), e)) == Accepted(Pack(neg, c, e))
  {
    hide Render, Read, Digits, StripZeros, Value, Pack, Reduce, OutsideContract;
    var s := Render(neg, Digits(c), e);
    ReadRender(neg, Digits(c), e);
    DigitBounds(c);
    TextLength(neg, Digits(c), e);
    StrippedDigits(c);
    InsideContract(s, Read(s), c, e);
    ReduceBounds(Read(s));
  }

  lemma InsideContract(s: string, t: Text, c: nat, e: int)
    requires t.Number? && |s| < STRING_SIZE && |t.digits| <= MAX_DIGITS && Value(t.digits) == c && (c == 0 ==> t.digits == [])
    requires LastExponent(t) == e && EXPONENT_MIN <= e <= EXPONENT_MAX && -FIELD_LIMIT < t.field < FIELD_LIMIT
    ensures !OutsideContract(s, t) && Reduce(t) == Reduced(c, e)
  {}

  /**
   Every finite decimal128 with a coefficient below 10^34, and both infinities, come back bit for bit from
   their text, which is at most 42 characters.
   */
  lemma RoundTrip(d: Decimal128)
    requires Canonical(d)
    ensures Outcome(TextOf(Meaning(d))) == Accepted(d)
  {
    hide Pack, TopPart, BiasedExponent, Combination, Render, Digits;
    SpecialConstants();
    if Meaning(d).Finite? {
      CanonicalIsPlain(d);
      TenPowers();
      FiniteRoundTrip(Meaning(d).neg, RawCoefficient(d), Meaning(d).exponent);
    } else {
      InfinityRoundTrip(d == Inf(true));
    }
  }

  lemma InfinityRoundTrip(neg: bool)
    ensures Outcome(TextOf(Infinity(neg))) == Accepted(Inf(neg))
  {
    var s := (if neg then "-" else "") + "Infinity";
    var i := SignLength(s);
    assert s[i..] == "Infinity";
    assert EqualsIgnoringCase(s[i..], "infinity");
    assert Read(s) == Infinite(neg);
  }

  /** A coefficient and exponent pair with the value of the digits `ds` times ten to the `q`. */
  ghost predicate Denotes(v: Decimal128, t: Text)
    requires t.Number?
  {
    && Meaning(v).Finite? && Meaning(v).neg == t.neg
    && Meaning(v).coefficient < TEN_34
    && SameValue(Meaning(v).coefficient, Meaning(v).exponent, Value(t.digits), LastExponent(t))
  }

  /**
   Soundness and exact completeness on strings: an accepted nonzero number is exactly what the text says,
   and a number is rejected only if no decimal128 of 34 digits has its value or it is written with a point,
   needs zeros cut, and has an exponent field just below the least exponent.
   */
  lemma ParsesExactly(s: string)
    requires Read(s).Number? && Read(s).digits != [] && !OutsideContract(s, Read(s))
    ensures Outcome(s).Accepted? ==> Denotes(Outcome(s).value, Read(s))
    ensures Outcome(s).Accepted? <==>
              Representable(Value(Read(s).digits), LastExponent(Read(s)))
              && !(LastExponent(Read(s)) < EXPONENT_MIN && PointJustAfter(Read(s)))
    ensures !Outcome(s).Accepted? ==> Outcome(s) == Invalid
  {
    hide Reduce, Value, Pow10, Pack, Meaning, SameValue, Representable;
    var t := Read(s);
    assert t.digits[0] != 0;
    AcceptsIff(t);
    ReduceBounds(t);
    if Reduce(t).Reduced? {
      ReduceIsExact(t);
      PackMeaning(t.neg, Reduce(t).coefficient, Reduce(t).exponent);
    }
  }

  /** A zero is always accepted; an exponent out of range is clamped. */
  lemma ZeroIsClamped(s: string)
    requires Read(s).Number? && Read(s).digits == [] && !OutsideContract(s, Read(s))
    ensures Outcome(s).Accepted?
    ensures Meaning(Outcome(s).value) == Finite(Read(s).neg, 0, Clamp(LastExponent(Read(s))))
  {
    hide Pack, Meaning;
    ReduceBounds(Read(s));
    PackMeaning(Read(s).neg, 0, Clamp(LastExponent(Read(s))));
  }

  /** The rejected family is not empty: this is 1E-6176, which the format can hold. */
  lemma RejectedThoughRepresentable()
    ensures Outcome("10.00E-6177") == Invalid
    ensures Representable(Value([1, 0, 0, 0]), -6177 - 2) && Read("10.00E-6177") == Number(false, [1, 0, 0, 0], true, 2, -6177)
  {
    ReadsLiteral();
    ValueThousand();
    hide Read, Pack, Value;
    assert Pow10(3) == 1000;
    assert SameValue(1, EXPONENT_MIN, 1000, -6179);
  }

  lemma ReadsLiteral()
    ensures Read("10.00E-6177") == Number(false, [1, 0, 0, 0], true, 2, -6177)
  {
    hide Read, DigitsIn, PointCount, AfterPoint, StripZeros, AllBody, SignedText, Pointed;
    var b := Pointed([1, 0], [0, 0]);
    PointedBody([1, 0], [0, 0]);
    LiteralText();
    ReadScientific(false, b, -6177);
    assert "" + (b + ("E" + SignedText(-6177))) == "10.00E-6177";
    assert [1, 0] + [0, 0] == [1, 0, 0, 0];
    NothingToStrip([1, 0, 0, 0]);
  }

  lemma NothingToStrip(ds: seq<digit>)
    requires ds != [] && ds[0] != 0
    ensures StripZeros(ds) == ds
  {}

  lemma ValueThousand()
    ensures Value([1, 0, 0, 0]) == 1000
  {
    assert [1, 0, 0, 0][..3] == [1, 0, 0] && [1, 0, 0][..2] == [1, 0] && [1, 0][..1] == [1] && [1][..0] == [];
  }

  lemma LiteralText()
    ensures Pointed([1, 0], [0, 0]) == "10.00" && SignedText(-6177) == "-6177"
  {
    assert Digits(6177) == [6, 1, 7, 7];
  }
}
