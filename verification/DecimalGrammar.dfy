/** The notation of a decimal, as a reader of the text sees it: digits, one point, and an exponent with its sign. */
module DecimalGrammar {
  import opened DecimalDigits
  import opened DecimalText

  /** The number a row of decimal digits stands for. */
  function NumberIn(s: string): int {
    if s == "" then 0 else 10 * NumberIn(s[..|s| - 1]) + (s[|s| - 1] as int - 48)
  }

  predicate AllDigits(s: string) { forall i | 0 <= i < |s| :: '0' <= s[i] <= '9' }

  /** A number without leading zeros. */
  predicate IsNumeral(s: string, n: int) { s != "" && AllDigits(s) && (s[0] == '0' ==> |s| == 1) && NumberIn(s) == n }

  predicate HasLength(c: nat, k: nat) { k >= 1 && c < Pow10(k) && (k == 1 || Pow10(k - 1) <= c) }

  function Joined(neg: bool, before: string, after: string): string {
    (if neg then "-" else "") + before + (if after == "" then "" else "." + after)
  }

  /**
   The parts of a text for `c` times ten to the `e`, where `c` has `k` digits: the digits before and after the point,
   and those of the exponent.  The first digit of a scientific text stands alone before the point.
   */
  ghost predicate HasParts(s: string, neg: bool, c: nat, e: int, k: nat, before: string, after: string, power: string) {
    var adjusted := k - 1 + e;
    && HasLength(c, k)
    && AllDigits(before) && AllDigits(after) && before != "" && (before[0] == '0' ==> |before| == 1)
    && NumberIn(before + after) == c
    && var number := Joined(neg, before, after);
    if adjusted < -6 || e > 0 then
      && |before| == 1 && e + |after| == adjusted && IsNumeral(power, if adjusted < 0 then -adjusted else adjusted)
      && s == number + (if adjusted < 0 then "E-" else "E+") + power
    else |after| == -e && power == "" && s == number
  }

  ghost predicate IsNotation(s: string, neg: bool, c: nat, e: int) {
    exists k: nat, before, after, power :: HasParts(s, neg, c, e, k, before, after, power)
  }

  lemma {:induction false} CharsAreDigits(ds: seq<digit>)
    ensures AllDigits(Chars(ds)) && NumberIn(Chars(ds)) == Value(ds)
  {
    if ds != [] {
      CharsAreDigits(ds[..|ds| - 1]);
      assert Chars(ds)[..|ds| - 1] == Chars(ds[..|ds| - 1]);
    }
  }

  lemma LengthOfDigits(n: nat)
    ensures HasLength(n, |Digits(n)|) && (Digits(n)[0] == 0 ==> n == 0 && Digits(n) == [0])
  {
    ValueOfDigits(n);
    ValueBound(Digits(n));
    if n != 0 {
      ValueLower(Digits(n));
    }
  }

  lemma NumeralOf(n: nat)
    ensures IsNumeral(Chars(Digits(n)), n)
  {
    LengthOfDigits(n);
    CharsAreDigits(Digits(n));
    ValueOfDigits(n);
    hide Digits, NumberIn, Value;
    assert Chars(Digits(n))[0] == DigitChar(Digits(n)[0]);
  }

  /** What is written before and after the point. */
  lemma BodyParts(a: seq<digit>, b: seq<digit>)
    requires a != [] && (a[0] == 0 ==> |a| == 1)
    ensures var before, after := Chars(a), Chars(b);
            && AllDigits(before) && AllDigits(after) && before != "" && (before[0] == '0' ==> |before| == 1)
            && NumberIn(before + after) == Value(a + b)
  {
    CharsAreDigits(a);
    CharsAreDigits(b);
    CharsAreDigits(a + b);
    CharsConcat(a, b);
    hide NumberIn, Value;
    assert Chars(a)[0] == DigitChar(a[0]);
  }

  lemma ScientificText(neg: bool, ds: seq<digit>, e: int)
    requires ds != [] && (|ds| - 1 + e < -6 || e > 0)
    ensures var adjusted := |ds| - 1 + e;
            Render(neg, ds, e) == Joined(neg, Chars(ds[..1]), Chars(ds[1..])) + (if adjusted < 0 then "E-" else "E+")
                                  + Chars(Digits(if adjusted < 0 then -adjusted else adjusted))
  {
    hide Chars, Digits, SignedText, Mantissa, Pointed, Render, Joined;
    var adjusted := |ds| - 1 + e;
    var mark, power := if adjusted < 0 then "E-" else "E+", Chars(Digits(if adjusted < 0 then -adjusted else adjusted));
    SignedParts(adjusted);
    MantissaParts(ds);
    ScientificForm(neg, ds, e);
    JoinedParts(neg, Chars(ds[..1]), Chars(ds[1..]));
    var sign, before, tail := if neg then "-" else "", Chars(ds[..1]), if Chars(ds[1..]) == "" then "" else "." + Chars(ds[1..]);
    Regroup(sign, before, tail, mark, power);
  }

  lemma JoinedParts(neg: bool, before: string, after: string)
    ensures Joined(neg, before, after) == (if neg then "-" else "") + before + (if after == "" then "" else "." + after)
  {}

  lemma ScientificForm(neg: bool, ds: seq<digit>, e: int)
    requires ds != [] && (|ds| - 1 + e < -6 || e > 0)
    ensures Render(neg, ds, e) == (if neg then "-" else "") + (Mantissa(ds) + ("E" + SignedText(|ds| - 1 + e)))
  {
    hide SignedText, Mantissa;
  }

  lemma SignedParts(n: int)
    ensures "E" + SignedText(n) == (if n < 0 then "E-" else "E+") + Chars(Digits(if n < 0 then -n else n))
  {
    hide Chars, Digits;
  }

  lemma MantissaParts(ds: seq<digit>)
    requires ds != []
    ensures Mantissa(ds) == Chars(ds[..1]) + (if Chars(ds[1..]) == "" then "" else "." + Chars(ds[1..]))
  {
    hide Chars;
    assert |ds| == 1 ==> ds == ds[..1];
  }

  lemma Regroup(a: string, b: string, c: string, d: string, e: string)
    ensures a + ((b + c) + (d + e)) == a + b + c + d + e
  {}

  lemma ScientificParts(neg: bool, c: nat, e: int)
    requires var adjusted := |Digits(c)| - 1 + e; adjusted < -6 || e > 0
    ensures IsNotation(Render(neg, Digits(c), e), neg, c, e)
  {
    hide Digits, NumberIn, Value, HasLength, Chars, Render, AllDigits, Pow10;
    var ds := Digits(c);
    var adjusted := |ds| - 1 + e;
    LengthOfDigits(c);
    ValueOfDigits(c);
    NumeralOf(if adjusted < 0 then -adjusted else adjusted);
    BodyParts(ds[..1], ds[1..]);
    assert ds[..1] + ds[1..] == ds;
    ScientificText(neg, ds, e);
    var power := Chars(Digits(if adjusted < 0 then -adjusted else adjusted));
    hide IsNumeral;
    assert HasParts(Render(neg, ds, e), neg, c, e, |ds|, Chars(ds[..1]), Chars(ds[1..]), power);
  }

  lemma ValueAfterZeros(k: nat, ds: seq<digit>)
    ensures Value(Zeros(k) + ds) == Value(ds)
  {
    ValueConcat(Zeros(k), ds);
    ValueZeros(k);
  }

  /** The digits before the point and after it where no exponent is written. */
  function Split(ds: seq<digit>, e: int): (parts: (seq<digit>, seq<digit>))
    requires e <= 0
  {
    if |ds| + e > 0 then (ds[..|ds| + e], ds[|ds| + e..]) else ([0], Zeros(-(|ds| + e)) + ds)
  }

  lemma PlainText(neg: bool, ds: seq<digit>, e: int)
    requires ds != [] && |ds| - 1 + e >= -6 && e <= 0
    ensures Render(neg, ds, e) == Joined(neg, Chars(Split(ds, e).0), Chars(Split(ds, e).1)) && |Split(ds, e).1| == -e
  {
    hide Chars;
    var before, after := Chars(Split(ds, e).0), Chars(Split(ds, e).1);
    assert e == 0 ==> ds[..|ds| + e] == ds;
    assert RenderUnsigned(ds, e) == before + (if after == "" then "" else "." + after);
    var sign := if neg then "-" else "";
    assert sign + (before + (if after == "" then "" else "." + after)) == sign + before + (if after == "" then "" else "." + after);
  }

  lemma SplitKeepsValue(ds: seq<digit>, e: int)
    requires e <= 0
    ensures Value(Split(ds, e).0 + Split(ds, e).1) == Value(ds)
  {
    hide Value, Zeros;
    var radix := |ds| + e;
    if radix > 0 {
      assert ds[..radix] + ds[radix..] == ds;
    } else {
      ZeroFirst(-radix);
      assert [0 as digit] + (Zeros(-radix) + ds) == ([0 as digit] + Zeros(-radix)) + ds;
      ValueAfterZeros(1 - radix, ds);
    }
  }

  lemma PlainParts(neg: bool, c: nat, e: int)
    requires var adjusted := |Digits(c)| - 1 + e; adjusted >= -6 && e <= 0
    ensures IsNotation(Render(neg, Digits(c), e), neg, c, e)
  {
    hide Digits, NumberIn, Value, HasLength, Chars, Render, AllDigits, Pow10, Zeros;
    var ds := Digits(c);
    LengthOfDigits(c);
    ValueOfDigits(c);
    var a, b := Split(ds, e).0, Split(ds, e).1;
    SplitKeepsValue(ds, e);
    BodyParts(a, b);
    PlainText(neg, ds, e);
    assert HasParts(Render(neg, ds, e), neg, c, e, |ds|, Chars(a), Chars(b), "");
  }

  lemma ZeroFirst(k: nat)
    ensures [0 as digit] + Zeros(k) == Zeros(k + 1)
  {}

  /** The printer's text is the notation of its number, in either format. */
  lemma RenderIsNotation(neg: bool, c: nat, e: int)
    ensures IsNotation(Render(neg, Digits(c), e), neg, c, e)
  {
    hide IsNotation, Render, Digits;
    if |Digits(c)| - 1 + e < -6 || e > 0 {
      ScientificParts(neg, c, e);
    } else {
      PlainParts(neg, c, e);
    }
  }
}
