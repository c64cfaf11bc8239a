/** `bson_decimal128_to_string`: the digit loops over a 128-bit integer and the three output formats. */
module DecimalPrinter {
  import opened Bytes
  import opened DecimalDigits
  import opened DecimalText
  import opened DecimalGrammar
  import opened DecimalBits

  const BILLION: nat := 1_000_000_000
  const STRING_SIZE: nat := 43

  /** A number in base 2^32, high word first. */
  function Words(parts: seq<uint32>): nat {
    if parts == [] then 0 else Words(parts[..|parts| - 1]) * TWO_32 + parts[|parts| - 1]
  }

  lemma FourWords(parts: seq<uint32>)
    requires |parts| == 4
    ensures Words(parts) == ((parts[0] * TWO_32 + parts[1]) * TWO_32 + parts[2]) * TWO_32 + parts[3]
  {
    assert parts[..1][..0] == [] && Words(parts[..1]) == parts[0];
    assert parts[..2][..1] == parts[..1] && Words(parts[..2]) == parts[0] * TWO_32 + parts[1];
    assert parts[..3][..2] == parts[..2] && Words(parts[..3]) == (parts[0] * TWO_32 + parts[1]) * TWO_32 + parts[2];
  }

  /** `_bson_uint128_divide1B`. */
  method DivideByBillion(value: seq<uint32>) returns (quotient: seq<uint32>, rem: uint32)
    requires |value| == 4
    ensures |quotient| == 4 && rem < BILLION
    ensures Words(value) == Words(quotient) * BILLION + rem
  {
    if value[0] == 0 && value[1] == 0 && value[2] == 0 && value[3] == 0 {
      FourWords(value);
      return value, 0;
    }
    var parts: seq<uint32> := value;
    var r: nat := 0;
    for i := 0 to 4
      invariant |parts| == 4 && r < BILLION && parts[i..] == value[i..]
      invariant Words(value[..i]) == Words(parts[..i]) * BILLION + r
    {
      r := r * TWO_32 + parts[i];
      ghost var before := parts;
      parts := parts[i := r / BILLION];
      r := r % BILLION;
      assert value[..i + 1][..i] == value[..i] && parts[..i + 1][..i] == before[..i];
    }
    assert value[..4] == value && parts[..4] == parts;
    return parts, r;
  }

  /** One inner loop: the nine decimal digits of a remainder. */
  method StoreNine(significand: array<digit>, at: nat, least: nat)
    requires at + 9 <= significand.Length && least < BILLION
    modifies significand
    ensures forall i | 0 <= i < at :: significand[i] == old(significand[i])
    ensures significand[at + 9..] == old(significand[at + 9..])
    ensures Value(significand[at..at + 9]) == least
  {
    hide Value;
    var rest: nat := least;
    var j := 9;
    assert significand[at + 9..at + 9] == [];
    ValueNone();
    Pow10None();
    Pow10Nine();
    while j > 0
      invariant 0 <= j <= 9
      invariant forall i | 0 <= i < at :: significand[i] == old(significand[i])
      invariant significand[at + 9..] == old(significand[at + 9..])
      invariant rest < Pow10(j)
      invariant least == rest * Pow10(9 - j) + Value(significand[at + j..at + 9])
    {
      ghost var tail := significand[at + j..at + 9];
      j := j - 1;
      significand[at + j] := rest % 10;
      assert significand[at + j..at + 9] == [(rest % 10) as digit] + tail;
      SingleThen(rest % 10, tail);
      SplitTen(rest, Pow10(8 - j));
      rest := rest / 10;
    }
    assert rest == 0;
  }

  lemma Pow10None()
    ensures Pow10(0) == 1
  {}

  lemma Pow10Nine()
    ensures Pow10(9) == BILLION
  {
    assert Pow10(3) == 1000 && Pow10(6) == 1000 * Pow10(3);
  }

  lemma ValueNone()
    ensures Value([]) == 0
  {}

  lemma SplitTen(n: nat, p: nat)
    ensures n * p == (n / 10) * (10 * p) + (n % 10) * p
  {
    assert n == 10 * (n / 10) + n % 10;
    assert (10 * (n / 10)) * p == (n / 10) * (10 * p);
    assert (10 * (n / 10) + n % 10) * p == (10 * (n / 10)) * p + (n % 10) * p;
  }

  lemma ValueSingle(d: digit)
    ensures Value([d]) == d
  {
    assert [d][..0] == [];
  }

  lemma SingleThen(d: digit, ds: seq<digit>)
    ensures Value([d] + ds) == d * Pow10(|ds|) + Value(ds)
  {
    hide Value, Pow10;
    ValueSingle(d);
    ValueConcat([d], ds);
  }

  /** The digit loop: 36 decimal digits of a number that has no more. */
  method SplitDigits(words: seq<uint32>) returns (significand: array<digit>)
    requires |words| == 4 && Words(words) < TWO_113
    ensures fresh(significand) && significand.Length == 36
    ensures Value(significand[..]) == Words(words)
  {
    hide Value, Words, Pow10;
    significand := new digit[36](_ => 0);
    var value := words;
    ghost var done := 0;
    var k := 4;
    assert significand[36..] == [];
    ValueNone();
    Pow10None();
    while k > 0
      invariant 0 <= k <= 4 && |value| == 4 && done == 36 - 9 * k
      invariant forall i | 0 <= i < 9 * k :: significand[i] == 0
      invariant Words(words) == Words(value) * Pow10(done) + Value(significand[9 * k..])
    {
      k := k - 1;
      var least;
      ghost var before, tail := Words(value), significand[9 * k + 9..];
      value, least := DivideByBillion(value);
      if least == 0 {
        AllZeros(significand[9 * k..9 * k + 9]);
      } else {
        StoreNine(significand, 9 * k, least);
      }
      ghost var nine := significand[9 * k..9 * k + 9];
      assert significand[9 * k..] == nine + tail;
      ValueConcat(nine, tail);
      NextBillion(before, Words(value), least, done);
      done := done + 9;
    }
    assert significand[..] == significand[0..];
    Pow10ThirtySix();
    QuotientIsZero(Words(value), Pow10(36), Words(words));
  }

  lemma NextBillion(before: nat, after: nat, least: nat, done: nat)
    requires before == after * BILLION + least
    ensures before * Pow10(done) == after * Pow10(done + 9) + least * Pow10(done)
  {
    Pow10Nine();
    Pow10Add(9, done);
    assert after * (BILLION * Pow10(done)) == (after * BILLION) * Pow10(done);
    assert (after * BILLION + least) * Pow10(done) == (after * BILLION) * Pow10(done) + least * Pow10(done);
  }

  lemma Pow10ThirtySix()
    ensures Pow10(36) > TWO_113 && Pow10(34) == TEN_34 && Pow10(17) == TEN_17
  {
    Pow10Nine();
    Pow10Add(9, 9);
    Pow10Add(18, 18);
    assert Pow10(18) == 10 * Pow10(17);
    Pow10Add(17, 17);
  }

  lemma QuotientIsZero(q: nat, p: nat, n: nat)
    requires n >= q * p && n < p
    ensures q == 0
  {
    assert q >= 1 ==> q * p >= 1 * p;
  }

  /** The text of a decimal, for a caller. */
  function TextOf(n: Denoted): string {
    match n
    case NaN => "NaN"
    case Infinity(neg) => (if neg then "-" else "") + "Infinity"
    case Finite(neg, coefficient, exponent) => Render(neg, Digits(coefficient), exponent)
  }

  predicate IsScientific(n: Denoted) {
    n.Finite? && (|Digits(n.coefficient)| - 1 + n.exponent < -6 || n.exponent > 0)
  }

  /** Only a negative 35-digit coefficient, which IEEE 754 calls non-canonical, loses its last digit. */
  predicate LosesDigit(n: Denoted) {
    n.Finite? && n.neg && n.coefficient >= TEN_34 && IsScientific(n)
  }

  /** ... or fills the caller's buffer up to where the NUL should go. */
  predicate FillsBuffer(n: Denoted) {
    n.Finite? && n.neg && n.coefficient >= TEN_34 && n.exponent == -40
  }

  /** The text of any number: where a digit is lost, that of a tenth of the coefficient at the next exponent. */
  function Printed(n: Denoted): string {
    if LosesDigit(n) then Render(n.neg, Digits(n.coefficient / 10), n.exponent + 1) else TextOf(n)
  }

  /** What a reader sees: a number's notation, or one of three words. */
  ghost predicate Notates(str: string, n: Denoted) {
    match n
    case NaN => str == "NaN"
    case Infinity(neg) => str == if neg then "-Infinity" else "Infinity"
    case Finite(neg, coefficient, exponent) => IsNotation(str, neg, coefficient, exponent)
  }

  lemma PrintedNotates(n: Denoted)
    ensures if LosesDigit(n) then IsNotation(Printed(n), true, n.coefficient / 10, n.exponent + 1) else Notates(Printed(n), n)
  {
    hide IsNotation, Digits, Render;
    if LosesDigit(n) {
      RenderIsNotation(true, n.coefficient / 10, n.exponent + 1);
    } else if n.Finite? {
      RenderIsNotation(n.neg, n.coefficient, n.exponent);
    }
  }

  /** Digits are copied while the text is shorter than `limit`. */
  method CopyDigits(start: string, digits: seq<digit>, limit: nat) returns (out: string)
    ensures |start| + |digits| <= limit ==> out == start + Chars(digits)
    ensures |start| <= limit < |start| + |digits| ==> out == start + Chars(digits[..limit - |start|])
  {
    out := start;
    var i := 0;
    assert digits[..0] == [];
    while i < |digits| && |out| < limit
      invariant i <= |digits| && out == start + Chars(digits[..i])
      invariant |start| <= limit ==> |out| <= limit
    {
      assert digits[..i + 1][..i] == digits[..i];
      out := out + [DigitChar(digits[i])];
      i := i + 1;
    }
    assert digits[..|digits|] == digits;
  }

  lemma DigitBounds(c: nat)
    requires c < TWO_113
    ensures |Digits(c)| <= 35 && (|Digits(c)| <= 34 <==> c < TEN_34)
  {
    Pow10ThirtySix();
    assert Pow10(35) == 10 * Pow10(34);
    DigitCount(c, 35);
    if c < TEN_34 {
      DigitCount(c, 34);
    } else {
      ValueOfDigits(c);
      ValueBound(Digits(c));
      Pow10Monotone(|Digits(c)|, 34);
    }
  }

  lemma {:induction false} Pow10Monotone(a: nat, b: nat)
    ensures a <= b ==> Pow10(a) <= Pow10(b)
    decreases b
  {
    if a < b {
      Pow10Monotone(a, b - 1);
    }
  }

  /** The significant digits of a 128-bit coefficient, as the source's array and read pointer delimit them. */
  method Significand(words: seq<uint32>) returns (digits: seq<digit>)
    requires |words| == 4 && (words[0] < 0x2_0000 ==> Words(words) < TWO_113)
    ensures digits == Digits(if words[0] >= 0x2_0000 then 0 else Words(words))
  {
    hide Digits, Value;
    var isZero := false;
    if words[0] == 0 && words[1] == 0 && words[2] == 0 && words[3] == 0 {
      isZero := true;
      FourWords(words);
    } else if words[0] >= 0x2_0000 {
      isZero := true;
    }
    DigitsOfZero();
    if isZero {
      return [0];
    }
    FourWords(words);
    var significand := SplitDigits(words);
    var count, read := 36, 0;
    ZeroValue(significand[..]);
    while significand[read] == 0
      invariant 0 <= read < 36 && count == 36 - read
      invariant exists i :: read <= i < 36 && significand[i] != 0
      invariant forall i | 0 <= i < read :: significand[i] == 0
      decreases 36 - read
    {
      count := count - 1;
      read := read + 1;
    }
    digits := significand[read..];
    DropLeading(significand[..], read);
  }

  lemma DropLeading(ds: seq<digit>, k: nat)
    requires k < |ds| && ds[k] != 0 && forall i | 0 <= i < k :: ds[i] == 0
    ensures Digits(Value(ds)) == ds[k..]
  {
    AllZeros(ds[..k]);
    assert ds == ds[..k] + ds[k..];
    ValueConcat(ds[..k], ds[k..]);
    DigitsOfValue(ds[k..]);
  }

  /** The output formats. */
  method Format(sign: string, digits: seq<digit>, exponent: int) returns (str: string)
    requires |sign| <= 1 && 1 <= |digits| <= 35 && EXPONENT_MIN <= exponent <= EXPONENT_MAX
    ensures var scientific := |digits| - 1 + exponent < -6 || exponent > 0;
            && str == sign + (if |sign| == 1 && |digits| == 35 && scientific then RenderUnsigned(digits[..34], exponent + 1)
                              else RenderUnsigned(digits, exponent))
            && |str| <= STRING_SIZE && (|str| == STRING_SIZE <==> |sign| == 1 && |digits| == 35 && exponent == -40)
  {
    hide Mantissa, SignedText, Pointed, Chars, Zeros;
    var scientific := |digits| - 1 + exponent;
    if scientific < -6 || exponent > 0 {
      str := FormatScientific(sign, digits, scientific);
    } else if exponent >= 0 {
      str := CopyDigits(sign, digits, 36);
    } else {
      str := FormatPointed(sign, digits, exponent);
    }
  }

  /** Of 35 digits after a sign the last one is cut. */
  method FormatScientific(sign: string, digits: seq<digit>, scientific: int) returns (str: string)
    requires |sign| <= 1 && 1 <= |digits| <= 35 && -9999 <= scientific <= 9999
    ensures var kept := if |sign| == 1 && |digits| == 35 then digits[..34] else digits;
            str == sign + (Mantissa(kept) + ("E" + SignedText(scientific)))
    ensures |str| < STRING_SIZE
  {
    hide Chars, Digits, SignedText, Mantissa;
    var out := sign + [DigitChar(digits[0])];
    if |digits| > 1 {
      out := out + ".";
    }
    out := CopyDigits(out, digits[1..], 36);
    ghost var kept := if |sign| == 1 && |digits| == 35 then digits[..34] else digits;
    assert kept[1..] == if |sign| == 1 && |digits| == 35 then digits[1..][..33] else digits[1..];
    ScientificText(sign, kept);
    Reassociate(sign, Mantissa(kept), "E", SignedText(scientific));
    ExponentText(scientific);
    out := out + "E";
    str := out + SignedText(scientific);
  }

  lemma ScientificText(sign: string, digits: seq<digit>)
    requires digits != []
    ensures var start := sign + [DigitChar(digits[0])];
            (if |digits| > 1 then (start + ".") + Chars(digits[1..]) else start + Chars(digits[1..])) == sign + Mantissa(digits)
  {
    hide Chars;
    CharsSingle(digits[0]);
    assert digits[..1] == [digits[0]];
    if |digits| == 1 {
      assert digits == [digits[0]] && Chars(digits[1..]) == "";
    } else {
      var c := Chars(digits[1..]);
      assert ((sign + [DigitChar(digits[0])]) + ".") + c == sign + ([DigitChar(digits[0])] + "." + c);
    }
  }

  lemma CharsSingle(d: digit)
    ensures Chars([d]) == [DigitChar(d)]
  {
    assert [d][..0] == [];
  }

  lemma ExponentText(e: int)
    requires -9999 <= e <= 9999
    ensures 2 <= |SignedText(e)| <= 5
  {
    var n := if e < 0 then -e else e;
    assert Pow10(2) == 100 && Pow10(4) == 100 * Pow10(2);
    DigitCount(n, 4);
  }

  /** The zeros between the point and the first digit. */
  method PadZeros(start: string, zeros: nat) returns (out: string)
    ensures out == start + Chars(Zeros(zeros))
  {
    hide Chars, Zeros;
    out := start;
    ZeroChar(0);
    var radix: int := 0 - zeros;
    while radix < 0
      invariant 0 - zeros <= radix <= 0 && out == start + Chars(Zeros(zeros + radix))
    {
      ZeroChar(zeros + radix);
      Push(start, Chars(Zeros(zeros + radix)), "0");
      out := out + "0";
      radix := radix + 1;
    }
  }

  lemma Push(a: string, b: string, c: string)
    ensures (a + b) + c == a + (b + c)
  {}

  method FormatPointed(sign: string, digits: seq<digit>, exponent: int) returns (str: string)
    requires |sign| <= 1 && 1 <= |digits| <= 35 && -5 - |digits| <= exponent < 0
    ensures str == sign + RenderUnsigned(digits, exponent)
    ensures |str| <= STRING_SIZE && (|str| == STRING_SIZE <==> |sign| == 1 && |digits| == 35 && exponent == -40)
  {
    hide Chars, Zeros, RenderUnsigned;
    var out := sign;
    var radix := |digits| + exponent;
    if radix > 0 {
      out := CopyDigits(out, digits[..radix], STRING_SIZE);
    } else {
      out := out + "0";
    }
    out := out + ".";
    out := PadZeros(out, if radix < 0 then -radix else 0);
    str := CopyDigits(out, digits[if radix > 0 then radix else 0..], STRING_SIZE);
    PointedText(sign, digits, exponent);
  }

  lemma ZeroChar(k: nat)
    ensures Chars(Zeros(k + 1)) == Chars(Zeros(k)) + "0" && Chars(Zeros(0)) == ""
  {
    assert Zeros(k + 1)[..k] == Zeros(k);
  }

  lemma PointedText(sign: string, digits: seq<digit>, exponent: int)
    requires digits != [] && -5 - |digits| <= exponent < 0
    ensures var radix := |digits| + exponent;
            if radix > 0 then
              ((sign + Chars(digits[..radix])) + "." + Chars(Zeros(0))) + Chars(digits[radix..]) == sign + RenderUnsigned(digits, exponent)
            else
              ((sign + "0") + "." + Chars(Zeros(-radix))) + Chars(digits[0..]) == sign + RenderUnsigned(digits, exponent)
  {
    hide Chars, Zeros;
    ZeroChar(0);
    var radix := |digits| + exponent;
    if radix > 0 {
      Reassociate(sign, Chars(digits[..radix]), ".", Chars(digits[radix..]));
    } else {
      CharsSingle(0);
      CharsConcat(Zeros(-radix), digits);
      assert digits[0..] == digits;
      assert ((sign + "0") + "." + Chars(Zeros(-radix))) + Chars(digits)
          == sign + ("0" + "." + (Chars(Zeros(-radix)) + Chars(digits)));
    }
  }

  lemma DigitsOfZero()
    ensures Digits(0) == [0]
  {}

  /**
   `bson_decimal128_to_string`, for every bit pattern.  The text is the notation of the number, or where a digit is
   lost of a tenth of its coefficient at the next exponent.  It leaves room for the NUL in the caller's 43 bytes exactly when it does not fill them.
   */
  method ToString(d: Decimal128) returns (str: string)
    ensures str == Printed(Meaning(d))
    ensures var n := Meaning(d);
            if LosesDigit(n) then IsNotation(str, true, n.coefficient / 10, n.exponent + 1) else Notates(str, n)
    ensures str == TextOf(Meaning(d)) <==> !LosesDigit(Meaning(d))
    ensures |str| <= STRING_SIZE && (|str| < STRING_SIZE <==> !FillsBuffer(Meaning(d)))
  {
    hide Digits, RenderUnsigned, IsNotation;
    PrintedNotates(Meaning(d));
    var out := "";
    if d.high >= TWO_63 {
      out := "-";
    }
    var low, midl := d.low % TWO_32, d.low / TWO_32;
    var midh, high := d.high % TWO_32, d.high / TWO_32;
    var combination := high / 0x400_0000 % 32;
    var biased, msb: nat;
    if combination / 8 == 3 {
      if combination == 30 {
        return out + "Infinity";
      } else if combination == 31 {
        return "NaN";
      } else {
        biased := high / 0x8000 % TWO_14;
        msb := 8 + high / TWO_14 % 2;
      }
    } else {
      msb := high / TWO_14 % 8;
      biased := high / 0x2_0000 % TWO_14;
    }
    var exponent := biased - EXPONENT_BIAS;
    var words := [high % TWO_14 + msb * TWO_14, midh, midl, low];
    WordsOfRaw(d, words);
    ExponentRange(d);
    var digits := Significand(words);
    DigitBounds(Meaning(d).coefficient);
    str := Format(out, digits, exponent);
    if LosesDigit(Meaning(d)) {
      LostDigit(Meaning(d).coefficient, exponent);
    }
  }

  /** One digit fewer is a tenth, and another text. */
  lemma LostDigit(c: nat, e: int)
    requires TEN_34 <= c < TWO_113 && EXPONENT_MIN <= e <= EXPONENT_MAX && (34 + e < -6 || e > 0)
    ensures |Digits(c)| == 35 && Digits(c)[..34] == Digits(c / 10)
    ensures Render(true, Digits(c / 10), e + 1) != Render(true, Digits(c), e)
  {
    DigitBounds(c);
    hide Chars, SignedText;
    var ds := Digits(c);
    assert ds == Digits(c / 10) + [c % 10];
    assert |Mantissa(ds)| == |Mantissa(ds[..34])| + 1;
  }

  /** Both exceptions occur. */
  lemma DigitIsLost()
    ensures TEN_34 < TWO_113
    ensures var n := Meaning(Pack(true, TEN_34, 1));
            LosesDigit(n) && Printed(n) == Render(true, Digits(TEN_34 / 10), 2) != TextOf(n)
  {
    Pow10ThirtySix();
    hide Digits, Pack, Meaning, Render, Pow10;
    PackMeaning(true, TEN_34, 1);
    LostDigit(TEN_34, 1);
  }

  lemma BufferIsFilled()
    ensures TEN_34 < TWO_113
    ensures var n := Meaning(Pack(true, TEN_34, -40)); FillsBuffer(n) && Printed(n) == TextOf(n) && |Printed(n)| == STRING_SIZE
  {
    Pow10ThirtySix();
    hide Digits, Pack, Meaning, Render, Pow10;
    PackMeaning(true, TEN_34, -40);
    DigitBounds(TEN_34);
    FullText(Digits(TEN_34));
  }

  lemma FullText(digits: seq<digit>)
    requires |digits| == 35
    ensures |Render(true, digits, -40)| == STRING_SIZE
  {
    assert |Chars(Zeros(5) + digits)| == 40;
  }

  lemma WordsOfRaw(d: Decimal128, words: seq<uint32>)
    requires |words| == 4 && words[0] == TopPart(d) && words[1] == d.high % TWO_32
    requires words[2] == d.low / TWO_32 && words[3] == d.low % TWO_32
    ensures Words(words) == RawCoefficient(d)
    ensures words[0] < 0x2_0000 ==> Words(words) < TWO_113
  {
    FourWords(words);
  }

  /** Below the patterns of infinity and NaN, the exponent field does not reach its last quarter. */
  lemma FieldBelow(w: nat)
    requires w / 0x400_0000 % 32 < 30
    ensures w / 0x400_0000 % 8 < 6 ==> w / 0x8000 % TWO_14 < 0x3000
    ensures w / 0x400_0000 % 32 >= 24 ==> w / 0x400_0000 % 8 < 6
  {
    var a, r := w / 0x400_0000, w % 0x400_0000 / 0x8000;
    assert w / 0x8000 == a * 0x800 + r && r < 0x800;
    LowField(a, r);
  }

  lemma LowField(a: nat, r: nat)
    requires r < 0x800
    ensures (a * 0x800 + r) % TWO_14 == a % 8 * 0x800 + r && a % 8 == a % 32 % 8
  {
    var q, m := a / 8, a % 8;
    assert a * 0x800 + r == q * TWO_14 + (m * 0x800 + r);
    Remainder(q, m * 0x800 + r);
    EighthOf(a);
  }

  lemma Remainder(q: nat, z: nat)
    requires z < TWO_14
    ensures (q * TWO_14 + z) % TWO_14 == z
  {}

  lemma EighthOf(a: nat)
    ensures a % 8 == a % 32 % 8
  {}

  lemma ExponentRange(d: Decimal128)
    requires Meaning(d).Finite?
    ensures EXPONENT_MIN <= Meaning(d).exponent <= EXPONENT_MAX
    ensures Meaning(d).coefficient < TWO_113
  {
    if Special(d) {
      FieldBelow(d.high / TWO_32);
    } else {
      MeaningPack(d);
    }
  }
}
