/**
 The text form of a decimal: what `bson_decimal128_to_string` writes for a sign, digits and exponent,
 and what a string means to `bson_decimal128_from_string`.
 */
module DecimalText {
  import opened DecimalDigits

  function DigitChar(d: digit): char { ('0' as int + d) as char }

  predicate IsDigit(c: char) { '0' <= c <= '9' }

  function CharDigit(c: char): digit
    requires IsDigit(c)
  {
    c as int - '0' as int
  }

  function Chars(ds: seq<digit>): (s: string)
    ensures |s| == |ds| && forall i | 0 <= i < |s| :: s[i] == DigitChar(ds[i])
  {
    if ds == [] then "" else Chars(ds[..|ds| - 1]) + [DigitChar(ds[|ds| - 1])]
  }

  lemma CharsConcat(a: seq<digit>, b: seq<digit>)
    ensures Chars(a + b) == Chars(a) + Chars(b)
  {
    assert forall i | 0 <= i < |a + b| :: Chars(a + b)[i] == (Chars(a) + Chars(b))[i];
  }

  /** `%+d`. */
  function SignedText(n: int): string {
    [if n < 0 then '-' else '+'] + Chars(Digits(if n < 0 then -n else n))
  }

  /** The text of `digits` times ten to the `exponent`: plain when that is short, scientific otherwise. */
  function Render(neg: bool, digits: seq<digit>, exponent: int): string
    requires digits != []
  {
    (if neg then "-" else "") + RenderUnsigned(digits, exponent)
  }

  function Pointed(before: seq<digit>, after: seq<digit>): string {
    Chars(before) + "." + Chars(after)
  }

  function Mantissa(digits: seq<digit>): string
    requires digits != []
  {
    if |digits| == 1 then Chars(digits) else Pointed(digits[..1], digits[1..])
  }

  function RenderUnsigned(digits: seq<digit>, exponent: int): string
    requires digits != []
  {
    var scientific := |digits| - 1 + exponent;
    var radix := |digits| + exponent;
    if scientific < -6 || exponent > 0 then Mantissa(digits) + ("E" + SignedText(scientific))
    else if exponent == 0 then Chars(digits)
    else if radix > 0 then Pointed(digits[..radix], digits[radix..])
    else Pointed([0], Zeros(-radix) + digits)
  }

  /** The meaning of a string: `digits` has no leading zeros, and its last digit counts `10^q`. */
  datatype Text =
    | Infinite(neg: bool)
    | NotANumber
    | Number(neg: bool, digits: seq<digit>, pointed: bool, after: nat, field: int)
    | Malformed

  predicate IsBodyChar(c: char) { IsDigit(c) || c == '.' }

  function BodyEnd(s: string, i: nat): (j: nat)
    requires i <= |s|
    ensures i <= j <= |s| && (forall k | i <= k < j :: IsBodyChar(s[k])) && (j < |s| ==> !IsBodyChar(s[j]))
    decreases |s| - i
  {
    if i < |s| && IsBodyChar(s[i]) then BodyEnd(s, i + 1) else i
  }

  function DigitsIn(b: string): (ds: seq<digit>)
    ensures |ds| <= |b|
  {
    if b == "" then []
    else
      var c := b[|b| - 1];
      DigitsIn(b[..|b| - 1]) + if IsDigit(c) then [CharDigit(c)] else []
  }

  function PointCount(b: string): (n: nat)
    ensures n <= |b|
  {
    if b == "" then 0 else PointCount(b[..|b| - 1]) + if b[|b| - 1] == '.' then 1 else 0
  }

  /** How many characters follow the point. */
  function AfterPoint(b: string): (n: nat)
    ensures n <= |b|
  {
    if b == "" || b[|b| - 1] == '.' || PointCount(b) == 0 then 0 else AfterPoint(b[..|b| - 1]) + 1
  }

  predicate IsSpace(c: char) { c == ' ' || '\t' <= c <= '\r' }

  function SkipSpace(s: string, i: nat): (j: nat)
    requires i <= |s|
    ensures i <= j <= |s|
    decreases |s| - i
  {
    if i < |s| && IsSpace(s[i]) then SkipSpace(s, i + 1) else i
  }

  function DigitsEnd(s: string, i: nat): (j: nat)
    requires i <= |s|
    ensures i <= j <= |s| && (forall k | i <= k < j :: IsDigit(s[k])) && (j < |s| ==> !IsDigit(s[j]))
    decreases |s| - i
  {
    if i < |s| && IsDigit(s[i]) then DigitsEnd(s, i + 1) else i
  }

  datatype Scanned = NoNumber | Scanned(value: int, end: nat)

  /** What `sscanf` reads for `%d` and how far it gets, on unbounded integers. */
  function ScanInt(s: string, i: nat): (r: Scanned)
    requires i <= |s|
    ensures r.Scanned? ==> i < r.end <= |s|
  {
    var a := SkipSpace(s, i);
    var b := if a < |s| && (s[a] == '+' || s[a] == '-') then a + 1 else a;
    var e := DigitsEnd(s, b);
    if e == b then NoNumber
    else
      var n: int := Value(DigitsIn(s[b..e]));
      Scanned(if s[a] == '-' then -n else n, e)
  }

  function Lower(c: char): char {
    if 'A' <= c <= 'Z' then (c as int + 32) as char else c
  }

  predicate EqualsIgnoringCase(s: string, t: string) {
    |s| == |t| && forall i | 0 <= i < |s| :: Lower(s[i]) == Lower(t[i])
  }

  function SignLength(s: string): nat {
    if s != "" && (s[0] == '+' || s[0] == '-') then 1 else 0
  }

  function Read(s: string): Text {
    var i := SignLength(s);
    var neg := s != "" && s[0] == '-';
    if i == |s| || !IsBodyChar(s[i]) then
      if EqualsIgnoringCase(s[i..], "inf") || EqualsIgnoringCase(s[i..], "infinity") then Infinite(neg)
      else if EqualsIgnoringCase(s[i..], "nan") then NotANumber
      else Malformed
    else
      var j := BodyEnd(s, i);
      var b := s[i..j];
      if PointCount(b) > 1 || DigitsIn(b) == [] then Malformed
      else if j < |s| && (s[j] == 'e' || s[j] == 'E') then
        match ScanInt(s, j + 1)
        case NoNumber => Malformed
        case Scanned(v, k) => if k < |s| then Malformed else NumberOf(neg, b, v)
      else if j < |s| then Malformed
      else NumberOf(neg, b, 0)
  }

  function NumberOf(neg: bool, b: string, field: int): Text {
    Number(neg, StripZeros(DigitsIn(b)), PointCount(b) == 1, AfterPoint(b), field)
  }

  /** The power of ten the last digit of a number counts. */
  function LastExponent(t: Text): int
    requires t.Number?
  {
    t.field - t.after
  }

  lemma {:induction false} BodyConcat(a: string, b: string)
    ensures DigitsIn(a + b) == DigitsIn(a) + DigitsIn(b) && PointCount(a + b) == PointCount(a) + PointCount(b)
  {
    if b == "" {
      assert a + b == a;
    } else {
      assert (a + b)[..|a + b| - 1] == a + b[..|b| - 1];
      BodyConcat(a, b[..|b| - 1]);
    }
  }

  lemma {:induction false} DigitsOfChars(ds: seq<digit>)
    ensures DigitsIn(Chars(ds)) == ds && PointCount(Chars(ds)) == 0 && AfterPoint(Chars(ds)) == 0
  {
    if ds != [] {
      DigitsOfChars(ds[..|ds| - 1]);
      assert Chars(ds)[..|ds| - 1] == Chars(ds[..|ds| - 1]);
    }
  }

  lemma {:induction false} AfterConcat(a: string, b: string)
    requires PointCount(a) > 0 && PointCount(b) == 0
    ensures AfterPoint(a + b) == AfterPoint(a) + |b|
  {
    if b == "" {
      assert a + b == a;
    } else {
      var init := b[..|b| - 1];
      assert (a + b)[..|a + b| - 1] == a + init;
      AfterConcat(a, init);
      BodyConcat(a, b);
    }
  }

  lemma PointThenDigits(a: string, ds: seq<digit>)
    ensures AfterPoint(a + "." + Chars(ds)) == |ds|
  {
    DigitsOfChars(ds);
    BodyConcat(a, ".");
    AfterConcat(a + ".", Chars(ds));
  }

  predicate AllBody(b: string) { forall i | 0 <= i < |b| :: IsBodyChar(b[i]) }

  lemma BodySlice(neg: bool, b: string, tail: string)
    requires b != "" && AllBody(b) && (tail == "" || !IsBodyChar(tail[0]))
    ensures var i := if neg then 1 else 0;
            var s := (if neg then "-" else "") + b + tail;
            && SignLength(s) == i && (s[0] == '-') == neg
            && i < |s| && IsBodyChar(s[i])
            && BodyEnd(s, i) == i + |b| && s[i..i + |b|] == b
  {
    var i := if neg then 1 else 0;
    var s := (if neg then "-" else "") + b + tail;
    assert s[i] == b[0];
    assert forall k | i <= k < i + |b| :: s[k] == b[k - i];
    assert tail != "" ==> s[i + |b|] == tail[0];
    var j := BodyEnd(s, i);
    assert j == i + |b|;
  }

  /** Reading a sign, a body and nothing else. */
  lemma ReadPlain(neg: bool, b: string)
    requires AllBody(b) && PointCount(b) <= 1 && DigitsIn(b) != []
    ensures Read((if neg then "-" else "") + b) == NumberOf(neg, b, 0)
  {
    hide BodyEnd, DigitsIn, PointCount, NumberOf, SignLength, IsBodyChar, AllBody, EqualsIgnoringCase;
    BodySlice(neg, b, "");
    var s := (if neg then "-" else "") + b;
    assert (if neg then "-" else "") + b + "" == s;
  }

  lemma ScanMarked(s: string, i: nat, ds: seq<digit>)
    requires i < |s| && (s[i] == '+' || s[i] == '-') && s[i + 1..] == Chars(ds) && ds != []
    ensures ScanInt(s, i) == Scanned((if s[i] == '-' then -1 else 1) * Value(ds), |s|)
  {
    hide DigitsIn, Value, Chars;
    assert SkipSpace(s, i) == i;
    assert forall k | i + 1 <= k < |s| :: s[k] == s[i + 1..][k - i - 1];
    assert DigitsEnd(s, i + 1) == |s|;
    assert s[i + 1..|s|] == s[i + 1..];
    DigitsOfChars(ds);
  }

  lemma ScanSigned(head: string, e: int)
    ensures ScanInt(head + SignedText(e), |head|) == Scanned(e, |head + SignedText(e)|)
  {
    hide ScanInt, Value, Digits, Chars;
    var s, n, i := head + SignedText(e), if e < 0 then -e else e, |head|;
    assert s[i] == SignedText(e)[0];
    assert s[i + 1..] == Chars(Digits(n));
    ScanMarked(s, i, Digits(n));
    ValueOfDigits(n);
  }

  lemma Reassociate(a: string, b: string, c: string, d: string)
    ensures a + (b + (c + d)) == a + b + (c + d) == (a + b + c) + d
  {}

  lemma ReadWithExponent(s: string, j: nat, e: int)
    requires SignLength(s) < |s| && IsBodyChar(s[SignLength(s)])
    requires BodyEnd(s, SignLength(s)) == j < |s| && s[j] == 'E' && ScanInt(s, j + 1) == Scanned(e, |s|)
    requires PointCount(s[SignLength(s)..j]) <= 1 && DigitsIn(s[SignLength(s)..j]) != []
    ensures Read(s) == NumberOf(s[0] == '-', s[SignLength(s)..j], e)
  {
    hide BodyEnd, DigitsIn, PointCount, NumberOf, SignLength, ScanInt, EqualsIgnoringCase;
  }

  /** Reading a sign, a body and an exponent as `%+d` writes it. */
  lemma ReadScientific(neg: bool, b: string, e: int)
    requires AllBody(b) && PointCount(b) <= 1 && DigitsIn(b) != []
    ensures Read((if neg then "-" else "") + (b + ("E" + SignedText(e)))) == NumberOf(neg, b, e)
  {
    hide Read, BodyEnd, DigitsIn, PointCount, NumberOf, SignLength, SignedText, ScanInt, AllBody;
    var sign := if neg then "-" else "";
    BodySlice(neg, b, "E" + SignedText(e));
    Reassociate(sign, b, "E", SignedText(e));
    ScanSigned(sign + b + "E", e);
    ReadWithExponent(sign + (b + ("E" + SignedText(e))), |sign| + |b|, e);
  }

  /** `before` digits, a point, `after` digits. */
  lemma PointedBody(before: seq<digit>, after: seq<digit>)
    ensures var b := Pointed(before, after);
            && AllBody(b) && PointCount(b) == 1 && DigitsIn(b) == before + after && AfterPoint(b) == |after|
  {
    PointThenDigits(Chars(before), after);
    hide DigitsIn, PointCount, AfterPoint, Chars;
    DigitsOfChars(before);
    DigitsOfChars(after);
    JustPoint();
    BodyConcat(Chars(before), ".");
    BodyConcat(Chars(before) + ".", Chars(after));
    assert before + [] == before;
  }

  lemma JustPoint()
    ensures DigitsIn(".") == [] && PointCount(".") == 1
  {
    assert "."[..0] == "";
  }

  lemma {:induction false} StripLead(lead: seq<digit>, ds: seq<digit>)
    requires forall i | 0 <= i < |lead| :: lead[i] == 0
    ensures StripZeros(lead + ds) == StripZeros(ds)
  {
    if lead == [] {
      assert lead + ds == ds;
    } else {
      assert (lead + ds)[0] == 0 && (lead + ds)[1..] == lead[1..] + ds;
      StripLead(lead[1..], ds);
    }
  }

  ghost predicate ReadsBackAs(text: string, neg: bool, digits: seq<digit>, exponent: int, field: int) {
    var t := Read(text);
    && t.Number? && t.neg == neg && t.digits == StripZeros(digits) && LastExponent(t) == exponent && t.field == field
  }

  lemma ReadRenderScientific(neg: bool, digits: seq<digit>, e: int)
    requires digits != []
    ensures ReadsBackAs((if neg then "-" else "") + (Mantissa(digits) + ("E" + SignedText(e))), neg, digits, e - (|digits| - 1), e)
  {
    hide Read, SignedText, StripZeros, DigitsIn, PointCount, AfterPoint, AllBody, Pointed, Chars;
    if |digits| > 1 {
      assert digits == digits[..1] + digits[1..];
      PointedBody(digits[..1], digits[1..]);
    } else {
      PlainBody(digits);
    }
    ReadScientific(neg, Mantissa(digits), e);
  }

  lemma PlainBody(digits: seq<digit>)
    ensures var b := Chars(digits);
            AllBody(b) && PointCount(b) == 0 && DigitsIn(b) == digits && AfterPoint(b) == 0
  {
    DigitsOfChars(digits);
  }

  lemma ReadRenderPointed(neg: bool, digits: seq<digit>, before: seq<digit>, after: seq<digit>)
    requires StripZeros(before + after) == StripZeros(digits) && before + after != []
    ensures ReadsBackAs((if neg then "-" else "") + Pointed(before, after), neg, digits, -|after|, 0)
  {
    hide Read, StripZeros, DigitsIn, PointCount, AfterPoint, AllBody, Pointed;
    PointedBody(before, after);
    ReadPlain(neg, Pointed(before, after));
  }

  /** The text of a decimal reads back as the same sign, the same digits and the same exponent. */
  lemma ReadRender(neg: bool, digits: seq<digit>, exponent: int)
    requires digits != []
    ensures var scientific := |digits| - 1 + exponent;
            ReadsBackAs(Render(neg, digits, exponent), neg, digits, exponent,
                        if scientific < -6 || exponent > 0 then scientific else 0)
  {
    hide ReadsBackAs, Chars, Mantissa, Pointed, SignedText, StripZeros;
    var scientific, radix := |digits| - 1 + exponent, |digits| + exponent;
    if scientific < -6 || exponent > 0 {
      ReadRenderScientific(neg, digits, scientific);
    } else if exponent == 0 {
      ReadRenderPlain(neg, digits);
    } else if radix > 0 {
      assert digits[..radix] + digits[radix..] == digits;
      ReadRenderPointed(neg, digits, digits[..radix], digits[radix..]);
    } else {
      ReadRenderFraction(neg, digits, -radix);
    }
  }

  lemma ReadRenderFraction(neg: bool, digits: seq<digit>, zeros: nat)
    requires digits != []
    ensures ReadsBackAs((if neg then "-" else "") + Pointed([0], Zeros(zeros) + digits), neg, digits, -(zeros + |digits|), 0)
  {
    hide ReadsBackAs, Pointed, StripZeros, Zeros;
    var lead := Zeros(zeros);
    assert [0] + (lead + digits) == ([0] + lead) + digits;
    StripLead([0] + lead, digits);
    ReadRenderPointed(neg, digits, [0], lead + digits);
  }

  lemma ReadRenderPlain(neg: bool, digits: seq<digit>)
    requires digits != []
    ensures ReadsBackAs((if neg then "-" else "") + Chars(digits), neg, digits, 0, 0)
  {
    hide Read, StripZeros, DigitsIn, PointCount, AfterPoint, AllBody, Chars;
    PlainBody(digits);
    ReadPlain(neg, Chars(digits));
  }
}
