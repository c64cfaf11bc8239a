/** The texts that `bson_decimal128_from_string` takes for a number, as a grammar, and what each part of them counts. */
module DecimalSyntax {
  import opened DecimalDigits
  import opened DecimalText

  /** `blanks` is the space that `sscanf` skips behind the mark. */
  datatype Exponent = NoExponent | Exponent(mark: char, blanks: string, sign: string, digits: seq<digit>)

  datatype Numeral = Numeral(sign: string, before: seq<digit>, pointed: bool, after: seq<digit>, exponent: Exponent)

  predicate IsSign(s: string) { s == "" || s == "+" || s == "-" }

  predicate AllBlank(s: string) { forall i | 0 <= i < |s| :: s[i] as int in {0x20, 0x09, 0x0a, 0x0b, 0x0c, 0x0d} }

  predicate ValidExponent(e: Exponent) {
    e.NoExponent? || ((e.mark == 'e' || e.mark == 'E') && AllBlank(e.blanks) && IsSign(e.sign) && e.digits != [])
  }

  /** At least one digit, on either side of the point. */
  predicate ValidNumeral(n: Numeral) {
    IsSign(n.sign) && n.before + n.after != [] && (n.pointed || n.after == []) && ValidExponent(n.exponent)
  }

  function BodyText(n: Numeral): string { Chars(n.before) + (if n.pointed then "." + Chars(n.after) else "") }

  function ExponentText(e: Exponent): string {
    if e.NoExponent? then "" else [e.mark] + (e.blanks + e.sign + Chars(e.digits))
  }

  function TextOf(n: Numeral): string { n.sign + BodyText(n) + ExponentText(n.exponent) }

  function ExponentValue(e: Exponent): int {
    if e.NoExponent? then 0 else if e.sign == "-" then -(Value(e.digits) as int) else Value(e.digits)
  }

  function MeaningOf(n: Numeral): Text {
    Number(n.sign == "-", StripZeros(n.before + n.after), n.pointed, |n.after|, ExponentValue(n.exponent))
  }

  lemma BodyOf(n: Numeral)
    requires ValidNumeral(n)
    ensures var b := BodyText(n);
            && b != "" && AllBody(b) && PointCount(b) == (if n.pointed then 1 else 0) && DigitsIn(b) == n.before + n.after
            && AfterPoint(b) == |n.after|
  {
    hide DigitsIn, PointCount, AfterPoint, AllBody, ValidExponent;
    if n.pointed {
      PointedBody(n.before, n.after);
      PointedText(n.before, n.after);
    } else {
      PlainBody(n.before);
      assert n.before + n.after == n.before && Chars(n.before) + "" == Chars(n.before);
    }
  }

  lemma PointedText(a: seq<digit>, b: seq<digit>)
    ensures Chars(a) + ("." + Chars(b)) == Pointed(a, b) != ""
  {
    hide Chars;
  }

  lemma SignedSlice(sign: string, b: string, tail: string)
    requires IsSign(sign) && b != "" && AllBody(b) && (tail == "" || !IsBodyChar(tail[0]))
    ensures var i, s := |sign|, sign + b + tail;
            && SignLength(s) == i && (s[0] == '-' <==> sign == "-") && i + |b| <= |s|
            && IsBodyChar(s[i]) && BodyEnd(s, i) == i + |b| && s[i..i + |b|] == b
  {
    hide BodyEnd;
    var i, s := |sign|, sign + b + tail;
    assert s[i] == b[0];
    assert forall k | i <= k < i + |b| :: s[k] == b[k - i];
    assert tail != "" ==> s[i + |b|] == tail[0];
    assert forall k | i <= k < i + |b| :: IsBodyChar(s[k]);
    var j := BodyEnd(s, i);
    assert j == i + |b|;
  }

  /** Blanks, a sign and digits up to the end of the text. */
  lemma ScanExponent(head: string, e: Exponent)
    requires e.Exponent? && ValidExponent(e)
    ensures var s := head + (e.blanks + e.sign + Chars(e.digits));
            ScanInt(s, |head|) == Scanned(ExponentValue(e), |s|)
  {
    hide Value, Chars, DigitsIn, ScanInt, DigitsEnd, SkipSpace;
    var t := Chars(e.digits);
    var s := head + (e.blanks + e.sign + t);
    var a := |head| + |e.blanks|;
    var b := a + |e.sign|;
    assert s[b..] == t && s[a..] == e.sign + t && s[|head|..a] == e.blanks;
    assert forall k | |head| <= k < a :: s[k] == s[|head|..a][k - |head|];
    assert s[a] == s[a..][0];
    CharsAreDigits(e.digits);
    SkipsTo(s, |head|, a);
    ScanBehind(s, |head|, a, b, e.digits);
    if e.sign != "" {
      assert s[a] == e.sign[0];
    }
  }

  lemma CharsAreDigits(ds: seq<digit>)
    ensures forall k | 0 <= k < |Chars(ds)| :: IsDigit(Chars(ds)[k])
  {}

  /** A sign or none, then digits to the end. */
  lemma ScanBehind(s: string, i: nat, a: nat, b: nat, ds: seq<digit>)
    requires i <= a < |s| && SkipSpace(s, i) == a && b == (if s[a] == '+' || s[a] == '-' then a + 1 else a)
    requires s[b..] == Chars(ds) && ds != []
    ensures ScanInt(s, i) == Scanned(if s[a] == '-' then -(Value(ds) as int) else Value(ds), |s|)
  {
    hide Value, Chars, DigitsIn;
    DigitsOfChars(ds);
    CharsAreDigits(ds);
    assert forall k | b <= k < |s| :: s[k] == s[b..][k - b];
    DigitsTo(s, b);
    assert s[b..|s|] == s[b..];
  }

  lemma {:induction false} SkipsTo(s: string, i: nat, a: nat)
    requires i <= a <= |s| && (forall k | i <= k < a :: IsSpace(s[k])) && (a < |s| ==> !IsSpace(s[a]))
    ensures SkipSpace(s, i) == a
    decreases a - i
  {
    if i < a {
      SkipsTo(s, i + 1, a);
    }
  }

  lemma {:induction false} DigitsTo(s: string, b: nat)
    requires b <= |s| && forall k | b <= k < |s| :: IsDigit(s[k])
    ensures DigitsEnd(s, b) == |s|
    decreases |s| - b
  {
    if b < |s| {
      DigitsTo(s, b + 1);
    }
  }

  /** Every such text is read as the number it writes. */
  lemma Understood(n: Numeral)
    requires ValidNumeral(n)
    ensures Read(TextOf(n)) == MeaningOf(n)
  {
    hide BodyText, ExponentText, DigitsIn, PointCount, AfterPoint, AllBody, BodyEnd, SignLength, ScanInt, EqualsIgnoringCase, StripZeros,
         ExponentValue, IsBodyChar;
    var b, tail := BodyText(n), ExponentText(n.exponent);
    BodyOf(n);
    TailStarts(n.exponent);
    SignedSlice(n.sign, b, tail);
    var s, j := TextOf(n), |n.sign| + |b|;
    if n.exponent.Exponent? {
      var e := n.exponent;
      assert s == (n.sign + b + [e.mark]) + (e.blanks + e.sign + Chars(e.digits)) by { TailIs(n.sign + b, e); }
      ScanExponent(n.sign + b + [e.mark], e);
      assert s[j] == e.mark;
    } else {
      assert tail == "" && ExponentValue(n.exponent) == 0 by { NoTail(n.exponent); }
    }
  }

  lemma NoTail(e: Exponent)
    requires e.NoExponent?
    ensures ExponentText(e) == "" && ExponentValue(e) == 0
  {}

  lemma TailIs(head: string, e: Exponent)
    requires e.Exponent?
    ensures head + ExponentText(e) == (head + [e.mark]) + (e.blanks + e.sign + Chars(e.digits))
  {}

  lemma TailStarts(e: Exponent)
    requires ValidExponent(e)
    ensures ExponentText(e) == "" || !IsBodyChar(ExponentText(e)[0])
  {}

  lemma OneChar(c: char)
    requires IsDigit(c)
    ensures Chars([CharDigit(c)]) == [c]
  {}

  lemma {:induction false} CharsOfDigits(b: string)
    requires AllBody(b) && PointCount(b) == 0
    ensures Chars(DigitsIn(b)) == b
  {
    hide Chars;
    if b == "" {
      NoChars();
    } else {
      var init, c := b[..|b| - 1], b[|b| - 1];
      CharsOfDigits(init);
      OneChar(c);
      CharsConcat(DigitsIn(init), [CharDigit(c)]);
    }
  }

  lemma NoChars()
    ensures Chars([]) == ""
  {}

  /** A body with one point is cut in two. */
  lemma {:induction false} CutAtPoint(b: string) returns (at: nat)
    requires AllBody(b) && PointCount(b) == 1
    ensures at < |b| && b == b[..at] + "." + b[at + 1..] && PointCount(b[..at]) == 0 == PointCount(b[at + 1..])
  {
    var c := b[|b| - 1];
    if c == '.' {
      at := |b| - 1;
      assert b[at + 1..] == "";
    } else {
      var init := b[..|b| - 1];
      at := CutAtPoint(init);
      assert b[..at] == init[..at] && b[at + 1..] == init[at + 1..] + [c];
      assert (init[at + 1..] + [c])[..|init[at + 1..]|] == init[at + 1..];
    }
  }

  /** The digits on both sides of the point. */
  lemma BodyParts(b: string) returns (n: Numeral)
    requires AllBody(b) && PointCount(b) <= 1 && DigitsIn(b) != []
    ensures n.sign == "" && n.exponent == NoExponent && ValidNumeral(n) && BodyText(n) == b
  {
    hide DigitsIn, PointCount, Chars;
    if PointCount(b) == 0 {
      CharsOfDigits(b);
      n := Numeral("", DigitsIn(b), false, [], NoExponent);
    } else {
      var at := CutAtPoint(b);
      var x, y := b[..at], b[at + 1..];
      CharsOfDigits(x);
      CharsOfDigits(y);
      n := Numeral("", DigitsIn(x), true, DigitsIn(y), NoExponent);
      assert b == x + ("." + y);
      BodyConcat(x, ".");
      BodyConcat(x + ".", y);
      JustPoint();
    }
  }

  /** What `sscanf` has taken, if it has taken all of the text. */
  lemma ExponentParts(s: string, i: nat) returns (e: Exponent)
    requires i <= |s| && ScanInt(s, i).Scanned? && ScanInt(s, i).end == |s|
    ensures e.Exponent? && e.mark == 'E' && ValidExponent(e) && s[i..] == e.blanks + e.sign + Chars(e.digits)
  {
    hide Chars, DigitsIn, Value;
    var a := SkipSpace(s, i);
    var b := if a < |s| && (s[a] == '+' || s[a] == '-') then a + 1 else a;
    assert b < |s| && DigitsEnd(s, b) == |s|;
    SkippedBlanks(s, i);
    var t := s[b..];
    assert forall k | 0 <= k < |t| :: t[k] == s[b + k];
    OnlyDigits(t);
    e := Exponent('E', s[i..a], s[a..b], DigitsIn(t));
    assert s[i..] == s[i..a] + s[a..b] + t;
    assert b == a + 1 ==> s[a..b] == [s[a]];
  }

  lemma {:induction false} SkippedBlanks(s: string, i: nat)
    requires i <= |s|
    ensures AllBlank(s[i..SkipSpace(s, i)])
    decreases |s| - i
  {
    if i < |s| && IsSpace(s[i]) {
      SkippedBlanks(s, i + 1);
      var j := SkipSpace(s, i + 1);
      assert s[i..j] == [s[i]] + s[i + 1..j];
    }
  }

  lemma {:induction false} OnlyDigits(t: string)
    requires forall k | 0 <= k < |t| :: IsDigit(t[k])
    ensures Chars(DigitsIn(t)) == t && |DigitsIn(t)| == |t|
  {
    hide Chars;
    if t == "" {
      NoChars();
    } else {
      var init, c := t[..|t| - 1], t[|t| - 1];
      OnlyDigits(init);
      OneChar(c);
      CharsConcat(DigitsIn(init), [CharDigit(c)]);
    }
  }

  /** The sign and the body of what is read as a number. */
  lemma HeadParts(s: string) returns (m: Numeral, j: nat)
    requires Read(s).Number?
    ensures SignLength(s) <= j == BodyEnd(s, SignLength(s)) <= |s| && m.exponent == NoExponent && ValidNumeral(m)
    ensures s[..j] == m.sign + BodyText(m)
  {
    hide DigitsIn, PointCount, AfterPoint, ScanInt, EqualsIgnoringCase, StripZeros, NumberOf, BodyText, Chars;
    var i := SignLength(s);
    j := BodyEnd(s, i);
    var b := s[i..j];
    assert forall k | 0 <= k < |b| :: b[k] == s[i + k];
    var n := BodyParts(b);
    m := n.(sign := s[..i]);
    assert i == 1 ==> s[..i] == [s[0]];
    SameBody(n, m);
  }

  lemma MarkIs(s: string, j: nat)
    requires Read(s).Number? && j == BodyEnd(s, SignLength(s)) < |s|
    ensures (s[j] == 'e' || s[j] == 'E') && ScanInt(s, j + 1).Scanned? && ScanInt(s, j + 1).end == |s|
  {
    hide DigitsIn, PointCount, ScanInt, EqualsIgnoringCase, BodyEnd, IsBodyChar, SignLength, StripZeros, AfterPoint;
  }

  /** Nothing else is. */
  lemma NumberHasParts(s: string) returns (n: Numeral)
    requires Read(s).Number?
    ensures ValidNumeral(n) && TextOf(n) == s
  {
    hide Read, BodyText, Chars, BodyEnd, SignLength, ScanInt;
    var m, j := HeadParts(s);
    if j == |s| {
      n := m;
      assert TextOf(m) == s[..j] + "" == s;
    } else {
      MarkIs(s, j);
      var e := ExponentParts(s, j + 1);
      n := m.(exponent := e.(mark := s[j]));
      SameBody(m, n);
      assert s == s[..j] + ([s[j]] + s[j + 1..]);
    }
  }

  lemma SameBody(m: Numeral, n: Numeral)
    requires m.before == n.before && m.pointed == n.pointed && m.after == n.after
    ensures BodyText(m) == BodyText(n)
  {}

  /** A text is a number exactly if the grammar has it, and then its digits, its point and its exponent are those of its parts. */
  lemma ReadIff(s: string)
    ensures Read(s).Number? <==> exists n :: ValidNumeral(n) && TextOf(n) == s
    ensures forall n | ValidNumeral(n) && TextOf(n) == s :: Read(s) == MeaningOf(n)
  {
    hide Read, MeaningOf, TextOf, ValidNumeral;
    forall n | ValidNumeral(n) && TextOf(n) == s ensures Read(s) == MeaningOf(n) {
      Understood(n);
    }
    if Read(s).Number? {
      var n := NumberHasParts(s);
    }
    forall n ensures MeaningOf(n).Number? {
      IsNumber(n);
    }
  }

  lemma IsNumber(n: Numeral)
    ensures MeaningOf(n).Number?
  {}

  /** A word in small letters, in capitals, or in any mixture. */
  predicate SpelledAs(w: string, small: string, capital: string)
    requires |small| == |capital|
  {
    |w| == |small| && forall i | 0 <= i < |w| :: w[i] == small[i] || w[i] == capital[i]
  }

  function WithoutSign(s: string): string { if s != "" && (s[0] == '+' || s[0] == '-') then s[1..] else s }

  predicate IsInfinity(w: string) { SpelledAs(w, "inf", "INF") || SpelledAs(w, "infinity", "INFINITY") }

  predicate IsNan(w: string) { SpelledAs(w, "nan", "NAN") }

  lemma WordIff(w: string)
    ensures EqualsIgnoringCase(w, "inf") <==> SpelledAs(w, "inf", "INF")
    ensures EqualsIgnoringCase(w, "nan") <==> SpelledAs(w, "nan", "NAN")
  {}

  lemma LongWordIff(w: string)
    ensures EqualsIgnoringCase(w, "infinity") <==> SpelledAs(w, "infinity", "INFINITY")
  {}

  /** And the words. */
  lemma WordsIff(s: string)
    ensures var w, neg := WithoutSign(s), s != "" && s[0] == '-';
            (Read(s) == Infinite(neg) <==> IsInfinity(w)) && (Read(s).Infinite? ==> Read(s).neg == neg)
            && (Read(s) == NotANumber <==> IsNan(w))
  {
    hide EqualsIgnoringCase, SpelledAs, BodyEnd, DigitsIn, PointCount, AfterPoint, ScanInt, StripZeros;
    var w := WithoutSign(s);
    WordIff(w);
    LongWordIff(w);
    assert s[SignLength(s)..] == w;
    WordStarts(w);
    WordsDiffer(w);
    hide IsInfinity, IsNan;
    if SignLength(s) < |s| {
      assert w[0] == s[SignLength(s)];
    }
  }

  lemma WordStarts(w: string)
    ensures IsInfinity(w) || IsNan(w) ==> w != "" && !IsBodyChar(w[0])
  {
    if |w| > 0 {
      assert "inf"[0] == 'i' && "INF"[0] == 'I' && "infinity"[0] == 'i' && "INFINITY"[0] == 'I' && "nan"[0] == 'n' && "NAN"[0] == 'N';
    }
  }

  lemma WordsDiffer(w: string)
    ensures !(IsInfinity(w) && IsNan(w))
  {
    if |w| == 3 {
      assert "inf"[0] == 'i' && "INF"[0] == 'I' && "nan"[0] == 'n' && "NAN"[0] == 'N';
      var c := w[0];
    }
  }
}
