/** `bson_decimal128_from_string`: scanning, normalisation, 128-bit multiplication and bit packing. */
module DecimalParser {
  import opened Bytes
  import opened DecimalDigits
  import opened DecimalText
  import opened DecimalBits
  import opened DecimalRange

  /** A C string: the NUL that ends it is not part of the sequence. */
  predicate Terminated(s: string) { forall i | 0 <= i < |s| :: s[i] != NUL }

  function At(s: string, i: nat): char
    requires i <= |s|
  {
    if i < |s| then s[i] else NUL
  }

  function AsInt32(n: int): int32 {
    var r := n % TWO_32;
    if r > INT32_MAX then r - TWO_32 else r
  }

  /** What the scanning loop knows of the characters `b` of the number read so far. */
  ghost predicate Scanned(b: string, digits: seq<digit>, stored: nat, ndigits: nat, read: nat, after: nat,
                          firstNonzero: nat, sawRadix: bool)
  {
    var ds, significant := DigitsIn(b), StripZeros(DigitsIn(b));
    && PointCount(b) == (if sawRadix then 1 else 0) && after == AfterPoint(b)
    && read == |ds| && ndigits == |significant|
    && stored == (if ndigits < MAX_DIGITS then ndigits else MAX_DIGITS) <= |digits|
    && digits[..stored] == significant[..stored]
    && (ndigits > 0 ==> firstNonzero == |ds| - ndigits)
  }

  lemma StripHead(ds: seq<digit>)
    requires ds != []
    ensures StripZeros(ds) == if ds[0] != 0 then ds else StripZeros(ds[1..])
  {}

  lemma {:induction false} StripAppend(ds: seq<digit>, d: digit)
    ensures StripZeros(ds + [d]) == if StripZeros(ds) == [] && d == 0 then [] else StripZeros(ds) + [d]
  {
    var all := ds + [d];
    StripHead(all);
    if ds == [] {
      assert all == [d] && all[1..] == [];
    } else {
      hide StripZeros;
      assert all[0] == ds[0];
      StripHead(ds);
      if ds[0] == 0 {
        StripAppend(ds[1..], d);
        assert all[1..] == ds[1..] + [d];
      }
    }
  }

  lemma BodyStep(b: string, c: char)
    requires IsBodyChar(c)
    ensures DigitsIn(b + [c]) == (if c == '.' then DigitsIn(b) else DigitsIn(b) + [CharDigit(c)])
    ensures PointCount(b + [c]) == PointCount(b) + if c == '.' then 1 else 0
    ensures PointCount(b) == 0 ==> AfterPoint(b) == 0
    ensures AfterPoint(b + [c]) == if c == '.' || PointCount(b) == 0 then 0 else AfterPoint(b) + 1
  {
    assert (b + [c])[..|b|] == b;
  }

  lemma {:induction false} PointsGrow(s: string, i: nat, j: nat, k: nat)
    requires i <= j <= k <= |s|
    ensures PointCount(s[i..j]) <= PointCount(s[i..k])
  {
    assert s[i..k] == s[i..j] + s[j..k];
    BodyConcat(s[i..j], s[j..k]);
  }

  lemma {:induction false} EndOf(s: string, i: nat, j: nat)
    requires i <= j <= |s| && (forall k | i <= k < j :: IsBodyChar(s[k])) && (j == |s| || !IsBodyChar(s[j]))
    ensures BodyEnd(s, i) == j
  {}

  lemma ScannedPoint(b: string, digits: seq<digit>, stored: nat, ndigits: nat, read: nat, firstNonzero: nat)
    requires Scanned(b, digits, stored, ndigits, read, 0, firstNonzero, false)
    ensures Scanned(b + ".", digits, stored, ndigits, read, 0, firstNonzero, true)
  {
    BodyStep(b, '.');
  }

  lemma Appended(digits: seq<digit>, stored: nat, kept: seq<digit>, d: digit)
    requires stored < |digits| && digits[..stored] == kept
    ensures digits[stored := d][..stored + 1] == (kept + [d])[..stored + 1] && |kept + [d]| == stored + 1
  {
    assert digits[stored := d][..stored + 1] == digits[..stored] + [d];
  }

  lemma ScannedDigit(b: string, c: char, digits: seq<digit>, stored: nat, ndigits: nat, read: nat, after: nat,
                     firstNonzero: nat, sawRadix: bool)
    requires IsDigit(c) && |digits| == MAX_DIGITS
    requires Scanned(b, digits, stored, ndigits, read, after, firstNonzero, sawRadix)
    ensures var d, counts := CharDigit(c), ndigits > 0 || c != '0';
            var store := counts && stored < MAX_DIGITS;
            Scanned(b + [c], if store then digits[stored := d] else digits, if store then stored + 1 else stored,
                    if counts then ndigits + 1 else ndigits, read + 1, if sawRadix then after + 1 else after,
                    if ndigits == 0 && counts then read else firstNonzero, sawRadix)
  {
    hide DigitsIn, PointCount, AfterPoint, StripZeros;
    var d, old', counts := CharDigit(c), StripZeros(DigitsIn(b)), ndigits > 0 || c != '0';
    BodyStep(b, c);
    StripAppend(DigitsIn(b), d);
    var now := StripZeros(DigitsIn(b + [c]));
    assert now == if counts then old' + [d] else [];
    hide CharDigit;
    if !counts {
      assert digits[..0] == now[..0];
    } else if stored < MAX_DIGITS {
      assert old'[..stored] == old';
      Appended(digits, stored, old', d);
    } else {
      assert now[..stored] == old'[..stored];
    }
  }

  /** The digit loop. */
  method ScanBody(s: string, start: nat)
    returns (ok: bool, end: nat, digits: array<digit>, stored: nat, ndigits: nat, read: nat, after: nat,
             firstNonzero: nat, sawRadix: bool)
    requires start <= |s|
    ensures fresh(digits) && digits.Length == MAX_DIGITS
    ensures ok <==> PointCount(s[start..BodyEnd(s, start)]) <= 1
    ensures ok ==> end == BodyEnd(s, start)
                   && Scanned(s[start..end], digits[..], stored, ndigits, read, after, firstNonzero, sawRadix)
    ensures ok ==> forall i | stored <= i < MAX_DIGITS :: digits[i] == 0
  {
    hide DigitsIn, PointCount, AfterPoint, BodyEnd, StripZeros, Scanned, CharDigit;
    digits := new digit[MAX_DIGITS](_ => 0);
    ok, end, stored, ndigits, read, after, firstNonzero, sawRadix := true, start, 0, 0, 0, 0, 0, false;
    var foundNonzero := false;
    EmptyBody(digits[..]);
    assert s[start..start] == "";
    while end < |s| && IsBodyChar(s[end])
      invariant start <= end <= |s| && forall k | start <= k < end :: IsBodyChar(s[k])
      invariant Scanned(s[start..end], digits[..], stored, ndigits, read, after, firstNonzero, sawRadix)
      invariant foundNonzero == (ndigits > 0) && (ndigits == 0 ==> stored == 0) && (!sawRadix ==> after == 0)
      invariant PointCount(s[start..end]) == (if sawRadix then 1 else 0)
      invariant forall i | stored <= i < MAX_DIGITS :: digits[i] == 0
    {
      var c := s[end];
      ghost var b, before := s[start..end], digits[..];
      assert s[start..end + 1] == b + [c];
      BodyStep(b, c);
      if c == '.' {
        if sawRadix {
          PointsGrow(s, start, end + 1, BodyEnd(s, start));
          ok := false;
          return;
        }
        sawRadix := true;
        end := end + 1;
        ScannedPoint(b, digits[..], stored, ndigits, read, firstNonzero);
        continue;
      }
      ScannedDigit(b, c, digits[..], stored, ndigits, read, after, firstNonzero, sawRadix);
      if stored < 34 {
        if c != '0' || foundNonzero {
          if !foundNonzero {
            firstNonzero := read;
          }
          foundNonzero := true;
          digits[stored] := CharDigit(c);
          assert digits[..] == before[stored := CharDigit(c)];
          assert forall i | stored < i < MAX_DIGITS :: digits[i] == 0;
          stored := stored + 1;
        }
      }
      if foundNonzero {
        ndigits := ndigits + 1;
      }
      if sawRadix {
        after := after + 1;
      }
      read := read + 1;
      end := end + 1;
    }
    EndOf(s, start, end);
  }

  lemma EmptyBody(digits: seq<digit>)
    ensures PointCount("") == 0 && Scanned("", digits, 0, 0, 0, 0, 0, false)
  {}

  lemma {:induction false} BodyLength(b: string)
    requires AllBody(b)
    ensures |b| == |DigitsIn(b)| + PointCount(b) && AfterPoint(b) <= |DigitsIn(b)|
    ensures PointCount(b) == 0 ==> AfterPoint(b) == 0
  {
    if b != "" {
      BodyLength(b[..|b| - 1]);
    }
  }

  /** What the source's index arithmetic, which only adds one for a point, finds for digit `m`. */
  function CharFor(ds: seq<digit>, pointed: bool, point: int, m: nat): char
    requires m < |ds| && point <= |ds|
  {
    if pointed && m + 1 == point then '.'
    else if pointed && m + 1 < point then DigitChar(ds[m + 1])
    else DigitChar(ds[m])
  }

  lemma {:induction false} BodyAt(b: string, m: nat)
    requires AllBody(b) && PointCount(b) <= 1 && m < |DigitsIn(b)|
    ensures |b| == |DigitsIn(b)| + PointCount(b)
    ensures b[m + PointCount(b)] == CharFor(DigitsIn(b), PointCount(b) == 1, |DigitsIn(b)| - AfterPoint(b), m)
  {
    hide DigitsIn, PointCount, AfterPoint;
    var init, c := b[..|b| - 1], b[|b| - 1];
    assert b == init + [c];
    BodyLength(b);
    BodyLength(init);
    BodyStep(init, c);
    if m < |DigitsIn(init)| {
      BodyAt(init, m);
      if m + 1 < |DigitsIn(init)| {
        BodyAt(init, m + 1);
      }
    }
  }

  /** The facts of a scanned body that the later steps use. */
  ghost predicate InBody(s: string, start: nat, b: string, ds: seq<digit>, ndigits: nat, after: nat, firstNonzero: nat,
                         sawRadix: bool)
  {
    && start + |b| <= |s| && s[start..start + |b|] == b && AllBody(b)
    && PointCount(b) == (if sawRadix then 1 else 0) && after == AfterPoint(b)
    && ds == StripZeros(DigitsIn(b)) && ndigits == |ds| > 0 && firstNonzero == |DigitsIn(b)| - ndigits
  }

  /** The character the rounding loops look at, `m` places after the first nonzero digit, as one of the significant digits. */
  lemma SignificantAt(s: string, start: nat, b: string, ds: seq<digit>, ndigits: nat, after: nat, firstNonzero: nat,
                      sawRadix: bool, m: nat)
    requires InBody(s, start, b, ds, ndigits, after, firstNonzero, sawRadix) && m < ndigits
    ensures var index := firstNonzero + m + start + if sawRadix then 1 else 0;
            index < |s| && s[index] == CharFor(ds, sawRadix, ndigits - after, m)
  {
    hide DigitsIn, PointCount, AfterPoint, StripZeros, AllBody;
    BodyAt(b, firstNonzero + m);
    var all := DigitsIn(b);
    StripIsSuffix(all);
    assert ds == all[firstNonzero..];
    var index := firstNonzero + m + start + if sawRadix then 1 else 0;
    assert s[index] == b[index - start];
  }

  /** The loop that marks trailing zeros as non-significant; it stops early at the point. */
  method CountSignificant(s: string, start: nat, ndigits: nat, firstNonzero: nat, sawRadix: bool,
                          ghost b: string, ghost ds: seq<digit>, ghost after: nat)
    returns (significant: nat)
    requires InBody(s, start, b, ds, ndigits, after, firstNonzero, sawRadix)
    ensures 1 <= significant <= ndigits && ZerosFrom(ds, significant)
    ensures sawRadix ==> significant >= ndigits - after
    ensures ds[significant - 1] != 0 || (sawRadix && significant == ndigits - after)
  {
    hide InBody;
    significant := ndigits;
    HeadNonzero(s, start, b, ds, ndigits, after, firstNonzero, sawRadix);
    SignificantAt(s, start, b, ds, ndigits, after, firstNonzero, sawRadix, significant - 1);
    while At(s, firstNonzero + significant - 1 + start + if sawRadix then 1 else 0) == '0'
      invariant 1 <= significant <= ndigits && ZerosFrom(ds, significant)
      invariant sawRadix ==> significant >= ndigits - after
      invariant var index := firstNonzero + significant - 1 + start + if sawRadix then 1 else 0;
                index < |s| && s[index] == CharFor(ds, sawRadix, ndigits - after, significant - 1)
      decreases significant
    {
      significant := significant - 1;
      SignificantAt(s, start, b, ds, ndigits, after, firstNonzero, sawRadix, significant - 1);
    }
  }

  lemma HeadNonzero(s: string, start: nat, b: string, ds: seq<digit>, ndigits: nat, after: nat, firstNonzero: nat, sawRadix: bool)
    requires InBody(s, start, b, ds, ndigits, after, firstNonzero, sawRadix)
    ensures |ds| == ndigits > 0 && ds[0] != 0
  {
    hide DigitsIn, PointCount, AfterPoint, StripZeros, AllBody;
  }

  /** The first normalisation loop: too large an exponent moves zeros into the coefficient. */
  method ShiftUp(last0: nat, significant: nat, exponent0: int) returns (ok: bool, last: nat, exponent: int)
    requires last0 < MAX_DIGITS
    ensures var k := exponent0 - EXPONENT_MAX;
            if k <= 0 then ok && last == last0 && exponent == exponent0
            else if last0 + k <= MAX_DIGITS then ok && last == last0 + k && exponent == EXPONENT_MAX
            else if significant == 0 then ok && exponent == EXPONENT_MAX else !ok
    ensures ok ==> exponent <= EXPONENT_MAX && (significant > 0 ==> last <= MAX_DIGITS)
  {
    ok, last, exponent := true, last0, exponent0;
    while exponent > EXPONENT_MAX
      invariant last0 <= last <= MAX_DIGITS && last - last0 == exponent0 - exponent
      invariant exponent0 > EXPONENT_MAX ==> exponent >= EXPONENT_MAX
      invariant exponent0 <= EXPONENT_MAX ==> last == last0
    {
      last := last + 1;
      if last > MAX_DIGITS {
        if significant == 0 {
          exponent := EXPONENT_MAX;
          break;
        }
        ok := false;
        return;
      }
      exponent := exponent - 1;
    }
  }

  /** The second normalisation loop: zeros move from the coefficient into too small an exponent. */
  method ShiftDown(s: string, start: nat, sawRadix: bool, digits: seq<digit>, stored: nat, ndigits0: nat, significant: nat,
                   last0: nat, exponent0: int)
    returns (ok: bool, last: nat, exponent: int)
    requires |digits| == MAX_DIGITS && start + ndigits0 + (if sawRadix then 1 else 0) <= |s| + 1 && stored <= ndigits0
    requires exponent0 <= EXPONENT_MAX && (exponent0 < EXPONENT_MIN ==> last0 < MAX_DIGITS)
    ensures ok ==> EXPONENT_MIN <= exponent <= EXPONENT_MAX && last <= last0
    ensures stored == ndigits0 && exponent0 >= EXPONENT_MIN ==> ok && last == last0 && exponent == exponent0
    ensures stored == ndigits0 && exponent0 < EXPONENT_MIN ==>
              var k := EXPONENT_MIN - exponent0;
              if significant == 0 && last0 == 0 then ok && exponent == EXPONENT_MIN
              else significant > 0 ==>
                && (ok <==> k <= last0 && forall i | last0 - k < i <= last0 :: digits[i] == 0)
                && (ok ==> last == last0 - k && exponent == EXPONENT_MIN)
  {
    ok, last, exponent := true, last0, exponent0;
    var ndigits := ndigits0;
    while exponent < EXPONENT_MIN || stored < ndigits
      invariant stored <= ndigits <= ndigits0 && last <= last0 && exponent0 <= exponent <= EXPONENT_MAX
      invariant stored == ndigits0 ==> last0 - last == exponent - exponent0 && (exponent0 < EXPONENT_MIN ==> exponent <= EXPONENT_MIN)
      invariant stored == ndigits0 && exponent0 >= EXPONENT_MIN ==> last == last0
      invariant forall i | last < i <= last0 && i < MAX_DIGITS :: digits[i] == 0
      decreases last + ndigits
    {
      if last == 0 {
        if significant == 0 {
          exponent := EXPONENT_MIN;
          break;
        }
        ok := false;
        return;
      }
      if stored < ndigits {
        if At(s, ndigits - 1 + start + if sawRadix then 1 else 0) != '0' && significant != 0 {
          ok := false;
          return;
        }
        ndigits := ndigits - 1;
      } else {
        if digits[last] != 0 {
          ok := false;
          return;
        }
        last := last - 1;
      }
      if exponent < EXPONENT_MAX {
        exponent := exponent + 1;
      } else {
        ok := false;
        return;
      }
    }
  }

  /** `mul64x64` is exact. */
  method Mul64x64(left: uint64, right: uint64) returns (high: uint64, low: uint64)
    ensures left * right == high * TWO_64 + low
  {
    if left == 0 && right == 0 {
      return 0, 0;
    }
    var leftHigh: uint32, leftLow: uint32 := left / TWO_32, left % TWO_32;
    var rightHigh: uint32, rightLow: uint32 := right / TWO_32, right % TWO_32;
    SplitProduct(leftHigh, leftLow, rightHigh, rightLow);
    hide Partial;
    var productHigh := Partial(leftHigh, rightHigh);
    var productMid := Partial(leftHigh, rightLow);
    var productMid2 := Partial(leftLow, rightHigh);
    var productLow := Partial(leftLow, rightLow);
    Columns(productHigh, productMid, productMid2, productLow);
    productHigh := productHigh + productMid / TWO_32;
    productMid := productMid % TWO_32 + productMid2 + productLow / TWO_32;
    productHigh := productHigh + productMid / TWO_32;
    productLow := productMid % TWO_32 * TWO_32 + productLow % TWO_32;
    return productHigh, productLow;
  }

  /** The product of two 32-bit halves does not wrap. */
  function Partial(a: uint32, b: uint32): (p: uint64)
    ensures p <= PRODUCT_MAX
  {
    ProductBound(a, b);
    a * b
  }

  lemma Columns(high: nat, mid: nat, mid2: nat, low: nat)
    requires high <= PRODUCT_MAX && mid <= PRODUCT_MAX && mid2 <= PRODUCT_MAX && low <= PRODUCT_MAX
    ensures var middle := mid % TWO_32 + mid2 + low / TWO_32;
            && middle < TWO_64 && high + mid / TWO_32 + middle / TWO_32 < TWO_64
            && high * TWO_64 + (mid + mid2) * TWO_32 + low
               == (high + mid / TWO_32 + middle / TWO_32) * TWO_64 + (middle % TWO_32 * TWO_32 + low % TWO_32)
  {}

  const PRODUCT_MAX: int := (TWO_32 - 1) * (TWO_32 - 1)

  lemma SplitProduct(a: uint32, b: uint32, c: uint32, d: uint32)
    ensures (a * TWO_32 + b) * (c * TWO_32 + d)
         == Partial(a, c) * TWO_64 + (Partial(a, d) + Partial(b, c)) * TWO_32 + Partial(b, d)
  {
    var x, y := a * TWO_32, c * TWO_32;
    assert (x + b) * (y + d) == x * y + x * d + b * y + b * d;
    assert x * y == a * c * TWO_64;
    assert x * d == a * d * TWO_32;
    assert b * y == b * c * TWO_32;
  }

  lemma ProductBound(a: uint32, b: uint32)
    ensures a * b <= PRODUCT_MAX
  {
    ScaleUp(a, TWO_32 - 1, b);
  }

  /** The digit at an index of the source's array; one past its end holds anything. */
  function DigitAt(digits: seq<digit>, beyond: nat, i: nat): nat {
    if i < |digits| then digits[i] else beyond
  }

  /** The two 17-digit halves of the coefficient. */
  method Accumulate(digits: seq<digit>, beyond: nat, last: nat, significant: nat) returns (high: uint64, low: uint64)
    requires |digits| == MAX_DIGITS && beyond < 0x1_0000 && (significant > 0 ==> last <= MAX_DIGITS)
    ensures significant == 0 ==> high == low == 0
    ensures significant > 0 && last < MAX_DIGITS ==> high * TEN_17 + low == Value(digits[..last + 1]) && high < TEN_17
    ensures high < 10 * TEN_17 && low < 11 * TEN_17
  {
    high, low := 0, 0;
    if significant == 0 {
      return;
    }
    if last < 17 {
      low := Fold(digits, beyond, 0, last + 1);
      assert digits[0..last + 1] == digits[..last + 1];
    } else {
      high := Fold(digits, beyond, 0, last - 16);
      low := Fold(digits, beyond, last - 16, last + 1);
      if last < MAX_DIGITS {
        assert digits[..last + 1] == digits[0..last - 16] + digits[last - 16..last + 1];
        ValueConcat(digits[0..last - 16], digits[last - 16..last + 1]);
        TenPowers();
      }
    }
  }

  /** One of the source's multiply-and-add loops over a run of digits. */
  method Fold(digits: seq<digit>, beyond: nat, from: nat, to: nat) returns (word: uint64)
    requires |digits| == MAX_DIGITS && beyond < 0x1_0000 && from < to <= MAX_DIGITS + 1 && to - from <= 18 && from < MAX_DIGITS
    requires to == MAX_DIGITS + 1 ==> to - from <= 17
    ensures to <= MAX_DIGITS ==> word == Value(digits[from..to])
    ensures word < (if to - from <= 17 then 11 * TEN_17 else 10 * TEN_17)
    ensures to <= MAX_DIGITS && to - from <= 17 ==> word < TEN_17
  {
    hide Value, Pow10;
    word := DigitAt(digits, beyond, from);
    StartFold(digits, from);
    var i := from + 1;
    while i < to
      invariant from < i <= to
      invariant i <= MAX_DIGITS ==> word == Value(digits[from..i]) && word < Pow10(i - from)
      invariant i > MAX_DIGITS ==> word < 11 * TEN_17
    {
      FoldBound(i - from);
      if i < MAX_DIGITS {
        StepFold(digits, from, i);
      }
      word := word * 10 + DigitAt(digits, beyond, i);
      i := i + 1;
    }
    FoldBound(to - from);
  }

  lemma StartFold(digits: seq<digit>, from: nat)
    requires from < |digits|
    ensures Value(digits[from..from + 1]) == digits[from] < Pow10(1)
  {
    assert digits[from..from + 1][..0] == [];
  }

  lemma StepFold(digits: seq<digit>, from: nat, i: nat)
    requires from <= i < |digits|
    ensures Value(digits[from..i + 1]) == 10 * Value(digits[from..i]) + digits[i] < Pow10(i + 1 - from)
  {
    assert digits[from..i + 1][..i - from] == digits[from..i];
    ValueBound(digits[from..i + 1]);
  }

  lemma FoldBound(k: nat)
    requires 1 <= k <= 18
    ensures Pow10(k) <= 10 * TEN_17 && (k <= 17 ==> Pow10(k) <= TEN_17) && (k <= 16 ==> Pow10(k) <= TEN_17 / 10)
  {
    TenPowers();
    assert Pow10(17) == 10 * Pow10(16) && Pow10(18) == 10 * Pow10(17);
    Pow10Monotone(k, 18);
    if k <= 17 {
      Pow10Monotone(k, 17);
    }
    if k <= 16 {
      Pow10Monotone(k, 16);
    }
  }

  /** The two words from sign, exponent and a 128-bit coefficient. */
  method PackWords(neg: bool, exponent: int, high: uint64, low: uint64) returns (d: Decimal128)
    requires EXPONENT_MIN <= exponent <= EXPONENT_MAX
    ensures high < TWO_49 ==> d == Pack(neg, high * TWO_64 + low, exponent)
  {
    var biased := exponent + EXPONENT_BIAS;
    var word: uint64;
    if high / TWO_49 % 2 == 1 {
      word := 0x6000_0000_0000_0000 + biased % TWO_14 * 0x8000_0000_0000 + high % 0x8000_0000_0000;
    } else {
      word := biased % TWO_14 * TWO_49 + high % TWO_49;
    }
    if neg {
      word := word + TWO_63;
    }
    d := Decimal128(word, low);
  }

  /** `_dec128_istreq`. */
  method Istreq(a: string, b: string) returns (same: bool)
    requires Terminated(a) && Terminated(b)
    ensures same == EqualsIgnoringCase(a, b)
  {
    var i := 0;
    while At(a, i) != NUL || At(b, i) != NUL
      invariant i <= |a| && i <= |b| && forall k | 0 <= k < i :: Lower(a[k]) == Lower(b[k])
      decreases |a| - i
    {
      if At(a, i) == NUL || At(b, i) == NUL {
        return false;
      }
      if Lower(At(a, i)) != Lower(At(b, i)) {
        return false;
      }
      i := i + 1;
    }
    return true;
  }

  /** Correcting the exponent for the point: exact, unless the input is very long. */
  method CorrectedExponent(field: int32, after: nat) returns (exponent: int32)
    ensures after <= LENGTH_LIMIT && -FIELD_LIMIT < field < FIELD_LIMIT ==> exponent == field - after
  {
    if 0 <= field <= after && after - field > 0x4000 {
      exponent := EXPONENT_MIN;
    } else {
      exponent := AsInt32(field - after);
    }
  }

  /** Whether the character after the kept digits, where the point has not been skipped, is nonzero. */
  method RoundsAway(s: string, start: nat, sawRadix: bool, firstNonzero: nat, last: nat, significant: nat, ndigits: nat,
                    ghost b: string, ghost ds: seq<digit>, ghost after: nat)
    returns (inexact: bool)
    requires significant > 0 ==> InBody(s, start, b, ds, ndigits, after, firstNonzero, sawRadix) && significant <= ndigits
    ensures significant == 0 ==> !inexact
    ensures significant > 0 ==>
              (inexact <==> last + 1 < significant && CharFor(ds, sawRadix, ndigits - after, last + 1) != '0')
  {
    hide InBody;
    inexact := false;
    if significant > 0 {
      HeadNonzero(s, start, b, ds, ndigits, after, firstNonzero, sawRadix);
    }
    if last + 1 < significant {
      SignificantAt(s, start, b, ds, ndigits, after, firstNonzero, sawRadix, last + 1);
      inexact := At(s, firstNonzero + last + start + (if sawRadix then 1 else 0) + 1) != '0';
    }
  }

  /** The coefficient of the kept digits, multiplied out to 128 bits, and the packed result. */
  method StoreDigits(neg: bool, digits: seq<digit>, last: nat, significant: nat, exponent: int) returns (d: Decimal128)
    requires |digits| == MAX_DIGITS && (significant > 0 ==> last <= MAX_DIGITS)
    requires EXPONENT_MIN <= exponent <= EXPONENT_MAX
    ensures significant == 0 ==> d == Pack(neg, 0, exponent)
    ensures significant > 0 && last < MAX_DIGITS ==>
              Value(digits[..last + 1]) < TWO_113 && d == Pack(neg, Value(digits[..last + 1]), exponent)
  {
    hide Value, Pack;
    var beyond: uint32 := *;
    beyond := beyond % 0x1_0000;
    var seventeenHigh, seventeenLow := Accumulate(digits, beyond, last, significant);
    var high, low := Mul64x64(seventeenHigh, TEN_17);
    ghost var exact := seventeenHigh * TEN_17 + seventeenLow;
    low := (low + seventeenLow) % TWO_64;
    if low < seventeenLow {
      high := high + 1;
    }
    assert high * TWO_64 + low == exact;
    if significant > 0 && last < MAX_DIGITS {
      ShiftedBound(digits[..last + 1], 0);
      TenPowers();
    }
    d := PackWords(neg, exponent, high, low);
  }

  /** The digits of `ds` at the front of the source's zeroed array. */
  ghost predicate Holds(digits: seq<digit>, ds: seq<digit>) {
    |digits| == MAX_DIGITS && |ds| <= MAX_DIGITS && digits[..|ds|] == ds && ZerosFrom(digits, |ds|)
  }

  lemma ShiftedValue(digits: seq<digit>, ds: seq<digit>, k: nat)
    requires Holds(digits, ds) && |ds| + k <= MAX_DIGITS
    ensures Value(digits[..|ds| + k]) == Value(ds) * Pow10(k)
  {
    hide Value, Pow10;
    var zeros := digits[|ds|..|ds| + k];
    assert digits[..|ds| + k] == ds + zeros;
    AllZeros(zeros);
    ValueConcat(ds, zeros);
  }

  /** The three ways through the two loops and the rounding check, for at most 34 digits. */
  lemma Normalised(t: Text, digits: seq<digit>, significant: nat, last: nat, exponent: int, ok: bool, inexact: bool)
    requires t.Number? && t.digits != [] && Holds(digits, t.digits)
    requires |t.digits| - 1 + LastExponent(t) != EXPONENT_MAX + MAX_DIGITS
    requires 1 <= significant <= |t.digits| && ZerosFrom(t.digits, significant)
    requires t.pointed ==> significant >= |t.digits| - t.after
    requires t.digits[significant - 1] != 0 || (t.pointed && significant == |t.digits| - t.after)
    requires var n, q := |t.digits|, LastExponent(t);
             && (q > EXPONENT_MAX ==> (ok <==> n - 1 + (q - EXPONENT_MAX) <= MAX_DIGITS)
                                      && (ok ==> last == n - 1 + (q - EXPONENT_MAX) && exponent == EXPONENT_MAX))
             && (q < EXPONENT_MIN ==> var k := EXPONENT_MIN - q;
                                      && (ok <==> k <= n - 1 && forall i | n - 1 - k < i <= n - 1 :: digits[i] == 0)
                                      && (ok ==> last == n - 1 - k && exponent == EXPONENT_MIN))
             && (EXPONENT_MIN <= q <= EXPONENT_MAX ==> ok && last == n - 1 && exponent == q)
    requires ok ==> (inexact <==> last + 1 < significant
                                  && CharFor(t.digits, t.pointed, |t.digits| - t.after, last + 1) != '0')
    ensures ok && !inexact <==> Reduce(t).Reduced?
    ensures ok && !inexact ==> last < MAX_DIGITS && Value(digits[..last + 1]) == Reduce(t).coefficient
                               && exponent == Reduce(t).exponent
  {
    hide Value, Pow10;
    var ds, n, q := t.digits, |t.digits|, LastExponent(t);
    if q > EXPONENT_MAX {
      if ok {
        ShiftedValue(digits, ds, q - EXPONENT_MAX);
      }
    } else if q < EXPONENT_MIN {
      var k := EXPONENT_MIN - q;
      assert forall i | 0 <= i < n :: digits[i] == ds[i];
      if ok {
        assert ZerosFrom(ds, n - k);
        assert digits[..n - k] == ds[..n - k];
        RoundingAtPoint(t, significant, k);
      } else if k < n {
        assert !ZerosFrom(ds, n - k);
      }
    } else {
      assert digits[..n] == ds;
    }
  }

  lemma RoundingAtPoint(t: Text, significant: nat, k: nat)
    requires t.Number? && k < |t.digits| && k == EXPONENT_MIN - LastExponent(t) > 0
    requires 1 <= significant <= |t.digits| && ZerosFrom(t.digits, |t.digits| - k)
    requires t.pointed ==> significant >= |t.digits| - t.after
    requires t.digits[significant - 1] != 0 || (t.pointed && significant == |t.digits| - t.after)
    ensures PointJustAfter(t) <==>
              |t.digits| - k < significant
              && CharFor(t.digits, t.pointed, |t.digits| - t.after, |t.digits| - k) != '0'
  {
    var n := |t.digits|;
    assert t.field - t.after == EXPONENT_MIN - k;
    if n - k < significant {
      assert t.digits[significant - 1] == 0 && t.digits[n - k] == 0;
    }
  }

  lemma ReduceZero(t: Text)
    requires t.Number? && t.digits == []
    ensures Reduce(t) == Reduced(0, Clamp(LastExponent(t)))
  {}

  /** From the scanned digits and exponent to the stored number. */
  method StoreNumber(s: string, neg: bool, start: nat, scanned: array<digit>, stored0: nat, ndigits0: nat, after: nat,
                     firstNonzero: nat, sawRadix: bool, field: int32, ghost t: Text, ghost b: string)
    returns (ok: bool, d: Decimal128)
    requires t.Number? && Scans(t, neg, b, sawRadix, after, field)
    requires scanned.Length == MAX_DIGITS && start <= 1 && start + |b| <= |s| && s[start..start + |b|] == b && AllBody(b)
    requires DigitsIn(b) != [] && exists read :: Scanned(b, scanned[..], stored0, ndigits0, read, after, firstNonzero, sawRadix)
    requires forall i | stored0 <= i < MAX_DIGITS :: scanned[i] == 0
    modifies scanned
    ensures !OutsideContract(s, t) ==>
              match Reduce(t)
              case Rejected => !ok && d == NAN
              case Reduced(c, e) => c < TWO_113 && EXPONENT_MIN <= e <= EXPONENT_MAX && ok && d == Pack(neg, c, e)
  {
    hide DigitsIn, PointCount, AfterPoint, StripZeros, Value, Pow10, Pack, Reduce;
    d := NAN;
    var stored, ndigits := stored0, ndigits0;
    var last, significant := 0, 0;
    BodyLength(b);
    if stored == 0 {
      scanned[0] := 0;
      ndigits, stored := 1, 1;
    } else {
      last := stored - 1;
      significant := CountSignificant(s, start, ndigits, firstNonzero, sawRadix, b, t.digits, after);
    }
    var exponent := CorrectedExponent(field, after);
    ok, last, exponent := ShiftUp(last, significant, exponent);
    if ok {
      ok, last, exponent := ShiftDown(s, start, sawRadix, scanned[..], stored, ndigits, significant, last, exponent);
    }
    var inexact := false;
    if ok {
      inexact := RoundsAway(s, start, sawRadix, firstNonzero, last, significant, ndigits, b, t.digits, after);
    }
    if !OutsideContract(s, t) {
      ReduceBounds(t);
      if significant > 0 {
        Normalised(t, scanned[..], significant, last, exponent, ok, inexact);
      } else {
        ReduceZero(t);
      }
    }
    if !ok || inexact {
      return false, NAN;
    }
    d := StoreDigits(neg, scanned[..], last, significant, exponent);
  }

  lemma BodyOf(s: string, start: nat, end: nat)
    requires start < |s| && IsBodyChar(s[start]) && end == BodyEnd(s, start)
    ensures var b := s[start..end];
            b != "" && AllBody(b) && start + |b| <= |s| && s[start..start + |b|] == b
            && |b| == |DigitsIn(b)| + PointCount(b)
  {
    BodyLength(s[start..end]);
  }

  /** Everything up to the comment that input reading is done. */
  method ScanNumber(s: string, neg: bool, start: nat)
    returns (ok: bool, digits: array<digit>, stored: nat, ndigits: nat, after: nat, firstNonzero: nat, sawRadix: bool,
             field: int32, ghost b: string)
    requires Terminated(s) && start == SignLength(s) < |s| && IsBodyChar(s[start]) && neg == (s[0] == '-')
    ensures fresh(digits) && digits.Length == MAX_DIGITS
    ensures if ok then Read(s).Number? && Scans(Read(s), neg, b, sawRadix, after, field) else Read(s) == Malformed
    ensures ok ==> start + |b| <= |s| && s[start..start + |b|] == b && AllBody(b) && DigitsIn(b) != []
                   && exists read :: Scanned(b, digits[..], stored, ndigits, read, after, firstNonzero, sawRadix)
    ensures ok ==> forall i | stored <= i < MAX_DIGITS :: digits[i] == 0
  {
    hide BodyEnd, DigitsIn, PointCount, AfterPoint, StripZeros, EqualsIgnoringCase, ScanInt, SignLength, IsBodyChar;
    var read, end;
    field, b := 0, "";
    ok, end, digits, stored, ndigits, read, after, firstNonzero, sawRadix := ScanBody(s, start);
    if !ok {
      return;
    }
    b := s[start..end];
    BodyOf(s, start, end);
    if sawRadix && read == 0 {
      ok := false;
      return;
    }
    if At(s, end) == 'e' || At(s, end) == 'E' {
      var scan := ScanInt(s, end + 1);
      if scan.NoNumber? {
        ok := false;
        return;
      }
      field := *;
      if -INT32_MAX - 1 <= scan.value <= INT32_MAX {
        field := scan.value;
      }
      end := scan.end;
    }
    ok := At(s, end) == NUL;
  }

  /** The parts of a number, its exponent field exact unless it is huge. */
  ghost predicate Scans(t: Text, neg: bool, b: string, sawRadix: bool, after: nat, field: int32)
    requires t.Number?
  {
    && t.neg == neg && t.digits == StripZeros(DigitsIn(b)) && t.pointed == sawRadix && t.after == after
    && (-FIELD_LIMIT < t.field < FIELD_LIMIT ==> field == t.field)
  }

  /**
   `bson_decimal128_from_string`: what a string means decides the result, wherever the source stays inside
   its digit array and its exponent does not wrap.
   */
  method FromString(s: string) returns (ok: bool, d: Decimal128)
    requires Terminated(s)
    ensures match Outcome(s)
            case Invalid => !ok && d == NAN
            case Accepted(value) => ok && d == value
            case Unspecified => true
  {
    hide BodyEnd, DigitsIn, PointCount, AfterPoint, StripZeros, EqualsIgnoringCase, ScanInt, Reduce, Pack, Inf, OutsideContract;
    var neg, start := false, 0;
    if At(s, 0) == '+' || At(s, 0) == '-' {
      neg, start := s[0] == '-', 1;
    }
    if !IsBodyChar(At(s, start)) {
      var isInf := Istreq(s[start..], "inf");
      var isInfinity := Istreq(s[start..], "infinity");
      if isInf || isInfinity {
        return true, Inf(neg);
      }
      var isNan := Istreq(s[start..], "nan");
      return isNan, NAN;
    }
    hide Read;
    var digits, stored, ndigits, after, firstNonzero, sawRadix, field;
    ghost var b;
    ok, digits, stored, ndigits, after, firstNonzero, sawRadix, field, b := ScanNumber(s, neg, start);
    if !ok {
      return false, NAN;
    }
    ok, d := StoreNumber(s, neg, start, digits, stored, ndigits, after, firstNonzero, sawRadix, field, Read(s), b);
  }
}
