/** `bson_decimal128_from_string`: what it accepts, and the exact value it stores. */
module DecimalRange {
  import opened Bytes
  import opened DecimalDigits
  import opened DecimalText
  import opened DecimalBits

  const NUL: char := '\0'
  const FIELD_LIMIT: int := 0x4000_0000
  const LENGTH_LIMIT: int := 0x4000

  datatype Reduced = Rejected | Reduced(coefficient: nat, exponent: int)

  function Clamp(q: int): int {
    if q < EXPONENT_MIN then EXPONENT_MIN else if q > EXPONENT_MAX then EXPONENT_MAX else q
  }

  predicate ZerosFrom(ds: seq<digit>, k: nat) {
    forall i | k <= i < |ds| :: ds[i] == 0
  }

  /** The one well-formed family that is turned away although it could be stored: see `AcceptsIff`. */
  predicate PointJustAfter(t: Text)
    requires t.Number?
  {
    t.pointed && t.field == EXPONENT_MIN - 1
  }

  /** The coefficient and exponent stored for a number of at most 34 digits. */
  function Reduce(t: Text): Reduced
    requires t.Number?
  {
    var ds, q := t.digits, LastExponent(t);
    if ds == [] then Reduced(0, Clamp(q))
    else if q > EXPONENT_MAX then
      var k := q - EXPONENT_MAX;
      if |ds| + k <= MAX_DIGITS then Reduced(Value(ds) * Pow10(k), EXPONENT_MAX) else Rejected
    else if q < EXPONENT_MIN then
      var k := EXPONENT_MIN - q;
      if k < |ds| && ZerosFrom(ds, |ds| - k) && !PointJustAfter(t) then Reduced(Value(ds[..|ds| - k]), EXPONENT_MIN)
      else Rejected
    else Reduced(Value(ds), q)
  }

  /** Inputs on which the source reads past its digit array or wraps an exponent. */
  predicate OutsideContract(s: string, t: Text)
    requires t.Number?
  {
    || |t.digits| > MAX_DIGITS || |s| > LENGTH_LIMIT || !(-FIELD_LIMIT < t.field < FIELD_LIMIT)
    || (t.digits != [] && |t.digits| - 1 + LastExponent(t) == EXPONENT_MAX + MAX_DIGITS)
  }

  datatype Parse = Invalid | Accepted(value: Decimal128) | Unspecified

  function Outcome(s: string): Parse {
    match Read(s)
    case Malformed => Invalid
    case NotANumber => Accepted(NAN)
    case Infinite(neg) => Accepted(Inf(neg))
    case Number(neg, ds, _, _, _) =>
      if OutsideContract(s, Read(s)) then Unspecified
      else
        ReduceBounds(Read(s));
        match Reduce(Read(s))
        case Rejected => Invalid
        case Reduced(c, e) => Accepted(Pack(neg, c, e))
  }

  lemma TenPowers()
    ensures Pow10(34) == TEN_34 < TWO_113 && Pow10(17) == TEN_17
  {
    assert Pow10(3) == 1000 && Pow10(6) == 1000 * Pow10(3) && Pow10(9) == 1000 * Pow10(6);
    Pow10Add(9, 8);
    assert Pow10(9) == 10 * Pow10(8);
    Pow10Add(17, 17);
  }

  lemma {:induction false} Pow10Monotone(a: nat, b: nat)
    requires a <= b
    ensures Pow10(a) <= Pow10(b)
    decreases b
  {
    if a < b {
      Pow10Monotone(a, b - 1);
    }
  }

  lemma ShiftedBound(ds: seq<digit>, k: nat)
    requires |ds| + k <= MAX_DIGITS
    ensures Value(ds) * Pow10(k) < TEN_34
  {
    ValueBound(ds);
    Pow10Add(|ds|, k);
    Pow10Monotone(|ds| + k, MAX_DIGITS);
    TenPowers();
    Scale(Value(ds), Pow10(|ds|), Pow10(k));
  }

  lemma PlainBound(ds: seq<digit>)
    requires |ds| <= MAX_DIGITS
    ensures Value(ds) < TEN_34
  {
    ShiftedBound(ds, 0);
  }

  lemma Scale(a: nat, b: nat, p: nat)
    requires a < b && p > 0
    ensures a * p < b * p
  {}

  lemma ReduceBounds(t: Text)
    requires t.Number? && |t.digits| <= MAX_DIGITS
    ensures Reduce(t).Reduced? ==> Reduce(t).coefficient < TEN_34 < TWO_113
                                   && EXPONENT_MIN <= Reduce(t).exponent <= EXPONENT_MAX
  {
    hide Value, Pow10;
    var ds, q := t.digits, LastExponent(t);
    TenPowers();
    if q > EXPONENT_MAX {
      if |ds| + (q - EXPONENT_MAX) <= MAX_DIGITS {
        ShiftedBound(ds, q - EXPONENT_MAX);
      }
    } else if q < EXPONENT_MIN {
      if EXPONENT_MIN - q < |ds| {
        PlainBound(ds[..|ds| - (EXPONENT_MIN - q)]);
      }
    } else {
      PlainBound(ds);
    }
  }

  /** `c` times ten to the `e` is `v` times ten to the `q`. */
  ghost predicate SameValue(c: nat, e: int, v: nat, q: int) {
    if e >= q then c * Pow10(e - q) == v else c == v * Pow10(q - e)
  }

  /** Soundness: whatever is stored for a nonzero number is exactly the number the text denotes. */
  lemma ReduceIsExact(t: Text)
    requires t.Number? && t.digits != [] && Reduce(t).Reduced?
    ensures SameValue(Reduce(t).coefficient, Reduce(t).exponent, Value(t.digits), LastExponent(t))
  {
    var ds, q := t.digits, LastExponent(t);
    if q < EXPONENT_MIN {
      var k := EXPONENT_MIN - q;
      assert forall i | |ds| - k <= i < |ds| :: ds[i] == 0;
      TrailingZeros(ds, k);
    }
  }

  ghost predicate Representable(v: nat, q: int) {
    exists c: nat, e: int :: c < TEN_34 && EXPONENT_MIN <= e <= EXPONENT_MAX && SameValue(c, e, v, q)
  }

  /**
   Completeness, exactly: a nonzero number of at most 34 digits is accepted iff some coefficient below
   10^34 and exponent in range have its value, unless it needs its trailing zeros cut, is written with a
   point, and its exponent field is one below the least exponent.
   */
  lemma AcceptsIff(t: Text)
    requires t.Number? && t.digits != [] && t.digits[0] != 0 && |t.digits| <= MAX_DIGITS
    ensures Reduce(t).Reduced? <==>
              Representable(Value(t.digits), LastExponent(t)) && !(LastExponent(t) < EXPONENT_MIN && PointJustAfter(t))
  {
    var ds, q, v := t.digits, LastExponent(t), Value(t.digits);
    if Reduce(t).Reduced? {
      ReduceBounds(t);
      ReduceIsExact(t);
    } else if q > EXPONENT_MAX {
      forall c: nat, e: int | c < TEN_34 && EXPONENT_MIN <= e <= EXPONENT_MAX
        ensures !SameValue(c, e, v, q)
      {
        TooLarge(ds, q - e);
      }
    } else {
      forall c: nat, e: int | EXPONENT_MIN <= e <= EXPONENT_MAX && SameValue(c, e, v, q)
        ensures EXPONENT_MIN - q < |ds| && ZerosFrom(ds, |ds| - (EXPONENT_MIN - q))
      {
        HasTrailingZeros(ds, c, e - q, EXPONENT_MIN - q);
      }
    }
  }

  lemma TooLarge(ds: seq<digit>, k: nat)
    requires ds != [] && ds[0] != 0 && |ds| + k > MAX_DIGITS
    ensures Value(ds) * Pow10(k) >= TEN_34
  {
    hide Value, Pow10;
    ValueLower(ds);
    Pow10Add(|ds| - 1, k);
    Pow10Monotone(MAX_DIGITS, |ds| - 1 + k);
    TenPowers();
    ScaleUp(Pow10(|ds| - 1), Value(ds), Pow10(k));
  }

  lemma ScaleUp(a: nat, b: nat, p: nat)
    requires a <= b
    ensures a * p <= b * p
  {}

  lemma HasTrailingZeros(ds: seq<digit>, c: nat, j: nat, k: nat)
    requires ds != [] && ds[0] != 0 && k <= j && c * Pow10(j) == Value(ds)
    ensures k < |ds| && ZerosFrom(ds, |ds| - k)
  {
    hide Value, Pow10;
    ValueLower(ds);
    ValueBound(ds);
    Pow10Add(j - k, k);
    var m := c * Pow10(j - k);
    Associate(c, Pow10(j - k), Pow10(k));
    Positive(m, Pow10(k));
    if k >= |ds| {
      Pow10Monotone(|ds|, k);
    } else {
      LastDigitsZero(ds, m, k);
    }
  }

  lemma Associate(a: nat, b: nat, c: nat)
    ensures a * (b * c) == (a * b) * c
  {}

  lemma Positive(m: nat, p: nat)
    requires m * p > 0
    ensures m * p >= p
  {}

  lemma LastDigitsZero(ds: seq<digit>, m: nat, k: nat)
    requires k <= |ds| && Value(ds) == m * Pow10(k)
    ensures ZerosFrom(ds, |ds| - k)
  {
    hide Value, Pow10;
    var kept, tail := ds[..|ds| - k], ds[|ds| - k..];
    assert ds == kept + tail;
    ValueConcat(kept, tail);
    ValueBound(tail);
    SameQuotient(m, Value(kept), Value(tail), Pow10(k));
    ZeroValue(tail);
    assert forall i | |ds| - k <= i < |ds| :: ds[i] == tail[i - (|ds| - k)];
  }

  lemma SameQuotient(m: nat, n: nat, r: nat, p: nat)
    requires m * p == n * p + r && r < p
    ensures r == 0
  {
    assert (m - n) * p == r;
    if m - n > 0 {
      ScaleUp(1, m - n, p);
    } else {
      ScaleUp(m, n, p);
    }
  }
}
