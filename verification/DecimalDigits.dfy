/** Decimal digit strings and the numbers they stand for. */
module DecimalDigits {

  type digit = d: int | 0 <= d < 10

  function Pow10(k: nat): (p: nat)
    ensures p > 0
  {
    if k == 0 then 1 else 10 * Pow10(k - 1)
  }

  /** Most significant digit first. */
  function Value(ds: seq<digit>): nat {
    if ds == [] then 0 else 10 * Value(ds[..|ds| - 1]) + ds[|ds| - 1]
  }

  /** Without leading zeros; zero is one digit. */
  function Digits(n: nat): (ds: seq<digit>)
    ensures ds != []
  {
    if n < 10 then [n] else Digits(n / 10) + [n % 10]
  }

  function Zeros(k: nat): (ds: seq<digit>)
    ensures |ds| == k && forall i | 0 <= i < k :: ds[i] == 0
  {
    if k == 0 then [] else Zeros(k - 1) + [0]
  }

  function StripZeros(ds: seq<digit>): (r: seq<digit>)
    ensures |r| <= |ds| && (r != [] ==> r[0] != 0)
  {
    if ds == [] || ds[0] != 0 then ds else StripZeros(ds[1..])
  }

  lemma {:induction false} StripIsSuffix(ds: seq<digit>)
    ensures StripZeros(ds) == ds[|ds| - |StripZeros(ds)|..]
    ensures forall i | 0 <= i < |ds| - |StripZeros(ds)| :: ds[i] == 0
  {
    if ds != [] && ds[0] == 0 {
      StripIsSuffix(ds[1..]);
    }
  }

  lemma {:induction false} Pow10Add(a: nat, b: nat)
    ensures Pow10(a + b) == Pow10(a) * Pow10(b)
  {
    if a > 0 {
      Pow10Add(a - 1, b);
      assert 10 * (Pow10(a - 1) * Pow10(b)) == (10 * Pow10(a - 1)) * Pow10(b);
    }
  }

  lemma MulTen(a: nat, p: nat)
    ensures a * (10 * p) == 10 * (a * p)
  {}

  lemma {:induction false} ValueConcat(a: seq<digit>, b: seq<digit>)
    ensures Value(a + b) == Value(a) * Pow10(|b|) + Value(b)
  {
    if b == [] {
      assert a + b == a;
    } else {
      var b' := b[..|b| - 1];
      assert (a + b)[..|a + b| - 1] == a + b';
      ValueConcat(a, b');
      MulTen(Value(a), Pow10(|b'|));
    }
  }

  lemma {:induction false} ValueBound(ds: seq<digit>)
    ensures Value(ds) < Pow10(|ds|)
  {
    if ds != [] {
      ValueBound(ds[..|ds| - 1]);
    }
  }

  lemma {:induction false} ValueZeros(k: nat)
    ensures Value(Zeros(k)) == 0
  {
    if k > 0 {
      ValueZeros(k - 1);
      assert Zeros(k)[..k - 1] == Zeros(k - 1);
    }
  }

  lemma AllZeros(ds: seq<digit>)
    requires forall i | 0 <= i < |ds| :: ds[i] == 0
    ensures ds == Zeros(|ds|) && Value(ds) == 0
  {
    ValueZeros(|ds|);
    assert ds == Zeros(|ds|);
  }

  lemma {:induction false} ValueLower(ds: seq<digit>)
    requires ds != [] && ds[0] != 0
    ensures Value(ds) >= Pow10(|ds| - 1)
  {
    if |ds| > 1 {
      ValueLower(ds[..|ds| - 1]);
    } else {
      assert ds[..0] == [];
    }
  }

  /** Digits without a leading zero are the digits of their value. */
  lemma {:induction false} DigitsOfValue(ds: seq<digit>)
    requires ds != [] && (ds[0] != 0 || |ds| == 1)
    ensures Digits(Value(ds)) == ds
  {
    var init := ds[..|ds| - 1];
    if |ds| > 1 {
      DigitsOfValue(init);
      ValueLower(init);
      assert Value(ds) / 10 == Value(init) && Value(ds) % 10 == ds[|ds| - 1];
    } else {
      assert init == [];
    }
  }

  lemma {:induction false} ValueOfDigits(n: nat)
    ensures Value(Digits(n)) == n
    ensures Digits(n)[0] != 0 || n == 0
  {
    if n >= 10 {
      ValueOfDigits(n / 10);
      assert Digits(n)[..|Digits(n)| - 1] == Digits(n / 10);
    } else {
      assert [n as digit][..0] == [];
    }
  }

  /** A number below a power of ten has no more digits than its exponent. */
  lemma {:induction false} DigitCount(n: nat, k: nat)
    requires n < Pow10(k) && k > 0
    ensures |Digits(n)| <= k
  {
    if n >= 10 {
      DigitCount(n / 10, k - 1);
    }
  }

  /** Trailing zeros are factors of ten, and factors of ten are trailing zeros. */
  lemma {:induction false} TrailingZeros(ds: seq<digit>, k: nat)
    requires k <= |ds|
    ensures (forall i | |ds| - k <= i < |ds| :: ds[i] == 0) <==> Value(ds) == Value(ds[..|ds| - k]) * Pow10(k)
  {
    var kept, tail := ds[..|ds| - k], ds[|ds| - k..];
    assert ds == kept + tail;
    ValueConcat(kept, tail);
    ZeroValue(tail);
    assert forall i | 0 <= i < k :: tail[i] == ds[|ds| - k + i];
    assert forall i | |ds| - k <= i < |ds| :: ds[i] == tail[i - (|ds| - k)];
  }

  lemma {:induction false} ZeroValue(ds: seq<digit>)
    ensures Value(ds) == 0 <==> forall i | 0 <= i < |ds| :: ds[i] == 0
  {
    if ds != [] {
      var init := ds[..|ds| - 1];
      ZeroValue(init);
      assert forall i | 0 <= i < |ds| - 1 :: ds[i] == init[i];
    }
  }
}
