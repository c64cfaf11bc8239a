/** The texts that the reader's helpers understand, as grammars: keys, blanks, hexadecimal digits and whole numbers. */
module JsonNotations {
  import opened Bytes
  import opened JsonKeywords
  import opened JsonMachine
  import opened JsonWrappers
  import Dec = DecimalDigits
  import Escapes = JsonEscapes

  /** The keys with a meaning, and the meaning of each. */
  const NAMES: seq<(string, Keyword)> :=
    [("$regularExpression", REGULAR_EXPRESSION), ("$regex", REGEX), ("$options", OPTIONS), ("$code", CODE), ("$scope", SCOPE),
     ("$oid", OID), ("$binary", BINARY), ("$type", TYPE), ("$date", DATE), ("$undefined", UNDEFINED), ("$maxKey", MAXKEY),
     ("$minKey", MINKEY), ("$timestamp", TIMESTAMP), ("$numberInt", INT32), ("$numberLong", INT64), ("$numberDouble", DOUBLE),
     ("$numberDecimal", DECIMAL128), ("$dbPointer", DBPOINTER), ("$symbol", SYMBOL), ("$ref", REF), ("$id", ID), ("$db", DB),
     ("t", T), ("i", I), ("pattern", PATTERN), ("options", PLAIN_OPTIONS), ("base64", BASE64), ("subType", SUBTYPE)]

  lemma NameOf(i: nat)
    requires i < |NAMES|
    ensures Name(NAMES[i].1) == NAMES[i].0 && NAMES[i].1 != OTHER
  {
    if i < 10 {
      EarlyName(i);
    } else if i < 19 {
      LaterName(i);
    } else {
      InnerName(i);
    }
    hide Name;
  }

  lemma EarlyName(i: nat)
    requires i < 10
    ensures Name(NAMES[i].1) == NAMES[i].0 && NAMES[i].1 != OTHER
  {}

  lemma LaterName(i: nat)
    requires 10 <= i < 19
    ensures Name(NAMES[i].1) == NAMES[i].0 && NAMES[i].1 != OTHER
  {}

  lemma InnerName(i: nat)
    requires 19 <= i < |NAMES|
    ensures Name(NAMES[i].1) == NAMES[i].0 && NAMES[i].1 != OTHER
  {}

  /** A key is taken for a keyword exactly if it is spelled like it, case and all. */
  lemma KeyIsName(text: seq<byte>, i: nat)
    requires i < |NAMES|
    ensures KeywordOf(text) == NAMES[i].1 <==> text == Ascii(NAMES[i].0)
  {
    hide Name, Ascii, KeywordOf;
    NameOf(i);
    IsKeyword(text, NAMES[i].1);
  }

  /** `isspace` in the C locale. */
  const BLANKS: set<int> := {0x20, 0x09, 0x0a, 0x0b, 0x0c, 0x0d}

  predicate AllBlank(s: seq<byte>) { forall i | 0 <= i < |s| :: s[i] as int in BLANKS }

  predicate StartsBlank(s: seq<byte>) { s != [] && s[0] as int in BLANKS }

  lemma {:induction false} SkipsBlanks(s: seq<byte>)
    ensures var r := SkipSpace(s); !StartsBlank(r) && exists blanks :: AllBlank(blanks) && s == blanks + r
  {
    if s != [] && IsSpace(s[0]) {
      SkipsBlanks(s[1..]);
      var blanks :| AllBlank(blanks) && s[1..] == blanks + SkipSpace(s[1..]);
      assert AllBlank([s[0]] + blanks) && s == ([s[0]] + blanks) + SkipSpace(s[1..]);
    } else {
      assert AllBlank([]) && s == [] + s;
    }
  }

  lemma {:induction false} SkipsAll(blanks: seq<byte>, rest: seq<byte>)
    requires AllBlank(blanks) && !StartsBlank(rest)
    ensures SkipSpace(blanks + rest) == rest
  {
    if blanks == [] {
      assert blanks + rest == rest;
    } else {
      assert (blanks + rest)[1..] == blanks[1..] + rest;
      SkipsAll(blanks[1..], rest);
    }
  }

  /** A sign or none, and at least one digit. */
  ghost predicate IsSigned(s: seq<byte>, z: int) {
    exists ds: seq<Dec.digit> :: ds != [] && SignedDigits(s, z, ds)
  }

  predicate SignedDigits(s: seq<byte>, z: int, ds: seq<Dec.digit>) {
    || (s == DigitBytes(ds) && z == Dec.Value(ds))
    || (s == [0x2b] + DigitBytes(ds) && z == Dec.Value(ds))
    || (s == [0x2d] + DigitBytes(ds) && z == -(Dec.Value(ds) as int))
  }

  /** The whole text is one number of 64 bits, with blanks in front of it only. */
  ghost predicate IsInteger(text: seq<byte>, z: int) {
    -0x8000_0000_0000_0000 <= z <= 0x7fff_ffff_ffff_ffff && exists blanks, s :: AllBlank(blanks) && IsSigned(s, z) && text == blanks + s
  }

  lemma {:induction false} DigitsAreBytes(s: seq<byte>)
    requires AllDigits(s)
    ensures DigitBytes(DigitsOf(s)) == s
  {}

  lemma ParsesSigned(s: seq<byte>, z: int64)
    requires !StartsBlank(s) && ParseInt64(s) == Some(z)
    ensures IsSigned(s, z)
  {
    hide Dec.Value, DigitBytes, DigitsOf, AllDigits;
    assert SkipSpace(s) == s;
    var marked := s != [] && (s[0] == 0x2d || s[0] == 0x2b);
    var t := if marked then s[1..] else s;
    Parsed(s != [] && s[0] == 0x2d, t, z);
    DigitsAreBytes(t);
    if marked {
      assert s == [s[0]] + t;
    }
    assert SignedDigits(s, z, DigitsOf(t));
  }

  lemma Parsed(negative: bool, t: seq<byte>, z: int64)
    requires FromDigits(negative, t) == Some(z)
    ensures t != [] && AllDigits(t) && z == if negative then -(Dec.Value(DigitsOf(t)) as int) else Dec.Value(DigitsOf(t))
  {
    hide Dec.Value, DigitsOf;
  }

  lemma SignedIff(s: seq<byte>, z: int64)
    requires !StartsBlank(s)
    ensures ParseInt64(s) == Some(z) <==> IsSigned(s, z)
  {
    hide ParseInt64, SignedDigits;
    if ParseInt64(s) == Some(z) {
      ParsesSigned(s, z);
    }
    if IsSigned(s, z) {
      var ds: seq<Dec.digit> :| ds != [] && SignedDigits(s, z, ds);
      DigitBytesRead(ds);
      SignedParses(s, z, ds);
    }
  }

  lemma SignedParses(s: seq<byte>, z: int64, ds: seq<Dec.digit>)
    requires ds != [] && SignedDigits(s, z, ds) && AllDigits(DigitBytes(ds)) && DigitsOf(DigitBytes(ds)) == ds
    ensures ParseInt64(s) == Some(z)
  {
    hide DigitsOf, Dec.Value;
    assert SkipSpace(s) == s;
    assert DigitBytes(ds)[0] == 0x30 + ds[0] as int;
    if s != DigitBytes(ds) {
      assert s[1..] == DigitBytes(ds);
    }
  }

  lemma SignedStarts(s: seq<byte>, z: int)
    requires IsSigned(s, z)
    ensures !StartsBlank(s)
  {
    var ds: seq<Dec.digit> :| ds != [] && SignedDigits(s, z, ds);
    assert DigitBytes(ds)[0] == 0x30 + ds[0] as int;
  }

  /** A number written as a string: exactly these texts are read, and each as its own number. */
  lemma ParsesIff(text: seq<byte>, z: int64)
    ensures ParseInt64(text) == Some(z) <==> IsInteger(text, z)
  {
    hide FromDigits, IsSigned;
    SkipsBlanks(text);
    var s := SkipSpace(text);
    assert SkipSpace(s) == s;
    assert ParseInt64(text) == ParseInt64(s);
    SignedIff(s, z);
    if IsInteger(text, z) {
      var blanks, t :| AllBlank(blanks) && IsSigned(t, z) && text == blanks + t;
      SignedStarts(t, z);
      SkipsAll(blanks, t);
    }
  }

  /** The value of a hexadecimal digit, in either case. */
  lemma HexIff(c: byte, n: nat)
    requires n < 16
    ensures HexValue(c) == n <==> Escapes.IsDigitOf(c, n)
  {}

  predicate IsHex(c: byte) { exists n :: 0 <= n < 16 && Escapes.IsDigitOf(c, n) }

  lemma IsHexIff(c: byte)
    ensures IsHex(c) <==> HexValue(c) >= 0
    ensures HexValue(c) >= 0 ==> HexValue(c) < 16 && Escapes.IsDigitOf(c, HexValue(c))
  {
    if IsHex(c) {
      var n :| 0 <= n < 16 && Escapes.IsDigitOf(c, n);
      HexIff(c, n);
    }
    if HexValue(c) >= 0 {
      HexIff(c, HexValue(c));
    }
  }

  /** Two characters to a byte, the high half first; other characters count as zero. */
  lemma {:induction false} OidAt(text: seq<byte>, k: nat)
    requires |text| % 2 == 0 && 2 * k + 1 < |text|
    ensures OidFromText(text)[k] == 16 * OidDigit(text[2 * k]) + OidDigit(text[2 * k + 1])
    ensures forall c: byte, n | Escapes.IsDigitOf(c, n) :: OidDigit(c) == n
    ensures forall c: byte | !IsHex(c) :: OidDigit(c) == 0
    decreases |text|
  {
    forall c: byte, n | Escapes.IsDigitOf(c, n) ensures OidDigit(c) == n {
      HexIff(c, n);
    }
    forall c: byte | !IsHex(c) ensures OidDigit(c) == 0 {
      IsHexIff(c);
    }
    OidPlace(text, k);
  }

  lemma {:induction false} OidPlace(text: seq<byte>, k: nat)
    requires |text| % 2 == 0 && 2 * k + 1 < |text|
    ensures OidFromText(text)[k] == 16 * OidDigit(text[2 * k]) + OidDigit(text[2 * k + 1])
    decreases |text|
  {
    hide OidDigit;
    if 2 * k + 2 < |text| {
      OidPlace(text[..|text| - 2], k);
    }
  }

  /** What `%02x` takes behind the blanks: two digits, one digit and no other, or a sign and one digit. */
  ghost predicate IsByte(s: seq<byte>, n: byte) {
    || (|s| >= 2 && exists h: nat, l: nat :: Escapes.IsDigitOf(s[0], h) && Escapes.IsDigitOf(s[1], l) && n == 16 * h + l)
    || (|s| >= 1 && Escapes.IsDigitOf(s[0], n) && (|s| == 1 || !IsHex(s[1])))
    || (|s| >= 2 && s[0] == 0x2b && Escapes.IsDigitOf(s[1], n))
    || (|s| >= 2 && s[0] == 0x2d && exists d: nat :: Escapes.IsDigitOf(s[1], d) && n == (256 - d) % 256)
  }

  /** `0x`, on which C libraries differ. */
  predicate IsPrefix(s: seq<byte>) { |s| >= 2 && s[0] == 0x30 && (s[1] == 0x58 || s[1] == 0x78) }

  lemma ByteIff(s: seq<byte>, n: byte)
    requires !StartsBlank(s) && !IsPrefix(s)
    ensures ScanHex(s) == Scanned(n) <==> IsByte(s, n)
    ensures !ScanHex(s).Unclear?
  {
    assert SkipSpace(s) == s;
    if |s| >= 1 {
      IsHexIff(s[0]);
    }
    if |s| >= 2 {
      IsHexIff(s[1]);
    }
    if IsByte(s, n) {
      ByteScans(s, n);
    }
    hide Escapes.IsDigitOf, HexValue;
  }

  lemma ByteScans(s: seq<byte>, n: byte)
    requires !StartsBlank(s) && !IsPrefix(s) && IsByte(s, n)
    ensures ScanHex(s) == Scanned(n)
  {
    hide ScanHex, Escapes.IsDigitOf, IsHex;
    if |s| >= 2 && s[0] == 0x2b && Escapes.IsDigitOf(s[1], n) {
      SignScans(s, n);
    } else if d: nat :| |s| >= 2 && s[0] == 0x2d && Escapes.IsDigitOf(s[1], d) && n == (256 - d) % 256 {
      SignScans(s, d);
    } else if h: nat, l: nat :| |s| >= 2 && Escapes.IsDigitOf(s[0], h) && Escapes.IsDigitOf(s[1], l) && n == 16 * h + l {
      TwoScan(s, h, l);
    } else {
      OneScans(s, n);
    }
  }

  lemma SignScans(s: seq<byte>, d: nat)
    requires |s| >= 2 && (s[0] == 0x2b || s[0] == 0x2d) && Escapes.IsDigitOf(s[1], d)
    ensures ScanHex(s) == Scanned(if s[0] == 0x2d then (256 - d) % 256 else d)
  {
    HexIff(s[1], d);
    hide HexValue, Escapes.IsDigitOf;
    assert SkipSpace(s) == s;
  }

  lemma TwoScan(s: seq<byte>, h: nat, l: nat)
    requires |s| >= 2 && !IsPrefix(s) && Escapes.IsDigitOf(s[0], h) && Escapes.IsDigitOf(s[1], l)
    ensures ScanHex(s) == Scanned(16 * h + l)
  {
    HexIff(s[0], h);
    HexIff(s[1], l);
    NotMarked(s[0], h);
    hide HexValue, Escapes.IsDigitOf;
    assert SkipSpace(s) == s;
  }

  lemma OneScans(s: seq<byte>, n: byte)
    requires |s| >= 1 && !IsPrefix(s) && Escapes.IsDigitOf(s[0], n) && (|s| == 1 || !IsHex(s[1]))
    ensures ScanHex(s) == Scanned(n)
  {
    HexIff(s[0], n);
    NotMarked(s[0], n);
    if |s| > 1 {
      IsHexIff(s[1]);
    }
    hide HexValue, Escapes.IsDigitOf, IsHex;
    assert SkipSpace(s) == s;
  }

  lemma NotMarked(c: byte, n: nat)
    requires Escapes.IsDigitOf(c, n)
    ensures !IsSpace(c) && c != 0x2b && c != 0x2d
  {}

  /** A subtype: exactly these texts are read, and each as its own byte. */
  lemma ScansIff(blanks: seq<byte>, s: seq<byte>, n: byte)
    requires AllBlank(blanks) && !StartsBlank(s)
    ensures ScanHex(blanks + s).Unclear? <==> IsPrefix(s)
    ensures !IsPrefix(s) ==> (ScanHex(blanks + s) == Scanned(n) <==> IsByte(s, n))
  {
    hide HexValue, IsByte;
    SkipsAll(blanks, s);
    assert SkipSpace(s) == s;
    assert ScanHex(blanks + s) == ScanHex(s);
    if !IsPrefix(s) {
      ByteIff(s, n);
    } else {
      assert HexValue(0x30) == 0 by { HexIff(0x30, 0); }
    }
  }

  /** What C sees of a text: all in front of its first NUL. */
  lemma {:induction false} CutsAtNul(text: seq<byte>)
    ensures UpToNul(text) <= text && (|UpToNul(text)| == |text| || text[|UpToNul(text)|] == 0)
  {
    if text != [] && text[0] != 0 {
      CutsAtNul(text[1..]);
    }
  }
}
