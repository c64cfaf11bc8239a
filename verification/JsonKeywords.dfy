/** Facts about the texts that the Extended JSON wrappers use: keywords, numbers, hexadecimal, ASCII. */
module JsonKeywords {
  import opened Bytes
  import opened JsonMachine
  import Dec = DecimalDigits
  import Utf8

  /** The length and one or two characters tell the keywords apart. */
  function Recognise(s: seq<byte>): Keyword {
    if |s| == 18 then REGULAR_EXPRESSION
    else if |s| == 14 then DECIMAL128
    else if |s| == 13 then DOUBLE
    else if |s| == 11 then INT64
    else if |s| == 10 then (if s[1] == 0x75 then UNDEFINED else if s[1] == 0x74 then TIMESTAMP else if s[1] == 0x6e then INT32 else DBPOINTER)
    else if |s| == 8 then OPTIONS
    else if |s| == 7 then
      (if s[0] == 0x70 then PATTERN
       else if s[0] == 0x6f then PLAIN_OPTIONS
       else if s[0] == 0x73 then SUBTYPE
       else if s[1] == 0x62 then BINARY
       else if s[1] == 0x73 then SYMBOL
       else if s[2] == 0x61 then MAXKEY
       else MINKEY)
    else if |s| == 6 then (if s[0] == 0x62 then BASE64 else if s[1] == 0x72 then REGEX else SCOPE)
    else if |s| == 5 then (if s[1] == 0x63 then CODE else if s[1] == 0x74 then TYPE else DATE)
    else if |s| == 4 then (if s[1] == 0x6f then OID else REF)
    else if |s| == 3 then (if s[1] == 0x69 then ID else DB)
    else if |s| == 1 then (if s[0] == 0x74 then T else I)
    else OTHER
  }

  /** The characters of a literal, as bytes. */
  lemma Spelled(k: Keyword, i: nat)
    requires i < |Name(k)|
    ensures |Literal(k)| == |Name(k)| && Literal(k)[i] == Name(k)[i] as int % 128
  {}

  lemma Recognised(k: Keyword)
    ensures Recognise(Literal(k)) == k
  {
    if |Name(k)| < 3 {
      RecognisedTiny(k);
    } else if |Name(k)| < 5 {
      RecognisedBrief(k);
    } else if |Name(k)| < 7 {
      RecognisedShort(k);
    } else if |Name(k)| == 7 {
      RecognisedSeven(k);
    } else if |Name(k)| == 10 {
      RecognisedTen(k);
    } else {
      RecognisedLong(k);
    }
  }

  lemma RecognisedTiny(k: Keyword)
    requires |Name(k)| < 3
    ensures Recognise(Literal(k)) == k
  {
    hide Literal;
    LiteralLength(k);
    if |Name(k)| > 0 {
      Spelled(k, 0);
    }
  }

  lemma RecognisedBrief(k: Keyword)
    requires 3 <= |Name(k)| < 5
    ensures Recognise(Literal(k)) == k
  {
    hide Literal;
    LiteralLength(k);
    Spelled(k, 1);
  }

  lemma RecognisedShort(k: Keyword)
    requires 5 <= |Name(k)| < 7
    ensures Recognise(Literal(k)) == k
  {
    hide Literal;
    LiteralLength(k);
    Spelled(k, 0);
    Spelled(k, 1);
  }

  lemma RecognisedSeven(k: Keyword)
    requires |Name(k)| == 7
    ensures Recognise(Literal(k)) == k
  {
    hide Literal;
    LiteralLength(k);
    Spelled(k, 0);
    Spelled(k, 1);
    Spelled(k, 2);
  }

  lemma RecognisedLong(k: Keyword)
    requires |Name(k)| > 7 && |Name(k)| != 10
    ensures Recognise(Literal(k)) == k
  {
    hide Literal;
    LiteralLength(k);
  }

  lemma RecognisedTen(k: Keyword)
    requires |Name(k)| == 10
    ensures Recognise(Literal(k)) == k
  {
    hide Literal;
    LiteralLength(k);
    Spelled(k, 1);
  }

  lemma LiteralLength(k: Keyword)
    ensures |Literal(k)| == |Name(k)|
  {}

  lemma Distinct(j: Keyword, k: Keyword)
    requires j != k
    ensures Literal(j) != Literal(k)
  {
    Recognised(j);
    Recognised(k);
    hide Literal, Recognise;
  }

  lemma {:induction false} KeywordAt(k: Keyword, i: nat, at: nat)
    requires i <= at < |KEYWORDS| && KEYWORDS[at] == k
    ensures KeywordFrom(Literal(k), i) == k
    decreases at - i
  {
    hide Literal;
    if KEYWORDS[i] != k {
      Distinct(KEYWORDS[i], k);
      KeywordAt(k, i + 1, at);
    }
  }

  lemma Listed(k: Keyword) returns (at: nat)
    requires k != OTHER
    ensures at < |KEYWORDS| && KEYWORDS[at] == k
  {
    match k
    case REGULAR_EXPRESSION => at := 0;
    case REGEX => at := 1;
    case OPTIONS => at := 2;
    case CODE => at := 3;
    case SCOPE => at := 4;
    case OID => at := 5;
    case BINARY => at := 6;
    case TYPE => at := 7;
    case DATE => at := 8;
    case UNDEFINED => at := 9;
    case MAXKEY => at := 10;
    case MINKEY => at := 11;
    case TIMESTAMP => at := 12;
    case INT32 => at := 13;
    case INT64 => at := 14;
    case DOUBLE => at := 15;
    case DECIMAL128 => at := 16;
    case DBPOINTER => at := 17;
    case SYMBOL => at := 18;
    case REF => at := 19;
    case ID => at := 20;
    case DB => at := 21;
    case T => at := 22;
    case I => at := 23;
    case PATTERN => at := 24;
    case PLAIN_OPTIONS => at := 25;
    case BASE64 => at := 26;
    case SUBTYPE => at := 27;
  }

  /** Every keyword is recognised from its own text. */
  lemma KeywordOfLiteral(k: Keyword)
    requires k != OTHER
    ensures KeywordOf(Literal(k)) == k
  {
    var at := Listed(k);
    KeywordAt(k, 0, at);
  }

  predicate SevenBit(s: seq<byte>) { forall i | 0 <= i < |s| :: s[i] < 128 }

  predicate Printable(s: seq<byte>) { SevenBit(s) && 0 !in s }

  lemma {:induction false} PrintableUpToNul(s: seq<byte>)
    requires 0 !in s
    ensures UpToNul(s) == s
  {
    if s != [] {
      PrintableUpToNul(s[1..]);
    }
  }

  lemma {:induction false} SevenBitIsUtf8(s: seq<byte>)
    requires SevenBit(s)
    ensures Utf8.Valid(s, true)
  {
    hide Utf8.Valid;
    if s == [] {
      Utf8.EmptyIsValid(true);
    } else {
      SevenBitIsUtf8(s[1..]);
      Utf8.ValidPrepend(Utf8.Scalar(s[0]), s[1..], true);
      assert Utf8.PieceBytes(Utf8.Scalar(s[0])) + s[1..] == s;
    }
  }

  lemma LiteralIsUtf8(k: Keyword)
    ensures Utf8.Valid(Literal(k), true)
  {
    SevenBitIsUtf8(Literal(k));
  }

  /** Characters that stand for themselves between the quotes of a JSON string. */
  predicate PrintableChars(s: string) { forall i | 0 <= i < |s| :: 0x20 <= s[i] as int < 0x7f && s[i] != '\"' && s[i] != '\\' }

  predicate IsPlainText(s: seq<byte>) { forall i | 0 <= i < |s| :: 0x20 <= s[i] < 0x7f && s[i] != 0x22 && s[i] != 0x5c }

  lemma {:induction false} DigitBytesRead(ds: seq<Dec.digit>)
    ensures AllDigits(DigitBytes(ds)) && DigitsOf(DigitBytes(ds)) == ds && Printable(DigitBytes(ds)) && IsPlainText(DigitBytes(ds))
  {
    assert DigitsOf(DigitBytes(ds)) == ds;
  }

  /** A number as `%d` writes it parses back. */
  lemma ParseDecimal(n: int64)
    ensures ParseInt64(Decimal(n)) == Some(n) && Printable(Decimal(n)) && IsPlainText(Decimal(n))
  {
    hide Dec.Digits, Dec.Value, DigitBytes, DigitsOf;
    var m: int := if n < 0 then -(n as int) else n;
    var s, ds := Decimal(n), Dec.Digits(m);
    DigitBytesRead(ds);
    Dec.ValueOfDigits(m);
    assert s[0] == if n < 0 then 0x2d else 0x30 + ds[0] as int;
    assert SkipSpace(s) == s;
    assert n < 0 ==> s[1..] == DigitBytes(ds);
  }

  /** `%x`. */
  function HexDigit(n: int): byte
    requires 0 <= n < 16
  {
    if n < 10 then 0x30 + n else 0x61 + n - 10
  }

  /** `%02x`. */
  function HexByte(b: byte): seq<byte> { [HexDigit(b / 16), HexDigit(b % 16)] }

  function HexText(b: seq<byte>): seq<byte> {
    if b == [] then [] else HexText(b[..|b| - 1]) + HexByte(b[|b| - 1])
  }

  lemma HexByteReads(b: byte)
    ensures ScanHex(HexByte(b)) == Scanned(b) && Printable(HexByte(b)) && IsPlainText(HexByte(b))
    ensures OidDigit(HexByte(b)[0]) * 16 + OidDigit(HexByte(b)[1]) == b
  {}

  lemma {:induction false} HexTextReads(b: seq<byte>)
    ensures |HexText(b)| == 2 * |b| && OidFromText(HexText(b)) == b && Printable(HexText(b)) && IsPlainText(HexText(b))
  {
    hide OidFromText, Printable, IsPlainText, HexByte;
    NoHex();
    if b != [] {
      var init, last := b[..|b| - 1], b[|b| - 1];
      HexTextReads(init);
      HexByteLength(last);
      HexAppended(HexText(init), last);
      assert init + [last] == b;
    }
  }

  lemma NoHex()
    ensures OidFromText([]) == [] && Printable([]) && IsPlainText([])
  {}

  lemma HexAppended(text: seq<byte>, b: byte)
    requires |text| % 2 == 0 && Printable(text) && IsPlainText(text)
    ensures |text + HexByte(b)| % 2 == 0 && OidFromText(text + HexByte(b)) == OidFromText(text) + [b]
    ensures Printable(text + HexByte(b)) && IsPlainText(text + HexByte(b))
  {
    hide OidDigit, HexByte, ScanHex;
    HexByteReads(b);
    HexByteLength(b);
    assert (text + HexByte(b))[..|text|] == text;
  }

  lemma HexByteLength(b: byte)
    ensures |HexByte(b)| == 2
  {}

  lemma {:induction false} CharsOfAscii(s: string)
    requires PrintableChars(s)
    ensures CharsOf(Ascii(s)) == s && Printable(Ascii(s)) && 0 !in Ascii(s) && IsPlainText(Ascii(s))
  {
    if s != "" {
      CharsOfAscii(s[..|s| - 1]);
      assert Ascii(s)[..|s| - 1] == Ascii(s[..|s| - 1]);
    }
  }

  lemma NameIsPlain(k: Keyword)
    ensures PrintableChars(Name(k))
  {
    hide PrintableChars;
    if |Name(k)| <= 6 {
      ShortNameIsPlain(k);
    } else if |Name(k)| <= 9 {
      MiddleNameIsPlain(k);
    } else {
      LongNameIsPlain(k);
    }
  }

  lemma ShortNameIsPlain(k: Keyword)
    requires |Name(k)| <= 6
    ensures PrintableChars(Name(k))
  {}

  lemma MiddleNameIsPlain(k: Keyword)
    requires 7 <= |Name(k)| <= 9
    ensures PrintableChars(Name(k))
  {}

  lemma LongNameIsPlain(k: Keyword)
    requires |Name(k)| > 9
    ensures PrintableChars(Name(k))
  {}

  lemma LiteralIsPlain(k: Keyword)
    ensures IsPlainText(Literal(k))
  {
    NameIsPlain(k);
    CharsOfAscii(Name(k));
  }
}
