/** The writer's text for each type, letter by letter, as the Extended JSON specification shows it in canonical form. */
module JsonForms {
  import opened Bytes
  import opened BsonTree
  import opened JsonKeywords
  import opened JsonMachine
  import opened JsonRoundTrip
  import opened JsonString
  import opened JsonSyntax
  import opened JsonText
  import opened JsonWriter
  import opened RegexOptions
  import Base64
  import Bits = DecimalBits
  import Dec = DecimalDigits
  import Escapes = JsonEscapes
  import Print = DecimalPrinter
  import opened LexerStep
  import Strings = JsonString
  import Utf8

  /** The characters of a text as bytes. */
  function Spelt(text: string): seq<byte> { seq(|text|, i requires 0 <= i < |text| => text[i] as int % 128) }

  lemma SpeltConcat(a: string, b: string)
    ensures Spelt(a + b) == Spelt(a) + Spelt(b)
  {}

  lemma AsciiIsSpelt(text: string)
    ensures Ascii(text) == Spelt(text)
  {}

  lemma LiteralIsSpelt(k: Keyword)
    ensures Literal(k) == Spelt(Name(k))
  {
    AsciiIsSpelt(Name(k));
    hide Name;
  }

  /** What stands in front of a wrapper's value. */
  lemma Head(k: Keyword)
    ensures Opened(k) == Spelt("{ \"" + Name(k) + "\" : ")
  {
    hide Name, Literal, Spelt;
    LiteralIsSpelt(k);
    SpeltConcat("{ \"", Name(k));
    SpeltConcat("{ \"" + Name(k), "\" : ");
    Marks();
  }

  lemma Marks()
    ensures Spelt("{ \"") == [OPEN_OBJECT, SPACE, QUOTE] && Spelt("\" : ") == [QUOTE, SPACE, COLON, SPACE] && Spelt("\"") == [QUOTE]
    ensures Spelt("\": ") == [QUOTE, COLON, SPACE] && Spelt(", \"") == [COMMA, SPACE, QUOTE] && Spelt(" }") == CLOSED
    ensures Spelt("\" }") == [QUOTE] + CLOSED && Spelt("\"}") == [QUOTE, CLOSE_OBJECT]
  {}

  lemma QuotedForm(head: string, text: seq<byte>)
    ensures Spelt(head) + ([QUOTE] + text + [QUOTE]) + CLOSED == Spelt(head + "\"") + text + Spelt("\" }")
    ensures Spelt(head) + ([QUOTE] + text + [QUOTE]) + [CLOSE_OBJECT] == Spelt(head + "\"") + text + Spelt("\"}")
  {
    hide Spelt;
    SpeltConcat(head, "\"");
    Marks();
  }

  /** A wrapper around plain text. */
  lemma PlainForm(k: Keyword, text: seq<byte>, head: string)
    requires IsPlainText(text) && head == "{ \"" + Name(k) + "\" : "
    ensures WellFormed(Wrapped(k, Plain(text))) && Render(Wrapped(k, Plain(text))) == Spelt(head + "\"") + text + Spelt("\" }")
  {
    hide Render, WellFormed, IsPlainText, Wrapped, Opened, Spelt, Name;
    WrappedPlain(k, text);
    Head(k);
    QuotedForm(head, text);
  }

  lemma Int32Form(i: int32)
    ensures CanWrite(Int32(i)) && TextOf(Int32(i)) == Spelt("{ \"$numberInt\" : \"") + Decimal(i) + Spelt("\" }")
  {
    hide Render, WellFormed, IsPlainText, Spelt, Decimal, TextOf, ParseInt64, Printable;
    var head := "{ \"$numberInt\" : ";
    ParseDecimal(i);
    PlainForm(INT32, Decimal(i), head);
    TextOfTree(Int32(i), Wrapped(INT32, Plain(Decimal(i))));
    assert head + "\"" == "{ \"$numberInt\" : \"";
  }

  /** The one wrapper without a space in front of its brace. */
  lemma Int64Form(l: int64)
    ensures CanWrite(Int64(l)) && TextOf(Int64(l)) == Spelt("{ \"$numberLong\" : \"") + Decimal(l) + Spelt("\"}")
  {
    hide Render, WellFormed, IsPlainText, Spelt, Decimal, TextOf, Opened;
    var head := "{ \"$numberLong\" : ";
    LongText(l);
    Head(INT64);
    QuotedForm(head, Decimal(l));
    assert "{ \"" + Name(INT64) + "\" : " == head;
    assert head + "\"" == "{ \"$numberLong\" : \"";
  }

  lemma OidForm(oid: Bytes12)
    ensures CanWrite(ObjectId(oid)) && TextOf(ObjectId(oid)) == Spelt("{ \"$oid\" : \"") + HexText(oid) + Spelt("\" }")
  {
    hide Render, WellFormed, IsPlainText, Spelt, HexText, TextOf;
    var head := "{ \"$oid\" : ";
    HexTextReads(oid);
    PlainForm(OID, HexText(oid), head);
    TextOfTree(ObjectId(oid), Wrapped(OID, Plain(HexText(oid))));
    assert head + "\"" == "{ \"$oid\" : \"";
  }

  lemma DecimalForm(low: uint64, high: uint64)
    ensures var v := Value.Decimal128(low, high);
            CanWrite(v) && TextOf(v) == Spelt("{ \"$numberDecimal\" : \"") + Spelt(Print.Printed(Bits.Meaning(Bits.Decimal128(high, low)))) + Spelt("\" }")
  {
    hide Render, WellFormed, IsPlainText, Spelt, Ascii, TextOf, Print.Printed, Bits.Meaning;
    var head, text := "{ \"$numberDecimal\" : ", Print.Printed(Bits.Meaning(Bits.Decimal128(high, low)));
    DecimalTextIsPrintable(Bits.Meaning(Bits.Decimal128(high, low)));
    CharsOfAscii(text);
    AsciiIsSpelt(text);
    PlainForm(DECIMAL128, Ascii(text), head);
    TextOfTree(Value.Decimal128(low, high), Wrapped(DECIMAL128, Plain(Ascii(text))));
    assert head + "\"" == "{ \"$numberDecimal\" : \"";
  }

  lemma DateForm(ms: int64)
    ensures CanWrite(DateTime(ms))
    ensures TextOf(DateTime(ms)) == Spelt("{ \"$date\" : ") + (Spelt("{ \"$numberLong\" : \"") + Decimal(ms) + Spelt("\" }")) + Spelt(" }")
  {
    hide Render, WellFormed, IsPlainText, Spelt, Decimal, TextOf, Opened, Wrapped, ParseInt64, Printable;
    ParseDecimal(ms);
    DateHeads();
    var inner := Wrapped(INT64, Plain(Decimal(ms)));
    PlainForm(INT64, Decimal(ms), "{ \"$numberLong\" : ");
    WrapperText(DATE, inner);
    DateTree(ms);
    TextOfTree(DateTime(ms), Wrapped(DATE, inner));
    Head(DATE);
    Marks();
  }

  lemma DateHeads()
    ensures "{ \"" + Name(INT64) + "\" : " == "{ \"$numberLong\" : " && "{ \"$numberLong\" : " + "\"" == "{ \"$numberLong\" : \""
    ensures "{ \"" + Name(DATE) + "\" : " == "{ \"$date\" : "
  {}

  lemma DateTree(ms: int64)
    ensures CanWrite(DateTime(ms)) && Tree(DateTime(ms)) == Wrapped(DATE, Wrapped(INT64, Plain(Decimal(ms))))
  {
    hide Wrapped, Decimal;
  }

  lemma SymbolForm(text: seq<byte>)
    requires IsStrict(text)
    ensures CanWrite(Symbol(text)) && TextOf(Symbol(text)) == Spelt("{ \"$symbol\" : ") + Quoted(text) + Spelt(" }")
  {
    hide IsStrict, Spelt, TextOf, Opened, Quoted;
    LeafText(text);
    assert WellFormed(Plain(text));
    hide Render, WellFormed;
    WrapperText(SYMBOL, Plain(text));
    TextOfTree(Symbol(text), Wrapped(SYMBOL, Plain(text)));
    Head(SYMBOL);
    Marks();
    assert "{ \"" + Name(SYMBOL) + "\" : " == "{ \"$symbol\" : ";
  }

  lemma WordsSpelt()
    ensures Spelling(TrueWord) == Spelt("true") && Spelling(FalseWord) == Spelt("false") && Spelling(NullWord) == Spelt("null")
  {}

  lemma OneSpelt()
    ensures Render(Number(1)) == Spelt("1")
  {
    NumberText(1);
    assert Dec.Digits(1) == [1];
  }

  /** The values of which there are only one or two. */
  lemma UndefinedForm()
    ensures CanWrite(Undefined) && TextOf(Undefined) == Spelt("{ \"$undefined\" : true }")
  {
    hide Spelt, TextOf, Spelling;
    WordsSpelt();
    WordText(TrueWord);
    hide Render;
    MarkerForm(Undefined, UNDEFINED, Const(TrueWord), "{ \"$undefined\" : ", "true", "{ \"$undefined\" : true }");
  }

  lemma WordForms()
    ensures TextOf(Null) == Spelt("null") && TextOf(Boolean(true)) == Spelt("true") && TextOf(Boolean(false)) == Spelt("false")
  {
    hide Spelt, TextOf, Spelling;
    WordsSpelt();
    WordText(TrueWord);
    WordText(FalseWord);
    WordText(NullWord);
    TextOfTree(Null, Const(NullWord));
    TextOfTree(Boolean(true), Const(TrueWord));
    TextOfTree(Boolean(false), Const(FalseWord));
    hide Render;
  }

  lemma LeastForm()
    ensures CanWrite(MinKey) && TextOf(MinKey) == Spelt("{ \"$minKey\" : 1 }")
  {
    hide Spelt, TextOf, Render;
    OneSpelt();
    MarkerForm(MinKey, MINKEY, Number(1), "{ \"$minKey\" : ", "1", "{ \"$minKey\" : 1 }");
  }

  lemma GreatestForm()
    ensures CanWrite(MaxKey) && TextOf(MaxKey) == Spelt("{ \"$maxKey\" : 1 }")
  {
    hide Spelt, TextOf, Render;
    OneSpelt();
    MarkerForm(MaxKey, MAXKEY, Number(1), "{ \"$maxKey\" : ", "1", "{ \"$maxKey\" : 1 }");
  }

  lemma MarkerForm(v: Value, k: Keyword, inner: Json, head: string, word: string, whole: string)
    requires CanWrite(v) && Tree(v) == Wrapped(k, inner) && WellFormed(inner) && Render(inner) == Spelt(word)
    requires head == "{ \"" + Name(k) + "\" : " && whole == head + word + " }"
    ensures TextOf(v) == Spelt(whole)
  {
    hide Render, WellFormed, Spelt, TextOf, Opened, Name, Tree, Wrapped;
    WrapperText(k, inner);
    TextOfTree(v, Wrapped(k, inner));
    Head(k);
    Marks();
    SpeltConcat(head, word);
    SpeltConcat(head + word, " }");
  }

  /** What stands in front of the second of two members. */
  lemma Second(k: Keyword)
    ensures Spelt(", \"" + Name(k) + "\" : ") == [COMMA, SPACE, QUOTE] + Literal(k) + [QUOTE, SPACE, COLON, SPACE]
  {
    hide Name, Literal, Spelt;
    LiteralIsSpelt(k);
    SpeltConcat(", \"", Name(k));
    SpeltConcat(", \"" + Name(k), "\" : ");
    Marks();
  }

  /** Two members, the first one with a space before its colon or without. */
  lemma PairForm(j: Keyword, a: seq<byte>, k: Keyword, b: seq<byte>, head: string, next: string)
    requires head == "{ \"" + Name(j) + "\" : " && next == ", \"" + Name(k) + "\" : "
    ensures Both(j, [SPACE], a, k, b) == Spelt(head) + a + Spelt(next) + b + Spelt(" }")
  {
    hide Spelt, Name, Literal;
    Head(j);
    Second(k);
    Marks();
    assert [OPEN_OBJECT, SPACE, QUOTE] + Literal(j) + [QUOTE, SPACE, COLON, SPACE]
        == [OPEN_OBJECT, SPACE, QUOTE] + Literal(j) + [QUOTE] + [SPACE] + [COLON, SPACE];
    hide Opened;
    Gather([OPEN_OBJECT, SPACE, QUOTE] + Literal(j) + [QUOTE] + [SPACE] + [COLON, SPACE] + a, Literal(k), b);
  }

  lemma Gather(before: seq<byte>, k: seq<byte>, b: seq<byte>)
    ensures before + [COMMA, SPACE, QUOTE] + k + [QUOTE, SPACE, COLON, SPACE] + b + CLOSED
         == before + ([COMMA, SPACE, QUOTE] + k + [QUOTE, SPACE, COLON, SPACE]) + b + CLOSED
  {}

  lemma TightPairForm(j: Keyword, a: seq<byte>, k: Keyword, b: seq<byte>, head: string, next: string)
    requires head == "{ \"" + Name(j) + "\": " && next == ", \"" + Name(k) + "\" : "
    ensures Both(j, [], a, k, b) == Spelt(head) + a + Spelt(next) + b + Spelt(" }")
  {
    hide Spelt, Name, Literal;
    LiteralIsSpelt(j);
    SpeltConcat("{ \"", Name(j));
    SpeltConcat("{ \"" + Name(j), "\": ");
    Second(k);
    Marks();
    assert [OPEN_OBJECT, SPACE, QUOTE] + Literal(j) + [QUOTE, COLON, SPACE]
        == [OPEN_OBJECT, SPACE, QUOTE] + Literal(j) + [QUOTE] + [] + [COLON, SPACE];
    assert head == ("{ \"" + Name(j)) + "\": ";
    Gather([OPEN_OBJECT, SPACE, QUOTE] + Literal(j) + [QUOTE] + [] + [COLON, SPACE] + a, Literal(k), b);
  }

  lemma TimestampHeads()
    ensures "{ \"" + Name(TIMESTAMP) + "\" : " == "{ \"$timestamp\" : "
    ensures "{ \"" + Name(T) + "\" : " == "{ \"t\" : " && ", \"" + Name(I) + "\" : " == ", \"i\" : "
  {}

  lemma BinaryHeads()
    ensures "{ \"" + Name(BINARY) + "\" : " == "{ \"$binary\" : "
    ensures "{ \"" + Name(BASE64) + "\": " == "{ \"base64\": " && ", \"" + Name(SUBTYPE) + "\" : " == ", \"subType\" : "
  {}

  lemma RegexHead()
    ensures "{ \"" + Name(REGULAR_EXPRESSION) + "\" : " == "{ \"$regularExpression\" : "
  {}

  lemma RegexHeads()
    ensures "{ \"" + Name(PATTERN) + "\" : " == "{ \"pattern\" : " && ", \"" + Name(PLAIN_OPTIONS) + "\" : " == ", \"options\" : "
  {}

  lemma TimestampForm(t: uint32, inc: uint32)
    ensures CanWrite(Timestamp(t, inc))
    ensures TextOf(Timestamp(t, inc))
         == Spelt("{ \"$timestamp\" : ") + (Spelt("{ \"t\" : ") + Decimal(t) + Spelt(", \"i\" : ") + Decimal(inc) + Spelt(" }")) + Spelt(" }")
  {
    hide Decimal, Literal, Name, TextOf, Both, Opened, Spelt, IsStrict;
    NumberTree(t);
    NumberTree(inc);
    NumberText(t);
    NumberText(inc);
    BothText(T, true, Number(t), I, Number(inc));
    hide Render, WellFormed;
    var inner := Map([Member(Literal(T), true, Number(t)), Member(Literal(I), true, Number(inc))], true);
    WrapperText(TIMESTAMP, inner);
    TextOfTree(Timestamp(t, inc), Wrapped(TIMESTAMP, inner));
    Head(TIMESTAMP);
    Marks();
    TimestampHeads();
    PairForm(T, Decimal(t), I, Decimal(inc), "{ \"t\" : ", ", \"i\" : ");
  }

  lemma BinaryForm(subtype: byte, data: seq<byte>)
    ensures CanWrite(Binary(subtype, data))
    ensures TextOf(Binary(subtype, data))
         == Spelt("{ \"$binary\" : ") + (Spelt("{ \"base64\": ") + ([QUOTE] + Base64.Text(data) + [QUOTE]) + Spelt(", \"subType\" : ")
                                         + ([QUOTE] + HexByte(subtype) + [QUOTE]) + Spelt(" }")) + Spelt(" }")
  {
    hide Base64.Text, HexByte, Literal, Name, TextOf, Both, Opened, Spelt, IsStrict;
    var text, hex := Base64.Text(data), HexByte(subtype);
    Base64.TextIsAscii(data);
    HexByteReads(subtype);
    PlainText(text);
    PlainText(hex);
    hide IsPlainText;
    BothText(BASE64, false, Plain(text), SUBTYPE, Plain(hex));
    hide Render, WellFormed;
    var inner := Map([Member(Literal(BASE64), false, Plain(text)), Member(Literal(SUBTYPE), true, Plain(hex))], true);
    WrapperText(BINARY, inner);
    TextOfTree(Binary(subtype, data), Wrapped(BINARY, inner));
    Head(BINARY);
    Marks();
    BinaryHeads();
    TightPairForm(BASE64, [QUOTE] + text + [QUOTE], SUBTYPE, [QUOTE] + hex + [QUOTE], "{ \"base64\": ", ", \"subType\" : ");
  }

  lemma RegexForm(pattern: CString, options: CString)
    requires IsStrict(pattern)
    ensures CanWrite(Regex(pattern, options))
    ensures TextOf(Regex(pattern, options))
         == Spelt("{ \"$regularExpression\" : ") + (Spelt("{ \"pattern\" : ") + Quoted(pattern) + Spelt(", \"options\" : ")
            + ([QUOTE] + SortedOptions(options, REGEX_OPTIONS) + [QUOTE]) + Spelt(" }")) + Spelt(" }")
  {
    hide Literal, Name, TextOf, Both, Opened, Spelt, IsStrict, Quoted, SortedOptions;
    var sorted := SortedOptions(options, REGEX_OPTIONS);
    assert IsPlainText(REGEX_OPTIONS);
    OptionsArePlain(options, REGEX_OPTIONS);
    PlainText(sorted);
    hide IsPlainText;
    LeafText(pattern);
    BothText(PATTERN, true, Plain(pattern), PLAIN_OPTIONS, Plain(sorted));
    var inner := Map([Member(Literal(PATTERN), true, Plain(pattern)), Member(Literal(PLAIN_OPTIONS), true, Plain(sorted))], true);
    assert Render(Plain(pattern)) == Quoted(pattern);
    hide Render, WellFormed;
    WrapperText(REGULAR_EXPRESSION, inner);
    TextOfTree(Regex(pattern, options), Wrapped(REGULAR_EXPRESSION, inner));
    Head(REGULAR_EXPRESSION);
    Marks();
    RegexHead();
    RegexHeads();
    PairForm(PATTERN, Quoted(pattern), PLAIN_OPTIONS, [QUOTE] + sorted + [QUOTE], "{ \"pattern\" : ", ", \"options\" : ");
  }

  /** How a character of a string is written: RFC 8259 wants the first three kinds escaped. */
  lemma EscapeForm(c: Utf8.scalar)
    ensures EscapeScalar(c)
         == if c == '\"' as int then Spelt("\\\"")
            else if c == '\\' as int then Spelt("\\\\")
            else if c == 0x08 then Spelt("\\b")
            else if c == 0x09 then Spelt("\\t")
            else if c == 0x0a then Spelt("\\n")
            else if c == 0x0c then Spelt("\\f")
            else if c == 0x0d then Spelt("\\r")
            else if c < 0x20 then Spelt("\\u00") + [Escapes.LOWER_HEX[c / 16], Escapes.LOWER_HEX[c % 16]]
            else Utf8.EncodeScalar(c)
  {
    hide Utf8.EncodeScalar;
    if c < 0x20 {
      HexDigitIs(c / 16);
      HexDigitIs(c % 16);
    }
  }

  lemma HexDigitIs(n: nat)
    requires n < 16
    ensures Strings.HexDigit(n) == Escapes.LOWER_HEX[n]
  {}
}
