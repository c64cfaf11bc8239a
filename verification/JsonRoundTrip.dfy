/** The canonical Extended JSON writer, event by event, and why the reader rebuilds what it wrote. */
module JsonRoundTrip {
  import opened Bytes
  import opened BsonTree
  import opened BuilderRuns
  import opened JsonMachine
  import opened RegexOptions
  import opened JsonKeywords
  import Base64
  import Bits = DecimalBits
  import Dec = DecimalDigits
  import Print = DecimalPrinter
  import Range = DecimalRange
  import Strings = JsonString
  import Text = DecimalText
  import Trip = DecimalRoundTrip
  import Utf8

  /** A one-key wrapper. */
  function Wrap(k: Keyword, inner: seq<Event>): seq<Event> { [StartMap, MapKey(Literal(k))] + inner + [EndMap] }

  /** Text of a decimal128, as the bytes of a JSON string. */
  function DecimalText(low: uint64, high: uint64): seq<byte> {
    Ascii(Print.Printed(Bits.Meaning(Bits.Decimal128(high, low))))
  }

  /** The calls the lexer makes for the text of a value in canonical mode. */
  function ValueEvents(v: Value): seq<Event>
    decreases v
  {
    match v
    case Document(fields) => [StartMap] + FieldEvents(fields) + [EndMap]
    case Array(items) => [StartArray] + ItemEvents(items) + [EndArray]
    case Utf8(text) => [StringRead(text)]
    case Boolean(b) => [BooleanRead(b)]
    case Null => [NullRead]
    case Int32(i) => Wrap(INT32, [StringRead(Decimal(i))])
    case Int64(l) => Wrap(INT64, [StringRead(Decimal(l))])
    case ObjectId(oid) => Wrap(OID, [StringRead(HexText(oid))])
    case Binary(subtype, data) =>
      Wrap(BINARY, [StartMap, MapKey(Literal(BASE64)), StringRead(Base64.Text(data)),
                    MapKey(Literal(SUBTYPE)), StringRead(HexByte(subtype)), EndMap])
    case DateTime(ms) => Wrap(DATE, Wrap(INT64, [StringRead(Decimal(ms))]))
    case Timestamp(t, inc) =>
      Wrap(TIMESTAMP, [StartMap, MapKey(Literal(T)), IntegerRead(t, false), MapKey(Literal(I)), IntegerRead(inc, false), EndMap])
    case Regex(pattern, options) =>
      Wrap(REGULAR_EXPRESSION, [StartMap, MapKey(Literal(PATTERN)), StringRead(pattern),
                                MapKey(Literal(PLAIN_OPTIONS)), StringRead(SortedOptions(options, REGEX_OPTIONS)), EndMap])
    case Symbol(text) => Wrap(SYMBOL, [StringRead(text)])
    case Undefined => Wrap(UNDEFINED, [BooleanRead(true)])
    case MinKey => Wrap(MINKEY, [IntegerRead(1, false)])
    case MaxKey => Wrap(MAXKEY, [IntegerRead(1, false)])
    case Decimal128(low, high) => Wrap(DECIMAL128, [StringRead(DecimalText(low, high))])
    case _ => []
  }

  function FieldEvents(es: seq<Element>): seq<Event>
    decreases es
  {
    if es == [] then [] else [MapKey(es[0].key)] + ValueEvents(es[0].value) + FieldEvents(es[1..])
  }

  function ItemEvents(es: seq<Element>): seq<Event>
    decreases es
  {
    if es == [] then [] else ValueEvents(es[0].value) + ItemEvents(es[1..])
  }

  /** A key that is not part of the extended syntax. */
  predicate IsPlain(key: seq<byte>) {
    var k := KeywordOf(key);
    !IsKnown(k) && k != REF && k != ID && k != DB
  }

  /** What the writer has a text for: every type but doubles, code and DBPointers, if each key and text can be escaped. */
  ghost predicate CanWrite(v: Value)
    decreases v
  {
    match v
    case Document(fields) => CanWriteAll(fields)
    case Array(items) => CanWriteAll(items)
    case Utf8(text) => Strings.IsStrict(text)
    case Symbol(text) => Strings.IsStrict(text)
    case Regex(pattern, _) => Strings.IsStrict(pattern)
    case Double(_) => false
    case DbPointer(_, _) => false
    case Code(_) => false
    case CodeWithScope(_, _) => false
    case _ => true
  }

  ghost predicate CanWriteAll(es: seq<Element>)
    decreases es
  {
    es == [] || (CanWrite(es[0].value) && Utf8.Valid(es[0].key, false) && CanWriteAll(es[1..]))
  }

  /** What comes back from its text as it was. */
  ghost predicate Writable(v: Value)
    decreases v
  {
    match v
    case Document(fields) => WritableFields(fields)
    case Array(items) => WritableItems(items, 0)
    case Regex(pattern, options) => Strings.IsStrict(pattern) && SortedOptions(options, REGEX_OPTIONS) == options
    case Decimal128(low, high) => Trip.Canonical(Bits.Decimal128(high, low))
    case _ => CanWrite(v)
  }

  ghost predicate WritableFields(es: seq<Element>)
    decreases es
  {
    es == [] || (Writable(es[0].value) && IsPlain(es[0].key) && Utf8.Valid(es[0].key, false) && WritableFields(es[1..]))
  }

  ghost predicate WritableItems(es: seq<Element>, i: nat)
    decreases es
  {
    es == [] || (Writable(es[0].value) && es[0].key == Decimal(i) && WritableItems(es[1..], i + 1))
  }

  lemma {:induction false} WritableIsWritten(v: Value)
    requires Writable(v)
    ensures CanWrite(v)
    decreases v
  {
    match v
    case Document(fields) => FieldsAreWritten(fields);
    case Array(items) => ItemsAreWritten(items, 0);
    case _ =>
  }

  lemma {:induction false} FieldsAreWritten(es: seq<Element>)
    requires WritableFields(es)
    ensures CanWriteAll(es)
    decreases es
  {
    hide Utf8.Valid, IsPlain;
    if es != [] {
      WritableIsWritten(es[0].value);
      FieldsAreWritten(es[1..]);
    }
  }

  lemma {:induction false} ItemsAreWritten(es: seq<Element>, i: nat)
    requires WritableItems(es, i)
    ensures CanWriteAll(es)
    decreases es
  {
    hide Utf8.Valid, Decimal;
    if es != [] {
      WritableIsWritten(es[0].value);
      IndexIsKey(i);
      ItemsAreWritten(es[1..], i + 1);
    }
  }

  lemma IndexIsKey(i: nat)
    ensures Utf8.Valid(Decimal(i), false)
  {
    DigitBytesRead(Dec.Digits(i));
    hide Dec.Digits;
    PrintableIsKey(Decimal(i));
  }

  lemma {:induction false} PrintableIsKey(s: seq<byte>)
    requires Printable(s)
    ensures Utf8.Valid(s, false)
  {
    hide Utf8.Valid;
    if s == [] {
      Utf8.EmptyIsValid(false);
    } else {
      PrintableIsKey(s[1..]);
      Utf8.ValidPrepend(Utf8.Scalar(s[0]), s[1..], false);
      assert Utf8.PieceBytes(Utf8.Scalar(s[0])) + s[1..] == s;
    }
  }

  lemma StrictIsValid(text: seq<byte>)
    requires Strings.IsStrict(text)
    ensures Utf8.Valid(text, true)
  {
    var ps :| Strings.Strict(ps) && Utf8.Flatten(ps) == text;
    assert Utf8.AllAllowed(ps, true);
  }

  lemma KeyIsStrict(key: seq<byte>)
    requires Utf8.Valid(key, false)
    ensures Strings.IsStrict(key) && Utf8.Valid(key, true)
  {
    var ps :| Utf8.AllAllowed(ps, false) && Utf8.Flatten(ps) == key;
    assert Strings.Strict(ps);
    StrictIsValid(key);
  }

  /** How deep documents and arrays nest. */
  function Height(v: Value): nat
    decreases v
  {
    match v
    case Document(fields) => 1 + Tallest(fields)
    case Array(items) => 1 + Tallest(items)
    case _ => 0
  }

  function Tallest(es: seq<Element>): nat
    decreases es
  {
    if es == [] then 0
    else
      var h, rest := Height(es[0].value), Tallest(es[1..]);
      if h > rest then h else rest
  }

  ghost predicate Ready(r: Reader) { r.state == REGULAR && r.levels != [] }

  lemma {:induction false} FeedConcat(r: Reader, a: seq<Event>, b: seq<Event>)
    ensures Feed(r, a + b) == Feed(Feed(r, a), b)
    decreases |a|
  {
    hide React;
    if a == [] {
      assert a + b == b;
    } else if r.state != ERROR && r.state != UNMODELLED {
      assert (a + b)[0] == a[0] && (a + b)[1..] == a[1..] + b;
      FeedConcat(React(r, a[0]), a[1..], b);
    } else {
      FeedHalted(r, a + b);
      FeedHalted(r, a);
      FeedHalted(r, b);
    }
  }

  lemma FeedHalted(r: Reader, events: seq<Event>)
    requires r.state == ERROR || r.state == UNMODELLED
    ensures Feed(r, events) == r
  {}

  lemma FeedOne(r: Reader, e: Event, rest: seq<Event>)
    requires r.state != ERROR && r.state != UNMODELLED
    ensures Feed(r, [e] + rest) == Feed(React(r, e), rest)
  {
    hide React;
    assert ([e] + rest)[1..] == rest;
  }

  /** The state once a value has been read: its builder calls made, its key used up. */
  ghost predicate Reads(r: Reader, q: Reader, key: CString, v: Value) {
    q.state == REGULAR && q.levels == Fixup(r).levels && q.ops == r.ops + ElementScript(Element(key, v))
  }

  /** The value about to be read will be appended under `key`. */
  ghost predicate Expects(r: Reader, key: CString) { Ready(r) && Fixup(r).key.Some? && Fixup(r).key.value == key }

  /** Inside a wrapper: the key is set, the fields collected so far are known. */
  ghost predicate Inside(r: Reader, q: Reader, state: ReadState, tag: byte, data: Data) {
    q.levels == Fixup(r).levels && q.key == Fixup(r).key && q.ops == r.ops && q.state == state && q.bsonType == tag && q.data == data
  }

  function Tag(k: Keyword): byte {
    match k
    case OID => 0x07
    case BINARY => 0x05
    case DATE => 0x09
    case UNDEFINED => 0x06
    case MINKEY => 0xff
    case MAXKEY => 0x7f
    case INT32 => 0x10
    case INT64 => 0x12
    case SYMBOL => 0x0e
    case DECIMAL128 => 0x13
    case DOUBLE => 0x01
    case REGEX => 0x0b
    case OPTIONS => 0x0b
    case TYPE => 0x05
    case _ => 0
  }

  lemma StartsMap(r: Reader, key: CString)
    requires Expects(r, key)
    ensures React(r, StartMap) == Fixup(r).(state := IN_START_MAP) && Fixup(r).levels != [] && r.state == REGULAR == Fixup(r).state
    ensures Fixup(r).ops == r.ops && |Fixup(r).levels| == |r.levels| && Top(Fixup(r)).isArray == Top(r).isArray
  {}

  /** `{"$...":` */
  lemma Enter(r: Reader, k: Keyword, key: CString)
    requires Expects(r, key) && Tag(k) != 0
    ensures var q := React(React(r, StartMap), MapKey(Literal(k)));
            Inside(r, q, IN_BSON_TYPE, Tag(k), NO_DATA) && q.field == k
  {
    StartsMap(r, key);
    EnterKey(Fixup(r).(state := IN_START_MAP), k);
    hide Literal, React, Fixup;
  }

  lemma EnterKey(r: Reader, k: Keyword)
    requires r.state == IN_START_MAP && r.levels != [] && Tag(k) != 0
    ensures React(r, MapKey(Literal(k))) == r.(state := IN_BSON_TYPE, bsonType := Tag(k), data := NO_DATA, field := k)
  {
    TaggedIsKnown(k);
    KeywordOfLiteral(k);
    LiteralIsUtf8(k);
    KnownKey(r, Literal(k));
    TypeKeyTags(r.(state := IN_BSON_TYPE, bsonType := 0, data := NO_DATA), k);
    hide Literal, KeywordOf, Utf8.Valid, TypeKey, React, Tag, IsKnown;
  }

  lemma TaggedIsKnown(k: Keyword)
    requires Tag(k) != 0
    ensures IsKnown(k) && k != OTHER
  {}

  lemma KnownKey(r: Reader, text: seq<byte>)
    requires r.state == IN_START_MAP && r.levels != [] && IsKnown(KeywordOf(text)) && Utf8.Valid(text, true)
    ensures React(r, MapKey(text)) == TypeKey(r.(state := IN_BSON_TYPE, bsonType := 0, data := NO_DATA), KeywordOf(text))
  {
    hide KeywordOf, Utf8.Valid, TypeKey, Push, PlainKey, IsKnown;
  }

  lemma TypeKeyTags(r: Reader, k: Keyword)
    requires r.bsonType == 0 && Tag(k) != 0
    ensures TypeKey(r, k) == r.(bsonType := Tag(k), field := k)
  {}

  /** Wrappers around a single text or number: what is collected, then appended at the closing brace. */
  lemma CloseTyped(r: Reader, q: Reader, key: CString, v: Value)
    requires Expects(r, key) && q.key == Fixup(r).key && q.levels == Fixup(r).levels && q.state == IN_BSON_TYPE
    requires q.ops == r.ops && AppendTyped(q.(state := REGULAR)) == Append(q.(state := REGULAR), v)
    requires ElementScript(Element(key, v)) == [Put(Element(key, v))]
    ensures Reads(r, React(q, EndMap), key, v)
  {
    hide AppendTyped, Decimal;
  }

  lemma WrapFeed(r: Reader, k: Keyword, inner: seq<Event>)
    requires var r1 := React(r, StartMap);
             var q := React(r1, MapKey(Literal(k)));
             r.state == REGULAR && r1.state == IN_START_MAP && (q.state == IN_BSON_TYPE || q.state == TIMESTAMP_STARTMAP || q.state == REGEX_STARTMAP)
    ensures var q := React(React(r, StartMap), MapKey(Literal(k)));
            Feed(r, Wrap(k, inner)) == Feed(Feed(q, inner), [EndMap])
  {
    hide React, Feed, Literal;
    var m := MapKey(Literal(k));
    assert Wrap(k, inner) == [StartMap] + ([m] + (inner + [EndMap]));
    FeedOne(r, StartMap, [m] + (inner + [EndMap]));
    FeedOne(React(r, StartMap), m, inner + [EndMap]);
    FeedConcat(React(React(r, StartMap), m), inner, [EndMap]);
  }

  lemma LastEvent(r: Reader, e: Event)
    requires r.state != ERROR && r.state != UNMODELLED
    ensures Feed(r, [e]) == React(r, e)
  {
    hide React;
    assert [e][1..] == [];
  }

  ghost function Entered(r: Reader, k: Keyword): Reader { React(React(r, StartMap), MapKey(Literal(k))) }

  /** A wrapper around one scalar event that only collects data. */
  lemma SimpleWrap(r: Reader, key: CString, v: Value, k: Keyword, e: Event, data: Data)
    requires Expects(r, key) && Tag(k) != 0
    requires var q := Entered(r, k); React(q, e) == q.(data := data)
    requires var p := Entered(r, k).(data := data, state := REGULAR); AppendTyped(p) == Append(p, v)
    requires ElementScript(Element(key, v)) == [Put(Element(key, v))]
    ensures Reads(r, Feed(r, Wrap(k, [e])), key, v)
  {
    hide React, Feed, Literal, Fixup, AppendTyped, ElementScript;
    StartsMap(r, key);
    Enter(r, k, key);
    WrapFeed(r, k, [e]);
    var q := Entered(r, k);
    LastEvent(q, e);
    var p := React(q, e);
    LastEvent(p, EndMap);
    CloseTyped(r, p, key, v);
  }

  lemma Int64Reads(r: Reader, key: CString, i: int64)
    requires Expects(r, key)
    ensures Reads(r, Feed(r, ValueEvents(Int64(i))), key, Int64(i))
  {
    hide React, Feed, Literal, Decimal, Utf8.Valid, Fixup, Wrap, Reads, Append, AppendTyped;
    var text := Decimal(i);
    ParseDecimal(i);
    SevenBitIsUtf8(text);
    Enter(r, INT64, key);
    IntStep(Entered(r, INT64), text, i);
    TypedAppends(Entered(r, INT64).(data := NO_DATA.(int64Value := i), state := REGULAR));
    SimpleWrap(r, key, Int64(i), INT64, StringRead(text), NO_DATA.(int64Value := i));
  }

  lemma Int32Reads(r: Reader, key: CString, i: int32)
    requires Expects(r, key)
    ensures Reads(r, Feed(r, ValueEvents(Int32(i))), key, Int32(i))
  {
    hide React, Feed, Literal, Decimal, Utf8.Valid, Fixup, Wrap, Reads, Append, AppendTyped;
    var text := Decimal(i);
    ParseDecimal(i);
    SevenBitIsUtf8(text);
    Enter(r, INT32, key);
    IntStep(Entered(r, INT32), text, i);
    TypedAppends(Entered(r, INT32).(data := NO_DATA.(int32Value := i), state := REGULAR));
    SimpleWrap(r, key, Int32(i), INT32, StringRead(text), NO_DATA.(int32Value := i));
  }

  lemma OidReads(r: Reader, key: CString, oid: Bytes12)
    requires Expects(r, key)
    ensures Reads(r, Feed(r, ValueEvents(ObjectId(oid))), key, ObjectId(oid))
  {
    hide Feed, Literal, Utf8.Valid, Fixup, Wrap, Reads, HexText, OidFromText, Append, AppendTyped;
    var text := HexText(oid);
    HexTextReads(oid);
    SevenBitIsUtf8(text);
    Enter(r, OID, key);
    OidStep(Entered(r, OID), text, oid);
    hide React;
    TypedAppends(Entered(r, OID).(data := NO_DATA.(oid := oid), state := REGULAR));
    SimpleWrap(r, key, ObjectId(oid), OID, StringRead(text), NO_DATA.(oid := oid));
  }

  lemma OidStep(q: Reader, text: seq<byte>, oid: Bytes12)
    requires q.state == IN_BSON_TYPE && q.field == OID && Utf8.Valid(text, true) && |text| == 24 && OidFromText(text) == oid
    ensures React(q, StringRead(text)) == q.(data := q.data.(oid := oid))
  {
    hide Utf8.Valid, OidFromText, BinaryElem, NumberString, Append;
  }

  lemma TypedAppends(p: Reader)
    ensures p.bsonType == 0x06 ==> AppendTyped(p) == Append(p, Undefined)
    ensures p.bsonType == 0xff ==> AppendTyped(p) == Append(p, MinKey)
    ensures p.bsonType == 0x7f ==> AppendTyped(p) == Append(p, MaxKey)
    ensures p.bsonType == 0x07 ==> AppendTyped(p) == Append(p, ObjectId(p.data.oid))
    ensures p.bsonType == 0x10 ==> AppendTyped(p) == Append(p, Int32(p.data.int32Value))
    ensures p.bsonType == 0x12 ==> AppendTyped(p) == Append(p, Int64(p.data.int64Value))
    ensures p.bsonType == 0x13 ==> AppendTyped(p) == Append(p, Value.Decimal128(p.data.decimal.low, p.data.decimal.high))
    ensures p.bsonType == 0x0e ==> AppendTyped(p) == p
  {
    hide Append;
  }

  /** The values whose wrapper holds a fixed event. */
  lemma MarkerReads(r: Reader, key: CString, v: Value, k: Keyword, e: Event)
    requires Expects(r, key)
    requires (v, k, e) in [(Undefined, UNDEFINED, BooleanRead(true)), (MinKey, MINKEY, IntegerRead(1, false)), (MaxKey, MAXKEY, IntegerRead(1, false))]
    ensures Reads(r, Feed(r, Wrap(k, [e])), key, v)
  {
    hide Feed, Literal, Wrap, Reads, Fixup, Append, AppendTyped;
    Enter(r, k, key);
    MarkerSteps(Entered(r, k));
    hide React;
    TypedAppends(Entered(r, k).(state := REGULAR));
    SimpleWrap(r, key, v, k, e, NO_DATA);
  }

  lemma MarkerSteps(q: Reader)
    requires q.state == IN_BSON_TYPE
    ensures q.field == UNDEFINED ==> React(q, BooleanRead(true)) == q
    ensures q.field == MINKEY || q.field == MAXKEY ==> React(q, IntegerRead(1, false)) == q
  {}

  /** Texts that are appended as they are. */
  lemma PlainReads(r: Reader, key: CString, v: Value)
    requires Expects(r, key) && Writable(v) && (v.Utf8? || v.Boolean? || v.Null?)
    ensures Reads(r, Feed(r, ValueEvents(v)), key, v)
  {
    if v.Utf8? {
      StrictIsValid(v.text);
    }
    var e := ValueEvents(v)[0];
    assert ValueEvents(v) == [e];
    LastEvent(r, e);
    hide Feed, Utf8.Valid, Decimal;
  }

  lemma IntStep(q: Reader, text: seq<byte>, i: int64)
    requires q.state == IN_BSON_TYPE && Utf8.Valid(text, true) && ParseInt64(text) == Some(i)
    ensures q.field == INT64 ==> React(q, StringRead(text)) == q.(data := q.data.(int64Value := i))
    ensures q.field == INT32 && -INT32_MAX - 1 <= i <= INT32_MAX ==> React(q, StringRead(text)) == q.(data := q.data.(int32Value := i))
  {
    hide ParseInt64, Utf8.Valid;
  }

  lemma SymbolReads(r: Reader, key: CString, text: seq<byte>)
    requires Expects(r, key) && Utf8.Valid(text, true)
    ensures Reads(r, Feed(r, ValueEvents(Symbol(text))), key, Symbol(text))
  {
    hide React, Feed, Literal, Utf8.Valid, AppendTyped;
    StartsMap(r, key);
    Enter(r, SYMBOL, key);
    var q := Entered(r, SYMBOL);
    WrapFeed(r, SYMBOL, [StringRead(text)]);
    LastEvent(q, StringRead(text));
    SymbolStep(q, text);
    var p := React(q, StringRead(text));
    LastEvent(p, EndMap);
    EndsTyped(p);
    TypedAppends(p.(state := REGULAR));
  }

  lemma SymbolStep(q: Reader, text: seq<byte>)
    requires q.state == IN_BSON_TYPE && q.field == SYMBOL && Utf8.Valid(text, true)
    ensures React(q, StringRead(text)) == Append(q, Symbol(text))
  {
    hide Utf8.Valid, Append;
  }

  lemma EndsTyped(q: Reader)
    requires q.state == IN_BSON_TYPE && q.key.Some?
    ensures React(q, EndMap) == AppendTyped(q.(state := REGULAR))
  {
    hide AppendTyped;
  }

  lemma DecimalTextParses(low: uint64, high: uint64)
    requires Trip.Canonical(Bits.Decimal128(high, low))
    ensures var text := DecimalText(low, high);
            Utf8.Valid(text, true) && Range.Outcome(CharsOf(UpToNul(text))) == Range.Accepted(Bits.Decimal128(high, low))
  {
    hide Utf8.Valid, Print.TextOf, Print.LosesDigit, Trip.Canonical, Bits.Meaning, Range.Outcome, CharsOf, UpToNul, Ascii;
    var d := Bits.Decimal128(high, low);
    Trip.RoundTrip(d);
    CanonicalKeepsDigits(d);
    DecimalTextIsPrintable(Bits.Meaning(d));
    CharsOfAscii(Print.Printed(Bits.Meaning(d)));
    SevenBitIsUtf8(DecimalText(low, high));
    PrintableUpToNul(DecimalText(low, high));
  }

  lemma CanonicalKeepsDigits(d: Bits.Decimal128)
    requires Trip.Canonical(d)
    ensures !Print.LosesDigit(Bits.Meaning(d))
  {
    Bits.SpecialConstants();
    if Bits.Meaning(d).Finite? {
      Trip.CanonicalIsPlain(d);
    }
  }

  lemma DecimalReads(r: Reader, key: CString, low: uint64, high: uint64)
    requires Expects(r, key) && Trip.Canonical(Bits.Decimal128(high, low))
    ensures Reads(r, Feed(r, ValueEvents(Value.Decimal128(low, high))), key, Value.Decimal128(low, high))
  {
    hide React, Feed, Literal, Utf8.Valid, Fixup, Wrap, Reads, Append, AppendTyped, DecimalText, Trip.Canonical, Range.Outcome,
         CharsOf, UpToNul;
    var d := Bits.Decimal128(high, low);
    var text := DecimalText(low, high);
    DecimalTextParses(low, high);
    Enter(r, DECIMAL128, key);
    DecimalStep(Entered(r, DECIMAL128), text, d);
    TypedAppends(Entered(r, DECIMAL128).(data := NO_DATA.(decimal := d), state := REGULAR));
    SimpleWrap(r, key, Value.Decimal128(low, high), DECIMAL128, StringRead(text), NO_DATA.(decimal := d));
  }

  lemma DecimalStep(q: Reader, text: seq<byte>, d: Bits.Decimal128)
    requires q.state == IN_BSON_TYPE && q.field == DECIMAL128 && Utf8.Valid(text, true)
    requires Range.Outcome(CharsOf(UpToNul(text))) == Range.Accepted(d)
    ensures React(q, StringRead(text)) == q.(data := q.data.(decimal := d))
  {
    hide Utf8.Valid, Range.Outcome;
  }

  lemma CharsPrintable(ds: seq<Dec.digit>)
    ensures PrintableChars(Text.Chars(ds))
  {}

  lemma Joined(a: string, b: string)
    requires PrintableChars(a) && PrintableChars(b)
    ensures PrintableChars(a + b)
  {}

  lemma SignedPrintable(n: int)
    ensures PrintableChars(Text.SignedText(n))
  {
    CharsPrintable(Dec.Digits(if n < 0 then -n else n));
    hide Text.Chars, Dec.Digits;
    Joined([if n < 0 then '-' else '+'], Text.Chars(Dec.Digits(if n < 0 then -n else n)));
  }

  lemma PointedPrintable(a: seq<Dec.digit>, b: seq<Dec.digit>)
    ensures PrintableChars(Text.Pointed(a, b))
  {
    CharsPrintable(a);
    CharsPrintable(b);
    hide Text.Chars;
    Joined(Text.Chars(a), ".");
    Joined(Text.Chars(a) + ".", Text.Chars(b));
  }

  lemma RenderPrintable(ds: seq<Dec.digit>, e: int)
    requires ds != []
    ensures PrintableChars(Text.RenderUnsigned(ds, e))
  {
    hide Text.Chars, Text.Pointed, Text.SignedText, Dec.Zeros, PrintableChars;
    var scientific, radix := |ds| - 1 + e, |ds| + e;
    if scientific < -6 || e > 0 {
      SignedPrintable(scientific);
      JustE();
      Joined("E", Text.SignedText(scientific));
      if |ds| == 1 {
        CharsPrintable(ds);
      } else {
        PointedPrintable(ds[..1], ds[1..]);
      }
      Joined(Text.Mantissa(ds), "E" + Text.SignedText(scientific));
    } else if e == 0 {
      CharsPrintable(ds);
    } else if radix > 0 {
      PointedPrintable(ds[..radix], ds[radix..]);
    } else {
      PointedPrintable([0], Dec.Zeros(-radix) + ds);
    }
  }

  lemma JustE()
    ensures PrintableChars("E") && PrintableChars("-") && PrintableChars("") && PrintableChars("NaN") && PrintableChars("Infinity")
  {}

  lemma DecimalTextIsPrintable(n: Bits.Denoted)
    ensures PrintableChars(Print.Printed(n))
  {
    JustE();
    hide Text.RenderUnsigned, PrintableChars, Dec.Digits;
    match n
    case NaN =>
    case Infinity(neg) => Joined(if neg then "-" else "", "Infinity");
    case Finite(neg, c, e) =>
      RenderPrintable(Dec.Digits(c), e);
      RenderPrintable(Dec.Digits(c / 10), e + 1);
      Joined(if neg then "-" else "", Text.RenderUnsigned(Dec.Digits(c), e));
      Joined(if neg then "-" else "", Text.RenderUnsigned(Dec.Digits(c / 10), e + 1));
  }

  predicate Collecting(s: ReadState) {
    s == DATE_NUMBERLONG || s == TIMESTAMP_VALUES || s == REGEX_VALUES || s == BINARY_VALUES
  }

  predicate Ending(s: ReadState) { s == DATE_ENDMAP || s == TIMESTAMP_ENDMAP || s == REGEX_ENDMAP || s == BINARY_ENDMAP }

  predicate Entering(s: ReadState) { s == IN_BSON_TYPE || s == TIMESTAMP_STARTMAP || s == REGEX_STARTMAP }

  lemma SecondBrace(q: Reader)
    requires q.state == TIMESTAMP_STARTMAP || q.state == REGEX_STARTMAP
             || (q.state == IN_BSON_TYPE && (q.field == DATE || q.field == BINARY))
    ensures React(q, StartMap) == q.(state := if q.state == TIMESTAMP_STARTMAP then TIMESTAMP_VALUES
                                             else if q.state == REGEX_STARTMAP then REGEX_VALUES
                                             else if q.field == DATE then DATE_NUMBERLONG else BINARY_VALUES)
  {}

  lemma LastBrace(q: Reader)
    requires Ending(q.state)
    ensures React(q, EndMap) == q.(state := REGULAR)
  {}

  lemma AppendsPut(q: Reader, key: CString, v: Value)
    requires q.levels != [] && q.key.Some? && q.key.value == key
    ensures Append(q, v) == q.(ops := q.ops + [Put(Element(key, v))])
  {}

  /** Wrappers around a second map: its contents are collected, and its closing brace appends. */
  lemma NestedWrap(r: Reader, key: CString, v: Value, k: Keyword, body: seq<Event>, p: Reader, end: ReadState)
    requires Expects(r, key) && Entering(Entered(r, k).state) && Ending(end)
    requires var a := React(Entered(r, k), StartMap);
             a.state != ERROR && a.state != UNMODELLED && p == Feed(a, body) && Collecting(p.state)
    requires p.levels == Fixup(r).levels && p.key == Fixup(r).key && p.ops == r.ops
    requires React(p, EndMap) == Append(p.(state := end), v)
    requires ElementScript(Element(key, v)) == [Put(Element(key, v))]
    ensures Reads(r, Feed(r, Wrap(k, [StartMap] + body + [EndMap])), key, v)
  {
    hide React, Feed, Literal, Fixup, ElementScript;
    StartsMap(r, key);
    var q := Entered(r, k);
    WrapFeed(r, k, [StartMap] + body + [EndMap]);
    assert [StartMap] + body + [EndMap] == [StartMap] + (body + [EndMap]);
    FeedOne(q, StartMap, body + [EndMap]);
    FeedConcat(React(q, StartMap), body, [EndMap]);
    LastEvent(p, EndMap);
    AppendsPut(p.(state := end), key, v);
    var f := React(p, EndMap);
    LastEvent(f, EndMap);
    LastBrace(f);
  }

  lemma TwoEvents(r: Reader, a: Event, b: Event)
    requires r.state != ERROR && r.state != UNMODELLED && React(r, a).state != ERROR && React(r, a).state != UNMODELLED
    ensures Feed(r, [a, b]) == React(React(r, a), b)
  {
    hide React, Feed;
    assert [a, b] == [a] + [b];
    FeedOne(r, a, [b]);
    LastEvent(React(r, a), b);
  }

  lemma FourEvents(r: Reader, a: Event, b: Event, c: Event, d: Event)
    requires r.state != ERROR && r.state != UNMODELLED && React(r, a).state != ERROR && React(r, a).state != UNMODELLED
    requires var m := React(React(r, a), b);
             m.state != ERROR && m.state != UNMODELLED && React(m, c).state != ERROR && React(m, c).state != UNMODELLED
    ensures Feed(r, [a, b, c, d]) == React(React(React(React(r, a), b), c), d)
  {
    hide React, Feed;
    assert [a, b, c, d] == [a, b] + [c, d];
    FeedConcat(r, [a, b], [c, d]);
    TwoEvents(r, a, b);
    TwoEvents(React(React(r, a), b), c, d);
  }

  predicate BelongsIn(q: Reader, k: Keyword) {
    || (q.state == DATE_NUMBERLONG && k == INT64 && q.bsonType == 0x09)
    || (q.state == TIMESTAMP_VALUES && (k == T || k == I) && q.bsonType == 0x11)
    || (q.state == REGEX_VALUES && (k == PATTERN || k == PLAIN_OPTIONS) && q.bsonType == 0x0b)
    || (q.state == BINARY_VALUES && (k == BASE64 || k == SUBTYPE) && q.bsonType == 0x05)
  }

  function FieldFor(k: Keyword): Keyword { if k == BASE64 then BINARY else if k == SUBTYPE then TYPE else k }

  /** The keys inside the second map. */
  lemma InnerKey(q: Reader, k: Keyword)
    requires BelongsIn(q, k)
    ensures React(q, MapKey(Literal(k))) == q.(field := FieldFor(k))
  {
    assert k != OTHER;
    KeywordOfLiteral(k);
    LiteralIsUtf8(k);
    hide Literal, React, BelongsIn;
    InnerText(q, Literal(k), k);
  }

  lemma InnerText(q: Reader, text: seq<byte>, k: Keyword)
    requires BelongsIn(q, k) && KeywordOf(text) == k && Utf8.Valid(text, true)
    ensures React(q, MapKey(text)) == q.(field := FieldFor(k))
  {
    hide KeywordOf, Utf8.Valid, TypeKey, Push, PlainKey, WrapperKey, IsKnown;
    if q.state == DATE_NUMBERLONG {
      assert OnMapKey(q, text) == Option1(q, 0x09, INT64);
    } else if q.state == TIMESTAMP_VALUES {
      assert OnMapKey(q, text) == Option1(q, 0x11, k);
    } else if q.state == REGEX_VALUES {
      assert OnMapKey(q, text) == Option1(q, 0x0b, k);
    } else {
      assert OnMapKey(q, text) == Option1(q, 0x05, FieldFor(k));
    }
  }

  lemma DateReads(r: Reader, key: CString, ms: int64)
    requires Expects(r, key)
    ensures Reads(r, Feed(r, ValueEvents(DateTime(ms))), key, DateTime(ms))
  {
    hide React, Feed, Literal, Decimal, Utf8.Valid, Fixup, Reads, Append;
    var text := Decimal(ms);
    ParseDecimal(ms);
    SevenBitIsUtf8(text);
    StartsMap(r, key);
    Enter(r, DATE, key);
    var q := Entered(r, DATE);
    SecondBrace(q);
    var a := React(q, StartMap);
    InnerKey(a, INT64);
    var b := React(a, MapKey(Literal(INT64)));
    DateStep(b, text, ms);
    TwoEvents(a, MapKey(Literal(INT64)), StringRead(text));
    var body := [MapKey(Literal(INT64)), StringRead(text)];
    var p := Feed(a, body);
    DateEnds(p);
    NestedWrap(r, key, DateTime(ms), DATE, body, p, DATE_ENDMAP);
    assert [StartMap] + body + [EndMap] == Wrap(INT64, [StringRead(text)]);
  }

  lemma DateStep(b: Reader, text: seq<byte>, ms: int64)
    requires b.state == DATE_NUMBERLONG && b.field == INT64 && Utf8.Valid(text, true) && ParseInt64(text) == Some(ms)
    ensures React(b, StringRead(text)) == b.(data := b.data.(date := ms))
  {
    hide Utf8.Valid, ParseInt64, BinaryElem, Append, Range.Outcome;
  }

  lemma DateEnds(p: Reader)
    requires p.state == DATE_NUMBERLONG && p.key.Some?
    ensures React(p, EndMap) == Append(p.(state := DATE_ENDMAP), DateTime(p.data.date))
  {
    hide Append;
  }

  lemma BinaryReads(r: Reader, key: CString, subtype: byte, data: seq<byte>)
    requires Expects(r, key)
    ensures Reads(r, Feed(r, ValueEvents(Binary(subtype, data))), key, Binary(subtype, data))
  {
    hide React, Feed, Literal, Utf8.Valid, Fixup, Reads, Append, HexByte, Base64.Text;
    var text, hex := Base64.Text(data), HexByte(subtype);
    StartsMap(r, key);
    Enter(r, BINARY, key);
    var q := Entered(r, BINARY);
    SecondBrace(q);
    var a := React(q, StartMap);
    InnerKey(a, BASE64);
    var b := React(a, MapKey(Literal(BASE64)));
    Base64Step(b, data);
    var c := React(b, StringRead(text));
    InnerKey(c, SUBTYPE);
    var d := React(c, MapKey(Literal(SUBTYPE)));
    SubtypeStep(d, subtype);
    FourEvents(a, MapKey(Literal(BASE64)), StringRead(text), MapKey(Literal(SUBTYPE)), StringRead(hex));
    var body := [MapKey(Literal(BASE64)), StringRead(text), MapKey(Literal(SUBTYPE)), StringRead(hex)];
    var p := Feed(a, body);
    BinaryEnds(p);
    NestedWrap(r, key, Binary(subtype, data), BINARY, body, p, BINARY_ENDMAP);
    assert [StartMap] + body + [EndMap]
        == [StartMap, MapKey(Literal(BASE64)), StringRead(text), MapKey(Literal(SUBTYPE)), StringRead(hex), EndMap];
  }

  lemma Base64Step(b: Reader, data: seq<byte>)
    requires b.state == BINARY_VALUES && b.field == BINARY
    ensures React(b, StringRead(Base64.Text(data))) == b.(data := b.data.(hasBinary := true), buf0 := data)
  {
    var text := Base64.Text(data);
    Base64.RoundTrip(data);
    SevenBitIsUtf8(text);
    PrintableUpToNul(text);
    hide Utf8.Valid, Base64.Text, Base64.Decode, Base64.ScanDigits, Base64.Length, UpToNul, Base64.Ascii, ScanHex;
  }

  lemma SubtypeStep(d: Reader, subtype: byte)
    requires d.state == BINARY_VALUES && d.field == TYPE
    ensures React(d, StringRead(HexByte(subtype))) == d.(data := d.data.(hasSubtype := true, subtype := subtype))
  {
    HexByteReads(subtype);
    SevenBitIsUtf8(HexByte(subtype));
    PrintableUpToNul(HexByte(subtype));
    hide Utf8.Valid, HexByte, ScanHex, UpToNul, Push;
  }

  lemma BinaryEnds(p: Reader)
    requires p.state == BINARY_VALUES && p.key.Some? && p.data.hasBinary && p.data.hasSubtype
    ensures React(p, EndMap) == Append(p.(state := BINARY_ENDMAP), Binary(p.data.subtype, p.buf0))
  {
    hide Append;
  }

  lemma EnterOther(r: Reader, k: Keyword, key: CString)
    requires Expects(r, key) && (k == TIMESTAMP || k == REGULAR_EXPRESSION)
    ensures Entered(r, k) == Fixup(r).(state := if k == TIMESTAMP then TIMESTAMP_STARTMAP else REGEX_STARTMAP,
                                       bsonType := if k == TIMESTAMP then 0x11 else 0x0b, data := NO_DATA)
  {
    assert IsKnown(k);
    StartsMap(r, key);
    KeywordOfLiteral(k);
    LiteralIsUtf8(k);
    hide Literal, KeywordOf, Utf8.Valid, React, Fixup, TypeKey, IsKnown;
    KnownKey(Fixup(r).(state := IN_START_MAP), Literal(k));
    OtherKey(Fixup(r).(state := IN_BSON_TYPE, bsonType := 0, data := NO_DATA), k);
  }

  lemma OtherKey(r: Reader, k: Keyword)
    requires (k == TIMESTAMP || k == REGULAR_EXPRESSION) && r.bsonType == 0
    ensures TypeKey(r, k) == r.(bsonType := if k == TIMESTAMP then 0x11 else 0x0b,
                                state := if k == TIMESTAMP then TIMESTAMP_STARTMAP else REGEX_STARTMAP)
  {}

  lemma TimestampReads(r: Reader, key: CString, t: uint32, inc: uint32)
    requires Expects(r, key)
    ensures Reads(r, Feed(r, ValueEvents(Timestamp(t, inc))), key, Timestamp(t, inc))
  {
    hide React, Feed, Literal, Fixup, Reads, Append;
    EnterOther(r, TIMESTAMP, key);
    var q := Entered(r, TIMESTAMP);
    SecondBrace(q);
    var a := React(q, StartMap);
    InnerKey(a, T);
    var b := React(a, MapKey(Literal(T)));
    TimestampSteps(b, t);
    var c := React(b, IntegerRead(t, false));
    InnerKey(c, I);
    var d := React(c, MapKey(Literal(I)));
    TimestampSteps(d, inc);
    FourEvents(a, MapKey(Literal(T)), IntegerRead(t, false), MapKey(Literal(I)), IntegerRead(inc, false));
    var body := [MapKey(Literal(T)), IntegerRead(t, false), MapKey(Literal(I)), IntegerRead(inc, false)];
    var p := Feed(a, body);
    TimestampEnds(p);
    StartsMap(r, key);
    NestedWrap(r, key, Timestamp(t, inc), TIMESTAMP, body, p, TIMESTAMP_ENDMAP);
    assert [StartMap] + body + [EndMap]
        == [StartMap, MapKey(Literal(T)), IntegerRead(t, false), MapKey(Literal(I)), IntegerRead(inc, false), EndMap];
  }

  lemma TimestampSteps(b: Reader, n: uint32)
    requires b.state == TIMESTAMP_VALUES
    ensures b.field == T ==> React(b, IntegerRead(n, false)) == b.(data := b.data.(hasT := true, t := n))
    ensures b.field == I ==> React(b, IntegerRead(n, false)) == b.(data := b.data.(hasI := true, i := n))
  {}

  lemma TimestampEnds(p: Reader)
    requires p.state == TIMESTAMP_VALUES && p.key.Some? && p.data.hasT && p.data.hasI
    ensures React(p, EndMap) == Append(p.(state := TIMESTAMP_ENDMAP), Timestamp(p.data.t, p.data.i))
  {
    hide Append;
  }

  lemma RegexReads(r: Reader, key: CString, pattern: CString, options: CString)
    requires Expects(r, key) && Strings.IsStrict(pattern) && SortedOptions(options, REGEX_OPTIONS) == options
    ensures Reads(r, Feed(r, ValueEvents(Regex(pattern, options))), key, Regex(pattern, options))
  {
    hide React, Feed, Literal, Fixup, Reads, Append, Utf8.Valid, SortedOptions;
    StrictIsValid(pattern);
    EnterOther(r, REGULAR_EXPRESSION, key);
    var q := Entered(r, REGULAR_EXPRESSION);
    SecondBrace(q);
    var a := React(q, StartMap);
    InnerKey(a, PATTERN);
    var b := React(a, MapKey(Literal(PATTERN)));
    RegexSteps(b, pattern);
    var c := React(b, StringRead(pattern));
    InnerKey(c, PLAIN_OPTIONS);
    var d := React(c, MapKey(Literal(PLAIN_OPTIONS)));
    OptionsAreAscii(options, REGEX_OPTIONS);
    RegexSteps(d, options);
    FourEvents(a, MapKey(Literal(PATTERN)), StringRead(pattern), MapKey(Literal(PLAIN_OPTIONS)), StringRead(options));
    var body := [MapKey(Literal(PATTERN)), StringRead(pattern), MapKey(Literal(PLAIN_OPTIONS)), StringRead(options)];
    var p := Feed(a, body);
    RegexEnds(p, pattern, options);
    StartsMap(r, key);
    NestedWrap(r, key, Regex(pattern, options), REGULAR_EXPRESSION, body, p, REGEX_ENDMAP);
    assert [StartMap] + body + [EndMap]
        == [StartMap, MapKey(Literal(PATTERN)), StringRead(pattern), MapKey(Literal(PLAIN_OPTIONS)), StringRead(options), EndMap];
  }

  lemma {:induction false} OptionsAreAscii(options: seq<byte>, among: CString)
    requires SevenBit(among)
    ensures SevenBit(SortedOptions(options, among)) && Utf8.Valid(SortedOptions(options, among), true)
  {
    hide Utf8.Valid;
    if among != [] {
      OptionsAreAscii(options, among[1..]);
    }
    SevenBitIsUtf8(SortedOptions(options, among));
  }

  lemma RegexSteps(b: Reader, text: seq<byte>)
    requires b.state == REGEX_VALUES && Utf8.Valid(text, true)
    ensures b.field == PATTERN ==> React(b, StringRead(text)) == b.(data := b.data.(hasPattern := true), buf0 := text)
    ensures b.field == PLAIN_OPTIONS ==> React(b, StringRead(text)) == b.(data := b.data.(hasOptions := true), buf1 := text)
  {
    hide Utf8.Valid;
  }

  lemma RegexEnds(p: Reader, pattern: CString, options: CString)
    requires p.state == REGEX_VALUES && p.key.Some? && p.data.hasPattern && p.data.hasOptions && p.buf0 == pattern && p.buf1 == options
    requires SortedOptions(options, REGEX_OPTIONS) == options
    ensures React(p, EndMap) == Append(p.(state := REGEX_ENDMAP), Regex(pattern, options))
  {
    PrintableUpToNul(pattern);
    PrintableUpToNul(options);
    hide Append, SortedOptions, UpToNul;
  }

  /** Every value but documents and arrays. */
  lemma ScalarReads(r: Reader, key: CString, v: Value)
    requires Expects(r, key) && Writable(v) && !v.Document? && !v.Array?
    ensures Reads(r, Feed(r, ValueEvents(v)), key, v)
  {
    hide Expects, Reads, Feed;
    match v {
      case Int32(i) => Int32Reads(r, key, i);
      case Int64(l) => Int64Reads(r, key, l);
      case ObjectId(oid) => OidReads(r, key, oid);
      case Binary(subtype, data) => BinaryReads(r, key, subtype, data);
      case DateTime(ms) => DateReads(r, key, ms);
      case Timestamp(t, inc) => TimestampReads(r, key, t, inc);
      case Regex(pattern, options) => RegexReads(r, key, pattern, options);
      case Symbol(text) =>
        StrictIsValid(text);
        SymbolReads(r, key, text);
      case Undefined => MarkerReads(r, key, v, UNDEFINED, BooleanRead(true));
      case MinKey => MarkerReads(r, key, v, MINKEY, IntegerRead(1, false));
      case MaxKey => MarkerReads(r, key, v, MAXKEY, IntegerRead(1, false));
      case Decimal128(low, high) => DecimalReads(r, key, low, high);
      case _ => PlainReads(r, key, v);
    }
  }

  /** An open document, not yet a DBRef, with room for `height` more levels. */
  ghost predicate InDocument(r: Reader, height: nat) {
    Ready(r) && !Top(r).isArray && !Top(r).hasRef && !Top(r).hasId && |r.levels| + height <= STACK_MAX
  }

  ghost predicate InArray(r: Reader, i: nat, height: nat) {
    Ready(r) && Top(r).isArray && Top(r).i == i && |r.levels| + height <= STACK_MAX
  }

  /** A plain key inside a document just becomes the current key. */
  lemma KeyReads(r: Reader, key: CString)
    requires InDocument(r, 0) && IsPlain(key) && Utf8.Valid(key, true)
    ensures React(r, MapKey(key)) == r.(key := Some(key))
    ensures Expects(React(r, MapKey(key)), key)
  {
    PrintableUpToNul(key);
    PlainInDocument(r, key);
    DocumentKey(r.(key := Some(key)));
    hide React, IsPlain, Utf8.Valid, Fixup;
  }

  lemma PlainInDocument(r: Reader, key: CString)
    requires r.state == REGULAR && r.levels != [] && IsPlain(key) && Utf8.Valid(key, true) && UpToNul(key) == key
    ensures React(r, MapKey(key)) == r.(key := Some(key))
  {
    hide KeywordOf, Utf8.Valid, UpToNul, TypeKey, Push, IsKnown;
    assert React(r, MapKey(key)) == PlainKey(r, key);
  }

  /** `{` and the first key open a document. */
  lemma FirstKeyReads(r: Reader, outer: CString, key: CString)
    requires Expects(r, outer) && |r.levels| < STACK_MAX && IsPlain(key) && Utf8.Valid(key, true)
    ensures var m := Fixup(r).(levels := Fixup(r).levels + [Level(false, 0, false, false)], ops := r.ops + [Begin(outer, false)]);
            React(React(r, StartMap), MapKey(key)) == m.(key := Some(key))
  {
    StartsMap(r, outer);
    PrintableUpToNul(key);
    PlainStart(Fixup(r), outer, key);
    hide React, Fixup;
  }

  lemma PlainStart(r: Reader, outer: CString, key: CString)
    requires r.levels != [] && |r.levels| < STACK_MAX && r.key.Some? && r.key.value == outer && r.state == REGULAR
    requires IsPlain(key) && Utf8.Valid(key, true) && UpToNul(key) == key
    ensures React(r.(state := IN_START_MAP), MapKey(key))
         == r.(levels := r.levels + [Level(false, 0, false, false)], ops := r.ops + [Begin(outer, false)], key := Some(key))
  {
    hide KeywordOf, Utf8.Valid, UpToNul, TypeKey;
  }

  lemma {:induction false} FieldsRead(r: Reader, es: seq<Element>)
    requires InDocument(r, Tallest(es)) && WritableFields(es)
    ensures var q := Feed(r, FieldEvents(es));
            q.state == REGULAR && q.levels == r.levels && q.ops == r.ops + Script(es)
    decreases es, 0
  {
    hide React, Writable, ValueEvents, IsPlain, Utf8.Valid, ElementScript, Feed, Height, Strings.IsStrict;
    EmptyFeed(r);
    if es == [] {
      assert r.ops + Script(es) == r.ops;
    } else {
      var e := es[0];
      KeyIsStrict(e.key);
      KeyReads(r, e.key);
      var r1 := React(r, MapKey(e.key));
      FeedOne(r, MapKey(e.key), ValueEvents(e.value) + FieldEvents(es[1..]));
      FeedConcat(r1, ValueEvents(e.value), FieldEvents(es[1..]));
      assert FieldEvents(es) == [MapKey(e.key)] + (ValueEvents(e.value) + FieldEvents(es[1..]));
      DocumentKey(r1);
      ValueReads(r1, e.key, e.value);
      var r2 := Feed(r1, ValueEvents(e.value));
      assert Element(e.key, e.value) == e;
      FieldsRead(r2, es[1..]);
      assert (r.ops + ElementScript(e)) + Script(es[1..]) == r.ops + Script(es);
    }
  }

  lemma DocumentKey(r: Reader)
    requires r.levels != [] && !Top(r).isArray
    ensures Fixup(r) == r
  {}

  lemma {:induction false} ItemsRead(r: Reader, es: seq<Element>, i: nat)
    requires InArray(r, i, Tallest(es)) && WritableItems(es, i)
    ensures var q := Feed(r, ItemEvents(es));
            q.state == REGULAR && |q.levels| == |r.levels| && q.levels[..|r.levels| - 1] == r.levels[..|r.levels| - 1]
            && Top(q).isArray && q.ops == r.ops + Script(es)
    decreases es, 0
  {
    hide React, Writable, ValueEvents, Decimal, ElementScript, Feed, Height;
    EmptyFeed(r);
    if es == [] {
      assert r.ops + Script(es) == r.ops;
    } else {
      var e := es[0];
      FeedConcat(r, ValueEvents(e.value), ItemEvents(es[1..]));
      ArrayKey(r);
      ValueReads(r, e.key, e.value);
      var r2 := Feed(r, ValueEvents(e.value));
      assert Element(e.key, e.value) == e;
      ItemsRead(r2, es[1..], i + 1);
      assert (r.ops + ElementScript(e)) + Script(es[1..]) == r.ops + Script(es);
    }
  }

  lemma ArrayKey(r: Reader)
    requires Ready(r) && Top(r).isArray
    ensures Fixup(r) == SetTop(r, Top(r).(i := Top(r).i + 1)).(key := Some(Decimal(Top(r).i)))
    ensures 0 !in Decimal(Top(r).i)
  {
    hide Dec.Digits, DigitBytes;
  }

  /** A value read under some key: the builder is called as `ElementScript` says, and the reader is ready for more. */
  lemma {:induction false} ValueReads(r: Reader, key: CString, v: Value)
    requires Expects(r, key) && Writable(v) && |r.levels| + Height(v) <= STACK_MAX
    ensures Reads(r, Feed(r, ValueEvents(v)), key, v)
    decreases v
  {
    match v {
      case Document(fields) => DocumentReads(r, key, fields);
      case Array(items) => ArrayReads(r, key, items);
      case _ => ScalarReads(r, key, v);
    }
  }

  lemma {:induction false} DocumentReads(r: Reader, key: CString, fields: seq<Element>)
    requires Expects(r, key) && WritableFields(fields) && |r.levels| + 1 + Tallest(fields) <= STACK_MAX
    ensures Reads(r, Feed(r, ValueEvents(Document(fields))), key, Document(fields))
    decreases fields, 1
  {
    hide React, Feed, ValueEvents, FieldEvents, Fixup, IsPlain, Utf8.Valid, Script, ElementScript, Tallest;
    if fields == [] {
      EmptyDocumentReads(r, key);
      return;
    }
    var inside := Fixup(r).(levels := Fixup(r).levels + [Level(false, 0, false, false)], ops := r.ops + [Begin(key, false)]);
    StartsMap(r, key);
    NestedScripts(key, fields);
    MapEvents(fields);
    var inner := FieldEvents(fields);
    FeedOne(r, StartMap, inner + [EndMap]);
    var r1 := React(r, StartMap);
    FeedConcat(r1, inner, [EndMap]);
    KeyIsStrict(fields[0].key);
    FirstKeyReads(r, key, fields[0].key);
    FirstFeed(r1, inside, fields);
    FieldsRead(inside, fields);
    var q := Feed(inside, inner);
    LastEvent(q, EndMap);
    ClosesDocument(q);
    assert q.levels[..|q.levels| - 1] == Fixup(r).levels;
    Regroup(r.ops, [Begin(key, false)], Script(fields), [End]);
  }

  lemma EmptyDocumentReads(r: Reader, key: CString)
    requires Expects(r, key) && |r.levels| < STACK_MAX
    ensures Reads(r, Feed(r, ValueEvents(Document([]))), key, Document([]))
  {
    hide React, Feed, ValueEvents, FieldEvents, Fixup, Script, ElementScript, Tallest;
    StartsMap(r, key);
    NestedScripts(key, []);
    MapEvents([]);
    NoFields();
    var r1 := React(r, StartMap);
    assert [] + [EndMap] == [EndMap];
    FeedOne(r, StartMap, [EndMap]);
    LastEvent(r1, EndMap);
    EmptyDocument(Fixup(r), key);
  }

  lemma NestedScripts(key: CString, es: seq<Element>)
    ensures ElementScript(Element(key, Document(es))) == [Begin(key, false)] + Script(es) + [End]
    ensures ElementScript(Element(key, Array(es))) == [Begin(key, true)] + Script(es) + [End]
    ensures es == [] ==> Script(es) == [] && Tallest(es) == 0
  {}

  lemma Regroup(a: seq<Op>, b: seq<Op>, c: seq<Op>, d: seq<Op>)
    ensures ((a + b) + c) + d == a + (b + c + d)
  {}

  lemma MapEvents(fields: seq<Element>)
    ensures ValueEvents(Document(fields)) == [StartMap] + (FieldEvents(fields) + [EndMap])
  {}

  lemma NoFields()
    ensures FieldEvents([]) == []
  {}

  lemma EmptyFeed(r: Reader)
    ensures Feed(r, []) == r
  {}

  lemma EmptyDocument(r: Reader, key: CString)
    requires r.levels != [] && |r.levels| < STACK_MAX && r.key.Some? && r.key.value == key && r.state == REGULAR
    ensures React(r.(state := IN_START_MAP), EndMap) == r.(ops := r.ops + ([Begin(key, false)] + [] + [End]))
  {
    var inside := r.levels + [Level(false, 0, false, false)];
    assert inside[..|inside| - 1] == r.levels;
    assert (r.ops + [Begin(key, false)]) + [End] == r.ops + ([Begin(key, false)] + [] + [End]);
  }

  lemma ClosesDocument(q: Reader)
    requires InDocument(q, 0) && |q.levels| > 1
    ensures React(q, EndMap) == q.(levels := q.levels[..|q.levels| - 1], ops := q.ops + [End])
  {}

  /** The first key does in the opening state what it does in the opened document. */
  lemma FirstFeed(r1: Reader, inside: Reader, fields: seq<Element>)
    requires fields != [] && r1.state == IN_START_MAP && InDocument(inside, 0) && IsPlain(fields[0].key) && Utf8.Valid(fields[0].key, true)
    requires React(r1, MapKey(fields[0].key)) == inside.(key := Some(fields[0].key))
    ensures Feed(r1, FieldEvents(fields)) == Feed(inside, FieldEvents(fields))
  {
    var m, rest := MapKey(fields[0].key), ValueEvents(fields[0].value) + FieldEvents(fields[1..]);
    KeyReads(inside, fields[0].key);
    assert FieldEvents(fields) == [m] + rest;
    hide React, Feed, FieldEvents, ValueEvents;
    FeedOne(r1, m, rest);
    FeedOne(inside, m, rest);
  }

  lemma {:induction false} ArrayReads(r: Reader, key: CString, items: seq<Element>)
    requires Expects(r, key) && WritableItems(items, 0) && |r.levels| + 1 + Tallest(items) <= STACK_MAX
    ensures Reads(r, Feed(r, ValueEvents(Array(items))), key, Array(items))
    decreases items, 1
  {
    StartsMap(r, key);
    var inside := Fixup(r).(levels := Fixup(r).levels + [Level(true, 0, false, false)], ops := r.ops + [Begin(key, true)]);
    StartsArray(r, key);
    NestedScripts(key, items);
    hide React, Feed, ValueEvents, ItemEvents, Fixup, Script, ElementScript, Tallest, WritableItems;
    ArrayEvents(items);
    var inner := ItemEvents(items);
    FeedOne(r, StartArray, inner + [EndArray]);
    FeedConcat(inside, inner, [EndArray]);
    ItemsRead(inside, items, 0);
    var q := Feed(inside, inner);
    LastEvent(q, EndArray);
    ClosesArray(q);
    assert inside.levels[..|inside.levels| - 1] == Fixup(r).levels;
    Regroup(r.ops, [Begin(key, true)], Script(items), [End]);
  }

  lemma ArrayEvents(items: seq<Element>)
    ensures ValueEvents(Array(items)) == [StartArray] + (ItemEvents(items) + [EndArray])
  {}

  lemma StartsArray(r: Reader, key: CString)
    requires Expects(r, key) && |r.levels| < STACK_MAX
    ensures React(r, StartArray) == Fixup(r).(levels := Fixup(r).levels + [Level(true, 0, false, false)], ops := r.ops + [Begin(key, true)])
  {}

  lemma ClosesArray(q: Reader)
    requires Ready(q) && Top(q).isArray && |q.levels| > 1
    ensures React(q, EndArray) == q.(levels := q.levels[..|q.levels| - 1], ops := q.ops + [End])
  {}

  /** The events of a whole document. */
  function DocumentEvents(es: seq<Element>): seq<Event> { [StartMap] + FieldEvents(es) + [EndMap] }

  /**
   The round trip: from the text the canonical writer gives for a tree, a new reader ends in `DONE` with
   nothing open, having made exactly the builder calls that spell out the tree.
   */
  lemma DocumentRoundTrip(es: seq<Element>)
    requires WritableFields(es) && Tallest(es) < STACK_MAX
    ensures var q := Feed(START, DocumentEvents(es));
            q.state == DONE && q.levels == [] && q.ops == Script(es)
  {
    hide React, Feed, FieldEvents, IsPlain, Utf8.Valid;
    var r1 := START.(state := IN_START_MAP);
    var inside := START.(levels := [Level(false, 0, false, false)]);
    StartsRoot();
    var inner := FieldEvents(es);
    assert DocumentEvents(es) == [StartMap] + (inner + [EndMap]);
    FeedOne(START, StartMap, inner + [EndMap]);
    FeedConcat(r1, inner, [EndMap]);
    if es == [] {
      NoFields();
      EmptyFeed(r1);
      LastEvent(r1, EndMap);
      EmptyRoot();
    } else {
      KeyIsStrict(es[0].key);
      RootKey(es[0].key);
      FirstFeed(r1, inside, es);
      FieldsRead(inside, es);
      var q := Feed(inside, inner);
      LastEvent(q, EndMap);
      ClosesRoot(q);
      assert [] + Script(es) == Script(es);
    }
  }

  lemma StartsRoot()
    ensures React(START, StartMap) == START.(state := IN_START_MAP)
  {}

  lemma EmptyRoot()
    ensures var q := React(START.(state := IN_START_MAP), EndMap);
            q.state == DONE && q.levels == [] && q.ops == []
  {}

  lemma RootKey(key: CString)
    requires IsPlain(key) && Utf8.Valid(key, true)
    ensures React(START.(state := IN_START_MAP), MapKey(key)) == START.(levels := [Level(false, 0, false, false)], key := Some(key))
  {
    hide KeywordOf, Utf8.Valid, UpToNul, TypeKey;
  }

  lemma ClosesRoot(q: Reader)
    requires InDocument(q, 0) && |q.levels| == 1
    ensures var r := React(q, EndMap);
            r.state == DONE && r.levels == [] && r.ops == q.ops
  {}
}
