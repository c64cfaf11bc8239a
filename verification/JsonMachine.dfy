/** The Extended JSON reader of `bson-json.c`: the callbacks the lexer drives, and the builder calls they make. */
module JsonMachine {
  import opened Bytes
  import opened BsonTree
  import opened BuilderRuns
  import opened RegexOptions
  import Base64
  import Dec = DecimalDigits
  import Bits = DecimalBits
  import Range = DecimalRange
  import Utf8

  const STACK_MAX: nat := 100

  datatype Option<T> = None | Some(value: T)

  /** What the lexer's push and pop callbacks turn into; texts are unescaped, and `BadText` is one that cannot be. */
  datatype Event =
    | StartMap | EndMap | StartArray | EndArray
    | MapKey(text: seq<byte>)
    | StringRead(text: seq<byte>)
    | IntegerRead(magnitude: uint64, negative: bool)
    | BooleanRead(b: bool)
    | NullRead
    | DoubleRead
    | BadText

  /**
   `UNMODELLED` is where the model stops: at `$code`, `$scope`, `$dbPointer`, doubles and ISO 8601 dates; at a
   decimal text on which `DecimalParser.FromString` is silent; at base64 text that is not ASCII and a subtype that
   starts like `0x`; at an append without a key or under one that holds a NUL; where a wrapper changes its type
   half way, so that the source reads one member of a union as another; and where a brace closes an array.
   */
  datatype ReadState =
    | REGULAR | DONE | ERROR | IN_START_MAP | IN_BSON_TYPE | DATE_NUMBERLONG | DATE_ENDMAP
    | TIMESTAMP_STARTMAP | TIMESTAMP_VALUES | TIMESTAMP_ENDMAP | REGEX_STARTMAP | REGEX_VALUES | REGEX_ENDMAP
    | BINARY_VALUES | BINARY_ENDMAP | UNMODELLED

  /** The keys with a meaning. */
  datatype Keyword =
    | REGULAR_EXPRESSION | REGEX | OPTIONS | CODE | SCOPE | OID | BINARY | TYPE | DATE | UNDEFINED | MAXKEY | MINKEY
    | TIMESTAMP | INT32 | INT64 | DOUBLE | DECIMAL128 | DBPOINTER | SYMBOL
    | REF | ID | DB | T | I | PATTERN | PLAIN_OPTIONS | BASE64 | SUBTYPE | OTHER

  function Name(k: Keyword): string {
    match k
    case REGULAR_EXPRESSION => "$regularExpression"
    case REGEX => "$regex"
    case OPTIONS => "$options"
    case CODE => "$code"
    case SCOPE => "$scope"
    case OID => "$oid"
    case BINARY => "$binary"
    case TYPE => "$type"
    case DATE => "$date"
    case UNDEFINED => "$undefined"
    case MAXKEY => "$maxKey"
    case MINKEY => "$minKey"
    case TIMESTAMP => "$timestamp"
    case INT32 => "$numberInt"
    case INT64 => "$numberLong"
    case DOUBLE => "$numberDouble"
    case DECIMAL128 => "$numberDecimal"
    case DBPOINTER => "$dbPointer"
    case SYMBOL => "$symbol"
    case REF => "$ref"
    case ID => "$id"
    case DB => "$db"
    case T => "t"
    case I => "i"
    case PATTERN => "pattern"
    case PLAIN_OPTIONS => "options"
    case BASE64 => "base64"
    case SUBTYPE => "subType"
    case OTHER => ""
  }

  /** The bytes of a text of seven-bit characters. */
  function Ascii(s: string): (b: seq<byte>)
    ensures |b| == |s| && forall i | 0 <= i < |s| :: b[i] == s[i] as int % 128
  {
    if s == "" then [] else Ascii(s[..|s| - 1]) + [s[|s| - 1] as int % 128]
  }

  function Literal(k: Keyword): seq<byte> { Ascii(Name(k)) }

  const KEYWORDS: seq<Keyword> :=
    [REGULAR_EXPRESSION, REGEX, OPTIONS, CODE, SCOPE, OID, BINARY, TYPE, DATE, UNDEFINED, MAXKEY, MINKEY, TIMESTAMP, INT32,
     INT64, DOUBLE, DECIMAL128, DBPOINTER, SYMBOL, REF, ID, DB, T, I, PATTERN, PLAIN_OPTIONS, BASE64, SUBTYPE]

  function KeywordFrom(text: seq<byte>, i: nat): Keyword
    requires i <= |KEYWORDS|
    decreases |KEYWORDS| - i
  {
    if i == |KEYWORDS| then OTHER
    else if text == Literal(KEYWORDS[i]) then KEYWORDS[i]
    else KeywordFrom(text, i + 1)
  }

  function KeywordOf(text: seq<byte>): Keyword { KeywordFrom(text, 0) }

  /** `_is_known_key`. */
  predicate IsKnown(k: Keyword) {
    !(k.REF? || k.ID? || k.DB? || k.T? || k.I? || k.PATTERN? || k.PLAIN_OPTIONS? || k.BASE64? || k.SUBTYPE? || k.OTHER?)
  }

  function UpToNul(text: seq<byte>): CString {
    if text == [] || text[0] == 0 then [] else [text[0]] + UpToNul(text[1..])
  }

  /** One frame of the reader's stack. */
  datatype Level = Level(isArray: bool, i: nat, hasRef: bool, hasId: bool)

  /** `bson_type_data` and the two text buffers; the source overlays these fields in a union. */
  datatype Data = Data(hasPattern: bool, hasOptions: bool, regexLegacy: bool, oid: Bytes12, hasBinary: bool, hasSubtype: bool,
                       subtype: byte, binaryLegacy: bool, date: int64, hasT: bool, hasI: bool, t: uint32, i: uint32,
                       int32Value: int32, int64Value: int64, decimal: Bits.Decimal128)

  const NO_OID: Bytes12 := [0, 0, 0, 0, 0, 0, 0, 0, 0, 0, 0, 0]
  const NO_DATA: Data :=
    Data(false, false, false, NO_OID, false, false, 0, false, 0, false, false, 0, 0, 0, 0, Bits.Decimal128(0, 0))

  /** `bson_json_reader_bson_t`; `n` is the number of levels less one, and `ops` the builder calls made. */
  datatype Reader = Reader(levels: seq<Level>, key: Option<seq<byte>>, state: ReadState, field: Keyword, bsonType: byte,
                           buf0: seq<byte>, buf1: seq<byte>, data: Data, ops: seq<Op>)

  function Fail(r: Reader): Reader { r.(state := ERROR) }

  function Unmodelled(r: Reader): Reader { r.(state := UNMODELLED) }

  function Top(r: Reader): Level
    requires r.levels != []
  {
    r.levels[|r.levels| - 1]
  }

  function SetTop(r: Reader, l: Level): Reader
    requires r.levels != []
  {
    r.(levels := r.levels[|r.levels| - 1 := l])
  }

  /** `bson_uint32_to_string`, and `%d` for the writer. */
  function Decimal(n: int): seq<byte> {
    if n < 0 then [0x2d] + DigitBytes(Dec.Digits(-n)) else DigitBytes(Dec.Digits(n))
  }

  function DigitBytes(ds: seq<Dec.digit>): (b: seq<byte>)
    ensures |b| == |ds| && forall i | 0 <= i < |ds| :: b[i] == 0x30 + ds[i] as int
  {
    if ds == [] then [] else DigitBytes(ds[..|ds| - 1]) + [0x30 + ds[|ds| - 1] as int]
  }

  /** `_bson_json_read_fixup_key`: an array element's key is its index. */
  function Fixup(r: Reader): Reader {
    if r.levels != [] && Top(r).isArray && r.state == REGULAR then
      SetTop(r, Top(r).(i := Top(r).i + 1)).(key := Some(Decimal(Top(r).i)))
    else r
  }

  /** A `bson_append_*` on the innermost open document. */
  function Append(r: Reader, v: Value): Reader {
    if r.levels == [] || r.key.None? || 0 in r.key.value then Unmodelled(r)
    else r.(ops := r.ops + [Put(Element(r.key.value, v))])
  }

  /** `BASIC_CB_BAIL_IF_NOT_NORMAL`, then the append. */
  function AppendIfNormal(r: Reader, v: Value): Reader {
    if r.state != REGULAR || r.key.None? then Fail(r) else Append(r, v)
  }

  datatype Pushed = Full | Pushed(reader: Reader)

  /** `STACK_PUSH_DOC` and `STACK_PUSH_ARRAY`: past the limit the caller just returns. */
  function Push(r: Reader, isArray: bool): Pushed {
    if |r.levels| >= STACK_MAX then Full
    else
      var r1 := r.(levels := r.levels + [Level(isArray, 0, false, false)]);
      if r.levels == [] then Pushed(r1)
      else if r.key.None? || 0 in r.key.value then Pushed(Unmodelled(r1))
      else Pushed(r1.(ops := r.ops + [Begin(r.key.value, isArray)]))
  }

  /** `STACK_POP_DOC` and `STACK_POP_ARRAY`, and `DONE` when nothing is left open. */
  function Pop(r: Reader, isArray: bool): Reader {
    if r.levels == [] || Top(r).isArray != isArray then r
    else
      var r1 := r.(levels := r.levels[..|r.levels| - 1], ops := if |r.levels| > 1 then r.ops + [End] else r.ops);
      if r1.levels == [] then r1.(state := DONE) else r1
  }

  function OnNull(r0: Reader): Reader { AppendIfNormal(Fixup(r0), Null) }

  function OnBoolean(r0: Reader, b: bool): Reader {
    var r := Fixup(r0);
    if r.state == IN_BSON_TYPE && r.field == UNDEFINED then r else AppendIfNormal(r, Boolean(b))
  }

  /** The value of a double is not modelled, but where it may not stand it is an error whatever it is. */
  function OnDouble(r0: Reader): Reader {
    var r := Fixup(r0);
    if r.state != REGULAR || r.key.None? then Fail(r) else Unmodelled(r)
  }

  function OnInteger(r0: Reader, n: uint64, negative: bool): Reader {
    var r := Fixup(r0);
    if n > (if negative then TWO_63 else TWO_63 - 1) then Fail(r)
    else
      var value: int64 := if negative then -(n as int) else n;
      if r.state == REGULAR then
        AppendIfNormal(r, if n <= INT32_MAX || (negative && n <= INT32_MAX + 1) then Int32(value) else Int64(value))
      else if r.state == IN_BSON_TYPE || r.state == TIMESTAMP_VALUES then
        match r.field
        case DATE => r.(data := r.data.(date := value))
        case T => if negative then Fail(r) else r.(data := r.data.(hasT := true, t := n % TWO_32))
        case I => if negative then Fail(r) else r.(data := r.data.(hasI := true, i := n % TWO_32))
        case MINKEY => if negative || n != 1 then Fail(r) else r
        case MAXKEY => if negative || n != 1 then Fail(r) else r
        case _ => Fail(r)
      else Fail(r)
  }

  predicate IsSpace(c: byte) { c == 0x20 || 0x09 <= c <= 0x0d }

  function SkipSpace(s: seq<byte>): (r: seq<byte>)
    ensures |r| <= |s|
  {
    if s != [] && IsSpace(s[0]) then SkipSpace(s[1..]) else s
  }

  predicate AllDigits(s: seq<byte>) { forall i | 0 <= i < |s| :: 0x30 <= s[i] <= 0x39 }

  function DigitsOf(s: seq<byte>): (ds: seq<Dec.digit>)
    requires AllDigits(s)
    ensures |ds| == |s| && forall i | 0 <= i < |s| :: ds[i] == s[i] as int - 0x30
  {
    if s == [] then [] else DigitsOf(s[..|s| - 1]) + [s[|s| - 1] as int - 0x30]
  }

  /** `_bson_json_read_int64_or_set_error`: a whole decimal `int64_t`, after optional space and sign. */
  function ParseInt64(text: seq<byte>): Option<int64> {
    var s := SkipSpace(text);
    FromDigits(s != [] && s[0] == 0x2d, if s != [] && (s[0] == 0x2d || s[0] == 0x2b) then s[1..] else s)
  }

  function FromDigits(negative: bool, ds: seq<byte>): Option<int64> {
    if ds == [] || !AllDigits(ds) then None
    else
      var n: int := Dec.Value(DigitsOf(ds));
      if negative then if n > TWO_63 then None else Some(-n)
      else if n >= TWO_63 then None else Some(n)
  }

  function HexValue(c: byte): int {
    if 0x30 <= c <= 0x39 then c as int - 0x30
    else if 0x61 <= c <= 0x66 then c as int - 0x61 + 10
    else if 0x41 <= c <= 0x46 then c as int - 0x41 + 10
    else -1
  }

  /** `bson_oid_parse_hex_char`: other characters count as zero. */
  function OidDigit(c: byte): (d: int)
    ensures 0 <= d < 16
  {
    if HexValue(c) < 0 then 0 else HexValue(c)
  }

  function OidFromText(text: seq<byte>): (b: seq<byte>)
    requires |text| % 2 == 0
    ensures |b| == |text| / 2
  {
    if text == [] then []
    else OidFromText(text[..|text| - 2]) + [OidDigit(text[|text| - 2]) * 16 + OidDigit(text[|text| - 1])]
  }

  /** `Unclear` is a prefix `0x` cut off by the width, on which C libraries differ. */
  datatype HexScan = NoHex | Scanned(value: byte) | Unclear

  /** The low byte of what `sscanf` stores for `%02x`: after blanks, two digits or a sign and one digit. */
  function ScanHex(text: seq<byte>): HexScan {
    var s := SkipSpace(text);
    if s == [] then NoHex
    else if s[0] == 0x2b || s[0] == 0x2d then
      if |s| == 1 || HexValue(s[1]) < 0 then NoHex
      else Scanned(if s[0] == 0x2d then (256 - HexValue(s[1])) % 256 else HexValue(s[1]))
    else if HexValue(s[0]) < 0 then NoHex
    else if |s| > 1 && s[0] == 0x30 && (s[1] == 0x58 || s[1] == 0x78) then Unclear
    else if |s| == 1 || HexValue(s[1]) < 0 then Scanned(HexValue(s[0]))
    else Scanned(HexValue(s[0]) * 16 + HexValue(s[1]))
  }

  /** The base64 text of a binary value. */
  function BinaryData(r: Reader, text: CString): Reader {
    if !Base64.Ascii(text) then Unmodelled(r)
    else
      var r1 := r.(data := r.data.(hasBinary := true));
      if Base64.Length(text) < 0 then Fail(r1) else r1.(buf0 := Base64.Decode(Base64.ScanDigits(text, []).digits).bytes)
  }

  /** Its subtype, or the operand of the query operator `$type`. */
  function BinarySubtype(r: Reader, whole: seq<byte>): Reader {
    var n := ScanHex(UpToNul(whole));
    var r1 := r.(data := r.data.(hasSubtype := true));
    if n.Scanned? then r1.(data := r1.data.(subtype := n.value))
    else if n.Unclear? then Unmodelled(r1)
    else if !r.data.binaryLegacy || r.data.hasBinary then Fail(r1)
    else
      match Push(r1.(state := REGULAR), false)
      case Full => r1.(state := REGULAR)
      case Pushed(r2) => if r2.state != REGULAR then r2 else Append(r2.(key := Some(Literal(TYPE))), Utf8(whole)).(key := r2.key)
  }

  /** `_bson_json_parse_binary_elem`. */
  function BinaryElem(r: Reader, whole: seq<byte>): Reader {
    if r.field == BINARY then BinaryData(r, UpToNul(whole)) else if r.field == TYPE then BinarySubtype(r, whole) else r
  }

  function CharsOf(text: seq<byte>): string {
    if text == [] then "" else CharsOf(text[..|text| - 1]) + [text[|text| - 1] as char]
  }

  /** A number written as a string. */
  function NumberString(r: Reader, text: seq<byte>): Reader {
    match r.field
    case INT32 =>
      var n := ParseInt64(text);
      if n.None? || !(-INT32_MAX - 1 <= n.value <= INT32_MAX) || r.state != IN_BSON_TYPE then Fail(r)
      else r.(data := r.data.(int32Value := n.value))
    case INT64 =>
      var n := ParseInt64(text);
      if n.None? then Fail(r)
      else if r.state == IN_BSON_TYPE then r.(data := r.data.(int64Value := n.value))
      else if r.state == DATE_NUMBERLONG then r.(data := r.data.(date := n.value))
      else Fail(r)
    case DECIMAL128 =>
      (match Range.Outcome(CharsOf(UpToNul(text)))
       case Unspecified => Unmodelled(r)
       case Invalid => if r.state == IN_BSON_TYPE then r.(data := r.data.(decimal := Bits.NAN)) else Fail(r)
       case Accepted(d) => if r.state == IN_BSON_TYPE then r.(data := r.data.(decimal := d)) else Fail(r))
    case _ => Fail(r)
  }

  /** The text of `$ref` or `$db`, after which the document goes on as usual. */
  function DbRefText(r: Reader, text: seq<byte>): Reader {
    var q := Append(r, Utf8(text));
    if q.state == UNMODELLED then q else q.(state := REGULAR)
  }

  /** The switch on `bson_state` for a string inside a wrapper. */
  function TypedString(r: Reader, text: seq<byte>): Reader {
    match r.field
    case REGEX => r.(data := r.data.(regexLegacy := true, hasPattern := true), buf0 := text)
    case PATTERN => r.(data := r.data.(hasPattern := true), buf0 := text)
    case OPTIONS => r.(data := r.data.(regexLegacy := true, hasOptions := true), buf1 := text)
    case PLAIN_OPTIONS => r.(data := r.data.(hasOptions := true), buf1 := text)
    case OID => if |text| != 24 then Fail(r) else r.(data := r.data.(oid := OidFromText(text)))
    case BINARY => BinaryElem(r.(data := r.data.(binaryLegacy := true)), text)
    case TYPE => BinaryElem(r.(data := r.data.(binaryLegacy := true)), text)
    case INT32 => NumberString(r, text)
    case INT64 => NumberString(r, text)
    case DECIMAL128 => NumberString(r, text)
    case SYMBOL => Append(r, Symbol(text))
    case REF => DbRefText(r, text)
    case DB => DbRefText(r, text)
    case DOUBLE => Unmodelled(r)
    case DATE => Unmodelled(r)
    case CODE => Unmodelled(r)
    case _ => Fail(r)
  }

  ghost function OnString(r0: Reader, text: seq<byte>): Reader {
    var r := Fixup(r0);
    if !Utf8.Valid(text, true) then Fail(r)
    else if r.state == REGULAR then AppendIfNormal(r, Utf8(text))
    else if r.state == BINARY_VALUES then BinaryElem(r, text)
    else if r.state in [IN_BSON_TYPE, TIMESTAMP_VALUES, REGEX_VALUES, DATE_NUMBERLONG] then TypedString(r, text)
    else Fail(r)
  }

  function OnStartMap(r0: Reader): Reader {
    var r := Fixup(r0);
    match r.state
    case IN_BSON_TYPE =>
      if r.field == DATE then r.(state := DATE_NUMBERLONG)
      else if r.field == BINARY then r.(state := BINARY_VALUES)
      else if r.field == TYPE then
        match Push(r.(state := IN_START_MAP), false)
        case Full => r.(state := IN_START_MAP)
        case Pushed(r1) => r1.(key := Some(Literal(TYPE)))
      else r
    case TIMESTAMP_STARTMAP => r.(state := TIMESTAMP_VALUES)
    case REGEX_STARTMAP => r.(state := REGEX_VALUES)
    case _ => r.(state := IN_START_MAP)
  }

  /** `HANDLE_OPTION`. */
  function Option1(r: Reader, tag: byte, field: Keyword): Reader {
    if r.bsonType != 0 && r.bsonType != tag then Fail(r) else r.(bsonType := tag, field := field)
  }

  /** These two keys replace the type without a test; what was collected for another type stays in the union. */
  function Retyped(r: Reader, tag: byte, state: ReadState): Reader {
    if r.bsonType != 0 && r.bsonType != tag then Unmodelled(r) else r.(bsonType := tag, state := state)
  }

  /** The keys inside a `{"$...": ...}` wrapper. */
  function TypeKey(r: Reader, k: Keyword): Reader {
    match k
    case REGEX => Option1(r, 0x0b, k)
    case OPTIONS => Option1(r, 0x0b, k)
    case OID => Option1(r, 0x07, k)
    case BINARY => Option1(r, 0x05, k)
    case TYPE => Option1(r, 0x05, k)
    case DATE => Option1(r, 0x09, k)
    case UNDEFINED => Option1(r, 0x06, k)
    case MINKEY => Option1(r, 0xff, k)
    case MAXKEY => Option1(r, 0x7f, k)
    case INT32 => Option1(r, 0x10, k)
    case INT64 => Option1(r, 0x12, k)
    case DOUBLE => Option1(r, 0x01, k)
    case SYMBOL => Option1(r, 0x0e, k)
    case DECIMAL128 => Option1(r, 0x13, k)
    case TIMESTAMP => Retyped(r, 0x11, TIMESTAMP_STARTMAP)
    case REGULAR_EXPRESSION => Retyped(r, 0x0b, REGEX_STARTMAP)
    case DBPOINTER => Unmodelled(r)
    case CODE => Unmodelled(r)
    case SCOPE => Unmodelled(r)
    case _ => Fail(r)
  }

  /** Five of the wrapper keys are compared as C strings. */
  function WrapperKey(text: seq<byte>): Keyword {
    var k := KeywordOf(UpToNul(text));
    if k.TIMESTAMP? || k.REGULAR_EXPRESSION? || k.DBPOINTER? || k.CODE? || k.SCOPE? then k else KeywordOf(text)
  }

  /** A key of an ordinary document, with the marks that make it a DBRef. */
  function PlainKey(r: Reader, text: seq<byte>): Reader {
    var r1 := r.(key := Some(text));
    if |r.levels| <= 1 then r1
    else
      match KeywordOf(UpToNul(text))
      case REF => SetTop(r1, Top(r1).(hasRef := true)).(state := IN_BSON_TYPE, field := REF)
      case ID => SetTop(r1, Top(r1).(hasId := true))
      case DB => r1.(state := IN_BSON_TYPE, field := DB)
      case _ => r1
  }

  ghost function OnMapKey(r: Reader, text: seq<byte>): Reader {
    var k := KeywordOf(text);
    if !Utf8.Valid(text, true) then Fail(r)
    else
      match r.state
      case IN_START_MAP =>
        if IsKnown(k) && r.levels != [] then TypeKey(r.(state := IN_BSON_TYPE, bsonType := 0, data := NO_DATA), k)
        else (match Push(r.(state := REGULAR), false)
              case Full => r.(state := REGULAR)
              case Pushed(r1) => if r1.state != REGULAR then r1 else PlainKey(r1, text))
      case IN_BSON_TYPE => TypeKey(r, WrapperKey(text))
      case DATE_NUMBERLONG => if k == INT64 then Option1(r, 0x09, INT64) else Fail(r)
      case TIMESTAMP_VALUES => if k == T || k == I then Option1(r, 0x11, k) else Fail(r)
      case REGEX_VALUES => if k == PATTERN || k == PLAIN_OPTIONS then Option1(r, 0x0b, k) else Fail(r)
      case BINARY_VALUES =>
        if k == BASE64 then Option1(r, 0x05, BINARY) else if k == SUBTYPE then Option1(r, 0x05, TYPE) else Fail(r)
      case _ => PlainKey(r, text)
  }

  function AppendRegex(r: Reader): Reader {
    if !r.data.hasPattern || !r.data.hasOptions then Fail(r)
    else Append(r, Regex(UpToNul(r.buf0), SortedOptions(UpToNul(r.buf1), REGEX_OPTIONS)))
  }

  function AppendBinary(r: Reader): Reader {
    if !r.data.hasBinary || !r.data.hasSubtype then Fail(r) else Append(r, Binary(r.data.subtype, r.buf0))
  }

  function AppendTimestamp(r: Reader): Reader {
    if !r.data.hasT || !r.data.hasI then Fail(r) else Append(r, Timestamp(r.data.t, r.data.i))
  }

  /** The end of a wrapper appends the value it has collected. */
  function AppendTyped(r: Reader): Reader {
    match r.bsonType
    case 0x0b => AppendRegex(r)
    case 0x07 => Append(r, ObjectId(r.data.oid))
    case 0x05 => AppendBinary(r)
    case 0x09 => Append(r, DateTime(r.data.date))
    case 0x06 => Append(r, Undefined)
    case 0xff => Append(r, MinKey)
    case 0x7f => Append(r, MaxKey)
    case 0x10 => Append(r, Int32(r.data.int32Value))
    case 0x12 => Append(r, Int64(r.data.int64Value))
    case 0x13 => Append(r, Value.Decimal128(r.data.decimal.low, r.data.decimal.high))
    case 0x0e => r
    case 0x01 => Unmodelled(r)
    case _ => Fail(r)
  }

  /** Of an array the source would compare marks that belong to a document closed earlier. */
  function EndDocument(r: Reader): Reader {
    if r.levels == [] || Top(r).isArray then Unmodelled(r)
    else
      var mismatch := Top(r).hasId != Top(r).hasRef;
      var popped := Pop(r, false);
      if mismatch && popped.state != DONE then Fail(popped) else popped
  }

  function OnEndMap(r: Reader): Reader {
    match r.state
    case IN_START_MAP =>
      (match Push(r.(state := REGULAR), false)
       case Full => r.(state := REGULAR)
       case Pushed(r1) => if r1.state != REGULAR then r1 else EndDocument(r1))
    case REGULAR => EndDocument(r)
    case IN_BSON_TYPE => if r.key.None? then Fail(r) else AppendTyped(r.(state := REGULAR))
    case TIMESTAMP_VALUES => if r.key.None? then Fail(r) else AppendTimestamp(r.(state := TIMESTAMP_ENDMAP))
    case REGEX_VALUES => if r.key.None? then Fail(r) else AppendRegex(r.(state := REGEX_ENDMAP))
    case BINARY_VALUES => if r.key.None? then Fail(r) else AppendBinary(r.(state := BINARY_ENDMAP))
    case DATE_NUMBERLONG => if r.key.None? then Fail(r) else Append(r.(state := DATE_ENDMAP), DateTime(r.data.date))
    case TIMESTAMP_ENDMAP => r.(state := REGULAR)
    case REGEX_ENDMAP => r.(state := REGULAR)
    case BINARY_ENDMAP => r.(state := REGULAR)
    case DATE_ENDMAP => r.(state := REGULAR)
    case _ => Fail(r)
  }

  function OnStartArray(r: Reader): Reader {
    if r.state != REGULAR then Fail(r)
    else
      var r1 := Fixup(r);
      match Push(r1, true)
      case Full => r1
      case Pushed(r2) => r2
  }

  function OnEndArray(r: Reader): Reader {
    if r.state != REGULAR then Fail(r) else if r.levels == [] then Unmodelled(r) else Pop(r, true)
  }

  ghost function React(r: Reader, e: Event): Reader {
    match e
    case StartMap => OnStartMap(r)
    case EndMap => OnEndMap(r)
    case StartArray => OnStartArray(r)
    case EndArray => OnEndArray(r)
    case MapKey(text) => OnMapKey(r, text)
    case StringRead(text) => OnString(r, text)
    case IntegerRead(n, negative) => OnInteger(r, n, negative)
    case BooleanRead(b) => OnBoolean(r, b)
    case NullRead => OnNull(r)
    case DoubleRead => OnDouble(r)
    case BadText => Fail(r)
  }

  /** A whole run of events; an error stops the lexer. */
  ghost function Feed(r: Reader, events: seq<Event>): Reader
    decreases |events|
  {
    if events == [] || r.state == ERROR || r.state == UNMODELLED then r else Feed(React(r, events[0]), events[1..])
  }

  /** A new read. */
  const START: Reader := Reader([], None, REGULAR, OTHER, 0, [], [], NO_DATA, [])
}
