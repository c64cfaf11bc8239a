/** `bson_as_canonical_extended_json`: the visitors that append to a growing string, and when they give up. */
module JsonWriter {
  import opened Bytes
  import opened BsonTree
  import opened JsonKeywords
  import opened JsonMachine
  import opened RegexOptions
  import opened JsonRoundTrip
  import opened JsonSyntax
  import opened LexerStep
  import opened JsonString
  import opened JsonText
  import opened JsonPipeline
  import Base64
  import Bits = DecimalBits
  import Print = DecimalPrinter
  import Utf8

  const MAX_RECURSION: nat := 200

  /** Text that needs no escapes is its own escaped form. */
  lemma {:induction false} PlainTextIsEscaped(text: seq<byte>)
    requires IsPlainText(text)
    ensures IsStrict(text) && EscapedText(text) == text
  {
    var ps := PlainPieces(text);
    EscapedOnce(ps);
  }

  lemma {:induction false} PlainPieces(text: seq<byte>) returns (ps: seq<Utf8.Piece>)
    requires IsPlainText(text)
    ensures Strict(ps) && Utf8.Flatten(ps) == text && Escaped(ps) == text
  {
    if text == [] {
      ps := [];
    } else {
      var rest := PlainPieces(text[1..]);
      ps := [Utf8.Scalar(text[0])] + rest;
      assert ps[1..] == rest;
      assert EscapeScalar(text[0]) == [text[0]];
    }
  }

  lemma QuotedPlain(text: seq<byte>)
    requires IsPlainText(text)
    ensures IsStrict(text) && Quoted(text) == [QUOTE] + text + [QUOTE]
  {
    PlainTextIsEscaped(text);
  }

  /** What an unescapable text or key costs: the whole document. */
  lemma {:induction false} CanWriteAllMeans(es: seq<Element>)
    ensures CanWriteAll(es) <==> forall i | 0 <= i < |es| :: CanWrite(es[i].value) && Utf8.Valid(es[i].key, false)
  {
    hide CanWrite, Utf8.Valid;
    if es != [] {
      CanWriteAllMeans(es[1..]);
      assert forall i | 0 < i < |es| :: es[i] == es[1..][i - 1];
    }
  }

  lemma {:induction false} TallestAt(es: seq<Element>, i: nat)
    requires i < |es|
    ensures JsonRoundTrip.Height(es[i].value) <= Tallest(es)
  {
    if i > 0 {
      TallestAt(es[1..], i - 1);
    }
  }

  lemma {:induction false} HaveTextsAt(es: seq<Element>, i: nat)
    requires HaveTexts(es) && i < |es|
    ensures HasText(es[i].value)
  {
    if i > 0 {
      HaveTextsAt(es[1..], i - 1);
    }
  }

  /** Neither a double nor code nor a DBPointer, at any depth. */
  predicate HasText(v: Value)
    decreases v
  {
    match v
    case Document(fields) => HaveTexts(fields)
    case Array(items) => HaveTexts(items)
    case _ => !v.Double? && !v.DbPointer? && !v.Code? && !v.CodeWithScope?
  }

  predicate HaveTexts(es: seq<Element>)
    decreases es
  {
    es == [] || (HasText(es[0].value) && HaveTexts(es[1..]))
  }

  /** The writer's text for a value. */
  ghost function TextOf(v: Value): seq<byte>
    requires CanWrite(v)
  {
    TreeEvents(v);
    Render(Tree(v))
  }

  /** `{ "$...` : */
  function Opened(k: Keyword): seq<byte> { [OPEN_OBJECT, SPACE, QUOTE] + Literal(k) + [QUOTE, SPACE, COLON, SPACE] }

  const CLOSED: seq<byte> := [SPACE, CLOSE_OBJECT]

  lemma WrapperText(k: Keyword, inner: Json)
    requires WellFormed(inner)
    ensures WellFormed(Wrapped(k, inner)) && Render(Wrapped(k, inner)) == Opened(k) + Render(inner) + CLOSED
  {
    hide Literal, WellFormed, Render, RenderMembers, RenderKey, IsStrict;
    WrappedIsWellFormed(k, inner);
    var m := Member(Literal(k), true, inner);
    KeyText(k, true, inner);
    MapText([m]);
    OneMemberText(m);
    OpenedParts(Literal(k), Render(inner));
  }

  lemma OpenedParts(k: seq<byte>, a: seq<byte>)
    ensures [OPEN_OBJECT, SPACE] + (([QUOTE] + k + [QUOTE] + [SPACE] + [COLON, SPACE]) + a)
         == [OPEN_OBJECT, SPACE, QUOTE] + k + [QUOTE, SPACE, COLON, SPACE] + a
  {}

  lemma KeyText(k: Keyword, spaced: bool, value: Json)
    ensures IsStrict(Literal(k))
    ensures RenderKey(Member(Literal(k), spaced, value)) == [QUOTE] + Literal(k) + [QUOTE] + (if spaced then [SPACE] else []) + [COLON, SPACE]
  {
    LiteralIsPlain(k);
    QuotedPlain(Literal(k));
    hide Literal, Quoted, IsPlainText, IsStrict;
  }

  lemma {:induction false} MapText(ms: seq<Member>)
    requires WellFormed(Map(ms, true))
    ensures forall m | m in ms :: IsStrict(m.key) && WellFormed(m.value)
    ensures Render(Map(ms, true)) == [OPEN_OBJECT, SPACE] + RenderMembers(ms) + CLOSED
  {
    hide RenderMembers, IsStrict;
    assert CLOSED == [SPACE] + [CLOSE_OBJECT];
  }

  lemma OneMemberText(m: Member)
    requires IsStrict(m.key) && WellFormed(m.value)
    ensures RenderMembers([m]) == RenderKey(m) + Render(m.value)
  {
    hide RenderKey, Render, IsStrict, WellFormed;
  }

  lemma TwoMemberText(a: Member, b: Member)
    requires IsStrict(a.key) && WellFormed(a.value) && IsStrict(b.key) && WellFormed(b.value)
    ensures RenderMembers([a, b]) == RenderKey(a) + Render(a.value) + ([COMMA, SPACE] + (RenderKey(b) + Render(b.value)))
  {
    OneMemberText(b);
    hide RenderKey, Render, IsStrict, WellFormed;
    assert [a, b][1..] == [b];
  }

  lemma PlainText(text: seq<byte>)
    requires IsPlainText(text)
    ensures WellFormed(Plain(text)) && Render(Plain(text)) == [QUOTE] + text + [QUOTE]
  {
    QuotedPlain(text);
    hide IsStrict, Quoted;
  }

  /** A wrapper around plain text. */
  lemma WrappedPlain(k: Keyword, text: seq<byte>)
    requires IsPlainText(text)
    ensures WellFormed(Wrapped(k, Plain(text)))
    ensures Render(Wrapped(k, Plain(text))) == Opened(k) + ([QUOTE] + text + [QUOTE]) + CLOSED
  {
    PlainText(text);
    WrapperText(k, Plain(text));
    hide Opened, Render, WellFormed, IsPlainText;
  }

  /** Two members, as the writer spaces them. */
  function Both(j: Keyword, gap: seq<byte>, a: seq<byte>, k: Keyword, b: seq<byte>): seq<byte> {
    [OPEN_OBJECT, SPACE, QUOTE] + Literal(j) + [QUOTE] + gap + [COLON, SPACE] + a
    + [COMMA, SPACE, QUOTE] + Literal(k) + [QUOTE, SPACE, COLON, SPACE] + b + CLOSED
  }

  lemma BothText(j: Keyword, spaced: bool, a: Json, k: Keyword, b: Json)
    requires WellFormed(a) && WellFormed(b)
    ensures var t := Map([Member(Literal(j), spaced, a), Member(Literal(k), true, b)], true);
            WellFormed(t) && Render(t) == Both(j, if spaced then [SPACE] else [], Render(a), k, Render(b))
  {
    var x, y := Member(Literal(j), spaced, a), Member(Literal(k), true, b);
    KeyText(j, spaced, a);
    KeyText(k, true, b);
    TwoMembers(x, y);
    MapText([x, y]);
    TwoMemberText(x, y);
    hide Literal, WellFormed, Render, RenderMembers, RenderKey, IsStrict;
    BothParts(Literal(j), if spaced then [SPACE] else [], Render(a), Literal(k), Render(b));
  }

  lemma BothParts(j: seq<byte>, gap: seq<byte>, a: seq<byte>, k: seq<byte>, b: seq<byte>)
    ensures [OPEN_OBJECT, SPACE]
            + (([QUOTE] + j + [QUOTE] + gap + [COLON, SPACE]) + a + ([COMMA, SPACE] + (([QUOTE] + k + [QUOTE] + [SPACE] + [COLON, SPACE]) + b)))
            + CLOSED
         == [OPEN_OBJECT, SPACE, QUOTE] + j + [QUOTE] + gap + [COLON, SPACE] + a
            + [COMMA, SPACE, QUOTE] + k + [QUOTE, SPACE, COLON, SPACE] + b + CLOSED
  {}

  lemma LongText(l: int64)
    ensures CanWrite(Int64(l)) && IsPlainText(Decimal(l))
    ensures TextOf(Int64(l)) == Opened(INT64) + ([QUOTE] + Decimal(l) + [QUOTE]) + [CLOSE_OBJECT]
  {
    hide Literal, Decimal, IsStrict;
    ParseDecimal(l);
    PlainText(Decimal(l));
    KeyText(INT64, true, Plain(Decimal(l)));
    var m := Member(Literal(INT64), true, Plain(Decimal(l)));
    OneMemberText(m);
    LongTree(l);
    OnlyMemberText(m);
    hide Render, RenderMembers, RenderKey, WellFormed, IsPlainText;
    OpenedParts(Literal(INT64), [QUOTE] + Decimal(l) + [QUOTE]);
  }

  lemma OnlyMemberText(m: Member)
    requires IsStrict(m.key) && m.value.Text? && WellFormed(m.value)
    ensures WellFormed(Map([m], false)) && Render(Map([m], false)) == [OPEN_OBJECT, SPACE] + RenderMembers([m]) + [CLOSE_OBJECT]
  {
    hide RenderMembers, IsStrict;
  }

  lemma {:induction false} OptionsArePlain(options: seq<byte>, among: CString)
    requires IsPlainText(among)
    ensures IsPlainText(SortedOptions(options, among))
  {
    if among != [] {
      OptionsArePlain(options, among[1..]);
    }
  }

  /** The elements' texts with commas between them, under their keys in a document. */
  ghost function Separated(es: seq<Element>, keys: bool): seq<byte>
    requires CanWriteAll(es)
  {
    MembersEvents(es);
    ItemsEvents(es);
    if keys then RenderMembers(Members(es)) else RenderItems(Items(es))
  }

  lemma {:induction false} RenderMembersSnoc(ms: seq<Member>, m: Member)
    requires forall x | x in ms + [m] :: IsStrict(x.key) && WellFormed(x.value)
    ensures RenderMembers(ms + [m]) == RenderMembers(ms) + (if ms == [] then [] else [COMMA, SPACE]) + RenderKey(m) + Render(m.value)
  {
    hide RenderKey, Render, RenderMembers, IsStrict, WellFormed;
    if ms == [] {
      assert ms + [m] == [m];
      OneMemberText(m);
      NoMemberText();
    } else {
      var rest := ms[1..];
      assert (ms + [m])[1..] == rest + [m];
      RenderMembersSnoc(rest, m);
      FirstMemberText(ms);
      FirstMemberText(ms + [m]);
      NoMemberText();
    }
  }

  lemma NoMemberText()
    ensures RenderMembers([]) == []
  {}

  lemma {:induction false} FirstMemberText(ms: seq<Member>)
    requires ms != [] && forall x | x in ms :: IsStrict(x.key) && WellFormed(x.value)
    ensures RenderMembers(ms)
         == RenderKey(ms[0]) + Render(ms[0].value) + (if |ms| == 1 then [] else [COMMA, SPACE] + RenderMembers(ms[1..]))
  {
    hide RenderKey, Render, IsStrict, WellFormed;
  }

  lemma {:induction false} RenderItemsSnoc(js: seq<Json>, j: Json)
    requires forall x | x in js + [j] :: WellFormed(x)
    ensures RenderItems(js + [j]) == RenderItems(js) + (if js == [] then [] else [COMMA, SPACE]) + Render(j)
  {
    hide Render, WellFormed;
    if js == [] {
      assert js + [j] == [j];
    } else {
      assert (js + [j])[1..] == js[1..] + [j];
      RenderItemsSnoc(js[1..], j);
    }
  }

  lemma {:induction false} PartsSnoc(es: seq<Element>, e: Element)
    ensures Members(es + [e]) == Members(es) + [Member(e.key, true, Tree(e.value))]
    ensures Items(es + [e]) == Items(es) + [Tree(e.value)]
    ensures |Members(es)| == |es| == |Items(es)|
  {
    hide Tree;
    if es == [] {
      assert es + [e] == [e];
    } else {
      assert (es + [e])[1..] == es[1..] + [e];
      PartsSnoc(es[1..], e);
    }
  }

  lemma SeparatedSnoc(es: seq<Element>, e: Element, keys: bool)
    requires CanWriteAll(es) && CanWrite(e.value) && Utf8.Valid(e.key, false)
    ensures CanWriteAll(es + [e]) && IsStrict(e.key)
    ensures Separated(es + [e], keys) == Separated(es, keys) + (if es == [] then [] else [COMMA, SPACE])
                                      + (if keys then Quoted(e.key) + [SPACE, COLON, SPACE] else []) + TextOf(e.value)
  {
    hide CanWrite, Utf8.Valid, Tree, Quoted, IsStrict, WellFormed, Render, Members, Items, RenderMembers, RenderItems, CanWriteAll;
    CanWriteAllMeans(es);
    CanWriteAllMeans(es + [e]);
    KeyIsStrict(e.key);
    PartsSnoc(es, e);
    MembersEvents(es + [e]);
    ItemsEvents(es + [e]);
    MembersEvents(es);
    ItemsEvents(es);
    var m := Member(e.key, true, Tree(e.value));
    RenderMembersSnoc(Members(es), m);
    RenderItemsSnoc(Items(es), Tree(e.value));
    assert RenderKey(m) == Quoted(e.key) + [SPACE, COLON, SPACE];
  }

  lemma NothingSeparated(keys: bool)
    ensures CanWriteAll([]) && Separated([], keys) == []
  {}

  lemma ContainerText(es: seq<Element>)
    requires CanWriteAll(es)
    ensures CanWrite(Document(es)) && TextOf(Document(es)) == [OPEN_OBJECT, SPACE] + Separated(es, true) + CLOSED
    ensures CanWrite(Value.Array(es)) && TextOf(Value.Array(es)) == [OPEN_LIST, SPACE] + Separated(es, false) + [SPACE, CLOSE_LIST]
  {
    MembersEvents(es);
    ItemsEvents(es);
    hide Members, Items, RenderMembers, RenderItems, IsStrict;
    assert CLOSED == [SPACE] + [CLOSE_OBJECT];
  }

  const ELIDED: seq<byte> := [OPEN_OBJECT, SPACE, POINT, POINT, POINT, SPACE, CLOSE_OBJECT]

  class State {
    var str: seq<byte>
    var count: nat
    const keys: bool
    const depth: nat

    constructor (start: seq<byte>, keys: bool, depth: nat)
      ensures str == start && count == 0 && this.keys == keys && this.depth == depth
    {
      str, count := start, 0;
      this.keys, this.depth := keys, depth;
    }

    /** A text between quotes, or nothing if it cannot be escaped. */
    method AppendEscaped(text: seq<byte>, lengthProvided: bool) returns (stop: bool)
      requires Utf8.Valid(text, true) && (lengthProvided || 0 !in text)
      modifies this`str
      ensures !stop <==> IsStrict(text)
      ensures !stop ==> str == old(str) + Quoted(text)
    {
      ghost var ps :| Utf8.AllAllowed(ps, true) && Utf8.Flatten(ps) == text;
      var ok, escaped := EscapeForJson(text, lengthProvided, ps);
      if !ok {
        NotStrict(text, ps);
        return true;
      }
      EscapedOnce(ps);
      str := str + ([QUOTE] + escaped + [QUOTE]);
      return false;
    }

    /** The UTF-8 check that the walk makes before it calls a text's visitor, and the visitor's own text. */
    method VisitText(text: seq<byte>, lengthProvided: bool) returns (stop: bool)
      requires lengthProvided || 0 !in text
      modifies this`str
      ensures !stop <==> IsStrict(text)
      ensures !stop ==> str == old(str) + Quoted(text)
    {
      var valid := Utf8.Validate(text, true);
      if !valid {
        InvalidIsNotStrict(text);
        return true;
      }
      stop := AppendEscaped(text, lengthProvided);
    }

    /** `_bson_as_json_visit_before`: the comma and the key. */
    method VisitBefore(key: CString) returns (stop: bool)
      requires Utf8.Valid(key, false)
      modifies this`str, this`count
      ensures !stop && count == old(count) + 1
      ensures IsStrict(key)
      ensures str == old(str) + (if old(count) > 0 then [COMMA, SPACE] else [])
                     + (if keys then Quoted(key) + [SPACE, COLON, SPACE] else [])
    {
      KeyIsStrict(key);
      hide IsStrict, Quoted, Utf8.Valid;
      if count > 0 {
        str := str + [COMMA, SPACE];
      }
      if keys {
        AppendKey(key);
      }
      stop := false;
      count := count + 1;
    }

    method AppendKey(key: CString)
      requires Utf8.Valid(key, true) && IsStrict(key)
      modifies this`str
      ensures str == old(str) + (Quoted(key) + [SPACE, COLON, SPACE])
    {
      hide IsStrict, Quoted, Utf8.Valid;
      var stop := AppendEscaped(key, false);
      str := str + [SPACE, COLON, SPACE];
    }

    /** A wrapper around text that needs no escapes. */
    method AppendWrapped(k: Keyword, text: seq<byte>)
      requires IsPlainText(text)
      modifies this`str
      ensures WellFormed(Wrapped(k, Plain(text))) && str == old(str) + Render(Wrapped(k, Plain(text)))
    {
      WrappedPlain(k, text);
      str := str + (Opened(k) + ([QUOTE] + text + [QUOTE]) + CLOSED);
    }

    method VisitBinary(subtype: byte, data: seq<byte>)
      modifies this`str
      ensures CanWrite(Binary(subtype, data)) && str == old(str) + TextOf(Binary(subtype, data))
    {
      hide Base64.Text, HexByte, Literal, TextOf;
      var b64 := new byte[(|data| / 3 + 1) * 4 + 1];
      Base64.TextFits(data);
      var n := Base64.Ntop(data, b64);
      var text := b64[..n];
      Base64.TextIsAscii(data);
      HexByteReads(subtype);
      PlainText(text);
      PlainText(HexByte(subtype));
      BothText(BASE64, false, Plain(text), SUBTYPE, Plain(HexByte(subtype)));
      hide Render, WellFormed, Both;
      var inner := Map([Member(Literal(BASE64), false, Plain(text)), Member(Literal(SUBTYPE), true, Plain(HexByte(subtype)))], true);
      WrapperText(BINARY, inner);
      TextOfTree(Binary(subtype, data), Wrapped(BINARY, inner));
      str := str + (Opened(BINARY) + Both(BASE64, [], [QUOTE] + text + [QUOTE], SUBTYPE, [QUOTE] + HexByte(subtype) + [QUOTE]) + CLOSED);
    }

    method VisitTimestamp(t: uint32, inc: uint32)
      modifies this`str
      ensures CanWrite(Timestamp(t, inc)) && str == old(str) + TextOf(Timestamp(t, inc))
    {
      hide Decimal, Literal;
      NumberTree(t);
      NumberTree(inc);
      NumberText(t);
      NumberText(inc);
      BothText(T, true, Number(t), I, Number(inc));
      hide Render, WellFormed, Both;
      WrapperText(TIMESTAMP, Map([Member(Literal(T), true, Number(t)), Member(Literal(I), true, Number(inc))], true));
      str := str + (Opened(TIMESTAMP) + Both(T, [SPACE], Decimal(t), I, Decimal(inc)) + CLOSED);
    }

    method VisitRegex(pattern: CString, options: CString) returns (stop: bool)
      modifies this`str
      ensures !stop <==> CanWrite(Regex(pattern, options))
      ensures !stop ==> str == old(str) + TextOf(Regex(pattern, options))
    {
      hide Literal, SortedOptions, IsStrict, Quoted;
      var piece := new State([], false, 0);
      stop := piece.VisitText(pattern, false);
      if stop {
        return;
      }
      var sorted := SortOptions(options);
      assert IsPlainText(REGEX_OPTIONS);
      OptionsArePlain(options, REGEX_OPTIONS);
      PlainText(sorted);
      TextLeaf(pattern);
      BothText(PATTERN, true, Plain(pattern), PLAIN_OPTIONS, Plain(sorted));
      var p := piece.str;
      assert p == Render(Plain(pattern));
      hide Render, WellFormed, Both, IsPlainText;
      WrapperText(REGULAR_EXPRESSION, Map([Member(Literal(PATTERN), true, Plain(pattern)), Member(Literal(PLAIN_OPTIONS), true, Plain(sorted))], true));
      str := str + (Opened(REGULAR_EXPRESSION) + Both(PATTERN, [SPACE], p, PLAIN_OPTIONS, [QUOTE] + sorted + [QUOTE]) + CLOSED);
    }

    method VisitDecimal128(low: uint64, high: uint64)
      modifies this`str
      ensures CanWrite(Value.Decimal128(low, high)) && str == old(str) + TextOf(Value.Decimal128(low, high))
    {
      hide Print.Printed, Ascii, Bits.Meaning, TextOf, Print.LosesDigit, Print.TextOf;
      var text := Print.ToString(Bits.Decimal128(high, low));
      DecimalTextIsPrintable(Bits.Meaning(Bits.Decimal128(high, low)));
      CharsOfAscii(text);
      AppendWrapped(DECIMAL128, Ascii(text));
      TextOfTree(Value.Decimal128(low, high), Wrapped(DECIMAL128, Plain(DecimalText(low, high))));
    }

    method VisitSymbol(text: seq<byte>) returns (stop: bool)
      modifies this`str
      ensures !stop <==> CanWrite(Symbol(text))
      ensures !stop ==> str == old(str) + TextOf(Symbol(text))
    {
      hide Literal, IsStrict, Quoted, TextOf;
      var piece := new State([], false, 0);
      stop := piece.VisitText(text, true);
      if stop {
        return;
      }
      TextLeaf(text);
      assert piece.str == Render(Plain(text));
      WrapperText(SYMBOL, Plain(text));
      TextOfTree(Symbol(text), Wrapped(SYMBOL, Plain(text)));
      str := str + (Opened(SYMBOL) + piece.str + CLOSED);
    }

    /** `{ "$minKey" : 1 }` and its like. */
    method AppendMarker(v: Value, k: Keyword, text: seq<byte>, ghost inner: Json)
      requires CanWrite(v) && WellFormed(inner) && Tree(v) == Wrapped(k, inner) && Render(inner) == text
      modifies this`str
      ensures str == old(str) + TextOf(v)
    {
      hide Literal, TextOf, Render, WellFormed;
      WrapperText(k, inner);
      TextOfTree(v, Wrapped(k, inner));
      str := str + (Opened(k) + text + CLOSED);
    }

    /** A value whose wrapper holds plain text. */
    method AppendNumber(v: Value, k: Keyword, text: seq<byte>)
      requires CanWrite(v) && Tree(v) == Wrapped(k, Plain(text)) && IsPlainText(text)
      modifies this`str
      ensures str == old(str) + TextOf(v)
    {
      hide TextOf, Render, WellFormed;
      AppendWrapped(k, text);
      TextOfTree(v, Wrapped(k, Plain(text)));
    }

    /** The visitors of all types but documents and arrays. */
    method VisitScalar(v: Value) returns (stop: bool)
      requires HasText(v) && !v.Document? && !v.Array?
      modifies this`str
      ensures !stop <==> CanWrite(v)
      ensures !stop ==> str == old(str) + TextOf(v)
    {
      hide Literal, Decimal, HexText, DecimalText, IsStrict, TextOf, Render, WellFormed, IsPlainText, Wrapped;
      stop := false;
      match v
      case Utf8(text) =>
        stop := VisitText(text, true);
        if !stop {
          TextLeaf(text);
          TextOfTree(v, Plain(text));
          LeafText(text);
        }
      case Int32(i) =>
        ParseDecimal(i);
        AppendNumber(v, INT32, Decimal(i));
      case Int64(l) =>
        LongText(l);
        str := str + (Opened(INT64) + ([QUOTE] + Decimal(l) + [QUOTE]) + [CLOSE_OBJECT]);
      case ObjectId(oid) =>
        HexTextReads(oid);
        AppendNumber(v, OID, HexText(oid));
      case Binary(subtype, data) => VisitBinary(subtype, data);
      case DateTime(ms) =>
        ParseDecimal(ms);
        WrappedPlain(INT64, Decimal(ms));
        AppendMarker(v, DATE, Opened(INT64) + ([QUOTE] + Decimal(ms) + [QUOTE]) + CLOSED, Wrapped(INT64, Plain(Decimal(ms))));
      case Timestamp(t, inc) => VisitTimestamp(t, inc);
      case Regex(pattern, options) => stop := VisitRegex(pattern, options);
      case Symbol(text) => stop := VisitSymbol(text);
      case Decimal128(low, high) => VisitDecimal128(low, high);
      case Undefined =>
        WordText(TrueWord);
        AppendMarker(v, UNDEFINED, TRUE_TEXT, Const(TrueWord));
      case MinKey =>
        NumberTree(1);
        NumberText(1);
        AppendMarker(v, MINKEY, Decimal(1), Number(1));
      case MaxKey =>
        NumberTree(1);
        NumberText(1);
        AppendMarker(v, MAXKEY, Decimal(1), Number(1));
      case Boolean(b) =>
        WordText(if b then TrueWord else FalseWord);
        TextOfTree(v, Const(if b then TrueWord else FalseWord));
        str := str + if b then TRUE_TEXT else FALSE_TEXT;
      case Null =>
        WordText(NullWord);
        TextOfTree(v, Const(NullWord));
        str := str + NULL_TEXT;
    }

    /** `_bson_as_json_visit_document` and `_bson_as_json_visit_array`; `corrupt` is what the shared error offset then says. */
    method VisitContainer(es: seq<Element>, isArray: bool) returns (stop: bool, corrupt: bool)
      requires HaveTexts(es)
      modifies this`str
      ensures depth + 1 + Tallest(es) <= MAX_RECURSION ==>
                && (!stop && !corrupt <==> CanWriteAll(es))
                && (CanWriteAll(es) ==> var v := if isArray then Value.Array(es) else Document(es);
                                        CanWrite(v) && str == old(str) + TextOf(v))
      decreases es, 1
    {
      hide TextOf, CanWrite, CanWriteAll, HaveTexts, Tallest, Separated;
      if depth >= MAX_RECURSION {
        str := str + ELIDED;
        return false, false;
      }
      var start := [if isArray then OPEN_LIST else OPEN_OBJECT, SPACE];
      var child := new State(start, !isArray, depth + 1);
      stop, corrupt := child.VisitAll(es);
      if stop {
        return;
      }
      child.str := child.str + [SPACE, if isArray then CLOSE_LIST else CLOSE_OBJECT];
      str := str + child.str;
      if CanWriteAll(es) {
        ContainerText(es);
      }
    }

    /** `bson_iter_visit_all` with these visitors. */
    method VisitAll(es: seq<Element>) returns (stop: bool, corrupt: bool)
      requires HaveTexts(es) && count == 0
      modifies this`str, this`count
      ensures depth + Tallest(es) <= MAX_RECURSION ==>
                && (!stop && !corrupt <==> CanWriteAll(es))
                && (CanWriteAll(es) ==> str == old(str) + Separated(es, keys))
      decreases es, 0
    {
      hide TextOf, CanWrite, CanWriteAll, HaveTexts, Tallest, Separated, Quoted, IsStrict, Utf8.Valid, JsonRoundTrip.Height, HasText;
      ghost var bounded := depth + Tallest(es) <= MAX_RECURSION;
      CanWriteAllMeans(es);
      NothingSeparated(keys);
      stop, corrupt := false, false;
      assert es[..0] == [];
      for i := 0 to |es|
        invariant count == i && !stop
        invariant forall k | 0 <= k < i :: Utf8.Valid(es[k].key, false)
        invariant bounded ==> (!corrupt <==> forall k | 0 <= k < i :: CanWrite(es[k].value))
        invariant bounded && !corrupt ==> CanWriteAll(es[..i]) && str == old(str) + Separated(es[..i], keys)
      {
        var e := es[i];
        HaveTextsAt(es, i);
        TallestAt(es, i);
        var valid := true;
        if e.key != [] {
          valid := Utf8.Validate(e.key, false);
        } else {
          Utf8.EmptyIsValid(false);
        }
        if !valid {
          corrupt := true;
          return;
        }
        stop := VisitBefore(e.key);
        var damaged: bool;
        stop, damaged := VisitValue(e.value);
        if stop {
          return;
        }
        if bounded && !corrupt && !damaged {
          SeparatedSnoc(es[..i], e, keys);
        }
        assert es[..i + 1] == es[..i] + [e];
        corrupt := corrupt || damaged;
      }
      assert es[..|es|] == es;
    }

    method VisitValue(v: Value) returns (stop: bool, corrupt: bool)
      requires HasText(v)
      modifies this`str
      ensures depth + JsonRoundTrip.Height(v) <= MAX_RECURSION ==>
                && (!stop && !corrupt <==> CanWrite(v))
                && (CanWrite(v) ==> str == old(str) + TextOf(v))
      decreases v, 2
    {
      hide TextOf;
      corrupt := false;
      if v.Document? {
        stop, corrupt := VisitContainer(v.fields, false);
      } else if v.Array? {
        stop, corrupt := VisitContainer(v.items, true);
      } else {
        stop := VisitScalar(v);
      }
    }
  }

  lemma LeafText(text: seq<byte>)
    requires IsStrict(text)
    ensures Render(Plain(text)) == Quoted(text)
  {}

  lemma WordText(w: Constant)
    ensures WellFormed(Const(w)) && Render(Const(w)) == Spelling(w)
  {}

  /** `bson_as_canonical_extended_json`: there is a text exactly when every key and every text in the tree can be escaped. */
  method AsCanonicalExtendedJson(es: seq<Element>) returns (ok: bool, text: seq<byte>)
    requires HaveTexts(es)
    ensures Tallest(es) <= 200 ==> (ok <==> CanWriteAll(es))
    ensures Tallest(es) <= 200 && ok ==> text == CanonicalText(es)
  {
    hide Separated, Tallest;
    if es == [] {
      EmptyText();
      return true, [OPEN_OBJECT, SPACE, CLOSE_OBJECT];
    }
    var state := new State([OPEN_OBJECT, SPACE], true, 0);
    var stop, corrupt := state.VisitAll(es);
    if stop || corrupt {
      return false, [];
    }
    if CanWriteAll(es) {
      ContainerText(es);
      RootText(es);
    }
    return true, state.str + CLOSED;
  }

  lemma EmptyText()
    ensures CanWriteAll([]) && Tallest([]) == 0 && CanonicalText([]) == [OPEN_OBJECT, SPACE, CLOSE_OBJECT]
  {
    NoMembers();
  }

  lemma RootText(es: seq<Element>)
    requires es != [] && CanWriteAll(es)
    ensures CanonicalText(es) == TextOf(Document(es))
  {
    MembersEvents(es);
    MapTree(es);
    hide Render;
  }

  lemma TextOfTree(v: Value, j: Json)
    requires CanWrite(v) && Tree(v) == j && WellFormed(j)
    ensures TextOf(v) == Render(j)
  {}

  lemma NumberText(n: uint32)
    ensures Render(Number(n)) == Decimal(n)
  {}

  lemma InvalidIsNotStrict(text: seq<byte>)
    requires !Utf8.Valid(text, true)
    ensures !IsStrict(text)
  {
    if IsStrict(text) {
      StrictIsValid(text);
    }
  }

  lemma NotStrict(text: seq<byte>, ps: seq<Utf8.Piece>)
    requires Utf8.Flatten(ps) == text && !Strict(ps)
    ensures !IsStrict(text)
  {
    if IsStrict(text) {
      var qs :| Strict(qs) && Utf8.Flatten(qs) == text;
      Utf8.PiecesAreUnique(ps, qs);
    }
  }

  /** The text that the writer cannot escape, though it is valid where NULs are allowed. */
  lemma TwoByteNulIsNotWritten()
    ensures Utf8.Valid([0xc0, 0x80], true) && !IsStrict([0xc0, 0x80]) && !CanWrite(Value.Utf8([0xc0, 0x80]))
  {
    var ps := [Utf8.LongNull];
    assert Utf8.Flatten(ps[1..]) == [];
    assert Utf8.AllAllowed(ps, true) && Utf8.Flatten(ps) == [0xc0, 0x80];
    NotStrict([0xc0, 0x80], ps);
  }
}
