/** Why the union in which the reader collects a wrapper's value may be modelled as separate fields. */
module JsonUnion {
  import opened Bytes
  import opened BsonTree
  import opened JsonMachine
  import opened RegexOptions
  import Lexer
  import Nesting = LexerNesting
  import Step = LexerStep
  import Strings = JsonString
  import Syntax = JsonSyntax
  import Range = DecimalRange
  import Utf8

  /** The type whose union member a field of a wrapper is kept in. */
  function TagOf(k: Keyword): byte {
    match k
    case REGEX => 0x0b
    case OPTIONS => 0x0b
    case PATTERN => 0x0b
    case PLAIN_OPTIONS => 0x0b
    case OID => 0x07
    case BINARY => 0x05
    case TYPE => 0x05
    case DATE => 0x09
    case UNDEFINED => 0x06
    case MINKEY => 0xff
    case MAXKEY => 0x7f
    case INT32 => 0x10
    case INT64 => 0x12
    case DOUBLE => 0x01
    case SYMBOL => 0x0e
    case DECIMAL128 => 0x13
    case T => 0x11
    case I => 0x11
    case _ => 0
  }

  /** Only the member that belongs to the type has been written since the union was cleared. */
  predicate OneMember(tag: byte, d: Data) {
    && (tag != 0x0b ==> !d.hasPattern && !d.hasOptions && !d.regexLegacy)
    && (tag != 0x07 ==> d.oid == NO_OID)
    && (tag != 0x05 ==> !d.hasBinary && !d.hasSubtype && !d.binaryLegacy && d.subtype == 0)
    && (tag != 0x09 ==> d.date == 0)
    && (tag != 0x11 ==> !d.hasT && !d.hasI && d.t == 0 && d.i == 0)
    && (tag != 0x10 ==> d.int32Value == 0)
    && (tag != 0x12 ==> d.int64Value == 0)
    && (tag != 0x13 ==> d.decimal == NO_DATA.decimal)
  }

  /** The field being read belongs to the type; right after a brace it may still be an older one. */
  predicate FieldFits(r: Reader, afterBrace: bool) {
    match r.state
    case IN_BSON_TYPE => r.field == REF || r.field == DB || TagOf(r.field) == r.bsonType
    case TIMESTAMP_STARTMAP => r.bsonType == 0x11
    case TIMESTAMP_VALUES => r.bsonType == 0x11 && (afterBrace || r.field == T || r.field == I)
    case REGEX_STARTMAP => r.bsonType == 0x0b
    case REGEX_VALUES => r.bsonType == 0x0b && (afterBrace || r.field == PATTERN || r.field == PLAIN_OPTIONS)
    case DATE_NUMBERLONG => r.bsonType == 0x09 && (r.field == DATE || r.field == INT64)
    case BINARY_VALUES => r.bsonType == 0x05 && (r.field == BINARY || r.field == TYPE)
    case _ => true
  }

  predicate Kept(r: Reader, afterBrace: bool) { OneMember(r.bsonType, r.data) && FieldFits(r, afterBrace) }

  predicate Separate(r: Reader, afterBrace: bool) { r.state == UNMODELLED || Kept(r, afterBrace) }

  /** What may follow the brace that opens a map. */
  predicate Follows(e: Event) { e.MapKey? || e.EndMap? || e.BadText? }

  /** Events as a JSON text gives them, as far as it matters here. */
  predicate KeysFirst(events: seq<Event>) {
    forall i | 0 < i < |events| && events[i - 1].StartMap? :: Follows(events[i])
  }

  lemma FixupSeparate(r: Reader, b: bool)
    requires Kept(r, b)
    ensures Kept(Fixup(r), b)
  {
    hide Decimal, OneMember;
  }

  lemma AppendSeparate(r: Reader, v: Value, b: bool)
    requires Kept(r, b)
    ensures Separate(Append(r, v), b) && Separate(AppendIfNormal(r, v), b) && (v.Utf8? ==> Separate(DbRefText(r, v.text), b))
  {
    hide OneMember;
  }

  lemma PushSeparate(r: Reader, isArray: bool, b: bool)
    requires Kept(r, b)
    ensures Push(r, isArray).Pushed? ==> Separate(Push(r, isArray).reader, b)
  {
    hide OneMember;
  }

  lemma PopSeparate(r: Reader, isArray: bool)
    requires Kept(r, false)
    ensures Separate(Pop(r, isArray), false) && Separate(EndDocument(r), false)
  {
    hide OneMember;
  }

  lemma NumberCollected(d: Data, value: int64, n: uint64)
    ensures OneMember(0x09, d) ==> OneMember(0x09, d.(date := value))
    ensures OneMember(0x11, d) ==> OneMember(0x11, d.(hasT := true, t := n % TWO_32)) && OneMember(0x11, d.(hasI := true, i := n % TWO_32))
  {}

  lemma IntegerSeparate(r: Reader, n: uint64, negative: bool)
    requires Kept(r, false)
    ensures Separate(OnInteger(r, n, negative), false)
  {
    hide Fixup, AppendIfNormal, OneMember;
    FixupSeparate(r, false);
    var f := Fixup(r);
    if n <= (if negative then TWO_63 else TWO_63 - 1) {
      var value: int64 := if negative then -(n as int) else n;
      NumberCollected(f.data, value, n);
      AppendSeparate(f, Int64(value), false);
      if -INT32_MAX - 1 <= value <= INT32_MAX {
        AppendSeparate(f, Int32(value), false);
      }
    }
  }

  lemma NumberSeparate(r: Reader, text: seq<byte>)
    requires Kept(r, false) && (r.state == IN_BSON_TYPE || r.state == DATE_NUMBERLONG)
    ensures Separate(NumberString(r, text), false)
  {
    hide ParseInt64, Range.Outcome, CharsOf, UpToNul;
  }

  lemma BinarySeparate(r: Reader, text: seq<byte>)
    requires Kept(r, false) && (r.state == IN_BSON_TYPE || r.state == BINARY_VALUES) && (r.field == BINARY || r.field == TYPE)
    ensures Separate(BinaryElem(r, text), false)
  {
    hide Push, Append, ScanHex, UpToNul, Literal;
    var r1 := r.(data := r.data.(hasSubtype := true), state := REGULAR);
    PushSeparate(r1, false, false);
    if Push(r1, false).Pushed? && Push(r1, false).reader.state == REGULAR {
      var q := Push(r1, false).reader;
      AppendSeparate(q.(key := Some(Literal(TYPE))), Value.Utf8(text), false);
    }
  }

  /** Texts that are kept as they are, or decoded into the union. */
  lemma CollectedSeparate(r: Reader, text: seq<byte>)
    requires Kept(r, false) && r.state in [IN_BSON_TYPE, TIMESTAMP_VALUES, REGEX_VALUES, DATE_NUMBERLONG]
    requires !(r.field in [INT32, INT64, DECIMAL128, BINARY, TYPE, SYMBOL, REF, DB])
    ensures Separate(TypedString(r, text), false)
  {
    hide OidFromText, OneMember;
    TextCollected(r.data, if |text| == 24 then OidFromText(text) else NO_OID);
  }

  lemma TextCollected(d: Data, oid: Bytes12)
    ensures OneMember(0x0b, d) ==> OneMember(0x0b, d.(regexLegacy := true, hasPattern := true)) && OneMember(0x0b, d.(hasPattern := true))
    ensures OneMember(0x0b, d) ==> OneMember(0x0b, d.(regexLegacy := true, hasOptions := true)) && OneMember(0x0b, d.(hasOptions := true))
    ensures OneMember(0x07, d) ==> OneMember(0x07, d.(oid := oid))
  {}

  lemma LegacyBinary(d: Data)
    requires OneMember(0x05, d)
    ensures OneMember(0x05, d.(binaryLegacy := true))
  {}

  lemma TypedSeparate(r: Reader, text: seq<byte>)
    requires Kept(r, false) && r.state in [IN_BSON_TYPE, TIMESTAMP_VALUES, REGEX_VALUES, DATE_NUMBERLONG]
    ensures Separate(TypedString(r, text), false)
  {
    hide Append, DbRefText, NumberString, BinaryElem, OidFromText, OneMember;
    var q := r.(data := r.data.(binaryLegacy := true));
    if r.field in [INT32, INT64, DECIMAL128] {
      NumberSeparate(r, text);
    } else if r.field in [BINARY, TYPE] {
      LegacyBinary(r.data);
      BinarySeparate(q, text);
    } else if r.field in [SYMBOL, REF, DB] {
      AppendSeparate(r, Symbol(text), false);
      AppendSeparate(r, Value.Utf8(text), false);
    } else {
      CollectedSeparate(r, text);
    }
  }

  lemma StringSeparate(r: Reader, text: seq<byte>)
    requires Kept(r, false)
    ensures Separate(OnString(r, text), false)
  {
    FixupSeparate(r, false);
    hide Fixup, AppendIfNormal, TypedString, BinaryElem, Utf8.Valid;
    var f := Fixup(r);
    AppendSeparate(f, Value.Utf8(text), false);
    if f.state == BINARY_VALUES {
      BinarySeparate(f, text);
    } else if f.state in [IN_BSON_TYPE, TIMESTAMP_VALUES, REGEX_VALUES, DATE_NUMBERLONG] {
      TypedSeparate(f, text);
    }
  }

  lemma StartMapSeparate(r: Reader)
    requires Kept(r, false)
    ensures Separate(OnStartMap(r), true)
  {
    hide Fixup, Push, Literal, OneMember;
    FixupSeparate(r, false);
    PushSeparate(Fixup(r).(state := IN_START_MAP), false, true);
  }

  /** A type may be set when none was, or stay what it is. */
  lemma Typed(r: Reader, tag: byte)
    requires OneMember(r.bsonType, r.data) && (r.bsonType == 0 || r.bsonType == tag) && tag != 0
    ensures OneMember(tag, r.data)
  {}

  lemma OptionSeparate(r: Reader, field: Keyword)
    requires r.state == IN_BSON_TYPE && OneMember(r.bsonType, r.data) && TagOf(field) != 0
    ensures Separate(Option1(r, TagOf(field), field), false)
  {
    hide OneMember, TagOf;
    if r.bsonType == 0 {
      Typed(r, TagOf(field));
    }
  }

  lemma RetypedSeparate(r: Reader)
    requires OneMember(r.bsonType, r.data)
    ensures Separate(Retyped(r, 0x11, TIMESTAMP_STARTMAP), false) && Separate(Retyped(r, 0x0b, REGEX_STARTMAP), false)
  {
    hide OneMember;
    if r.bsonType == 0 {
      Typed(r, 0x11);
      Typed(r, 0x0b);
    }
  }

  lemma TypeKeySeparate(r: Reader, k: Keyword)
    requires r.state == IN_BSON_TYPE && OneMember(r.bsonType, r.data)
    ensures Separate(TypeKey(r, k), false)
  {
    hide OneMember, Option1, Retyped;
    RetypedSeparate(r);
    if TagOf(k) != 0 {
      OptionSeparate(r, k);
    }
  }

  lemma PlainKeySeparate(r: Reader, text: seq<byte>)
    requires Kept(r, false)
    requires !(r.state in [IN_BSON_TYPE, TIMESTAMP_VALUES, REGEX_VALUES, DATE_NUMBERLONG, BINARY_VALUES])
    ensures Separate(PlainKey(r, text), false)
  {
    hide OneMember, KeywordOf, UpToNul;
  }

  lemma NothingCollected()
    ensures OneMember(0, NO_DATA)
  {}

  lemma MapKeySeparate(r: Reader, text: seq<byte>)
    requires Kept(r, true)
    ensures Separate(OnMapKey(r, text), false)
  {
    hide Push, KeywordOf, IsKnown, WrapperKey, PlainKey, TypeKey, Utf8.Valid, OneMember;
    NothingCollected();
    var k := KeywordOf(text);
    if r.state == IN_START_MAP {
      var r0 := r.(state := REGULAR);
      PushSeparate(r0, false, false);
      TypeKeySeparate(r.(state := IN_BSON_TYPE, bsonType := 0, data := NO_DATA), k);
      if Push(r0, false).Pushed? && Push(r0, false).reader.state == REGULAR {
        PlainKeySeparate(Push(r0, false).reader, text);
      }
    } else if r.state == IN_BSON_TYPE {
      TypeKeySeparate(r, WrapperKey(text));
    } else if !(r.state in [DATE_NUMBERLONG, TIMESTAMP_VALUES, REGEX_VALUES, BINARY_VALUES]) {
      PlainKeySeparate(r, text);
    }
  }

  lemma EndMapSeparate(r: Reader)
    requires Kept(r, true)
    ensures Separate(OnEndMap(r), false)
  {
    hide Push, Append, OneMember, EndDocument, UpToNul, SortedOptions;
    var r0 := r.(state := REGULAR);
    PushSeparate(r0, false, false);
    PopSeparate(r0, false);
    if Push(r0, false).Pushed? && Push(r0, false).reader.state != UNMODELLED {
      PopSeparate(Push(r0, false).reader, false);
    }
    forall q: Reader, v | OneMember(q.bsonType, q.data) && FieldFits(q, false) ensures Separate(Append(q, v), false) {
      AppendSeparate(q, v, false);
    }
  }

  lemma ArraySeparate(r: Reader)
    requires Kept(r, false)
    ensures Separate(OnStartArray(r), false) && Separate(OnEndArray(r), false)
  {
    hide Fixup, Push, Pop;
    FixupSeparate(r, false);
    PushSeparate(Fixup(r), true, false);
    PopSeparate(r, true);
  }

  lemma SimpleSeparate(r: Reader, b: bool)
    requires Kept(r, false)
    ensures Separate(OnNull(r), false) && Separate(OnBoolean(r, b), false) && Separate(OnDouble(r), false)
  {
    hide Fixup, AppendIfNormal, OneMember;
    FixupSeparate(r, false);
    AppendSeparate(Fixup(r), Null, false);
    AppendSeparate(Fixup(r), Boolean(b), false);
  }

  /** One event, of those a text can have there. */
  lemma ReactSeparate(r: Reader, e: Event, afterBrace: bool)
    requires Kept(r, afterBrace) && (afterBrace ==> Follows(e))
    ensures Separate(React(r, e), e.StartMap?)
  {
    hide OnNull, OnBoolean, OnDouble, OnInteger, OnString, OnMapKey, OnStartMap, OnEndMap, OnStartArray, OnEndArray, OneMember;
    match e
    case StartMap => StartMapSeparate(r);
    case EndMap => EndMapSeparate(r);
    case StartArray => ArraySeparate(r);
    case EndArray => ArraySeparate(r);
    case MapKey(text) => MapKeySeparate(r, text);
    case StringRead(text) => StringSeparate(r, text);
    case IntegerRead(n, negative) => IntegerSeparate(r, n, negative);
    case BooleanRead(b) => SimpleSeparate(r, b);
    case NullRead => SimpleSeparate(r, false);
    case DoubleRead => SimpleSeparate(r, false);
    case BadText =>
  }

  lemma {:induction false} FeedSeparate(r: Reader, events: seq<Event>, afterBrace: bool)
    requires Separate(r, afterBrace) && KeysFirst(events) && (afterBrace && events != [] ==> Follows(events[0]))
    ensures Separate(Feed(r, events), true)
    decreases |events|
  {
    hide React, OneMember;
    if events != [] && r.state != ERROR && r.state != UNMODELLED {
      ReactSeparate(r, events[0], afterBrace);
      forall i | 0 < i < |events[1..]| && events[1..][i - 1].StartMap? ensures Follows(events[1..][i]) {
        assert events[i].StartMap?;
      }
      FeedSeparate(React(r, events[0]), events[1..], events[0].StartMap?);
    }
  }

  /** After a brace has been reported, what is open is a map without members, or its first key. */
  predicate AfterBrace(frames: seq<Nesting.Frame>) {
    && frames != []
    && var top := frames[|frames| - 1];
       (top.kind == Step.Object && top.count == 0) || (top.kind == Step.HKey && |frames| > 1 && frames[|frames| - 2].kind == Step.Object)
  }

  predicate EndsInBrace(events: seq<Event>) { events != [] && events[|events| - 1].StartMap? }

  /** One call of the lexer, as the reader sees it. */
  lemma CallFollows(input: seq<byte>, frames: seq<Nesting.Frame>, e: Step.Event, braced: bool)
    requires frames != [] && Nesting.NestStep(frames, e).Open? && (braced ==> AfterBrace(frames))
    ensures var c := Syntax.Call(input, e);
            && |c| <= 1 && (braced && c != [] ==> Follows(c[0]))
            && ((if c == [] then braced else c[0].StartMap?) ==> AfterBrace(Nesting.NestStep(frames, e).frames))
  {
    hide Strings.UnescapeFrom, Syntax.Between;
  }

  lemma {:induction false} CallsKeepOrder(input: seq<byte>, trace: seq<Step.Event>)
    requires Nesting.Nest(trace).Open?
    ensures var events := Syntax.Calls(input, trace);
            KeysFirst(events) && (EndsInBrace(events) ==> AfterBrace(Nesting.Nest(trace).frames))
  {
    hide Nesting.NestStep, Syntax.Call, AfterBrace, Follows;
    if trace != [] {
      var init, e := trace[..|trace| - 1], trace[|trace| - 1];
      CallsKeepOrder(input, init);
      CallFollows(input, Nesting.Nest(init).frames, e, EndsInBrace(Syntax.Calls(input, init)));
      assert Syntax.Calls(input, trace) == Syntax.Calls(input, init) + Syntax.Call(input, e);
    }
  }

  lemma {:induction false} PrefixKeepsOrder(events: seq<Event>, k: nat)
    requires KeysFirst(events) && k <= |events|
    ensures KeysFirst(events[..k])
  {
    forall i | 0 < i < k && events[..k][i - 1].StartMap? ensures Follows(events[..k][i]) {
      assert events[i - 1].StartMap?;
    }
  }

  /**
   On every text, at every moment: what the reader has collected belongs to the type it is collecting for.  So
   the members of the union are never read as one another, and separate fields stand for it.
   */
  lemma MembersNeverMix(text: seq<byte>, levels: nat, client: Step.Client, k: nat)
    requires levels >= 2 && k <= |Syntax.Calls(text, Lexer.Run(Lexer.Start(levels), client, text).trace)|
    ensures var q := Feed(START, Syntax.Calls(text, Lexer.Run(Lexer.Start(levels), client, text).trace)[..k]);
            q.state != UNMODELLED ==> OneMember(q.bsonType, q.data)
  {
    var trace := Lexer.Run(Lexer.Start(levels), client, text).trace;
    assert OneMember(START.bsonType, START.data);
    hide Lexer.Run, Syntax.Calls, Feed, OneMember;
    Nesting.RunNests(levels, client, text);
    CallsKeepOrder(text, trace);
    PrefixKeepsOrder(Syntax.Calls(text, trace), k);
    FeedSeparate(START, Syntax.Calls(text, trace)[..k], false);
  }
}
