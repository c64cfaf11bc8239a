/** The reader's callbacks come to what the text means: value by value, wrapper by wrapper, and for whole documents. */
module JsonDenotation {
  import opened Bytes
  import opened BsonTree
  import opened BuilderRuns
  import opened JsonKeywords
  import opened JsonMachine
  import opened JsonMeaning
  import opened JsonRoundTrip
  import opened RegexOptions
  import Base64
  import Bits = DecimalBits
  import Escapes = JsonEscapes
  import Grammar = JsonGrammar
  import Range = DecimalRange
  import Utf8

  /** The calls of the lexer for a tree. */
  function TreeEvents(t: Tree): seq<Event>
    decreases t, 1
  {
    match t
    case Str(text) => [StringRead(text)]
    case Num(n, negative) => [IntegerRead(n, negative)]
    case Dbl => [DoubleRead]
    case Truth(b) => [BooleanRead(b)]
    case Nil => [NullRead]
    case Obj(ms) => [StartMap] + MemberEvents(ms) + [EndMap]
    case Arr(ts) => [StartArray] + SeveralEvents(ts) + [EndArray]
  }

  function MemberEvents(ms: seq<Member>): seq<Event>
    decreases ms, 0
  {
    if ms == [] then [] else [MapKey(ms[0].key)] + TreeEvents(ms[0].value) + MemberEvents(ms[1..])
  }

  function SeveralEvents(ts: seq<Tree>): seq<Event>
    decreases ts, 0
  {
    if ts == [] then [] else TreeEvents(ts[0]) + SeveralEvents(ts[1..])
  }

  ghost predicate Halts(q: Reader) { q.state == ERROR || q.state == UNMODELLED }

  /** The reader has come to the meaning of what stood under the key. */
  ghost predicate Means(r: Reader, f: Reader, key: CString, m: Meaning<Value>) {
    match m
    case Is(v) => Reads(r, f, key, v)
    case Refused => f.state == ERROR
    case Silent => f.state == UNMODELLED
  }

  function LeafEvent(t: Tree): Event
    requires IsLeaf(t) && !t.Arr?
  {
    TreeEvents(t)[0]
  }

  /** After a leaf in a place where no array may stand. */
  ghost function Leafed(q: Reader, t: Tree): Reader
    requires IsLeaf(t)
  {
    if t.Arr? then Fail(q) else React(q, LeafEvent(t))
  }

  lemma LeafFeed(q: Reader, t: Tree)
    requires IsLeaf(t) && q.state != REGULAR && !Halts(q)
    ensures Feed(q, TreeEvents(t)) == Leafed(q, t)
  {
    if t.Arr? {
      var rest := SeveralEvents(t.items) + [EndArray];
      assert TreeEvents(t) == [StartArray] + rest;
      FeedOne(q, StartArray, rest);
      FeedHalted(React(q, StartArray), rest);
    } else {
      assert TreeEvents(t) == [LeafEvent(t)];
      LastEvent(q, LeafEvent(t));
    }
  }

  /** The text is kept for the wrapper's end. */
  function Texted(q: Reader, text: seq<byte>): Reader {
    match q.field
    case REGEX => q.(data := q.data.(regexLegacy := true, hasPattern := true), buf0 := text)
    case PATTERN => q.(data := q.data.(hasPattern := true), buf0 := text)
    case OPTIONS => q.(data := q.data.(regexLegacy := true, hasOptions := true), buf1 := text)
    case _ => q.(data := q.data.(hasOptions := true), buf1 := text)
  }

  /** A text where a text is wanted, and what comes of anything else. */
  lemma TextStep(q: Reader, t: Tree)
    requires IsLeaf(t) && (q.state == REGEX_VALUES || q.state == IN_BSON_TYPE) && q.field in {REGEX, OPTIONS, PATTERN, PLAIN_OPTIONS}
    ensures ValidText(t).Refused? ==> Leafed(q, t).state == ERROR
    ensures ValidText(t).Is? ==> Leafed(q, t) == Texted(q, t.text)
    ensures !ValidText(t).Silent?
  {
    hide Utf8.Valid, BinaryElem, NumberString, OidFromText;
  }

  lemma Base64Leaf(q: Reader, t: Tree)
    requires IsLeaf(t) && (q.state == BINARY_VALUES || q.state == IN_BSON_TYPE) && q.field == BINARY
    ensures match Base64Bytes(t)
            case Is(b) => Leafed(q, t) == q.(data := q.data.(hasBinary := true, binaryLegacy := q.data.binaryLegacy || q.state == IN_BSON_TYPE),
                                             buf0 := b)
            case Refused => Leafed(q, t).state == ERROR
            case Silent => Leafed(q, t).state == UNMODELLED
  {
    hide Utf8.Valid, NumberString, OidFromText, Base64.Ascii, Base64.Length, Base64.Decode, Base64.ScanDigits, UpToNul;
  }

  lemma SubtypeLeaf(q: Reader, t: Tree)
    requires IsLeaf(t) && (q.state == BINARY_VALUES || q.state == IN_BSON_TYPE) && q.field == TYPE
    requires q.state == BINARY_VALUES ==> !q.data.binaryLegacy
    requires ValidText(t).Is? && ScanHex(UpToNul(t.text)).NoHex? && q.state == IN_BSON_TYPE ==> q.data.hasBinary
    ensures match Subtype(t)
            case Is(n) => Leafed(q, t) == q.(data := q.data.(hasSubtype := true, subtype := n,
                                                             binaryLegacy := q.data.binaryLegacy || q.state == IN_BSON_TYPE))
            case Refused => Leafed(q, t).state == ERROR
            case Silent => Leafed(q, t).state == UNMODELLED
  {
    hide Utf8.Valid, NumberString, OidFromText, UpToNul, ScanHex, Push;
  }

  /** The operand of a query operator opens a document for itself. */
  lemma TypeLeaf(q: Reader, t: Tree, key: CString)
    requires IsLeaf(t) && q.state == IN_BSON_TYPE && q.field == TYPE && !q.data.hasBinary && q.bsonType == 0x05
    requires q.levels != [] && |q.levels| < STACK_MAX && q.key.Some? && q.key.value == key
    ensures match TypeAlone(t)
            case Is(v) => Leafed(q, t).state == REGULAR && Leafed(q, t).levels == q.levels + [Level(false, 0, false, false)]
                          && Leafed(q, t).ops == q.ops + [Begin(key, false), Put(v.fields[0])] && v == Document(v.fields) && |v.fields| == 1
            case Refused =>
              Halts(Leafed(q, t)) || (Leafed(q, t).state == IN_BSON_TYPE && Leafed(q, t).key.Some? && !Leafed(q, t).data.hasBinary
                                      && Leafed(q, t).bsonType == 0x05)
            case Silent => Leafed(q, t).state == UNMODELLED
    ensures TypeAlone(t).Refused? ==> Leafed(q, t).state != UNMODELLED
  {
    LiteralIsCString(TYPE);
    hide Utf8.Valid, NumberString, OidFromText, UpToNul, ScanHex, Literal;
  }

  lemma LiteralIsCString(k: Keyword)
    ensures 0 !in Literal(k)
  {
    LiteralIsPlain(k);
  }

  lemma TimeLeaf(q: Reader, t: Tree)
    requires IsLeaf(t) && q.state == TIMESTAMP_VALUES && (q.field == T || q.field == I)
    ensures match TimePart(t)
            case Is(n) => Leafed(q, t) == q.(data := if q.field == T then q.data.(hasT := true, t := n) else q.data.(hasI := true, i := n))
            case Refused => Leafed(q, t).state == ERROR
            case Silent => false
  {
    hide Utf8.Valid, NumberString, OidFromText, BinaryElem;
  }

  lemma DateLeaf(q: Reader, t: Tree)
    requires IsLeaf(t) && q.state == DATE_NUMBERLONG && q.field == INT64
    ensures match Written(t)
            case Is(z) => Leafed(q, t) == q.(data := q.data.(date := z))
            case Refused => Leafed(q, t).state == ERROR
            case Silent => false
  {
    hide Utf8.Valid, OidFromText, BinaryElem, ParseInt64, Range.Outcome;
  }

  predicate IsScalarKey(k: Keyword) { Tag(k) != 0 && k !in {REGEX, OPTIONS, TYPE, BINARY, SYMBOL} }

  /** What the single value of a wrapper leaves to be appended. */
  ghost predicate Gathered(q: Reader, p: Reader, m: Meaning<Value>) {
    match m
    case Refused => p.state == ERROR
    case Silent => p.state == UNMODELLED
    case Is(v) =>
      p.state == IN_BSON_TYPE && p.key == q.key && p.levels == q.levels && p.ops == q.ops
      && AppendTyped(p.(state := REGULAR)) == Append(p.(state := REGULAR), v)
  }

  lemma NumberLeaf(q: Reader, k: Keyword, t: Tree)
    requires k in {INT32, INT64, DECIMAL128} && IsLeaf(t) && q.state == IN_BSON_TYPE && q.field == k && q.bsonType == Tag(k)
    ensures Gathered(q, Leafed(q, t), Scalar(k, t))
  {
    hide Utf8.Valid, OidFromText, BinaryElem, ParseInt64, Range.Outcome, Append, AppendTyped, CharsOf, UpToNul;
    TypedAppends(Leafed(q, t).(state := REGULAR));
  }

  lemma OtherLeaf(q: Reader, k: Keyword, t: Tree)
    requires k in {OID, UNDEFINED, MINKEY, MAXKEY, DOUBLE} && IsLeaf(t) && q.state == IN_BSON_TYPE && q.field == k && q.bsonType == Tag(k)
    ensures Gathered(q, Leafed(q, t), Scalar(k, t))
  {
    hide Utf8.Valid, OidFromText, BinaryElem, NumberString, Append, AppendTyped;
    TypedAppends(Leafed(q, t).(state := REGULAR));
  }

  lemma DayLeaf(q: Reader, t: Tree)
    requires IsLeaf(t) && q.state == IN_BSON_TYPE && q.field == DATE && q.bsonType == 0x09
    ensures Gathered(q, Leafed(q, t), Scalar(DATE, t))
  {
    hide Utf8.Valid, OidFromText, BinaryElem, NumberString, Append;
  }

  lemma ScalarLeaf(q: Reader, k: Keyword, t: Tree)
    requires IsScalarKey(k) && IsLeaf(t) && q.state == IN_BSON_TYPE && q.field == k && q.bsonType == Tag(k)
    ensures Gathered(q, Leafed(q, t), Scalar(k, t))
  {
    hide Gathered, Leafed, Scalar;
    if k == DATE {
      DayLeaf(q, t);
    } else if k in {INT32, INT64, DECIMAL128} {
      NumberLeaf(q, k, t);
    } else {
      OtherLeaf(q, k, t);
    }
  }

  /** A wrapper that has not got all its parts. */
  ghost predicate LacksPart(p: Reader) { p.state == IN_BSON_TYPE && p.key.Some? && AppendTyped(p.(state := REGULAR)).state == ERROR }

  predicate IsFlat(v: Value) { !v.Document? && !v.Array? }

  /** A wrapper whose contents have been taken: its closing brace appends. */
  lemma WrapperMeans(r: Reader, key: CString, k: Keyword, inner: seq<Event>, m: Meaning<Value>)
    requires Expects(r, key) && Tag(k) != 0 && (m.Is? ==> IsFlat(m.value))
    requires Gathered(Entered(r, k), Feed(Entered(r, k), inner), m) || (m.Refused? && LacksPart(Feed(Entered(r, k), inner)))
    ensures Means(r, Feed(r, Wrap(k, inner)), key, m)
  {
    hide React, Feed, Literal, Fixup, AppendTyped, Append, ElementScript;
    StartsMap(r, key);
    Enter(r, k, key);
    WrapFeed(r, k, inner);
    var p := Feed(Entered(r, k), inner);
    if Halts(p) {
      FeedHalted(p, [EndMap]);
    } else {
      LastEvent(p, EndMap);
      EndsTyped(p);
      if m.Is? {
        FlatScript(key, m.value);
        CloseTyped(r, p, key, m.value);
      }
    }
  }

  lemma FlatScript(key: CString, v: Value)
    requires IsFlat(v)
    ensures ElementScript(Element(key, v)) == [Put(Element(key, v))]
  {}

  ghost function TwoLeafed(q: Reader, a: Tree, k: Keyword, b: Tree): Reader
    requires IsLeaf(a) && IsLeaf(b)
  {
    if Halts(Leafed(q, a)) then Leafed(q, a) else Leafed(React(Leafed(q, a), MapKey(Literal(k))), b)
  }

  /** Two leaves, the second one behind its key. */
  lemma PairFeed(q: Reader, a: Tree, k: Keyword, b: Tree)
    requires IsLeaf(a) && IsLeaf(b) && q.state != REGULAR && !Halts(q)
    requires var f := Leafed(q, a);
             !Halts(f) ==> f.state != REGULAR && React(f, MapKey(Literal(k))).state != REGULAR && !Halts(React(f, MapKey(Literal(k))))
    ensures Feed(q, TreeEvents(a) + ([MapKey(Literal(k))] + TreeEvents(b))) == TwoLeafed(q, a, k, b)
  {
    hide React, Feed, Literal, TreeEvents, Leafed;
    var rest := [MapKey(Literal(k))] + TreeEvents(b);
    LeafFeed(q, a);
    FeedConcat(q, TreeEvents(a), rest);
    var f := Leafed(q, a);
    if Halts(f) {
      FeedHalted(f, rest);
    } else {
      FeedOne(f, MapKey(Literal(k)), TreeEvents(b));
      LeafFeed(React(f, MapKey(Literal(k))), b);
    }
  }

  /** A further key of the same type inside a wrapper. */
  lemma FurtherKey(q: Reader, k: Keyword)
    requires q.state == IN_BSON_TYPE && k in {REGEX, OPTIONS, BINARY, TYPE} && q.bsonType == Tag(k)
    ensures React(q, MapKey(Literal(k))) == q.(field := k)
  {
    hide Literal, React, Tag;
    LiteralIsUtf8(k);
    WrapperKeyOfLiteral(k);
    InnerWrapperKey(q, Literal(k), k);
  }

  lemma WrapperKeyOfLiteral(k: Keyword)
    requires k in {REGEX, OPTIONS, BINARY, TYPE}
    ensures WrapperKey(Literal(k)) == k
  {
    assert k != OTHER;
    KeywordOfLiteral(k);
    LiteralIsCString(k);
    PrintableUpToNul(Literal(k));
    hide Literal, KeywordOf, UpToNul;
  }

  lemma InnerWrapperKey(q: Reader, text: seq<byte>, k: Keyword)
    requires q.state == IN_BSON_TYPE && WrapperKey(text) == k && Utf8.Valid(text, true)
    requires k in {REGEX, OPTIONS, BINARY, TYPE} && q.bsonType == Tag(k)
    ensures React(q, MapKey(text)) == q.(field := k)
  {
    hide WrapperKey, KeywordOf, Utf8.Valid, UpToNul, IsKnown, Push, PlainKey;
    assert React(q, MapKey(text)) == TypeKey(q, k);
  }

  lemma TwoEventsOf(a: Member, b: Member)
    ensures MemberEvents([a, b]) == [MapKey(a.key)] + (TreeEvents(a.value) + ([MapKey(b.key)] + TreeEvents(b.value)))
    ensures MemberEvents([a]) == [MapKey(a.key)] + TreeEvents(a.value)
  {
    hide TreeEvents;
    assert [a, b][1..] == [b] && [b][1..] == [] && [a][1..] == [];
    assert MemberEvents([]) == [];
    assert MemberEvents([b]) == [MapKey(b.key)] + TreeEvents(b.value) + [];
  }

  lemma WrapOfOne(k: Keyword, t: Tree)
    ensures TreeEvents(Obj([Member(Literal(k), t)])) == Wrap(k, TreeEvents(t))
  {
    var a := Member(Literal(k), t);
    TwoEventsOf(a, a);
    assert TreeEvents(Obj([a])) == [StartMap] + MemberEvents([a]) + [EndMap];
    hide TreeEvents, Literal, MemberEvents;
    assert [StartMap] + ([MapKey(a.key)] + TreeEvents(t)) + [EndMap] == [StartMap, MapKey(a.key)] + TreeEvents(t) + [EndMap];
  }

  lemma WrapOfTwo(j: Keyword, a: Tree, k: Keyword, b: Tree)
    ensures TreeEvents(Obj([Member(Literal(j), a), Member(Literal(k), b)]))
         == Wrap(j, TreeEvents(a) + ([MapKey(Literal(k))] + TreeEvents(b)))
  {
    var x, y := Member(Literal(j), a), Member(Literal(k), b);
    TwoEventsOf(x, y);
    assert TreeEvents(Obj([x, y])) == [StartMap] + MemberEvents([x, y]) + [EndMap];
    hide TreeEvents, Literal, MemberEvents;
    var inner := TreeEvents(a) + ([MapKey(y.key)] + TreeEvents(b));
    assert [StartMap] + ([MapKey(x.key)] + inner) + [EndMap] == [StartMap, MapKey(x.key)] + inner + [EndMap];
  }

  /** A wrapper of one scalar. */
  lemma ScalarMeans(r: Reader, key: CString, k: Keyword, t: Tree)
    requires Expects(r, key) && IsScalarKey(k) && IsLeaf(t)
    ensures Means(r, Feed(r, Wrap(k, TreeEvents(t))), key, Scalar(k, t))
  {
    hide React, Feed, Literal, Fixup, Gathered, Leafed, TreeEvents, Wrap, Means;
    Enter(r, k, key);
    var q := Entered(r, k);
    LeafFeed(q, t);
    ScalarLeaf(q, k, t);
    ScalarIsFlat(k, t);
    WrapperMeans(r, key, k, TreeEvents(t), Scalar(k, t));
  }

  lemma ScalarIsFlat(k: Keyword, t: Tree)
    ensures Scalar(k, t).Is? ==> IsFlat(Scalar(k, t).value)
  {
    hide Utf8.Valid, Range.Outcome, ParseInt64;
  }

  lemma SymbolMeans(r: Reader, key: CString, t: Tree)
    requires Expects(r, key) && IsLeaf(t)
    ensures Means(r, Feed(r, Wrap(SYMBOL, TreeEvents(t))), key, Scalar(SYMBOL, t))
  {
    hide Fixup, Literal, Utf8.Valid, React, Feed, Leafed, Reads, Expects;
    if ValidText(t).Is? {
      SymbolReads(r, key, t.text);
      assert TreeEvents(t) == [StringRead(t.text)];
      assert ValueEvents(Symbol(t.text)) == Wrap(SYMBOL, [StringRead(t.text)]);
    } else {
      EnterFresh(r, SYMBOL, key);
      var q := Entered(r, SYMBOL);
      LeafFeed(q, t);
      SymbolRefuses(q, t);
      WrapperMeans(r, key, SYMBOL, TreeEvents(t), Refused);
    }
  }

  lemma EnterFresh(r: Reader, k: Keyword, key: CString)
    requires Expects(r, key) && Tag(k) != 0
    ensures var q := Entered(r, k);
            q.state == IN_BSON_TYPE && q.field == k && q.bsonType == Tag(k) && q.data == NO_DATA && q.key == Fixup(r).key
            && q.levels == Fixup(r).levels && q.ops == r.ops
  {
    hide React, Literal, Fixup;
    Enter(r, k, key);
  }

  lemma SymbolRefuses(q: Reader, t: Tree)
    requires q.state == IN_BSON_TYPE && q.field == SYMBOL && IsLeaf(t) && !ValidText(t).Is?
    ensures Leafed(q, t).state == ERROR
  {
    hide Utf8.Valid;
  }

  /** The legacy regular expression. */
  lemma RegexPairMeans(r: Reader, key: CString, j: Keyword, a: Tree, k: Keyword, b: Tree)
    requires Expects(r, key) && IsLeaf(a) && IsLeaf(b) && ((j == REGEX && k == OPTIONS) || (j == OPTIONS && k == REGEX))
    ensures Means(r, Feed(r, Wrap(j, TreeEvents(a) + ([MapKey(Literal(k))] + TreeEvents(b)))), key,
                  if j == REGEX then RegexParts(a, b) else RegexParts(b, a))
  {
    hide React, Feed, Literal, Fixup, Leafed, TreeEvents, Wrap, Means, Utf8.Valid, AppendTyped, Append;
    Enter(r, j, key);
    var q := Entered(r, j);
    TextStep(q, a);
    var f := Leafed(q, a);
    if !Halts(f) {
      FurtherKey(f, k);
      TextStep(React(f, MapKey(Literal(k))), b);
    }
    PairFeed(q, a, k, b);
    var m := if j == REGEX then RegexParts(a, b) else RegexParts(b, a);
    if m.Is? {
      RegexCloses(Leafed(React(f, MapKey(Literal(k))), b).(state := REGULAR));
    }
    WrapperMeans(r, key, j, TreeEvents(a) + ([MapKey(Literal(k))] + TreeEvents(b)), m);
  }

  lemma RegexCloses(p: Reader)
    requires p.bsonType == 0x0b
    ensures p.data.hasPattern && p.data.hasOptions ==> AppendTyped(p) == Append(p, RegexFrom(p.buf0, p.buf1))
    ensures !p.data.hasPattern || !p.data.hasOptions ==> AppendTyped(p).state == ERROR
  {
    hide Append, SortedOptions, UpToNul;
  }

  lemma RegexAloneMeans(r: Reader, key: CString, k: Keyword, t: Tree)
    requires Expects(r, key) && IsLeaf(t) && (k == REGEX || k == OPTIONS)
    ensures Means(r, Feed(r, Wrap(k, TreeEvents(t))), key, Refused)
  {
    hide React, Feed, Literal, Fixup, Leafed, TreeEvents, Wrap, Means, Utf8.Valid, AppendTyped, Append;
    Enter(r, k, key);
    var q := Entered(r, k);
    LeafFeed(q, t);
    TextStep(q, t);
    if ValidText(t).Is? {
      RegexCloses(Leafed(q, t).(state := REGULAR));
    }
    WrapperMeans(r, key, k, TreeEvents(t), Refused);
  }

  lemma BinaryCloses(p: Reader)
    requires p.bsonType == 0x05
    ensures p.data.hasBinary && p.data.hasSubtype ==> AppendTyped(p) == Append(p, Binary(p.data.subtype, p.buf0))
    ensures !p.data.hasBinary || !p.data.hasSubtype ==> AppendTyped(p).state == ERROR
  {
    hide Append;
  }

  /** The legacy binary value, data first. */
  lemma BinaryTypeMeans(r: Reader, key: CString, a: Tree, b: Tree)
    requires Expects(r, key) && IsLeaf(a) && IsLeaf(b)
    ensures Means(r, Feed(r, Wrap(BINARY, TreeEvents(a) + ([MapKey(Literal(TYPE))] + TreeEvents(b)))), key, DataAndSubtype(a, b))
  {
    hide React, Feed, Literal, Fixup, Leafed, TreeEvents, Wrap, Means, AppendTyped, Append, Base64Bytes, Subtype, ValidText, ScanHex, UpToNul;
    Enter(r, BINARY, key);
    var q := Entered(r, BINARY);
    Base64Leaf(q, a);
    var f := Leafed(q, a);
    var m := DataAndSubtype(a, b);
    if !Halts(f) {
      FurtherKey(f, TYPE);
      SubtypeLeaf(React(f, MapKey(Literal(TYPE))), b);
    }
    PairFeed(q, a, TYPE, b);
    if m.Is? {
      BinaryCloses(Leafed(React(f, MapKey(Literal(TYPE))), b).(state := REGULAR));
    }
    WrapperMeans(r, key, BINARY, TreeEvents(a) + ([MapKey(Literal(TYPE))] + TreeEvents(b)), m);
  }

  /** The same, subtype first. */
  lemma TypeBinaryMeans(r: Reader, key: CString, a: Tree, b: Tree)
    requires Expects(r, key) && IsLeaf(a) && IsLeaf(b) && (ValidText(a).Is? ==> !ScanHex(UpToNul(a.text)).NoHex?)
    ensures Means(r, Feed(r, Wrap(TYPE, TreeEvents(a) + ([MapKey(Literal(BINARY))] + TreeEvents(b)))), key, SubtypeAndData(a, b))
  {
    hide React, Feed, Literal, Fixup, Leafed, TreeEvents, Wrap, Means, AppendTyped, Append, Base64Bytes, Subtype, ValidText, ScanHex, UpToNul;
    Enter(r, TYPE, key);
    var q := Entered(r, TYPE);
    SubtypeLeaf(q, a);
    var f := Leafed(q, a);
    var m := SubtypeAndData(a, b);
    if !Halts(f) {
      FurtherKey(f, BINARY);
      Base64Leaf(React(f, MapKey(Literal(BINARY))), b);
    }
    PairFeed(q, a, BINARY, b);
    if m.Is? {
      BinaryCloses(Leafed(React(f, MapKey(Literal(BINARY))), b).(state := REGULAR));
    }
    WrapperMeans(r, key, TYPE, TreeEvents(a) + ([MapKey(Literal(BINARY))] + TreeEvents(b)), m);
  }

  lemma BinaryAloneMeans(r: Reader, key: CString, t: Tree)
    requires Expects(r, key) && IsLeaf(t)
    ensures Means(r, Feed(r, Wrap(BINARY, TreeEvents(t))), key, Single(BINARY, t))
  {
    hide React, Feed, Literal, Fixup, Leafed, TreeEvents, Wrap, Means, AppendTyped, Append, Base64Bytes;
    Enter(r, BINARY, key);
    var q := Entered(r, BINARY);
    LeafFeed(q, t);
    Base64Leaf(q, t);
    if Base64Bytes(t).Is? {
      BinaryCloses(Leafed(q, t).(state := REGULAR));
    }
    WrapperMeans(r, key, BINARY, TreeEvents(t), Single(BINARY, t));
  }

  /** A query operator. */
  lemma OperatorMeans(r: Reader, key: CString, t: Tree)
    requires Expects(r, key) && IsLeaf(t) && |r.levels| < STACK_MAX && TypeAlone(t).Is?
    ensures Reads(r, Feed(r, Wrap(TYPE, TreeEvents(t))), key, TypeAlone(t).value)
  {
    hide React, Feed, Literal, Fixup, Leafed, TreeEvents, Wrap, AppendTyped, Append, TypeAlone, ElementScript, Script;
    StartsMap(r, key);
    Enter(r, TYPE, key);
    var q := Entered(r, TYPE);
    LeafFeed(q, t);
    TypeLeaf(q, t, key);
    WrapFeed(r, TYPE, TreeEvents(t));
    var p, es := Leafed(q, t), TypeAlone(t).value.fields;
    LastEvent(p, EndMap);
    ClosesDocument(p);
    NestedScripts(key, es);
    OperatorIsText(t);
    OneScript(es);
    assert p.levels[..|p.levels| - 1] == q.levels;
    assert (r.ops + [Begin(key, false), Put(es[0])]) + [End] == r.ops + ([Begin(key, false)] + [Put(es[0])] + [End]);
  }

  lemma OperatorIsText(t: Tree)
    requires TypeAlone(t).Is?
    ensures TypeAlone(t).value.Document? && |TypeAlone(t).value.fields| == 1 && TypeAlone(t).value.fields[0].value.Utf8?
  {
    hide ScanHex, Utf8.Valid, Literal;
  }

  /** A query operator, or a subtype without its data. */
  lemma TypeAloneMeans(r: Reader, key: CString, t: Tree)
    requires Expects(r, key) && IsLeaf(t) && |r.levels| < STACK_MAX
    ensures Means(r, Feed(r, Wrap(TYPE, TreeEvents(t))), key, TypeAlone(t))
  {
    hide React, Feed, Literal, Fixup, Leafed, TreeEvents, Wrap, AppendTyped, Append, TypeAlone, Reads;
    if TypeAlone(t).Is? {
      OperatorMeans(r, key, t);
    } else {
      StartsMap(r, key);
      Enter(r, TYPE, key);
      var q := Entered(r, TYPE);
      LeafFeed(q, t);
      TypeLeaf(q, t, key);
      if !Halts(Leafed(q, t)) {
        BinaryCloses(Leafed(q, t).(state := REGULAR));
      }
      WrapperMeans(r, key, TYPE, TreeEvents(t), TypeAlone(t));
    }
  }

  lemma OneScript(es: seq<Element>)
    requires |es| == 1
    ensures IsFlat(es[0].value) ==> Script(es) == [Put(es[0])]
  {
    assert es[1..] == [] && Script([]) == [];
  }

  /** Inside the second map of a wrapper. */
  ghost function Second(r: Reader, k: Keyword): Reader { React(Entered(r, k), StartMap) }

  function SecondState(k: Keyword): ReadState {
    match k
    case DATE => DATE_NUMBERLONG
    case TIMESTAMP => TIMESTAMP_VALUES
    case REGULAR_EXPRESSION => REGEX_VALUES
    case _ => BINARY_VALUES
  }

  function SecondTag(k: Keyword): byte {
    match k
    case DATE => 0x09
    case TIMESTAMP => 0x11
    case REGULAR_EXPRESSION => 0x0b
    case _ => 0x05
  }

  function SecondEnd(k: Keyword): ReadState {
    match k
    case DATE => DATE_ENDMAP
    case TIMESTAMP => TIMESTAMP_ENDMAP
    case REGULAR_EXPRESSION => REGEX_ENDMAP
    case _ => BINARY_ENDMAP
  }

  predicate HasSecond(k: Keyword) { k in {DATE, TIMESTAMP, REGULAR_EXPRESSION, BINARY} }

  lemma EnterSecond(r: Reader, k: Keyword, key: CString)
    requires Expects(r, key) && HasSecond(k)
    ensures var a := Second(r, k);
            && a.state == SecondState(k) && a.bsonType == SecondTag(k) && a.data == NO_DATA && a.levels == Fixup(r).levels
            && a.key == Fixup(r).key && a.ops == r.ops && Entering(Entered(r, k).state) && a.key.Some?
  {
    hide React, Literal, Fixup;
    StartsMap(r, key);
    if k == TIMESTAMP || k == REGULAR_EXPRESSION {
      EnterOther(r, k, key);
    } else {
      Enter(r, k, key);
    }
    SecondBrace(Entered(r, k));
  }

  /** What the members of the second map leave to be appended. */
  ghost predicate Second2(a: Reader, p: Reader, k: Keyword, m: Meaning<Value>) {
    match m
    case Refused => p.state == ERROR || (p.state == SecondState(k) && React(p, EndMap).state == ERROR)
    case Silent => p.state == UNMODELLED
    case Is(v) =>
      p.state == SecondState(k) && p.key == a.key && p.levels == a.levels && p.ops == a.ops
      && React(p, EndMap) == Append(p.(state := SecondEnd(k)), v)
  }

  lemma Closes(a: Reader, p: Reader, k: Keyword, v: Value)
    requires p.state == SecondState(k) && p.key == a.key && p.levels == a.levels && p.ops == a.ops
    requires React(p, EndMap) == Append(p.(state := SecondEnd(k)), v)
    ensures Second2(a, p, k, Is(v))
  {
    hide React, Append;
  }

  lemma Stops(a: Reader, p: Reader, k: Keyword, m: Meaning<Value>)
    requires (m.Refused? && p.state == ERROR) || (m.Silent? && p.state == UNMODELLED)
    ensures Second2(a, p, k, m)
  {
    hide React, Append;
  }

  lemma SecondMeans(r: Reader, key: CString, k: Keyword, body: seq<Event>, m: Meaning<Value>)
    requires Expects(r, key) && HasSecond(k) && (m.Is? ==> IsFlat(m.value))
    requires Second2(Second(r, k), Feed(Second(r, k), body), k, m)
    ensures Means(r, Feed(r, Wrap(k, [StartMap] + body + [EndMap])), key, m)
  {
    hide React, Feed, Literal, Fixup, ElementScript, Reads, Append, Wrap;
    EnterSecond(r, k, key);
    var p := Feed(Second(r, k), body);
    if m.Is? {
      FlatScript(key, m.value);
      StartsMap(r, key);
      NestedWrap(r, key, m.value, k, body, p, SecondEnd(k));
    } else {
      StartsMap(r, key);
      SecondFeed(r, k, body);
      if !Halts(p) {
        LastEvent(p, EndMap);
        FeedHalted(React(p, EndMap), [EndMap]);
      } else {
        FeedHalted(p, [EndMap]);
      }
    }
  }

  lemma SecondFeed(r: Reader, k: Keyword, body: seq<Event>)
    requires r.state == REGULAR && React(r, StartMap).state == IN_START_MAP && Entering(Entered(r, k).state) && !Halts(Second(r, k))
    ensures Feed(r, Wrap(k, [StartMap] + body + [EndMap])) == Feed(Feed(Feed(Second(r, k), body), [EndMap]), [EndMap])
  {
    hide React, Feed, Literal, Wrap;
    var q := Entered(r, k);
    WrapFeed(r, k, [StartMap] + body + [EndMap]);
    assert [StartMap] + body + [EndMap] == [StartMap] + (body + [EndMap]);
    FeedOne(q, StartMap, body + [EndMap]);
    FeedConcat(Second(r, k), body, [EndMap]);
  }

  /** After two leaves, the second one behind its key. */
  ghost function Twice(a: Reader, j: Keyword, x: Tree, k: Keyword, y: Tree): Reader
    requires IsLeaf(x) && IsLeaf(y)
  {
    var f := Leafed(a.(field := FieldFor(j)), x);
    if Halts(f) then f else Leafed(f.(field := FieldFor(k)), y)
  }

  /** Two members of the second map. */
  lemma SecondPairFeed(a: Reader, j: Keyword, x: Tree, k: Keyword, y: Tree)
    requires IsLeaf(x) && IsLeaf(y) && BelongsIn(a, j)
    requires var f := Leafed(a.(field := FieldFor(j)), x); Halts(f) || BelongsIn(f, k)
    ensures Feed(a, MemberEvents([Member(Literal(j), x), Member(Literal(k), y)]))
         == Twice(a, j, x, k, y)
  {
    hide React, Feed, Literal, TreeEvents, Leafed, MemberEvents;
    TwoEventsOf(Member(Literal(j), x), Member(Literal(k), y));
    InnerKey(a, j);
    var b := React(a, MapKey(Literal(j)));
    FeedOne(a, MapKey(Literal(j)), TreeEvents(x) + ([MapKey(Literal(k))] + TreeEvents(y)));
    var f := Leafed(b, x);
    if !Halts(f) {
      InnerKey(f, k);
    }
    PairFeed(b, x, k, y);
  }

  lemma PartsAreFlat(x: Tree, y: Tree)
    ensures RegexParts(x, y).Is? ==> IsFlat(RegexParts(x, y).value)
    ensures RegexParts(y, x).Is? ==> IsFlat(RegexParts(y, x).value)
    ensures TimeParts(x, y).Is? ==> IsFlat(TimeParts(x, y).value)
    ensures TimeParts(y, x).Is? ==> IsFlat(TimeParts(y, x).value)
    ensures DataAndSubtype(x, y).Is? ==> IsFlat(DataAndSubtype(x, y).value)
    ensures SubtypeAndData(x, y).Is? ==> IsFlat(SubtypeAndData(x, y).value)
  {
    hide Base64Bytes, Subtype, TimePart, ValidText;
  }

  lemma TimeStays(q: Reader, t: Tree)
    requires IsLeaf(t) && q.state == TIMESTAMP_VALUES && (q.field == T || q.field == I)
    ensures var f := Leafed(q, t); Halts(f) || (f.state == TIMESTAMP_VALUES && f.bsonType == q.bsonType)
    ensures !TimePart(t).Silent?
  {
    hide Leafed, TimePart;
    TimeLeaf(q, t);
  }

  lemma TwoTimes(a: Reader, x: Tree, y: Tree)
    requires a.state == TIMESTAMP_VALUES && a.data == NO_DATA && IsLeaf(x) && IsLeaf(y)
    ensures match TimeParts(x, y)
            case Is(v) => v.Timestamp? && Twice(a, T, x, I, y) == a.(field := I, data := NO_DATA.(hasT := true, t := v.t, hasI := true, i := v.inc))
            case Refused => Twice(a, T, x, I, y).state == ERROR
            case Silent => false
  {
    hide Leafed, TimePart;
    TimeLeaf(a.(field := T), x);
    if TimePart(x).Is? {
      TimeLeaf(Leafed(a.(field := T), x).(field := I), y);
    }
  }

  lemma TwoTimesTurned(a: Reader, x: Tree, y: Tree)
    requires a.state == TIMESTAMP_VALUES && a.data == NO_DATA && IsLeaf(x) && IsLeaf(y)
    ensures match TimeParts(y, x)
            case Is(v) => v.Timestamp? && Twice(a, I, x, T, y) == a.(field := T, data := NO_DATA.(hasT := true, t := v.t, hasI := true, i := v.inc))
            case Refused => Twice(a, I, x, T, y).state == ERROR
            case Silent => false
  {
    hide Leafed, TimePart;
    TimeStays(a.(field := I), y);
    TimeLeaf(a.(field := I), x);
    if TimePart(x).Is? {
      TimeLeaf(Leafed(a.(field := I), x).(field := T), y);
    }
  }

  lemma TimeBody(a: Reader, x: Tree, y: Tree)
    requires a.state == SecondState(TIMESTAMP) && a.bsonType == SecondTag(TIMESTAMP) && a.data == NO_DATA && a.key.Some? && IsLeaf(x) && IsLeaf(y)
    ensures Second2(a, Feed(a, MemberEvents([Member(Literal(T), x), Member(Literal(I), y)])), TIMESTAMP, TimeParts(x, y))
  {
    hide Second2, React, Feed, Literal, Leafed, TreeEvents, MemberEvents, Append, TimeParts, Twice;
    TimeStays(a.(field := T), x);
    TwoTimes(a, x, y);
    SecondPairFeed(a, T, x, I, y);
    if TimeParts(x, y).Is? {
      TimestampEnds(Twice(a, T, x, I, y));
      Closes(a, Twice(a, T, x, I, y), TIMESTAMP, TimeParts(x, y).value);
    } else {
      Stops(a, Twice(a, T, x, I, y), TIMESTAMP, TimeParts(x, y));
    }
  }

  /** A timestamp. */
  lemma NestedTime(r: Reader, key: CString, x: Tree, y: Tree)
    requires Expects(r, key) && IsLeaf(x) && IsLeaf(y)
    ensures Means(r, Feed(r, Wrap(TIMESTAMP, TreeEvents(Obj([Member(Literal(T), x), Member(Literal(I), y)])))), key, TimeParts(x, y))
  {
    hide React, Feed, Literal, Fixup, TreeEvents, Wrap, Means, MemberEvents, Second2, RegexParts, TimeParts;
    EnterSecond(r, TIMESTAMP, key);
    TimeBody(Second(r, TIMESTAMP), x, y);
    PartsAreFlat(x, y);
    SecondMeans(r, key, TIMESTAMP, MemberEvents([Member(Literal(T), x), Member(Literal(I), y)]), TimeParts(x, y));
    ObjEvents([Member(Literal(T), x), Member(Literal(I), y)]);
  }

  lemma TimeBodyTurned(a: Reader, x: Tree, y: Tree)
    requires a.state == SecondState(TIMESTAMP) && a.bsonType == SecondTag(TIMESTAMP) && a.data == NO_DATA && a.key.Some? && IsLeaf(x) && IsLeaf(y)
    ensures Second2(a, Feed(a, MemberEvents([Member(Literal(I), x), Member(Literal(T), y)])), TIMESTAMP, TimeParts(y, x))
  {
    hide Second2, React, Feed, Literal, Leafed, TreeEvents, MemberEvents, Append, TimeParts, Twice;
    TimeStays(a.(field := I), x);
    TwoTimesTurned(a, x, y);
    SecondPairFeed(a, I, x, T, y);
    if TimeParts(y, x).Is? {
      TimestampEnds(Twice(a, I, x, T, y));
      Closes(a, Twice(a, I, x, T, y), TIMESTAMP, TimeParts(y, x).value);
    } else {
      Stops(a, Twice(a, I, x, T, y), TIMESTAMP, TimeParts(y, x));
    }
  }

  lemma NestedTimeTurned(r: Reader, key: CString, x: Tree, y: Tree)
    requires Expects(r, key) && IsLeaf(x) && IsLeaf(y)
    ensures Means(r, Feed(r, Wrap(TIMESTAMP, TreeEvents(Obj([Member(Literal(I), x), Member(Literal(T), y)])))), key, TimeParts(y, x))
  {
    hide React, Feed, Literal, Fixup, TreeEvents, Wrap, Means, MemberEvents, Second2, RegexParts, TimeParts;
    EnterSecond(r, TIMESTAMP, key);
    TimeBodyTurned(Second(r, TIMESTAMP), x, y);
    PartsAreFlat(x, y);
    SecondMeans(r, key, TIMESTAMP, MemberEvents([Member(Literal(I), x), Member(Literal(T), y)]), TimeParts(y, x));
    ObjEvents([Member(Literal(I), x), Member(Literal(T), y)]);
  }

  lemma ObjEvents(ms: seq<Member>)
    ensures TreeEvents(Obj(ms)) == [StartMap] + MemberEvents(ms) + [EndMap]
  {}

  lemma TextStays(q: Reader, t: Tree)
    requires IsLeaf(t) && q.state == REGEX_VALUES && (q.field == PATTERN || q.field == PLAIN_OPTIONS)
    ensures var f := Leafed(q, t); Halts(f) || (f.state == REGEX_VALUES && f.bsonType == q.bsonType)
  {
    hide Leafed, Utf8.Valid;
    TextStep(q, t);
  }

  lemma TwoTexts(a: Reader, x: Tree, y: Tree)
    requires a.state == REGEX_VALUES && a.data == NO_DATA && IsLeaf(x) && IsLeaf(y)
    ensures match RegexParts(x, y)
            case Is(v) => x.Str? && y.Str? && v == RegexFrom(x.text, y.text) && Twice(a, PATTERN, x, PLAIN_OPTIONS, y)
                          == a.(field := PLAIN_OPTIONS, data := NO_DATA.(hasPattern := true, hasOptions := true), buf0 := x.text, buf1 := y.text)
            case Refused => Twice(a, PATTERN, x, PLAIN_OPTIONS, y).state == ERROR
            case Silent => false
  {
    hide Leafed, Utf8.Valid, RegexFrom;
    TextStep(a.(field := PATTERN), x);
    if ValidText(x).Is? {
      TextStep(Leafed(a.(field := PATTERN), x).(field := PLAIN_OPTIONS), y);
    }
  }

  lemma RegexBody(a: Reader, x: Tree, y: Tree)
    requires a.state == SecondState(REGULAR_EXPRESSION) && a.bsonType == SecondTag(REGULAR_EXPRESSION) && a.data == NO_DATA && a.key.Some? && IsLeaf(x) && IsLeaf(y)
    ensures Second2(a, Feed(a, MemberEvents([Member(Literal(PATTERN), x), Member(Literal(PLAIN_OPTIONS), y)])), REGULAR_EXPRESSION, RegexParts(x, y))
  {
    hide Second2, React, Feed, Literal, Leafed, TreeEvents, MemberEvents, Append, RegexParts, Twice;
    TextStays(a.(field := PATTERN), x);
    TwoTexts(a, x, y);
    SecondPairFeed(a, PATTERN, x, PLAIN_OPTIONS, y);
    if RegexParts(x, y).Is? {
      RegexEndsWith(Twice(a, PATTERN, x, PLAIN_OPTIONS, y));
      Closes(a, Twice(a, PATTERN, x, PLAIN_OPTIONS, y), REGULAR_EXPRESSION, RegexParts(x, y).value);
    } else {
      Stops(a, Twice(a, PATTERN, x, PLAIN_OPTIONS, y), REGULAR_EXPRESSION, RegexParts(x, y));
    }
  }

  /** A regular expression in canonical form. */
  lemma NestedRegex(r: Reader, key: CString, x: Tree, y: Tree)
    requires Expects(r, key) && IsLeaf(x) && IsLeaf(y)
    ensures Means(r, Feed(r, Wrap(REGULAR_EXPRESSION, TreeEvents(Obj([Member(Literal(PATTERN), x), Member(Literal(PLAIN_OPTIONS), y)])))), key, RegexParts(x, y))
  {
    hide React, Feed, Literal, Fixup, TreeEvents, Wrap, Means, MemberEvents, Second2, RegexParts, TimeParts;
    EnterSecond(r, REGULAR_EXPRESSION, key);
    RegexBody(Second(r, REGULAR_EXPRESSION), x, y);
    PartsAreFlat(x, y);
    SecondMeans(r, key, REGULAR_EXPRESSION, MemberEvents([Member(Literal(PATTERN), x), Member(Literal(PLAIN_OPTIONS), y)]), RegexParts(x, y));
    ObjEvents([Member(Literal(PATTERN), x), Member(Literal(PLAIN_OPTIONS), y)]);
  }

  lemma TwoTextsTurned(a: Reader, x: Tree, y: Tree)
    requires a.state == REGEX_VALUES && a.data == NO_DATA && IsLeaf(x) && IsLeaf(y)
    ensures match RegexParts(y, x)
            case Is(v) => x.Str? && y.Str? && v == RegexFrom(y.text, x.text) && Twice(a, PLAIN_OPTIONS, x, PATTERN, y)
                          == a.(field := PATTERN, data := NO_DATA.(hasPattern := true, hasOptions := true), buf0 := y.text, buf1 := x.text)
            case Refused => Twice(a, PLAIN_OPTIONS, x, PATTERN, y).state == ERROR
            case Silent => false
  {
    hide Leafed, Utf8.Valid, RegexFrom;
    TextStep(a.(field := PLAIN_OPTIONS), x);
    if ValidText(x).Is? {
      TextStep(Leafed(a.(field := PLAIN_OPTIONS), x).(field := PATTERN), y);
    }
  }

  lemma RegexBodyTurned(a: Reader, x: Tree, y: Tree)
    requires a.state == SecondState(REGULAR_EXPRESSION) && a.bsonType == SecondTag(REGULAR_EXPRESSION) && a.data == NO_DATA && a.key.Some? && IsLeaf(x) && IsLeaf(y)
    ensures Second2(a, Feed(a, MemberEvents([Member(Literal(PLAIN_OPTIONS), x), Member(Literal(PATTERN), y)])), REGULAR_EXPRESSION, RegexParts(y, x))
  {
    hide Second2, React, Feed, Literal, Leafed, TreeEvents, MemberEvents, Append, RegexParts, Twice;
    TextStays(a.(field := PLAIN_OPTIONS), x);
    TwoTextsTurned(a, x, y);
    SecondPairFeed(a, PLAIN_OPTIONS, x, PATTERN, y);
    if RegexParts(y, x).Is? {
      RegexEndsWith(Twice(a, PLAIN_OPTIONS, x, PATTERN, y));
      Closes(a, Twice(a, PLAIN_OPTIONS, x, PATTERN, y), REGULAR_EXPRESSION, RegexParts(y, x).value);
    } else {
      Stops(a, Twice(a, PLAIN_OPTIONS, x, PATTERN, y), REGULAR_EXPRESSION, RegexParts(y, x));
    }
  }

  lemma NestedRegexTurned(r: Reader, key: CString, x: Tree, y: Tree)
    requires Expects(r, key) && IsLeaf(x) && IsLeaf(y)
    ensures Means(r, Feed(r, Wrap(REGULAR_EXPRESSION, TreeEvents(Obj([Member(Literal(PLAIN_OPTIONS), x), Member(Literal(PATTERN), y)])))), key, RegexParts(y, x))
  {
    hide React, Feed, Literal, Fixup, TreeEvents, Wrap, Means, MemberEvents, Second2, RegexParts, TimeParts;
    EnterSecond(r, REGULAR_EXPRESSION, key);
    RegexBodyTurned(Second(r, REGULAR_EXPRESSION), x, y);
    PartsAreFlat(x, y);
    SecondMeans(r, key, REGULAR_EXPRESSION, MemberEvents([Member(Literal(PLAIN_OPTIONS), x), Member(Literal(PATTERN), y)]), RegexParts(y, x));
    ObjEvents([Member(Literal(PLAIN_OPTIONS), x), Member(Literal(PATTERN), y)]);
  }

  lemma RegexEndsWith(p: Reader)
    requires p.state == REGEX_VALUES && p.key.Some? && p.data.hasPattern && p.data.hasOptions
    ensures React(p, EndMap) == Append(p.(state := REGEX_ENDMAP), RegexFrom(p.buf0, p.buf1))
  {
    hide Append, SortedOptions, UpToNul;
  }

  lemma BinaryBody(a: Reader, x: Tree, y: Tree)
    requires a.state == SecondState(BINARY) && a.bsonType == SecondTag(BINARY) && a.data == NO_DATA && a.key.Some?
    requires IsLeaf(x) && IsLeaf(y)
    ensures Second2(a, Feed(a, MemberEvents([Member(Literal(BASE64), x), Member(Literal(SUBTYPE), y)])), BINARY, DataAndSubtype(x, y))
  {
    hide Second2, React, Feed, Literal, Leafed, TreeEvents, MemberEvents, Append, Base64Bytes, Subtype, ValidText, ScanHex, UpToNul;
    var f := Leafed(a.(field := BINARY), x);
    Base64Leaf(a.(field := BINARY), x);
    if !Halts(f) {
      SubtypeLeaf(f.(field := TYPE), y);
    }
    SecondPairFeed(a, BASE64, x, SUBTYPE, y);
    var p, m := if Halts(f) then f else Leafed(f.(field := TYPE), y), DataAndSubtype(x, y);
    if m.Is? {
      BinaryEnds(p);
      Closes(a, p, BINARY, m.value);
    } else {
      Stops(a, p, BINARY, m);
    }
  }

  /** A binary value in canonical form, data first. */
  lemma NestedBinary(r: Reader, key: CString, x: Tree, y: Tree)
    requires Expects(r, key) && IsLeaf(x) && IsLeaf(y)
    ensures Means(r, Feed(r, Wrap(BINARY, TreeEvents(Obj([Member(Literal(BASE64), x), Member(Literal(SUBTYPE), y)])))), key,
                  DataAndSubtype(x, y))
  {
    hide React, Feed, Literal, Fixup, TreeEvents, Wrap, Means, MemberEvents, Second2, RegexParts, TimeParts, DataAndSubtype, SubtypeAndData;
    EnterSecond(r, BINARY, key);
    BinaryBody(Second(r, BINARY), x, y);
    PartsAreFlat(x, y);
    SecondMeans(r, key, BINARY, MemberEvents([Member(Literal(BASE64), x), Member(Literal(SUBTYPE), y)]), DataAndSubtype(x, y));
    ObjEvents([Member(Literal(BASE64), x), Member(Literal(SUBTYPE), y)]);
  }

  lemma BinaryBodyTurned(a: Reader, x: Tree, y: Tree)
    requires a.state == SecondState(BINARY) && a.bsonType == SecondTag(BINARY) && a.data == NO_DATA && a.key.Some?
    requires IsLeaf(x) && IsLeaf(y)
    ensures Second2(a, Feed(a, MemberEvents([Member(Literal(SUBTYPE), x), Member(Literal(BASE64), y)])), BINARY, SubtypeAndData(x, y))
  {
    hide Second2, React, Feed, Literal, Leafed, TreeEvents, MemberEvents, Append, Base64Bytes, Subtype, ValidText, ScanHex, UpToNul;
    var f := Leafed(a.(field := TYPE), x);
    SubtypeLeaf(a.(field := TYPE), x);
    if !Halts(f) {
      Base64Leaf(f.(field := BINARY), y);
    }
    SecondPairFeed(a, SUBTYPE, x, BASE64, y);
    var p, m := if Halts(f) then f else Leafed(f.(field := BINARY), y), SubtypeAndData(x, y);
    if m.Is? {
      BinaryEnds(p);
      Closes(a, p, BINARY, m.value);
    } else {
      Stops(a, p, BINARY, m);
    }
  }

  /** The same, subtype first. */
  lemma NestedBinaryTurned(r: Reader, key: CString, x: Tree, y: Tree)
    requires Expects(r, key) && IsLeaf(x) && IsLeaf(y)
    ensures Means(r, Feed(r, Wrap(BINARY, TreeEvents(Obj([Member(Literal(SUBTYPE), x), Member(Literal(BASE64), y)])))), key,
                  SubtypeAndData(x, y))
  {
    hide React, Feed, Literal, Fixup, TreeEvents, Wrap, Means, MemberEvents, Second2, RegexParts, TimeParts, DataAndSubtype, SubtypeAndData;
    EnterSecond(r, BINARY, key);
    BinaryBodyTurned(Second(r, BINARY), x, y);
    PartsAreFlat(x, y);
    SecondMeans(r, key, BINARY, MemberEvents([Member(Literal(SUBTYPE), x), Member(Literal(BASE64), y)]), SubtypeAndData(x, y));
    ObjEvents([Member(Literal(SUBTYPE), x), Member(Literal(BASE64), y)]);
  }

  lemma NestedDate(r: Reader, key: CString, x: Tree)
    requires Expects(r, key) && IsLeaf(x)
    ensures var m := if Written(x).Is? then Is(DateTime(Written(x).value)) else Refused;
            Means(r, Feed(r, Wrap(DATE, TreeEvents(Obj([Member(Literal(INT64), x)])))), key, m)
  {
    hide React, Feed, Literal, Fixup, Leafed, TreeEvents, Wrap, Means, MemberEvents, Append, Written;
    EnterSecond(r, DATE, key);
    var a, body := Second(r, DATE), MemberEvents([Member(Literal(INT64), x)]);
    TwoEventsOf(Member(Literal(INT64), x), Member(Literal(INT64), x));
    InnerKey(a, INT64);
    FeedOne(a, MapKey(Literal(INT64)), TreeEvents(x));
    var b := React(a, MapKey(Literal(INT64)));
    LeafFeed(b, x);
    DateLeaf(b, x);
    if Written(x).Is? {
      DateEnds(Leafed(b, x));
    }
    SecondMeans(r, key, DATE, body, if Written(x).Is? then Is(DateTime(Written(x).value)) else Refused);
    ObjEvents([Member(Literal(INT64), x)]);
  }

  /** A second map without what it needs. */
  lemma LackEnds(p: Reader, k: Keyword)
    requires HasSecond(k) && k != DATE && p.state == SecondState(k)
    requires k == TIMESTAMP ==> !p.data.hasT || !p.data.hasI
    requires k == REGULAR_EXPRESSION ==> !p.data.hasPattern || !p.data.hasOptions
    requires k == BINARY ==> !p.data.hasBinary || !p.data.hasSubtype
    ensures React(p, EndMap).state == ERROR
  {
    hide Append, SortedOptions, UpToNul;
  }

  lemma NestedEmpty(r: Reader, key: CString, k: Keyword)
    requires Expects(r, key) && HasSecond(k)
    ensures Means(r, Feed(r, Wrap(k, TreeEvents(Obj([])))), key, if k == DATE then Is(DateTime(0)) else Refused)
  {
    hide React, Feed, Literal, Fixup, TreeEvents, Wrap, Means, Append;
    EnterSecond(r, k, key);
    var a := Second(r, k);
    EmptyFeed(a);
    if k == DATE {
      DateEnds(a);
    } else {
      LackEnds(a, k);
    }
    SecondMeans(r, key, k, [], if k == DATE then Is(DateTime(0)) else Refused);
    ObjEvents([]);
    NoMemberEvents();
  }

  lemma NoMemberEvents()
    ensures MemberEvents([]) == []
  {}

  lemma OneMemberFeed(a: Reader, j: Keyword, x: Tree)
    requires IsLeaf(x) && BelongsIn(a, j)
    ensures Feed(a, MemberEvents([Member(Literal(j), x)])) == Leafed(a.(field := FieldFor(j)), x)
  {
    hide React, Feed, Literal, TreeEvents, Leafed, MemberEvents;
    TwoEventsOf(Member(Literal(j), x), Member(Literal(j), x));
    InnerKey(a, j);
    FeedOne(a, MapKey(Literal(j)), TreeEvents(x));
    LeafFeed(a.(field := FieldFor(j)), x);
  }

  /** One part of two. */
  lemma HalfBody(a: Reader, k: Keyword, j: Keyword, x: Tree)
    requires HasSecond(k) && k != DATE && (j == PartsOf(k).0 || j == PartsOf(k).1) && IsLeaf(x)
    requires a.state == SecondState(k) && a.bsonType == SecondTag(k) && a.data == NO_DATA && a.key.Some?
    ensures Second2(a, Feed(a, MemberEvents([Member(Literal(j), x)])), k, Half(k, Member(Literal(j), x)))
  {
    hide React, Feed, Literal, Leafed, TreeEvents, MemberEvents, Append, Base64Bytes, Subtype, TimePart, Utf8.Valid, ScanHex, UpToNul;
    OneMemberFeed(a, j, x);
    var q := a.(field := FieldFor(j));
    var f := Leafed(q, x);
    if k == TIMESTAMP {
      TimeLeaf(q, x);
    } else if k == REGULAR_EXPRESSION {
      TextStep(q, x);
    } else if j == BASE64 {
      Base64Leaf(q, x);
    } else {
      Distinct(BASE64, SUBTYPE);
      SubtypeLeaf(q, x);
    }
    if !Halts(f) {
      LackEnds(f, k);
    }
  }

  lemma NestedHalf(r: Reader, key: CString, k: Keyword, j: Keyword, x: Tree)
    requires Expects(r, key) && HasSecond(k) && k != DATE && (j == PartsOf(k).0 || j == PartsOf(k).1) && IsLeaf(x)
    ensures Means(r, Feed(r, Wrap(k, TreeEvents(Obj([Member(Literal(j), x)])))), key, Half(k, Member(Literal(j), x)))
  {
    hide React, Feed, Literal, Fixup, TreeEvents, Wrap, Means, MemberEvents, Second2, Half;
    EnterSecond(r, k, key);
    HalfBody(Second(r, k), k, j, x);
    HalfIsNothing(k, Member(Literal(j), x));
    SecondMeans(r, key, k, MemberEvents([Member(Literal(j), x)]), Half(k, Member(Literal(j), x)));
    ObjEvents([Member(Literal(j), x)]);
  }

  lemma HalfIsNothing(k: Keyword, m: Member)
    ensures !Half(k, m).Is?
  {}

  lemma TypeKeyRefuses(p: Reader, k: Keyword)
    requires !IsKnown(k)
    ensures TypeKey(p, k) == Fail(p)
  {}

  lemma WholeKey(key: seq<byte>)
    requires 0 !in key
    ensures WrapperKey(key) == KeywordOf(key)
  {
    hide KeywordOf, UpToNul;
    PrintableUpToNul(key);
  }

  /** A key that is no part of any wrapper. */
  lemma ForeignKey(p: Reader, key: seq<byte>)
    requires p.state == IN_BSON_TYPE && 0 !in key && !IsKnown(KeywordOf(key))
    ensures React(p, MapKey(key)).state == ERROR
  {
    hide KeywordOf, Utf8.Valid, UpToNul, Push, PlainKey, TypeKey, IsKnown, WrapperKey;
    WholeKey(key);
    TypeKeyRefuses(p, KeywordOf(key));
  }

  /** What is left of the first part of a broken wrapper. */
  lemma FirstPart(q: Reader, k: Keyword, t: Tree)
    requires IsLeaf(t) && q.state == IN_BSON_TYPE && q.field == k && q.bsonType == Tag(k) && Tag(k) != 0 && k != TYPE
    requires q.levels != [] && q.key.Some? && 0 !in q.key.value
    ensures var f := Leafed(q, t);
            (f.state == UNMODELLED <==> Broken(k, t).Silent?) && (Halts(f) || f.state == IN_BSON_TYPE)
  {
    hide Leafed, Base64Bytes, Scalar, Utf8.Valid, Append;
    if k == BINARY {
      Base64Leaf(q, t);
    } else if k == REGEX || k == OPTIONS {
      TextStep(q, t);
      NoScalar(k, t);
    } else if k == SYMBOL {
      SymbolPart(q, t);
    } else {
      ScalarLeaf(q, k, t);
    }
  }

  lemma NoScalar(k: Keyword, t: Tree)
    ensures k == REGEX || k == OPTIONS ==> Scalar(k, t) == Refused
  {}

  lemma SymbolPart(q: Reader, t: Tree)
    requires IsLeaf(t) && q.state == IN_BSON_TYPE && q.field == SYMBOL && q.levels != [] && q.key.Some? && 0 !in q.key.value
    ensures (Leafed(q, t).state == ERROR || Leafed(q, t).state == IN_BSON_TYPE) && !Scalar(SYMBOL, t).Silent?
  {
    hide Utf8.Valid;
  }
}
