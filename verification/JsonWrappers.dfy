/** Every wrapper in every documented form: the reader comes to what it denotes. */
module JsonWrappers {
  import opened Bytes
  import opened BsonTree
  import opened BuilderRuns
  import opened JsonDenotation
  import opened JsonKeywords
  import opened JsonMachine
  import opened JsonMeaning
  import opened JsonRoundTrip
  import Utf8

  lemma {:induction false} KeywordHasText(text: seq<byte>, i: nat)
    requires i <= |KEYWORDS|
    ensures KeywordFrom(text, i) != OTHER ==> text == Literal(KeywordFrom(text, i))
    decreases |KEYWORDS| - i
  {
    hide Literal;
    if i < |KEYWORDS| {
      KeywordHasText(text, i + 1);
    }
  }

  lemma IsKeyword(text: seq<byte>, k: Keyword)
    requires k != OTHER
    ensures KeywordOf(text) == k <==> text == Literal(k)
  {
    KeywordHasText(text, 0);
    KeywordOfLiteral(k);
    hide Literal, KeywordFrom;
  }

  /** The place of a wrapper's key among the names. */
  function Place(k: Keyword): nat {
    match k
    case REGULAR_EXPRESSION => 0
    case REGEX => 1
    case OPTIONS => 2
    case CODE => 3
    case SCOPE => 4
    case OID => 5
    case BINARY => 6
    case TYPE => 7
    case DATE => 8
    case UNDEFINED => 9
    case MAXKEY => 10
    case MINKEY => 11
    case TIMESTAMP => 12
    case INT32 => 13
    case INT64 => 14
    case DOUBLE => 15
    case DECIMAL128 => 16
    case DBPOINTER => 17
    case _ => 18
  }

  lemma NameAt(k: Keyword)
    requires IsKnown(k)
    ensures Place(k) < |WRAPPER_NAMES| && WRAPPER_NAMES[Place(k)] == Name(k)
  {}

  lemma KeyAt(i: nat) returns (k: Keyword)
    requires i < |WRAPPER_NAMES|
    ensures IsKnown(k) && Name(k) == WRAPPER_NAMES[i]
  {
    k := KEYWORDS[i];
    assert Place(k) == i;
    NameAt(k);
  }

  /** The keys that open a wrapper are the known ones. */
  lemma OpensIffKnown(key: seq<byte>)
    ensures Opens(key) <==> IsKnown(KeywordOf(key))
    ensures Opens(key) ==> key == Literal(KeywordOf(key))
  {
    hide Name, Ascii, KeywordOf, IsKnown;
    if Opens(key) {
      var i: nat :| i < |WRAPPER_NAMES| && key == Ascii(WRAPPER_NAMES[i]);
      var k := KeyAt(i);
      KnownIsKeyword(k);
      IsKeyword(key, k);
    }
    if IsKnown(KeywordOf(key)) {
      var k := KeywordOf(key);
      KnownIsKeyword(k);
      IsKeyword(key, k);
      NameAt(k);
    }
  }

  lemma KnownIsKeyword(k: Keyword)
    requires IsKnown(k)
    ensures k != OTHER
  {}

  /** A number, a text or a word where any value may stand. */
  lemma LeafMeans(r: Reader, key: CString, t: Tree)
    requires Expects(r, key) && IsLeaf(t) && !t.Arr?
    ensures Means(r, Feed(r, TreeEvents(t)), key, Denote(t))
  {
    assert TreeEvents(t) == [LeafEvent(t)];
    LastEvent(r, LeafEvent(t));
    LeafStep(r, key, t);
    hide React, Feed, Denote, Means;
  }

  lemma LeafStep(r: Reader, key: CString, t: Tree)
    requires Expects(r, key) && IsLeaf(t) && !t.Arr?
    ensures Means(r, React(r, LeafEvent(t)), key, Denote(t))
  {
    StartsMap(r, key);
    if t.Num? {
      NumberStep(r, key, t);
    } else {
      hide Utf8.Valid, Decimal, Expects, OnInteger;
    }
  }

  /** A bare number becomes the smallest integer type that holds it. */
  lemma NumberStep(r: Reader, key: CString, t: Tree)
    requires Expects(r, key) && t.Num?
    ensures Means(r, React(r, LeafEvent(t)), key, Denote(t))
  {
    StartsMap(r, key);
    hide Decimal, Expects, OnString, OnMapKey;
  }

  lemma StartLeaf(q: Reader, t: Tree)
    requires IsLeaf(t) && (q.state == TIMESTAMP_STARTMAP || q.state == REGEX_STARTMAP)
    ensures Leafed(q, t).state == ERROR
  {
    hide Utf8.Valid;
  }

  /** The two wrappers that want a second map. */
  lemma OtherAloneMeans(r: Reader, key: CString, k: Keyword, t: Tree)
    requires Expects(r, key) && IsLeaf(t) && (k == TIMESTAMP || k == REGULAR_EXPRESSION)
    ensures Means(r, Feed(r, Wrap(k, TreeEvents(t))), key, Refused)
  {
    hide React, Feed, Literal, Fixup, Leafed, TreeEvents, Wrap;
    StartsMap(r, key);
    EnterOther(r, k, key);
    var q := Entered(r, k);
    WrapFeed(r, k, TreeEvents(t));
    LeafFeed(q, t);
    StartLeaf(q, t);
    FeedHalted(Leafed(q, t), [EndMap]);
  }

  lemma SingleMeans(r: Reader, key: CString, k: Keyword, t: Tree)
    requires Expects(r, key) && IsLeaf(t) && |r.levels| < STACK_MAX && IsKnown(k) && k !in {DBPOINTER, CODE, SCOPE}
    ensures Means(r, Feed(r, Wrap(k, TreeEvents(t))), key, Single(k, t))
  {
    hide Feed, Wrap, TreeEvents, Means, TypeAlone, Base64Bytes, ValidText, Written;
    if k == TYPE {
      TypeAloneMeans(r, key, t);
    } else if k == BINARY {
      BinaryAloneMeans(r, key, t);
    } else if k == REGEX || k == OPTIONS {
      RegexAloneMeans(r, key, k, t);
    } else if k == SYMBOL {
      SymbolMeans(r, key, t);
    } else if k == TIMESTAMP || k == REGULAR_EXPRESSION {
      OtherAloneMeans(r, key, k, t);
    } else {
      hide Scalar;
      ScalarMeans(r, key, k, t);
    }
  }

  lemma PairIs(ms: seq<Member>, j: Keyword, k: Keyword)
    requires Keyed(ms, [j, k])
    ensures |ms| == 2 && IsLeaf(ms[0].value) && IsLeaf(ms[1].value)
    ensures ms == [Member(Literal(j), ms[0].value), Member(Literal(k), ms[1].value)] && ms[0].key == Literal(j)
  {
    hide Literal;
    assert [j, k][0] == j && [j, k][1] == k;
    assert ms[0] == Member(Literal(j), ms[0].value) && ms[1] == Member(Literal(k), ms[1].value);
  }

  lemma OneIs(ms: seq<Member>, k: Keyword)
    requires Keyed(ms, [k])
    ensures |ms| == 1 && IsLeaf(ms[0].value) && ms == [Member(Literal(k), ms[0].value)]
  {
    hide Literal;
    assert [k][0] == k;
    assert ms[0] == Member(Literal(k), ms[0].value);
  }

  lemma NestedMeans(r: Reader, key: CString, k: Keyword, ms: seq<Member>)
    requires Expects(r, key) && IsNested(k, ms)
    ensures Means(r, Feed(r, Wrap(k, TreeEvents(Obj(ms)))), key, Nested(k, ms))
  {
    hide Feed, Wrap, TreeEvents, Means, Literal, Keyed, TimeParts, RegexParts, DataAndSubtype, SubtypeAndData, Written, Half;
    if ms == [] {
      NestedEmpty(r, key, k);
    } else if k == DATE {
      OneIs(ms, INT64);
      WrittenSpeaks(ms[0].value);
      NestedDate(r, key, ms[0].value);
    } else if Keyed(ms, [PartsOf(k).0]) {
      OneIs(ms, PartsOf(k).0);
      NestedHalf(r, key, k, PartsOf(k).0, ms[0].value);
    } else if Keyed(ms, [PartsOf(k).1]) {
      OneIs(ms, PartsOf(k).1);
      NestedHalf(r, key, k, PartsOf(k).1, ms[0].value);
    } else if k == TIMESTAMP {
      NestedTimeMeans(r, key, ms);
    } else if k == REGULAR_EXPRESSION {
      NestedRegexMeans(r, key, ms);
    } else {
      NestedBinaryMeans(r, key, ms);
    }
  }

  lemma WrittenSpeaks(t: Tree)
    ensures !Written(t).Silent?
  {
    hide ParseInt64;
  }

  lemma NestedTimeMeans(r: Reader, key: CString, ms: seq<Member>)
    requires Expects(r, key) && (Keyed(ms, [T, I]) || Keyed(ms, [I, T]))
    ensures Means(r, Feed(r, Wrap(TIMESTAMP, TreeEvents(Obj(ms)))), key, Nested(TIMESTAMP, ms))
  {
    hide Feed, Wrap, TreeEvents, Means, Literal, Keyed, TimeParts;
    Distinct(T, I);
    if Keyed(ms, [T, I]) {
      PairIs(ms, T, I);
      NestedTime(r, key, ms[0].value, ms[1].value);
    } else {
      PairIs(ms, I, T);
      NestedTimeTurned(r, key, ms[0].value, ms[1].value);
    }
  }

  lemma NestedRegexMeans(r: Reader, key: CString, ms: seq<Member>)
    requires Expects(r, key) && (Keyed(ms, [PATTERN, PLAIN_OPTIONS]) || Keyed(ms, [PLAIN_OPTIONS, PATTERN]))
    ensures Means(r, Feed(r, Wrap(REGULAR_EXPRESSION, TreeEvents(Obj(ms)))), key, Nested(REGULAR_EXPRESSION, ms))
  {
    hide Feed, Wrap, TreeEvents, Means, Literal, Keyed, RegexParts;
    Distinct(PATTERN, PLAIN_OPTIONS);
    if Keyed(ms, [PATTERN, PLAIN_OPTIONS]) {
      PairIs(ms, PATTERN, PLAIN_OPTIONS);
      NestedRegex(r, key, ms[0].value, ms[1].value);
    } else {
      PairIs(ms, PLAIN_OPTIONS, PATTERN);
      NestedRegexTurned(r, key, ms[0].value, ms[1].value);
    }
  }

  lemma NestedBinaryMeans(r: Reader, key: CString, ms: seq<Member>)
    requires Expects(r, key) && (Keyed(ms, [BASE64, SUBTYPE]) || Keyed(ms, [SUBTYPE, BASE64]))
    ensures Means(r, Feed(r, Wrap(BINARY, TreeEvents(Obj(ms)))), key, Nested(BINARY, ms))
  {
    hide Feed, Wrap, TreeEvents, Means, Literal, Keyed, DataAndSubtype, SubtypeAndData;
    Distinct(BASE64, SUBTYPE);
    if Keyed(ms, [BASE64, SUBTYPE]) {
      PairIs(ms, BASE64, SUBTYPE);
      NestedBinary(r, key, ms[0].value, ms[1].value);
    } else {
      PairIs(ms, SUBTYPE, BASE64);
      NestedBinaryTurned(r, key, ms[0].value, ms[1].value);
    }
  }

  lemma PairedMeans(r: Reader, key: CString, ms: seq<Member>)
    requires Expects(r, key) && IsPaired(ms)
    ensures Means(r, Feed(r, TreeEvents(Obj(ms))), key, Paired(ms))
  {
    hide Feed, Wrap, TreeEvents, Means, Literal, Keyed, RegexParts, DataAndSubtype, SubtypeAndData, ScanHex, UpToNul, ValidText;
    if Keyed(ms, [REGEX, OPTIONS]) {
      PairIs(ms, REGEX, OPTIONS);
      WrapOfTwo(REGEX, ms[0].value, OPTIONS, ms[1].value);
      RegexPairMeans(r, key, REGEX, ms[0].value, OPTIONS, ms[1].value);
    } else if Keyed(ms, [OPTIONS, REGEX]) {
      PairIs(ms, OPTIONS, REGEX);
      WrapOfTwo(OPTIONS, ms[0].value, REGEX, ms[1].value);
      RegexPairMeans(r, key, OPTIONS, ms[0].value, REGEX, ms[1].value);
    } else if Keyed(ms, [BINARY, TYPE]) {
      PairIs(ms, BINARY, TYPE);
      WrapOfTwo(BINARY, ms[0].value, TYPE, ms[1].value);
      BinaryTypeMeans(r, key, ms[0].value, ms[1].value);
    } else {
      PairIs(ms, TYPE, BINARY);
      WrapOfTwo(TYPE, ms[0].value, BINARY, ms[1].value);
      TypeBinaryMeans(r, key, ms[0].value, ms[1].value);
    }
  }

  lemma ObjHead(ms: seq<Member>)
    requires ms != []
    ensures TreeEvents(Obj(ms)) == [StartMap] + ([MapKey(ms[0].key)] + (TreeEvents(ms[0].value) + MemberEvents(ms[1..]) + [EndMap]))
  {
    hide TreeEvents;
    ObjEvents(ms);
    assert MemberEvents(ms) == [MapKey(ms[0].key)] + TreeEvents(ms[0].value) + MemberEvents(ms[1..]);
    Brackets(StartMap, MapKey(ms[0].key), TreeEvents(ms[0].value), MemberEvents(ms[1..]), EndMap);
  }

  lemma Brackets(a: Event, b: Event, c: seq<Event>, d: seq<Event>, e: Event)
    ensures [a] + ([b] + c + d) + [e] == [a] + ([b] + (c + d + [e]))
  {}

  lemma SilentKey(r: Reader, k: Keyword)
    requires r.state == IN_START_MAP && r.levels != [] && k in {DBPOINTER, CODE, SCOPE}
    ensures React(r, MapKey(Literal(k))).state == UNMODELLED
  {
    assert IsKnown(k);
    KeywordOfLiteral(k);
    LiteralIsUtf8(k);
    KnownKey(r, Literal(k));
    hide Literal, KeywordOf, Utf8.Valid, React, IsKnown;
  }

  lemma SilentMeans(r: Reader, key: CString, ms: seq<Member>, k: Keyword)
    requires Expects(r, key) && ms != [] && k in {DBPOINTER, CODE, SCOPE} && ms[0].key == Literal(k)
    ensures Means(r, Feed(r, TreeEvents(Obj(ms))), key, Silent)
  {
    hide Feed, React, TreeEvents, MemberEvents, Literal, Fixup;
    StartsMap(r, key);
    ObjHead(ms);
    var rest := TreeEvents(ms[0].value) + MemberEvents(ms[1..]) + [EndMap];
    var m := MapKey(ms[0].key);
    FeedOne(r, StartMap, [m] + rest);
    SilentKey(React(r, StartMap), k);
    FeedOne(React(r, StartMap), m, rest);
    FeedHalted(React(React(r, StartMap), m), rest);
  }

  /** A wrapper with a member that is no part of it. */
  lemma BrokenMeans(r: Reader, key: CString, ms: seq<Member>, k: Keyword)
    requires Expects(r, key) && IsBroken(ms) && ms[0].key == Literal(k) && KeywordOf(ms[0].key) == k && Tag(k) != 0
    ensures Means(r, Feed(r, TreeEvents(Obj(ms))), key, Broken(k, ms[0].value))
  {
    hide Feed, React, TreeEvents, MemberEvents, Literal, Fixup, Leafed, Broken, KeywordOf, IsKnown, Tag, Expects;
    var t, rest := ms[0].value, MemberEvents(ms[1..]) + [EndMap];
    Enter(r, k, key);
    FixupKey(r, key);
    var q := Entered(r, k);
    ObjFeed(r, key, ms, k, rest);
    LeafFeed(q, t);
    FeedConcat(q, TreeEvents(t), rest);
    FirstPart(q, k, t);
    BrokenIsNothing(k, t);
    var f := Leafed(q, t);
    if Halts(f) {
      FeedHalted(f, rest);
    } else {
      ForeignKey(f, ms[1].key);
      NextKey(ms[1..]);
      var tail := TreeEvents(ms[1].value) + MemberEvents(ms[2..]) + [EndMap];
      assert rest == [MapKey(ms[1].key)] + tail;
      FeedOne(f, MapKey(ms[1].key), tail);
      FeedHalted(React(f, MapKey(ms[1].key)), tail);
    }
  }

  lemma FixupKey(r: Reader, key: CString)
    requires Expects(r, key)
    ensures Fixup(r).levels != [] && Fixup(r).key.Some? && 0 !in Fixup(r).key.value
  {
    hide Decimal;
  }

  lemma BrokenIsNothing(k: Keyword, t: Tree)
    ensures !Broken(k, t).Is?
  {
    hide Base64Bytes, Scalar;
  }

  lemma NextKey(ms: seq<Member>)
    requires ms != []
    ensures MemberEvents(ms) == [MapKey(ms[0].key)] + TreeEvents(ms[0].value) + MemberEvents(ms[1..])
  {
    hide TreeEvents;
  }

  /** Up to the value of the first member. */
  lemma ObjFeed(r: Reader, key: CString, ms: seq<Member>, k: Keyword, rest: seq<Event>)
    requires Expects(r, key) && ms != [] && ms[0].key == Literal(k) && !Halts(Entered(r, k)) && rest == MemberEvents(ms[1..]) + [EndMap]
    ensures Feed(r, TreeEvents(Obj(ms))) == Feed(Entered(r, k), TreeEvents(ms[0].value) + rest)
  {
    hide Feed, React, TreeEvents, MemberEvents, Literal, Fixup;
    StartsMap(r, key);
    ObjHead(ms);
    var m, all := MapKey(ms[0].key), TreeEvents(ms[0].value) + rest;
    assert TreeEvents(ms[0].value) + MemberEvents(ms[1..]) + [EndMap] == all;
    FeedOne(r, StartMap, [m] + all);
    FeedOne(React(r, StartMap), m, all);
  }

  /** A wrapper in any of the forms. */
  lemma WrapperReads(r: Reader, key: CString, ms: seq<Member>)
    requires Expects(r, key) && |r.levels| < STACK_MAX && ms != [] && Opens(ms[0].key) && IsForm(ms)
    ensures Means(r, Feed(r, TreeEvents(Obj(ms))), key, Wrapper(ms))
  {
    hide Feed, TreeEvents, Means, Literal, Opens, IsKnown, IsPaired, IsNested, Paired, Nested, Single, KeywordOf, Broken;
    OpensIffKnown(ms[0].key);
    var k, t := KeywordOf(ms[0].key), ms[0].value;
    if k == DBPOINTER || k == CODE || k == SCOPE {
      SilentMeans(r, key, ms, k);
    } else if |ms| == 1 {
      assert ms == [Member(Literal(k), t)];
      WrapOfOne(k, t);
      if t.Obj? {
        PairedIsTwo(ms);
        NestedMeans(r, key, k, t.members);
      } else {
        SingleMeans(r, key, k, t);
      }
    } else if IsPaired(ms) {
      PairedMeans(r, key, ms);
    } else {
      KnownTag(k);
      BrokenMeans(r, key, ms, k);
    }
  }

  lemma KnownTag(k: Keyword)
    requires IsKnown(k) && k !in {DBPOINTER, CODE, SCOPE, TIMESTAMP, REGULAR_EXPRESSION}
    ensures Tag(k) != 0
  {}

  lemma PairedIsTwo(ms: seq<Member>)
    ensures IsPaired(ms) ==> |ms| == 2
  {
    hide ScanHex, ValidText, UpToNul;
  }
}
