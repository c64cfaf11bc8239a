/** Whole values and documents: the reader comes to what the tree denotes. */
module JsonReading {
  import opened Bytes
  import opened BsonTree
  import opened BuilderRuns
  import opened JsonDenotation
  import opened JsonKeywords
  import opened JsonMachine
  import opened JsonMeaning
  import opened JsonRoundTrip
  import opened JsonWrappers
  import Escapes = JsonEscapes
  import Grammar = JsonGrammar
  import Syntax = JsonSyntax
  import Utf8

  /** How deep objects and arrays nest. */
  function Depth(t: Tree): nat
    decreases t, 1
  {
    match t
    case Obj(ms) => 1 + MembersDepth(ms)
    case Arr(ts) => 1 + ItemsDepth(ts)
    case _ => 0
  }

  function MembersDepth(ms: seq<Member>): nat
    decreases ms, 0
  {
    if ms == [] then 0 else Grammar.Max(Depth(ms[0].value), MembersDepth(ms[1..]))
  }

  function ItemsDepth(ts: seq<Tree>): nat
    decreases ts, 0
  {
    if ts == [] then 0 else Grammar.Max(Depth(ts[0]), ItemsDepth(ts[1..]))
  }

  /** The marks a key leaves on its document. */
  function Mark(l: Level, key: seq<byte>, root: bool): Level {
    if root then l
    else if key == Literal(REF) then l.(hasRef := true)
    else if key == Literal(ID) then l.(hasId := true)
    else l
  }

  function Marked(l: Level, ms: seq<Member>, root: bool): Level
    decreases |ms|
  {
    if ms == [] then l else Marked(Mark(l, ms[0].key, root), ms[1..], root)
  }

  lemma {:induction false} MarksAreHeld(l: Level, ms: seq<Member>)
    ensures Marked(l, ms, false) == l.(hasRef := l.hasRef || Has(ms, REF), hasId := l.hasId || Has(ms, ID))
    decreases |ms|
  {
    hide Literal;
    Distinct(REF, ID);
    if ms != [] {
      MarksAreHeld(Mark(l, ms[0].key, false), ms[1..]);
      HasMore(ms, REF);
      HasMore(ms, ID);
    }
  }

  lemma HasMore(ms: seq<Member>, k: Keyword)
    requires ms != []
    ensures Has(ms, k) <==> ms[0].key == Literal(k) || Has(ms[1..], k)
  {
    hide Literal;
    if Has(ms, k) && ms[0].key != Literal(k) {
      var i :| 0 <= i < |ms| && ms[i].key == Literal(k);
      assert ms[1..][i - 1] == ms[i];
    }
    if Has(ms[1..], k) {
      var i :| 0 <= i < |ms[1..]| && ms[1..][i].key == Literal(k);
      assert ms[i + 1] == ms[1..][i];
    }
  }

  /** An open document: the root exactly if it is the only level. */
  ghost predicate Open(r: Reader, root: bool) { Ready(r) && !Top(r).isArray && (root <==> |r.levels| == 1) }

  /** After a key: below `$ref` and `$db` a text is wanted. */
  function Keyed1(r: Reader, key: seq<byte>, root: bool): Reader
    requires r.levels != []
  {
    var q := SetTop(r, Mark(Top(r), key, root)).(key := Some(key));
    if WantsText(key, root) then q.(state := IN_BSON_TYPE, field := if key == Literal(REF) then REF else DB) else q
  }

  lemma KeyStep(r: Reader, key: CString, root: bool)
    requires Open(r, root) && Utf8.Valid(key, true)
    ensures React(r, MapKey(key)) == PlainKey(r, key) == Keyed1(r, key, root)
  {
    hide Literal, KeywordOf, Utf8.Valid, UpToNul, React, PlainKey;
    PlainStep(r, key);
    PrintableUpToNul(key);
    IsKeyword(key, REF);
    IsKeyword(key, ID);
    IsKeyword(key, DB);
    Distinct(REF, ID);
    Distinct(REF, DB);
    Distinct(ID, DB);
    PlainKeyMarks(r, key, root);
  }

  lemma PlainStep(r: Reader, key: seq<byte>)
    requires r.state == REGULAR && Utf8.Valid(key, true)
    ensures React(r, MapKey(key)) == PlainKey(r, key)
  {
    hide KeywordOf, Utf8.Valid, UpToNul, TypeKey, Push, IsKnown;
  }

  lemma PlainKeyMarks(r: Reader, key: CString, root: bool)
    requires Open(r, root) && UpToNul(key) == key && Literal(REF) != Literal(ID) && Literal(REF) != Literal(DB) && Literal(ID) != Literal(DB)
    requires (KeywordOf(key) == REF <==> key == Literal(REF)) && (KeywordOf(key) == ID <==> key == Literal(ID))
    requires KeywordOf(key) == DB <==> key == Literal(DB)
    ensures PlainKey(r, key) == Keyed1(r, key, root)
  {
    hide Literal, KeywordOf, UpToNul;
    assert r.levels[|r.levels| - 1 := Top(r)] == r.levels;
  }

  /** The text below `$ref` or `$db`. */
  ghost predicate RefCome(r: Reader, f: Reader, key: CString, m: Meaning<Value>) {
    match m
    case Is(v) => f == r.(state := REGULAR, ops := r.ops + [Put(Element(key, v))])
    case Refused => f.state == ERROR
    case Silent => false
  }

  lemma RefMeans(r: Reader, key: CString, t: Tree)
    requires r.state == IN_BSON_TYPE && (r.field == REF || r.field == DB) && r.key.Some? && r.key.value == key && r.levels != [] && IsLeaf(t)
    ensures RefCome(r, Feed(r, TreeEvents(t)), key, TextOnly(t))
  {
    hide Feed, TreeEvents, Leafed, RefCome, TextOnly;
    LeafFeed(r, t);
    RefLeaf(r, key, t);
  }

  lemma RefLeaf(r: Reader, key: CString, t: Tree)
    requires r.state == IN_BSON_TYPE && (r.field == REF || r.field == DB) && r.key.Some? && r.key.value == key && r.levels != [] && IsLeaf(t)
    ensures RefCome(r, Leafed(r, t), key, TextOnly(t))
  {
    hide Utf8.Valid, BinaryElem, NumberString, OidFromText;
  }

  /** What the members of a document have come to. */
  ghost predicate Come(r: Reader, f: Reader, ms: seq<Member>, root: bool, m: Meaning<seq<Element>>)
    requires r.levels != []
  {
    match m
    case Is(es) => f.state == REGULAR && f.levels == SetTop(r, Marked(Top(r), ms, root)).levels && f.ops == r.ops + Script(es)
    case Refused => f.state == ERROR
    case Silent => f.state == UNMODELLED
  }

  /** The value of one member. */
  ghost function MemberValue(m: Member, root: bool): Meaning<Value> {
    if WantsText(m.key, root) then TextOnly(m.value) else Denote(m.value)
  }

  lemma {:induction false} MemberMeans(r: Reader, m: Member, root: bool)
    requires Open(r, root) && 0 !in m.key && Utf8.Valid(m.key, true) && Orderly(m.value) && (WantsText(m.key, root) ==> IsLeaf(m.value))
    requires |r.levels| + Depth(m.value) <= STACK_MAX
    ensures var f := Feed(r, [MapKey(m.key)] + TreeEvents(m.value));
            match MemberValue(m, root)
            case Is(v) => f.state == REGULAR && f.levels == SetTop(r, Mark(Top(r), m.key, root)).levels
                          && f.ops == r.ops + ElementScript(Element(m.key, v))
            case Refused => f.state == ERROR
            case Silent => f.state == UNMODELLED
    decreases m, 0
  {
    hide React, Feed, Literal, Utf8.Valid, TreeEvents, Denote, Orderly, ElementScript, Mark, Depth;
    KeyStep(r, m.key, root);
    FeedOne(r, MapKey(m.key), TreeEvents(m.value));
    var q := React(r, MapKey(m.key));
    if WantsText(m.key, root) {
      RefMeans(q, m.key, m.value);
      TextIsFlat(m.value);
      if TextOnly(m.value).Is? {
        FlatScript(m.key, TextOnly(m.value).value);
      }
    } else {
      MarkKeepsKind(Top(r), m.key, root);
      DocumentKey(q);
      ValueMeans(q, m.key, m.value);
    }
  }

  lemma MarkKeepsKind(l: Level, key: seq<byte>, root: bool)
    ensures Mark(l, key, root).isArray == l.isArray
  {}

  lemma TextIsFlat(t: Tree)
    ensures TextOnly(t).Is? ==> IsFlat(TextOnly(t).value)
  {}

  /** Every value in every place. */
  lemma {:induction false} ValueMeans(r: Reader, key: CString, t: Tree)
    requires Expects(r, key) && Orderly(t) && |r.levels| + Depth(t) <= STACK_MAX
    ensures Means(r, Feed(r, TreeEvents(t)), key, Denote(t))
    decreases t, 1
  {
    match t
    case Obj(ms) =>
      if ms != [] && Opens(ms[0].key) {
        WrapperReads(r, key, ms);
      } else {
        ObjectMeans(r, key, ms);
      }
    case Arr(ts) => ArrayMeans(r, key, ts);
    case _ => LeafMeans(r, key, t);
  }

  lemma MemberEventsHead(ms: seq<Member>)
    requires ms != []
    ensures MemberEvents(ms) == ([MapKey(ms[0].key)] + TreeEvents(ms[0].value)) + MemberEvents(ms[1..])
  {
    hide TreeEvents;
  }

  /** The meaning of the members, one at a time. */
  lemma FieldsHead(ms: seq<Member>, root: bool)
    requires ms != [] && 0 !in ms[0].key && Utf8.Valid(ms[0].key, true)
    ensures var v, rest := MemberValue(ms[0], root), Fields(ms[1..], root);
            Fields(ms, root) == if !v.Is? then v.PropagateFailure() else if !rest.Is? then rest.PropagateFailure()
                                else Is([Element(ms[0].key, v.value)] + rest.value)
  {
    hide Utf8.Valid, Literal, Denote, TextOnly, WantsText;
  }

  lemma {:induction false} FieldsMean(r: Reader, ms: seq<Member>, root: bool)
    requires Open(r, root) && OrderlyFields(ms, root) && |r.levels| + MembersDepth(ms) <= STACK_MAX
    ensures Come(r, Feed(r, MemberEvents(ms)), ms, root, Fields(ms, root))
    decreases ms, 0
  {
    hide React, Feed, Literal, Utf8.Valid, TreeEvents, MemberEvents, Denote, Fields, Orderly, ElementScript, Mark, Marked, Depth;
    if ms == [] {
      NoMembers(r, root);
    } else if !Utf8.Valid(ms[0].key, true) {
      BadKey(r, ms, root);
    } else {
      var m := ms[0];
      MemberMeans(r, m, root);
      MemberEventsHead(ms);
      FieldsHead(ms, root);
      var events := [MapKey(m.key)] + TreeEvents(m.value);
      FeedConcat(r, events, MemberEvents(ms[1..]));
      var f := Feed(r, events);
      if MemberValue(m, root).Is? {
        MarkKeepsKind(Top(r), m.key, root);
        FieldsMean(f, ms[1..], root);
        Append1(r, f, ms, root);
      } else {
        FeedHalted(f, MemberEvents(ms[1..]));
      }
    }
  }

  lemma NoMembers(r: Reader, root: bool)
    requires r.levels != [] && r.state == REGULAR
    ensures Come(r, Feed(r, MemberEvents([])), [], root, Fields([], root))
  {
    assert r.levels[|r.levels| - 1 := Top(r)] == r.levels;
    assert r.ops + Script([]) == r.ops;
  }

  lemma BadKey(r: Reader, ms: seq<Member>, root: bool)
    requires r.levels != [] && r.state == REGULAR && ms != [] && !Utf8.Valid(ms[0].key, true)
    ensures Come(r, Feed(r, MemberEvents(ms)), ms, root, Fields(ms, root))
  {
    hide Utf8.Valid, Feed, TreeEvents, MemberEvents, Denote, Marked, WantsText;
    MemberEventsHead(ms);
    var rest := TreeEvents(ms[0].value) + MemberEvents(ms[1..]);
    assert MemberEvents(ms) == [MapKey(ms[0].key)] + rest;
    FeedOne(r, MapKey(ms[0].key), rest);
    FeedHalted(Fail(r), rest);
  }

  /** One member and the rest. */
  lemma Append1(r: Reader, f: Reader, ms: seq<Member>, root: bool)
    requires r.levels != [] && ms != [] && 0 !in ms[0].key && MemberValue(ms[0], root).Is?
    requires f.levels == SetTop(r, Mark(Top(r), ms[0].key, root)).levels
    requires f.ops == r.ops + ElementScript(Element(ms[0].key, MemberValue(ms[0], root).value))
    ensures forall q, rest: seq<Element> | Come(f, q, ms[1..], root, Is(rest)) ::
              Come(r, q, ms, root, Is([Element(ms[0].key, MemberValue(ms[0], root).value)] + rest))
  {
    hide Mark, Literal, MemberValue, ElementScript;
    var e := Element(ms[0].key, MemberValue(ms[0], root).value);
    forall q, rest: seq<Element> | Come(f, q, ms[1..], root, Is(rest))
      ensures Come(r, q, ms, root, Is([e] + rest))
    {
      assert ([e] + rest)[1..] == rest;
      assert (r.ops + ElementScript(e)) + Script(rest) == r.ops + Script([e] + rest);
      assert SetTop(f, Marked(Top(f), ms[1..], root)).levels == SetTop(r, Marked(Top(r), ms, root)).levels;
    }
  }

  /** The document a reader opens under a key. */
  function Opened(r: Reader, key: CString, isArray: bool): Reader {
    Fixup(r).(levels := Fixup(r).levels + [Level(isArray, 0, false, false)], ops := r.ops + [Begin(key, isArray)])
  }

  /** The first key does in the opening state what it does in the opened document. */
  lemma FirstKey(r: Reader, outer: CString, key: seq<byte>)
    requires Expects(r, outer) && |r.levels| < STACK_MAX && !Opens(key) && Utf8.Valid(key, true)
    ensures React(React(r, StartMap), MapKey(key)) == React(Opened(r, outer, false), MapKey(key))
  {
    hide KeywordOf, Utf8.Valid, UpToNul, TypeKey, Opens, Fixup;
    OpensIffKnown(key);
    StartsMap(r, outer);
  }

  lemma OpenedFeed(r: Reader, key: CString, ms: seq<Member>)
    requires Expects(r, key) && |r.levels| < STACK_MAX && ms != [] && !Opens(ms[0].key) && Utf8.Valid(ms[0].key, true)
    ensures Feed(React(r, StartMap), MemberEvents(ms)) == Feed(Opened(r, key, false), MemberEvents(ms))
  {
    hide React, Feed, MemberEvents, TreeEvents, Utf8.Valid, Opens, Fixup;
    MemberEventsHead(ms);
    var m, rest := MapKey(ms[0].key), TreeEvents(ms[0].value) + MemberEvents(ms[1..]);
    assert MemberEvents(ms) == [m] + rest;
    FirstKey(r, key, ms[0].key);
    StartsMap(r, key);
    FeedOne(React(r, StartMap), m, rest);
    FeedOne(Opened(r, key, false), m, rest);
  }

  lemma IsOpened(r: Reader, key: CString)
    requires Expects(r, key) && |r.levels| < STACK_MAX
    ensures Open(Opened(r, key, false), false) && Top(Opened(r, key, false)) == Level(false, 0, false, false)
  {
    StartsMap(r, key);
    hide Decimal;
  }

  lemma ObjectFeed(r: Reader, key: CString, ms: seq<Member>)
    requires Expects(r, key)
    ensures Feed(r, TreeEvents(Obj(ms))) == Feed(Feed(React(r, StartMap), MemberEvents(ms)), [EndMap])
  {
    hide React, Feed, MemberEvents, TreeEvents, Fixup;
    ObjEvents(ms);
    assert [StartMap] + MemberEvents(ms) + [EndMap] == [StartMap] + (MemberEvents(ms) + [EndMap]);
    FeedOne(r, StartMap, MemberEvents(ms) + [EndMap]);
    FeedConcat(React(r, StartMap), MemberEvents(ms), [EndMap]);
  }

  /** An object that is no wrapper. */
  lemma {:induction false} ObjectMeans(r: Reader, key: CString, ms: seq<Member>)
    requires Expects(r, key) && |r.levels| + 1 + MembersDepth(ms) <= STACK_MAX
    requires (ms == [] || !Opens(ms[0].key)) && OrderlyFields(ms, false)
    ensures Means(r, Feed(r, TreeEvents(Obj(ms))), key, Denote(Obj(ms)))
    decreases ms, 1
  {
    hide React, Feed, MemberEvents, TreeEvents, Fixup, Utf8.Valid, Fields, Opens, Literal, MembersDepth, OrderlyFields, Marked, ElementScript, Has;
    ObjectFeed(r, key, ms);
    if ms == [] {
      EmptyObject(r, key);
    } else if !Utf8.Valid(ms[0].key, true) {
      BadFirstKey(r, key, ms);
    } else {
      OpenedFeed(r, key, ms);
      var inside := Opened(r, key, false);
      StartsMap(r, key);
      IsOpened(r, key);
      FieldsMean(inside, ms, false);
      var q := Feed(inside, MemberEvents(ms));
      if Fields(ms, false).Is? {
        ObjectCloses(r, key, ms, q, Fields(ms, false).value);
      } else {
        FeedHalted(q, [EndMap]);
      }
    }
  }

  lemma EmptyObject(r: Reader, key: CString)
    requires Expects(r, key) && |r.levels| < STACK_MAX
    ensures Means(r, Feed(Feed(React(r, StartMap), MemberEvents([])), [EndMap]), key, Denote(Obj([])))
  {
    hide React, Feed, Fixup, ElementScript;
    StartsMap(r, key);
    NestedScripts(key, []);
    var r1 := React(r, StartMap);
    EmptyFeed(r1);
    LastEvent(r1, EndMap);
    EmptyDocument(Fixup(r), key);
  }

  lemma BadFirstKey(r: Reader, key: CString, ms: seq<Member>)
    requires Expects(r, key) && ms != [] && !Opens(ms[0].key) && !Utf8.Valid(ms[0].key, true)
    ensures Means(r, Feed(Feed(React(r, StartMap), MemberEvents(ms)), [EndMap]), key, Denote(Obj(ms)))
  {
    hide Feed, MemberEvents, TreeEvents, Fixup, Utf8.Valid, Opens, Literal;
    MemberEventsHead(ms);
    StartsMap(r, key);
    var m, rest := MapKey(ms[0].key), TreeEvents(ms[0].value) + MemberEvents(ms[1..]);
    assert MemberEvents(ms) == [m] + rest;
    FeedOne(React(r, StartMap), m, rest);
    FeedHalted(React(React(r, StartMap), m), rest);
    FeedHalted(React(React(r, StartMap), m), [EndMap]);
  }

  /** The closing brace, and the two marks that must agree. */
  lemma ObjectCloses(r: Reader, key: CString, ms: seq<Member>, q: Reader, es: seq<Element>)
    requires Expects(r, key) && |r.levels| < STACK_MAX && Fields(ms, false) == Is(es) && (ms == [] || !Opens(ms[0].key))
    requires Come(Opened(r, key, false), q, ms, false, Is(es))
    ensures Means(r, Feed(q, [EndMap]), key, Denote(Obj(ms)))
  {
    hide React, Feed, Fixup, Fields, Opens, Literal, Marked, ElementScript, Has;
    StartsMap(r, key);
    IsOpened(r, key);
    MarksAreHeld(Top(Opened(r, key, false)), ms);
    NestedScripts(key, es);
    LastEvent(q, EndMap);
    EndStep(q);
    assert q.levels[..|q.levels| - 1] == Fixup(r).levels;
    Regroup(r.ops, [Begin(key, false)], Script(es), [End]);
  }

  lemma EndStep(q: Reader)
    requires q.state == REGULAR && |q.levels| > 1 && !Top(q).isArray
    ensures Top(q).hasRef != Top(q).hasId ==> React(q, EndMap).state == ERROR
    ensures Top(q).hasRef == Top(q).hasId ==> React(q, EndMap) == q.(levels := q.levels[..|q.levels| - 1], ops := q.ops + [End])
  {}

  lemma SeveralHead(ts: seq<Tree>)
    requires ts != []
    ensures SeveralEvents(ts) == TreeEvents(ts[0]) + SeveralEvents(ts[1..])
  {}

  lemma ItemsHead(ts: seq<Tree>, i: nat)
    requires ts != []
    ensures var v, rest := Denote(ts[0]), Items(ts[1..], i + 1);
            Items(ts, i) == if !v.Is? then v.PropagateFailure() else if !rest.Is? then rest.PropagateFailure()
                            else Is([Element(Index(i), v.value)] + rest.value)
  {
    hide Denote, Index;
  }

  /** The items of an array under their numbers. */
  lemma {:induction false} ItemsMean(r: Reader, ts: seq<Tree>, i: nat)
    requires InArray(r, i, ItemsDepth(ts)) && forall t | t in ts :: Orderly(t)
    ensures var q := Feed(r, SeveralEvents(ts));
            match Items(ts, i)
            case Is(es) => q.state == REGULAR && |q.levels| == |r.levels| && q.levels[..|r.levels| - 1] == r.levels[..|r.levels| - 1]
                           && Top(q).isArray && q.ops == r.ops + Script(es)
            case Refused => q.state == ERROR
            case Silent => q.state == UNMODELLED
    decreases ts, 0
  {
    hide React, Feed, TreeEvents, SeveralEvents, Denote, Items, Orderly, ElementScript, Depth, Decimal;
    EmptyFeed(r);
    if ts == [] {
      NoItems(r, i);
    } else {
      SeveralHead(ts);
      ItemsHead(ts, i);
      FeedConcat(r, TreeEvents(ts[0]), SeveralEvents(ts[1..]));
      ArrayKey(r);
      var key := Index(i);
      ValueMeans(r, key, ts[0]);
      var f := Feed(r, TreeEvents(ts[0]));
      if Denote(ts[0]).Is? {
        ItemsMean(f, ts[1..], i + 1);
        var e := Element(key, Denote(ts[0]).value);
        if Items(ts[1..], i + 1).Is? {
          var rest := Items(ts[1..], i + 1).value;
          assert ([e] + rest)[1..] == rest;
          assert (r.ops + ElementScript(e)) + Script(rest) == r.ops + Script([e] + rest);
        }
      } else {
        FeedHalted(f, SeveralEvents(ts[1..]));
      }
    }
  }

  lemma NoItems(r: Reader, i: nat)
    ensures SeveralEvents([]) == [] && Items([], i) == Is([]) && r.ops + Script([]) == r.ops
  {}

  lemma {:induction false} ArrayMeans(r: Reader, key: CString, ts: seq<Tree>)
    requires Expects(r, key) && |r.levels| + 1 + ItemsDepth(ts) <= STACK_MAX && forall t | t in ts :: Orderly(t)
    ensures Means(r, Feed(r, TreeEvents(Arr(ts))), key, Denote(Arr(ts)))
    decreases ts, 1
  {
    hide React, Feed, TreeEvents, SeveralEvents, Fixup, Items, Orderly, ElementScript, ItemsDepth;
    StartsMap(r, key);
    StartsArray(r, key);
    ArrEvents(ts);
    var inside, events := Opened(r, key, true), SeveralEvents(ts);
    FeedOne(r, StartArray, events + [EndArray]);
    FeedConcat(inside, events, [EndArray]);
    ItemsMean(inside, ts, 0);
    var q := Feed(inside, events);
    if Items(ts, 0).Is? {
      var es := Items(ts, 0).value;
      NestedScripts(key, es);
      LastEvent(q, EndArray);
      ClosesArray(q);
      assert inside.levels[..|inside.levels| - 1] == Fixup(r).levels;
      Regroup(r.ops, [Begin(key, true)], Script(es), [End]);
    } else {
      FeedHalted(q, [EndArray]);
    }
  }

  lemma ArrEvents(ts: seq<Tree>)
    ensures TreeEvents(Arr(ts)) == [StartArray] + (SeveralEvents(ts) + [EndArray])
  {}

  /** Whole documents: a new reader ends in `DONE` with the calls that spell the fields, or refuses, or the model stops. */
  lemma {:induction false} RootMeans(ms: seq<Member>)
    requires OrderlyFields(ms, true) && MembersDepth(ms) < STACK_MAX
    ensures var f := Feed(START, TreeEvents(Obj(ms)));
            match Fields(ms, true)
            case Is(es) => f.state == DONE && f.levels == [] && f.ops == Script(es)
            case Refused => f.state == ERROR
            case Silent => f.state == UNMODELLED
  {
    hide React, Feed, TreeEvents, MemberEvents, Utf8.Valid, Fields, OrderlyFields, MembersDepth, Marked, Literal;
    var inside := START.(levels := [Level(false, 0, false, false)]);
    RootFeed(ms);
    if ms == [] {
      EmptyRoot();
    } else if !Utf8.Valid(ms[0].key, true) {
      BadRootKey(ms);
    } else {
      RootOpened(ms);
      FieldsMean(inside, ms, true);
      var q := Feed(inside, MemberEvents(ms));
      if Fields(ms, true).Is? {
        RootMarks(Top(inside), ms);
        LastEvent(q, EndMap);
        RootEnds(q);
        assert [] + Script(Fields(ms, true).value) == Script(Fields(ms, true).value);
      } else {
        FeedHalted(q, [EndMap]);
      }
    }
  }

  lemma RootFeed(ms: seq<Member>)
    ensures var r1 := START.(state := IN_START_MAP);
            Feed(START, TreeEvents(Obj(ms))) == Feed(Feed(r1, MemberEvents(ms)), [EndMap])
    ensures ms == [] ==> Feed(START, TreeEvents(Obj(ms))) == React(START.(state := IN_START_MAP), EndMap) && Fields(ms, true) == Is([])
  {
    hide React, Feed, TreeEvents, MemberEvents;
    StartsRoot();
    ObjEvents(ms);
    var r1 := START.(state := IN_START_MAP);
    assert [StartMap] + MemberEvents(ms) + [EndMap] == [StartMap] + (MemberEvents(ms) + [EndMap]);
    FeedOne(START, StartMap, MemberEvents(ms) + [EndMap]);
    FeedConcat(r1, MemberEvents(ms), [EndMap]);
    if ms == [] {
      NoEvents();
      EmptyFeed(r1);
      LastEvent(r1, EndMap);
    }
  }

  lemma NoEvents()
    ensures MemberEvents([]) == []
  {}

  lemma BadRootKey(ms: seq<Member>)
    requires ms != [] && !Utf8.Valid(ms[0].key, true)
    ensures Feed(Feed(START.(state := IN_START_MAP), MemberEvents(ms)), [EndMap]).state == ERROR && Fields(ms, true) == Refused
  {
    hide Feed, MemberEvents, TreeEvents, Utf8.Valid;
    MemberEventsHead(ms);
    var r1 := START.(state := IN_START_MAP);
    var m, rest := MapKey(ms[0].key), TreeEvents(ms[0].value) + MemberEvents(ms[1..]);
    assert MemberEvents(ms) == [m] + rest;
    FeedOne(r1, m, rest);
    FeedHalted(React(r1, m), rest);
    FeedHalted(React(r1, m), [EndMap]);
  }

  lemma RootOpened(ms: seq<Member>)
    requires ms != [] && Utf8.Valid(ms[0].key, true)
    ensures Feed(START.(state := IN_START_MAP), MemberEvents(ms))
         == Feed(START.(levels := [Level(false, 0, false, false)]), MemberEvents(ms))
  {
    hide Feed, MemberEvents, TreeEvents, Utf8.Valid, KeywordOf, UpToNul;
    MemberEventsHead(ms);
    var r1, inside := START.(state := IN_START_MAP), START.(levels := [Level(false, 0, false, false)]);
    var m, rest := MapKey(ms[0].key), TreeEvents(ms[0].value) + MemberEvents(ms[1..]);
    assert MemberEvents(ms) == [m] + rest;
    assert [] + [Level(false, 0, false, false)] == [Level(false, 0, false, false)];
    FeedOne(r1, m, rest);
    FeedOne(inside, m, rest);
  }

  lemma {:induction false} RootMarks(l: Level, ms: seq<Member>)
    ensures Marked(l, ms, true) == l
    decreases |ms|
  {
    if ms != [] {
      RootMarks(l, ms[1..]);
    }
  }

  lemma RootEnds(q: Reader)
    requires q.state == REGULAR && |q.levels| == 1 && !Top(q).isArray
    ensures var f := React(q, EndMap); f.state == DONE && f.levels == [] && f.ops == q.ops
  {}

  /** The tree of a text has the text's events. */
  lemma {:induction false} TreeAgrees(n: Grammar.Node)
    requires Grammar.Valid(n)
    ensures TreeEvents(TreeOf(n)) == Grammar.Events(n) && Depth(TreeOf(n)) <= Grammar.Height(n)
    decreases n, 1
  {
    match n
    case Map(_, members) => MembersAgree(members);
    case List(_, items) => ItemsAgree(items);
    case _ =>
  }

  lemma {:induction false} MembersAgree(ms: seq<Grammar.Member>)
    requires forall m | m in ms :: Grammar.ValidMember(m)
    ensures MemberEvents(MembersOf(ms)) == Grammar.MemberEvents(ms) && MembersDepth(MembersOf(ms)) <= Grammar.MembersHeight(ms)
    decreases ms, 0
  {
    hide TreeEvents, Grammar.Events, Depth, Grammar.Height, Escapes.Meaning;
    if ms != [] {
      assert Grammar.ValidMember(ms[0]);
      TreeAgrees(ms[0].value);
      MembersAgree(ms[1..]);
      MembersTail(ms);
    }
  }

  lemma MembersTail(ms: seq<Grammar.Member>)
    requires ms != [] && forall m | m in ms :: Grammar.ValidMember(m)
    ensures MembersOf(ms) != [] && MembersOf(ms)[1..] == MembersOf(ms[1..]) && Grammar.ValidMember(ms[0])
    ensures MembersOf(ms)[0] == Member(Escapes.Meaning(ms[0].key), TreeOf(ms[0].value))
  {
    assert Grammar.ValidMember(ms[0]);
    hide TreeOf, Escapes.Meaning;
  }

  lemma {:induction false} ItemsAgree(items: seq<Grammar.Item>)
    requires forall i | i in items :: Grammar.ValidItem(i)
    ensures SeveralEvents(ItemsOf(items)) == Grammar.ItemEvents(items) && ItemsDepth(ItemsOf(items)) <= Grammar.ItemsHeight(items)
    decreases items, 0
  {
    hide TreeEvents, Grammar.Events, Depth, Grammar.Height;
    if items != [] {
      assert Grammar.ValidItem(items[0]);
      TreeAgrees(items[0].value);
      ItemsAgree(items[1..]);
      assert ItemsOf(items)[1..] == ItemsOf(items[1..]);
    }
  }
}
