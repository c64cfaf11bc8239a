/** Every run of the Extended JSON reader, on any events at all: its levels mirror the builder's open documents. */
module JsonNesting {
  import opened Bytes
  import opened BsonTree
  import opened BuilderRuns
  import opened BuilderCalls
  import opened JsonMachine
  import opened RegexOptions
  import Range = DecimalRange
  import Utf8

  /**
   The builder calls so far can all be made, they have opened a document or array for each level but the
   root's own, of the same kind, and there are never more levels than the reader's stack holds.
   */
  ghost predicate Mirrors(r: Reader) {
    && |r.levels| <= STACK_MAX && Run([ROOT], r.ops).Open?
    && (forall i | 0 <= i < |r.ops| :: OptionsSorted(r.ops[i]))
    && var fs := Run([ROOT], r.ops).frames;
       && |fs| == (if r.levels == [] then 1 else |r.levels|)
       && forall i | 1 <= i < |r.levels| :: fs[i].isArray == r.levels[i].isArray
  }

  ghost predicate Sound(r: Reader) {
    (r.state == UNMODELLED || Mirrors(r)) && (r.state == DONE ==> r.levels == [])
  }

  lemma RunAppend(ops: seq<Op>, op: Op)
    requires Run([ROOT], ops).Open?
    ensures Run([ROOT], ops + [op]) == Step(Run([ROOT], ops).frames, op)
  {
    hide Step;
    RunConcat([ROOT], ops, [op]);
    assert [op][1..] == [];
  }

  /** Nothing but the levels and the calls matters, and of a level nothing but its kind. */
  lemma SameShape(r: Reader, q: Reader)
    requires Mirrors(r) && q.ops == r.ops && |q.levels| == |r.levels|
    requires forall i | 0 <= i < |r.levels| :: q.levels[i].isArray == r.levels[i].isArray
    ensures Mirrors(q)
  {}

  lemma FixupMirrors(r: Reader)
    requires Mirrors(r)
    ensures Mirrors(Fixup(r)) && Fixup(r).state == r.state && (Fixup(r).levels == [] <==> r.levels == [])
  {
    hide Decimal;
    SameShape(r, Fixup(r));
  }

  lemma AppendMirrors(r: Reader, v: Value)
    requires Mirrors(r) && (v.Regex? ==> SortedOptions(v.options, REGEX_OPTIONS) == v.options)
    ensures Mirrors(Append(r, v)) && Append(r, v).levels == r.levels && (Append(r, v).state == r.state || Append(r, v).state == UNMODELLED)
  {
    if r.levels != [] && r.key.Some? && 0 !in r.key.value {
      RunAppend(r.ops, Put(Element(r.key.value, v)));
    }
  }

  lemma PushMirrors(r: Reader, isArray: bool)
    requires Mirrors(r) && r.state != UNMODELLED
    ensures Push(r, isArray).Pushed? ==>
              var q := Push(r, isArray).reader;
              q.levels != [] && (q.state == UNMODELLED || (q.state == r.state && Mirrors(q)))
  {
    if r.levels != [] && r.key.Some? && 0 !in r.key.value {
      RunAppend(r.ops, Begin(r.key.value, isArray));
    }
  }

  lemma PopMirrors(r: Reader, isArray: bool)
    requires Mirrors(r)
    ensures var q := Pop(r, isArray);
            Mirrors(q) && (q.state == r.state || q.state == DONE) && (q.state == DONE && r.state != DONE ==> q.levels == [])
            && (r.levels == [] ==> q == r)
  {
    if r.levels != [] && Top(r).isArray == isArray && |r.levels| > 1 {
      RunAppend(r.ops, End);
    }
  }

  /** Events reach the reader in these states only. */
  ghost predicate Live(r: Reader) { Sound(r) && r.state != UNMODELLED && r.state != ERROR }

  lemma AppendIfNormalSound(r: Reader, v: Value)
    requires Mirrors(r) && !v.Regex? && (r.state == DONE ==> r.levels == [])
    ensures Sound(AppendIfNormal(r, v))
  {
    AppendMirrors(r, v);
    hide Append, Mirrors;
  }

  lemma SimpleSound(r: Reader, b: bool)
    requires Live(r)
    ensures Sound(OnNull(r)) && Sound(OnBoolean(r, b)) && Sound(OnDouble(r))
  {
    FixupMirrors(r);
    hide Fixup, Mirrors, AppendIfNormal;
    AppendIfNormalSound(Fixup(r), Null);
    AppendIfNormalSound(Fixup(r), Boolean(b));
  }

  lemma IntegerSound(r: Reader, n: uint64, negative: bool)
    requires Live(r)
    ensures Sound(OnInteger(r, n, negative))
  {
    FixupMirrors(r);
    hide Fixup, AppendIfNormal, Run;
    var f := Fixup(r);
    var value: int64 := if negative && n <= TWO_63 then -(n as int) else if n < TWO_63 then n else 0;
    AppendIfNormalSound(f, Int64(value));
    if -INT32_MAX - 1 <= value <= INT32_MAX {
      AppendIfNormalSound(f, Int32(value));
    }
  }

  lemma BinaryDataSound(r: Reader, text: CString)
    requires Mirrors(r)
    ensures var q := BinaryData(r, text);
            Mirrors(q) && (q.state == r.state || q.state == ERROR || q.state == UNMODELLED)
  {}

  lemma NumberSound(r: Reader, text: seq<byte>)
    requires Mirrors(r) && r.state != DONE
    ensures Sound(NumberString(r, text))
  {
    hide ParseInt64, Range.Outcome, CharsOf, UpToNul, Run;
  }

  lemma TypedSound(r: Reader, text: seq<byte>)
    requires Mirrors(r) && r.state in [IN_BSON_TYPE, TIMESTAMP_VALUES, REGEX_VALUES, DATE_NUMBERLONG]
    ensures Sound(TypedString(r, text))
  {
    hide Append, NumberString, OidFromText, BinaryElem, Run;
    NumberSound(r, text);
    AppendMirrors(r, Symbol(text));
    AppendMirrors(r, Value.Utf8(text));
    var b := r.(data := r.data.(binaryLegacy := true));
    BinarySound(b, text);
  }

  lemma BinarySound(r: Reader, text: seq<byte>)
    requires Mirrors(r) && r.state != DONE && r.state != UNMODELLED
    ensures Sound(BinaryElem(r, text))
  {
    hide BinaryData, BinarySubtype, Mirrors;
    BinaryDataSound(r, UpToNul(text));
    SubtypeSound(r, text);
  }

  lemma SubtypeSound(r: Reader, text: seq<byte>)
    requires Mirrors(r) && r.state != DONE && r.state != UNMODELLED
    ensures Sound(BinarySubtype(r, text))
  {
    hide Push, Append, UpToNul, ScanHex, Run, Literal;
    var r1 := r.(data := r.data.(hasSubtype := true), state := REGULAR);
    PushMirrors(r1, false);
    if Push(r1, false).Pushed? {
      var q := Push(r1, false).reader;
      if q.state == REGULAR {
        AppendMirrors(q.(key := Some(Literal(TYPE))), Value.Utf8(text));
      }
    }
  }

  lemma StringSound(r: Reader, text: seq<byte>)
    requires Live(r)
    ensures Sound(OnString(r, text))
  {
    FixupMirrors(r);
    hide Fixup, AppendIfNormal, TypedString, BinaryElem, Run, Utf8.Valid;
    var f := Fixup(r);
    AppendIfNormalSound(f, Value.Utf8(text));
    if f.state == BINARY_VALUES {
      BinarySound(f, text);
    } else if f.state in [IN_BSON_TYPE, TIMESTAMP_VALUES, REGEX_VALUES, DATE_NUMBERLONG] {
      TypedSound(f, text);
    }
  }

  lemma Elsewhere(r: Reader)
    requires Mirrors(r)
    ensures forall state, key :: Mirrors(r.(state := state)) && Mirrors(r.(key := key))
  {
    forall state, key ensures Mirrors(r.(state := state)) && Mirrors(r.(key := key)) {
      SameShape(r, r.(state := state));
      SameShape(r, r.(key := key));
    }
  }

  /** The document that is the operand of the query operator `$type`. */
  lemma TypeOperand(f: Reader)
    requires Mirrors(f) && f.state == IN_BSON_TYPE
    ensures match Push(f.(state := IN_START_MAP), false)
            case Full => true
            case Pushed(r1) => Sound(r1.(key := Some(Literal(TYPE))))
  {
    Elsewhere(f);
    PushMirrors(f.(state := IN_START_MAP), false);
    hide Push, Run, Literal, Mirrors;
    match Push(f.(state := IN_START_MAP), false)
    case Full =>
    case Pushed(r1) =>
      if r1.state != UNMODELLED {
        Elsewhere(r1);
      }
  }

  lemma StartMapSound(r: Reader)
    requires Live(r)
    ensures Sound(OnStartMap(r))
  {
    FixupMirrors(r);
    hide Fixup, Push, Run, Literal, Mirrors;
    var f := Fixup(r);
    Elsewhere(f);
    if f.state == IN_BSON_TYPE && f.field == TYPE {
      TypeOperand(f);
    }
  }

  lemma PlainKeySound(r: Reader, text: seq<byte>)
    requires Mirrors(r) && r.state != UNMODELLED && (r.state == DONE ==> r.levels == [])
    ensures Sound(PlainKey(r, text))
  {
    hide KeywordOf, UpToNul;
    SameShape(r, PlainKey(r, text));
  }

  lemma TypeKeySound(r: Reader, k: Keyword)
    requires Mirrors(r) && r.state != DONE
    ensures Sound(TypeKey(r, k))
  {
    hide Run;
  }

  lemma MapKeySound(r: Reader, text: seq<byte>)
    requires Live(r)
    ensures Sound(OnMapKey(r, text))
  {
    hide Push, Run, KeywordOf, IsKnown, WrapperKey, PlainKey, TypeKey, Utf8.Valid;
    var k := KeywordOf(text);
    if r.state == IN_START_MAP {
      var r0 := r.(state := REGULAR);
      PushMirrors(r0, false);
      TypeKeySound(r.(state := IN_BSON_TYPE, bsonType := 0, data := NO_DATA), k);
      if Push(r0, false).Pushed? && Push(r0, false).reader.state == REGULAR {
        PlainKeySound(Push(r0, false).reader, text);
      }
    } else if r.state == IN_BSON_TYPE {
      TypeKeySound(r, WrapperKey(text));
    } else {
      PlainKeySound(r, text);
    }
  }

  lemma CollectedSound(r: Reader)
    requires Mirrors(r) && r.state != DONE && r.state != UNMODELLED
    ensures Sound(AppendRegex(r)) && Sound(AppendBinary(r)) && Sound(AppendTimestamp(r))
    ensures Sound(Append(r, DateTime(r.data.date)))
  {
    hide Append, Run, UpToNul, SortedOptions;
    SortedTwice(UpToNul(r.buf1));
    AppendMirrors(r, Regex(UpToNul(r.buf0), SortedOptions(UpToNul(r.buf1), REGEX_OPTIONS)));
    AppendMirrors(r, Binary(r.data.subtype, r.buf0));
    AppendMirrors(r, Timestamp(r.data.t, r.data.i));
    AppendMirrors(r, DateTime(r.data.date));
  }

  lemma SortedTwice(options: seq<byte>)
    ensures SortedOptions(SortedOptions(options, REGEX_OPTIONS), REGEX_OPTIONS) == SortedOptions(options, REGEX_OPTIONS)
  {
    SortedAgain(options, REGEX_OPTIONS);
  }

  lemma TypedEndSound(r: Reader)
    requires Mirrors(r) && r.state == REGULAR
    ensures Sound(AppendTyped(r))
  {
    hide Append, AppendRegex, AppendBinary, AppendTimestamp, Run, Mirrors;
    CollectedSound(r);
    AppendSound(r, ObjectId(r.data.oid));
    AppendSound(r, Undefined);
    AppendSound(r, MinKey);
    AppendSound(r, MaxKey);
    AppendSound(r, Int32(r.data.int32Value));
    AppendSound(r, Int64(r.data.int64Value));
    AppendSound(r, Value.Decimal128(r.data.decimal.low, r.data.decimal.high));
    Elsewhere(r);
  }

  lemma AppendSound(r: Reader, v: Value)
    requires Mirrors(r) && r.state != DONE && !v.Regex?
    ensures Sound(Append(r, v))
  {
    AppendMirrors(r, v);
    hide Append, Mirrors;
  }

  lemma EndDocumentSound(r: Reader)
    requires Mirrors(r) && r.state == REGULAR
    ensures Sound(EndDocument(r))
  {
    PopMirrors(r, false);
    hide Pop, Run;
  }

  lemma EndMapSound(r: Reader)
    requires Live(r)
    ensures Sound(OnEndMap(r))
  {
    hide Push, Run, AppendTyped, AppendRegex, AppendBinary, AppendTimestamp, Append, EndDocument;
    var r0 := r.(state := REGULAR);
    match r.state {
      case IN_START_MAP =>
        PushMirrors(r0, false);
        if Push(r0, false).Pushed? && Push(r0, false).reader.state == REGULAR {
          EndDocumentSound(Push(r0, false).reader);
        }
      case REGULAR => EndDocumentSound(r);
      case IN_BSON_TYPE => TypedEndSound(r0);
      case TIMESTAMP_VALUES => CollectedSound(r.(state := TIMESTAMP_ENDMAP));
      case REGEX_VALUES => CollectedSound(r.(state := REGEX_ENDMAP));
      case BINARY_VALUES => CollectedSound(r.(state := BINARY_ENDMAP));
      case DATE_NUMBERLONG => CollectedSound(r.(state := DATE_ENDMAP));
      case _ =>
    }
  }

  lemma ArraySound(r: Reader)
    requires Live(r)
    ensures Sound(OnStartArray(r)) && Sound(OnEndArray(r))
  {
    FixupMirrors(r);
    PopMirrors(r, true);
    hide Fixup, Push, Pop, Run;
    if r.state == REGULAR {
      PushMirrors(Fixup(r), true);
    }
  }

  lemma ReactSound(r: Reader, e: Event)
    requires Live(r)
    ensures Sound(React(r, e))
  {
    hide OnNull, OnBoolean, OnDouble, OnInteger, OnString, OnMapKey, OnStartMap, OnEndMap, OnStartArray, OnEndArray, Run;
    match e
    case StartMap => StartMapSound(r);
    case EndMap => EndMapSound(r);
    case StartArray => ArraySound(r);
    case EndArray => ArraySound(r);
    case MapKey(text) => MapKeySound(r, text);
    case StringRead(text) => StringSound(r, text);
    case IntegerRead(n, negative) => IntegerSound(r, n, negative);
    case BooleanRead(b) => SimpleSound(r, b);
    case NullRead => SimpleSound(r, false);
    case DoubleRead => SimpleSound(r, false);
    case BadText =>
  }

  /** Whatever events arrive, from any sound state. */
  lemma {:induction false} FeedSound(r: Reader, events: seq<Event>)
    requires Sound(r)
    ensures Sound(Feed(r, events))
    decreases |events|
  {
    hide React, Sound;
    if events != [] && r.state != ERROR && r.state != UNMODELLED {
      assert Live(r);
      ReactSound(r, events[0]);
      FeedSound(React(r, events[0]), events[1..]);
    }
  }

  /**
   On any events at all the reader never misuses the builder and never has more than its hundred levels; and
   when it says that the document is done, exactly the root is open.
   */
  lemma EveryRunNests(events: seq<Event>)
    ensures var q := Feed(START, events);
            q.state != UNMODELLED ==>
              && |q.levels| <= STACK_MAX && Run([ROOT], q.ops).Open? && (forall i | 0 <= i < |q.ops| :: OptionsSorted(q.ops[i]))
              && (q.state == DONE ==> q.levels == [] && |Run([ROOT], q.ops).frames| == 1)
  {
    assert Sound(START);
    hide Feed, Run;
    FeedSound(START, events);
  }
}
