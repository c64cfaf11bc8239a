/** The text the canonical writer gives for a tree, and the calls it leads to when the lexer reads it. */
module JsonText {
  import opened Bytes
  import opened BsonTree
  import opened JsonMachine
  import opened RegexOptions
  import opened JsonKeywords
  import opened JsonRoundTrip
  import Base64
  import Strings = JsonString
  import Syntax = JsonSyntax
  import Utf8

  function Plain(text: seq<byte>): Syntax.Json { Syntax.Text(text) }

  function Wrapped(k: Keyword, inner: Syntax.Json): Syntax.Json { Syntax.Map([Syntax.Member(Literal(k), true, inner)], true) }

  /** The writer's visitors in canonical mode, spaces included; doubles, code and DBPointers have none here. */
  function Tree(v: Value): Syntax.Json
    decreases v
  {
    match v
    case Document(fields) => Syntax.Map(Members(fields), true)
    case Array(items) => Syntax.Array(Items(items))
    case Utf8(text) => Plain(text)
    case Boolean(b) => Syntax.Const(if b then Syntax.TrueWord else Syntax.FalseWord)
    case Int32(i) => Wrapped(INT32, Plain(Decimal(i)))
    case Int64(l) => Syntax.Map([Syntax.Member(Literal(INT64), true, Plain(Decimal(l)))], false)
    case ObjectId(oid) => Wrapped(OID, Plain(HexText(oid)))
    case Binary(subtype, data) =>
      Wrapped(BINARY, Syntax.Map([Syntax.Member(Literal(BASE64), false, Plain(Base64.Text(data))),
                                  Syntax.Member(Literal(SUBTYPE), true, Plain(HexByte(subtype)))], true))
    case DateTime(ms) => Wrapped(DATE, Wrapped(INT64, Plain(Decimal(ms))))
    case Timestamp(t, inc) =>
      Wrapped(TIMESTAMP, Syntax.Map([Syntax.Member(Literal(T), true, Syntax.Number(t)),
                                     Syntax.Member(Literal(I), true, Syntax.Number(inc))], true))
    case Regex(pattern, options) =>
      Wrapped(REGULAR_EXPRESSION,
              Syntax.Map([Syntax.Member(Literal(PATTERN), true, Plain(pattern)),
                          Syntax.Member(Literal(PLAIN_OPTIONS), true, Plain(SortedOptions(options, REGEX_OPTIONS)))], true))
    case Symbol(text) => Wrapped(SYMBOL, Plain(text))
    case Undefined => Wrapped(UNDEFINED, Syntax.Const(Syntax.TrueWord))
    case MinKey => Wrapped(MINKEY, Syntax.Number(1))
    case MaxKey => Wrapped(MAXKEY, Syntax.Number(1))
    case Decimal128(low, high) => Wrapped(DECIMAL128, Plain(DecimalText(low, high)))
    case _ => Syntax.Const(Syntax.NullWord)
  }

  function Members(es: seq<Element>): seq<Syntax.Member>
    decreases es
  {
    if es == [] then [] else [Syntax.Member(es[0].key, true, Tree(es[0].value))] + Members(es[1..])
  }

  function Items(es: seq<Element>): seq<Syntax.Json>
    decreases es
  {
    if es == [] then [] else [Tree(es[0].value)] + Items(es[1..])
  }

  /** A whole document; the empty one is written without looking at it. */
  function Root(es: seq<Element>): Syntax.Json { Syntax.Map(Members(es), es != []) }

  lemma {:induction false} SevenBitIsStrict(text: seq<byte>)
    requires SevenBit(text)
    ensures Strings.IsStrict(text)
  {
    if text == [] {
      assert Strings.Strict([]) && Utf8.Flatten([]) == text;
    } else {
      SevenBitIsStrict(text[1..]);
      var ps :| Strings.Strict(ps) && Utf8.Flatten(ps) == text[1..];
      var qs := [Utf8.Scalar(text[0])] + ps;
      assert qs[1..] == ps;
      assert Utf8.Flatten(qs) == [text[0]] + text[1..] == text;
    }
  }

  lemma LiteralIsStrict(k: Keyword)
    ensures Strings.IsStrict(Literal(k))
  {
    SevenBitIsStrict(Literal(k));
  }

  lemma OneMember(m: Syntax.Member)
    ensures Syntax.MemberEvents([m]) == [MapKey(m.key)] + Syntax.Events(m.value)
    ensures Syntax.MembersHeight([m]) == Syntax.Height(m.value)
  {
    assert Syntax.MemberEvents([]) == [] && Syntax.MembersHeight([]) == 0;
  }

  /** A wrapper's text. */
  lemma WrappedIsWellFormed(k: Keyword, inner: Syntax.Json)
    requires Syntax.WellFormed(inner)
    ensures Syntax.WellFormed(Wrapped(k, inner))
    ensures Syntax.Events(Wrapped(k, inner)) == Wrap(k, Syntax.Events(inner))
    ensures Syntax.Height(Wrapped(k, inner)) == 1 + Syntax.Height(inner)
  {
    LiteralIsStrict(k);
    hide Literal, Strings.IsStrict;
    var m := Syntax.Member(Literal(k), true, inner);
    OneMember(m);
  }

  lemma TwoMembers(a: Syntax.Member, b: Syntax.Member)
    requires Strings.IsStrict(a.key) && Strings.IsStrict(b.key) && Syntax.WellFormed(a.value) && Syntax.WellFormed(b.value)
    ensures var j := Syntax.Map([a, b], true);
            Syntax.WellFormed(j)
            && Syntax.Events(j) == [StartMap] + ([MapKey(a.key)] + Syntax.Events(a.value) + ([MapKey(b.key)] + Syntax.Events(b.value))) + [EndMap]
  {
    OneMember(b);
    assert [a, b][1..] == [b];
  }

  lemma PlainIsWellFormed(text: seq<byte>)
    requires SevenBit(text)
    ensures Syntax.WellFormed(Plain(text)) && Syntax.Events(Plain(text)) == [StringRead(text)]
  {
    SevenBitIsStrict(text);
  }

  lemma BinaryTree(subtype: byte, data: seq<byte>)
    ensures var v := Binary(subtype, data);
            Syntax.WellFormed(Tree(v)) && Syntax.Events(Tree(v)) == ValueEvents(v)
  {
    hide Literal, HexByte, Base64.Text, Syntax.WellFormed, Syntax.Events;
    var a := Syntax.Member(Literal(BASE64), false, Plain(Base64.Text(data)));
    var b := Syntax.Member(Literal(SUBTYPE), true, Plain(HexByte(subtype)));
    Base64.TextIsAscii(data);
    HexByteReads(subtype);
    PlainIsWellFormed(a.value.text);
    PlainIsWellFormed(b.value.text);
    LiteralIsStrict(BASE64);
    LiteralIsStrict(SUBTYPE);
    TwoMembers(a, b);
    WrappedIsWellFormed(BINARY, Syntax.Map([a, b], true));
  }

  lemma NumberTree(n: uint32)
    ensures Syntax.WellFormed(Syntax.Number(n)) && Syntax.Events(Syntax.Number(n)) == [IntegerRead(n, false)]
  {}

  lemma TimestampTree(t: uint32, inc: uint32)
    ensures var v := Timestamp(t, inc);
            Syntax.WellFormed(Tree(v)) && Syntax.Events(Tree(v)) == ValueEvents(v)
  {
    hide Literal, Syntax.WellFormed, Syntax.Events;
    var a, b := Syntax.Member(Literal(T), true, Syntax.Number(t)), Syntax.Member(Literal(I), true, Syntax.Number(inc));
    NumberTree(t);
    NumberTree(inc);
    LiteralIsStrict(T);
    LiteralIsStrict(I);
    TwoMembers(a, b);
    WrappedIsWellFormed(TIMESTAMP, Syntax.Map([a, b], true));
  }

  lemma RegexTree(pattern: CString, options: CString)
    requires Strings.IsStrict(pattern)
    ensures var v := Regex(pattern, options);
            Syntax.WellFormed(Tree(v)) && Syntax.Events(Tree(v)) == ValueEvents(v)
  {
    hide Literal, SortedOptions, Strings.IsStrict;
    var a := Syntax.Member(Literal(PATTERN), true, Plain(pattern));
    var b := Syntax.Member(Literal(PLAIN_OPTIONS), true, Plain(SortedOptions(options, REGEX_OPTIONS)));
    OptionsAreAscii(options, REGEX_OPTIONS);
    PlainIsWellFormed(b.value.text);
    LiteralIsStrict(PATTERN);
    LiteralIsStrict(PLAIN_OPTIONS);
    TwoMembers(a, b);
    WrappedIsWellFormed(REGULAR_EXPRESSION, Syntax.Map([a, b], true));
  }

  /** A wrapper around one text. */
  lemma TextTree(v: Value, k: Keyword, text: seq<byte>)
    requires Tree(v) == Wrapped(k, Plain(text)) && Strings.IsStrict(text) && ValueEvents(v) == Wrap(k, [StringRead(text)])
    ensures Syntax.WellFormed(Tree(v)) && Syntax.Events(Tree(v)) == ValueEvents(v)
  {
    hide Literal, Strings.IsStrict;
    WrappedIsWellFormed(k, Plain(text));
  }

  lemma LongTree(l: int64)
    ensures Syntax.WellFormed(Tree(Int64(l))) && Syntax.Events(Tree(Int64(l))) == ValueEvents(Int64(l))
  {
    hide Literal, Decimal, Strings.IsStrict, Printable;
    ParseDecimal(l);
    PlainIsWellFormed(Decimal(l));
    LiteralIsStrict(INT64);
    OneMember(Syntax.Member(Literal(INT64), true, Plain(Decimal(l))));
  }

  lemma DateTree(ms: int64)
    ensures Syntax.WellFormed(Tree(DateTime(ms))) && Syntax.Events(Tree(DateTime(ms))) == ValueEvents(DateTime(ms))
  {
    hide Literal, Decimal, Syntax.WellFormed, Syntax.Events;
    ParseDecimal(ms);
    PlainIsWellFormed(Decimal(ms));
    WrappedIsWellFormed(INT64, Plain(Decimal(ms)));
    WrappedIsWellFormed(DATE, Wrapped(INT64, Plain(Decimal(ms))));
  }

  /** The text of a value the round trip covers can be written, and the lexer's calls for it are the value's events. */
  lemma {:induction false} TreeEvents(v: Value)
    requires CanWrite(v)
    ensures Syntax.WellFormed(Tree(v)) && Syntax.Events(Tree(v)) == ValueEvents(v)
    decreases v
  {
    hide Literal, Decimal, HexText, DecimalText, Wrap, Strings.IsStrict, Syntax.WellFormed, Syntax.Events, Wrapped;
    match v
    case Document(fields) =>
      MembersEvents(fields);
      MapTree(fields);
    case Array(items) =>
      ItemsEvents(items);
      ArrayTree(items);
    case Int32(i) =>
      ParseDecimal(i);
      SevenBitIsStrict(Decimal(i));
      TextTree(v, INT32, Decimal(i));
    case Int64(l) => LongTree(l);
    case ObjectId(oid) =>
      HexTextReads(oid);
      SevenBitIsStrict(HexText(oid));
      TextTree(v, OID, HexText(oid));
    case Binary(subtype, data) => BinaryTree(subtype, data);
    case DateTime(ms) => DateTree(ms);
    case Timestamp(t, inc) => TimestampTree(t, inc);
    case Regex(pattern, options) => RegexTree(pattern, options);
    case Symbol(text) => TextTree(v, SYMBOL, text);
    case Decimal128(low, high) =>
      DecimalIsAscii(low, high);
      SevenBitIsStrict(DecimalText(low, high));
      TextTree(v, DECIMAL128, DecimalText(low, high));
    case Undefined =>
      ScalarTrees();
      WrappedIsWellFormed(UNDEFINED, Syntax.Const(Syntax.TrueWord));
    case MinKey =>
      ScalarTrees();
      WrappedIsWellFormed(MINKEY, Syntax.Number(1));
    case MaxKey =>
      ScalarTrees();
      WrappedIsWellFormed(MAXKEY, Syntax.Number(1));
    case Utf8(text) => TextLeaf(text);
    case Boolean(b) => ScalarTrees();
    case Null => ScalarTrees();
  }

  lemma TextLeaf(text: seq<byte>)
    requires Strings.IsStrict(text)
    ensures Syntax.WellFormed(Plain(text)) && Syntax.Events(Plain(text)) == [StringRead(text)]
  {
    hide Strings.IsStrict;
  }

  lemma ScalarTrees()
    ensures forall w :: Syntax.WellFormed(Syntax.Const(w)) && Syntax.Events(Syntax.Const(w)) == [if w == Syntax.NullWord then NullRead else BooleanRead(w == Syntax.TrueWord)]
    ensures Syntax.WellFormed(Syntax.Number(1)) && Syntax.Events(Syntax.Number(1)) == [IntegerRead(1, false)]
  {}

  lemma DecimalIsAscii(low: uint64, high: uint64)
    ensures SevenBit(DecimalText(low, high))
  {}

  lemma {:induction false} MembersEvents(es: seq<Element>)
    requires CanWriteAll(es)
    ensures forall m | m in Members(es) :: Strings.IsStrict(m.key) && Syntax.WellFormed(m.value)
    ensures Syntax.MemberEvents(Members(es)) == FieldEvents(es)
    decreases es
  {
    hide Strings.IsStrict, Syntax.WellFormed, Syntax.Events, Tree, ValueEvents, CanWrite, Utf8.Valid;
    if es != [] {
      TreeEvents(es[0].value);
      KeyIsStrict(es[0].key);
      MembersEvents(es[1..]);
      assert Members(es)[1..] == Members(es[1..]);
    }
  }

  lemma {:induction false} ItemsEvents(es: seq<Element>)
    requires CanWriteAll(es)
    ensures forall j | j in Items(es) :: Syntax.WellFormed(j)
    ensures Syntax.ItemEvents(Items(es)) == ItemEvents(es)
    decreases es
  {
    hide Syntax.WellFormed, Syntax.Events, Tree, ValueEvents, CanWrite, Utf8.Valid;
    if es != [] {
      TreeEvents(es[0].value);
      ItemsEvents(es[1..]);
      assert Items(es)[1..] == Items(es[1..]);
    }
  }

  lemma {:induction false} MapTree(es: seq<Element>)
    requires forall m | m in Members(es) :: Strings.IsStrict(m.key) && Syntax.WellFormed(m.value)
    requires Syntax.MemberEvents(Members(es)) == FieldEvents(es)
    ensures Syntax.WellFormed(Tree(Document(es))) && Syntax.Events(Tree(Document(es))) == ValueEvents(Document(es))
    ensures Syntax.WellFormed(Root(es)) && Syntax.Events(Root(es)) == DocumentEvents(es)
  {
    hide Members, Syntax.MemberEvents, FieldEvents, Strings.IsStrict;
    assert es == [] ==> Members(es) == [] by { NoMembers(); }
  }

  lemma NoMembers()
    ensures Members([]) == []
  {}

  lemma {:induction false} ArrayTree(es: seq<Element>)
    requires forall j | j in Items(es) :: Syntax.WellFormed(j)
    requires Syntax.ItemEvents(Items(es)) == ItemEvents(es)
    ensures Syntax.WellFormed(Tree(Array(es))) && Syntax.Events(Tree(Array(es))) == ValueEvents(Array(es))
  {
    hide Items, Syntax.ItemEvents, ItemEvents;
  }
}
