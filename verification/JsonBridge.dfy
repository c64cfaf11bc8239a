/** The writer's texts among all JSON texts: its spacing and its escapes are one way to write a tree. */
module JsonBridge {
  import opened Bytes
  import opened JsonGrammar
  import opened Utf8
  import Dec = DecimalDigits
  import Escapes = JsonEscapes
  import Strings = JsonString
  import Syntax = JsonSyntax

  function BytesAlone(text: seq<byte>): seq<Escapes.Unit> {
    if text == [] then [] else [Escapes.Alone(Escapes.Byte(text[0]))] + BytesAlone(text[1..])
  }

  function UnitsOfScalar(c: scalar): seq<Escapes.Unit> {
    var text := Strings.EscapeScalar(c);
    if text[0] != 0x5c then BytesAlone(text)
    else if text[1] != 0x75 then [Escapes.Alone(Escapes.Letter(text[1]))]
    else [Escapes.Code(text[2..], c)]
  }

  function UnitsOf(ps: seq<Piece>): seq<Escapes.Unit>
    requires Strings.Strict(ps)
  {
    if ps == [] then [] else UnitsOfScalar(ps[0].c) + UnitsOf(ps[1..])
  }

  lemma {:induction false} BytesAloneText(text: seq<byte>)
    requires forall i | 0 <= i < |text| :: text[i] >= 0x20 && text[i] != 0x22 && text[i] != 0x5c
    ensures ValidText(BytesAlone(text)) && Escapes.Text(BytesAlone(text)) == text
  {
    if text != [] {
      BytesAloneText(text[1..]);
      OneMore(Escapes.Alone(Escapes.Byte(text[0])), BytesAlone(text[1..]));
    }
  }

  lemma OneMore(u: Escapes.Unit, us: seq<Escapes.Unit>)
    requires ValidUnit(u) && ValidText(us)
    ensures ValidText([u] + us) && Escapes.Text([u] + us) == Escapes.UnitText(u) + Escapes.Text(us)
  {
    hide ValidUnit, Escapes.UnitText;
    assert Escapes.ValidUnit(u) by { UnitIsValid(u); }
    hide Escapes.ValidUnit;
    assert ([u] + us)[1..] == us;
  }

  lemma UnitIsValid(u: Escapes.Unit)
    requires ValidUnit(u)
    ensures Escapes.ValidUnit(u)
  {}

  lemma {:induction false} TextConcat(a: seq<Escapes.Unit>, b: seq<Escapes.Unit>)
    requires ValidText(a) && ValidText(b)
    ensures ValidText(a + b) && Escapes.Text(a + b) == Escapes.Text(a) + Escapes.Text(b)
  {
    hide ValidUnit, Escapes.ValidUnit, Escapes.UnitText;
    if a == [] {
      assert a + b == b;
    } else {
      assert (a + b)[0] == a[0] && (a + b)[1..] == a[1..] + b;
      TextConcat(a[1..], b);
    }
  }

  lemma ControlDigits(c: scalar)
    requires c < 0x20
    ensures Escapes.Spells16([0x30, 0x30, Strings.HexDigit(c / 16), Strings.HexDigit(c % 16)], c)
  {}

  lemma OneUnit(u: Escapes.Unit)
    requires ValidUnit(u)
    ensures ValidText([u]) && Escapes.Text([u]) == Escapes.UnitText(u)
  {
    hide Escapes.UnitText, ValidUnit;
    NoUnits();
    OneMore(u, []);
    assert [u] + [] == [u];
  }

  lemma ControlText(c: scalar)
    requires c < 0x20 && !Strings.HasShortEscape(c)
    ensures ValidText(UnitsOfScalar(c)) && Escapes.Text(UnitsOfScalar(c)) == Strings.EscapeScalar(c)
  {
    hide Escapes.Text, ValidText, EncodeScalar, Escapes.Spells16;
    var text := Strings.EscapeScalar(c);
    ControlDigits(c);
    assert text[2..] == [0x30, 0x30, Strings.HexDigit(c / 16), Strings.HexDigit(c % 16)];
    assert text == [0x5c, 0x75] + text[2..];
    OneUnit(Escapes.Code(text[2..], c));
  }

  lemma ShortText(c: scalar)
    requires Strings.HasShortEscape(c)
    ensures ValidText(UnitsOfScalar(c)) && Escapes.Text(UnitsOfScalar(c)) == Strings.EscapeScalar(c)
  {
    hide Escapes.Text, ValidText, EncodeScalar;
    OneUnit(Escapes.Alone(Escapes.Letter(Strings.EscapeScalar(c)[1])));
  }

  lemma ScalarText(c: scalar)
    ensures ValidText(UnitsOfScalar(c)) && Escapes.Text(UnitsOfScalar(c)) == Strings.EscapeScalar(c)
  {
    hide Escapes.Text, ValidText, EncodeScalar;
    if Strings.HasShortEscape(c) {
      ShortText(c);
    } else if c < 0x20 {
      ControlText(c);
    } else {
      Strings.NoBackslash(c);
      PrintableBytes(c);
      BytesAloneText(EncodeScalar(c));
    }
  }

  lemma NoUnits()
    ensures ValidText([]) && Escapes.Text([]) == []
  {}

  lemma PrintableBytes(c: scalar)
    requires c >= 0x20 && c != 0x22 && c != 0x5c
    ensures forall i | 0 <= i < |EncodeScalar(c)| :: EncodeScalar(c)[i] >= 0x20 && EncodeScalar(c)[i] != 0x22 && EncodeScalar(c)[i] != 0x5c
  {
    if c >= 0x80 {
      GatherScalar(c);
      LeadByte(c);
    }
  }

  /** An escaped text is a spelling of the text. */
  lemma {:induction false} EscapedIsSpelling(ps: seq<Piece>)
    requires Strings.Strict(ps)
    ensures ValidText(UnitsOf(ps)) && Escapes.Text(UnitsOf(ps)) == Strings.Escaped(ps)
  {
    hide Strings.EscapeScalar, UnitsOfScalar, ValidUnit, Escapes.ValidUnit;
    if ps != [] {
      EscapedIsSpelling(ps[1..]);
      ScalarText(ps[0].c);
      TextConcat(UnitsOfScalar(ps[0].c), UnitsOf(ps[1..]));
    }
  }

  ghost function Spelling(text: seq<byte>): seq<Escapes.Unit>
    requires Strings.IsStrict(text)
  {
    var ps :| Strings.Strict(ps) && Flatten(ps) == text;
    UnitsOf(ps)
  }

  lemma SpellingIsEscaped(text: seq<byte>)
    requires Strings.IsStrict(text)
    ensures ValidText(Spelling(text)) && Quoted(Spelling(text)) == Syntax.Quoted(text) && Escapes.Meaning(Spelling(text)) == text
  {
    hide Escapes.Text, Escapes.Meaning, Strings.UnescapeFrom, ValidUnit, Escapes.ValidUnit;
    var ps :| Strings.Strict(ps) && Flatten(ps) == text && Spelling(text) == UnitsOf(ps);
    EscapedIsSpelling(ps);
    Strings.EscapedOnce(ps);
    Strings.EscapeRoundTrip(ps);
    Escapes.Understood(UnitsOf(ps));
  }

  const SPACE: seq<byte> := [0x20]

  /** The writer's tree as a text: a space inside the brackets and behind every comma and colon. */
  ghost function NodeOf(j: Syntax.Json): Node
    requires Syntax.WellFormed(j)
    decreases j, 1
  {
    match j
    case Text(text) => Text(Spelling(text))
    case Number(n) => Integer(false, Dec.Digits(n))
    case Const(w) => Const(w)
    case Map(members, spaced) =>
      var last := if spaced then SPACE else [];
      Node.Map(SPACE + (if members == [] then last else []), MembersOf(members, last))
    case Array(items) => List(SPACE + (if items == [] then SPACE else []), ItemsOf(items))
  }

  ghost function MembersOf(ms: seq<Syntax.Member>, last: seq<byte>): seq<Member>
    requires forall m | m in ms :: Strings.IsStrict(m.key) && Syntax.WellFormed(m.value)
    decreases ms, 0
  {
    if ms == [] then []
    else
      [Member(Spelling(ms[0].key), if ms[0].spaced then SPACE else [], SPACE, NodeOf(ms[0].value), if |ms| == 1 then last else [], SPACE)]
      + MembersOf(ms[1..], last)
  }

  ghost function ItemsOf(js: seq<Syntax.Json>): seq<Item>
    requires forall j | j in js :: Syntax.WellFormed(j)
    decreases js, 0
  {
    if js == [] then [] else [Item(NodeOf(js[0]), if |js| == 1 then SPACE else [], SPACE)] + ItemsOf(js[1..])
  }

  lemma LeafAgrees(j: Syntax.Json)
    requires Syntax.WellFormed(j) && !j.Map? && !j.Array?
    ensures JsonGrammar.Valid(NodeOf(j)) && Render(NodeOf(j)) == Syntax.Render(j)
    ensures Events(NodeOf(j)) == Syntax.Events(j) && Height(NodeOf(j)) == Syntax.Height(j)
  {
    hide Spelling, Strings.IsStrict, Escapes.Meaning, Syntax.Quoted, Quoted, ValidUnit, Escapes.ValidUnit;
    match j
    case Text(text) => SpellingIsEscaped(text);
    case Number(n) => Dec.ValueOfDigits(n);
    case Const(_) =>
  }

  /** One way to write the tree among all the others. */
  lemma {:induction false} NodeAgrees(j: Syntax.Json)
    requires Syntax.WellFormed(j)
    ensures JsonGrammar.Valid(NodeOf(j)) && Render(NodeOf(j)) == Syntax.Render(j)
    ensures Events(NodeOf(j)) == Syntax.Events(j) && Height(NodeOf(j)) == Syntax.Height(j)
    decreases j, 1
  {
    hide JsonGrammar.Valid, Render, Events, Height, NodeOf, Syntax.Render, Syntax.Events, Syntax.Height, Strings.IsStrict;
    match j
    case Map(members, spaced) =>
      MembersAgree(members, if spaced then SPACE else []);
      MapAgrees(members, spaced);
    case Array(items) =>
      ItemsAgree(items);
      ArrayAgrees(items);
    case _ => LeafAgrees(j);
  }

  lemma {:induction false} MapAgrees(members: seq<Syntax.Member>, spaced: bool)
    requires forall m | m in members :: Strings.IsStrict(m.key) && Syntax.WellFormed(m.value)
    requires var last := if spaced then SPACE else [];
             var ns := MembersOf(members, last);
             && |ns| == |members| && (forall m | m in ns :: ValidMember(m))
             && RenderMembers(ns) == Syntax.RenderMembers(members) + (if members == [] then [] else last)
             && MemberEvents(ns) == Syntax.MemberEvents(members) && MembersHeight(ns) == Syntax.MembersHeight(members)
    ensures var j := Syntax.Map(members, spaced);
            Syntax.WellFormed(j) ==>
              JsonGrammar.Valid(NodeOf(j)) && Render(NodeOf(j)) == Syntax.Render(j)
              && Events(NodeOf(j)) == Syntax.Events(j) && Height(NodeOf(j)) == Syntax.Height(j)
  {
    hide Strings.IsStrict, Syntax.RenderMembers, RenderMembers, MemberEvents, Syntax.MemberEvents, MembersHeight, Syntax.MembersHeight, ValidMember,
      MembersOf;
    var last := if spaced then SPACE else [];
    var body := RenderMembers(MembersOf(members, last));
    NoMembers();
    NothingRendered();
    Enclosing(0x7b, if members == [] then last else [], body, 0x7d);
    Enclosing(0x7b, [], Syntax.RenderMembers(members) + last, 0x7d);
  }

  lemma {:induction false} ArrayAgrees(items: seq<Syntax.Json>)
    requires forall j | j in items :: Syntax.WellFormed(j)
    requires var ns := ItemsOf(items);
             && |ns| == |items| && (forall i | i in ns :: ValidItem(i))
             && RenderItems(ns) == Syntax.RenderItems(items) + (if items == [] then [] else SPACE)
             && ItemEvents(ns) == Syntax.ItemEvents(items) && ItemsHeight(ns) == Syntax.ItemsHeight(items)
    ensures var j := Syntax.Array(items);
            Syntax.WellFormed(j) ==>
              JsonGrammar.Valid(NodeOf(j)) && Render(NodeOf(j)) == Syntax.Render(j)
              && Events(NodeOf(j)) == Syntax.Events(j) && Height(NodeOf(j)) == Syntax.Height(j)
  {
    hide Syntax.RenderItems, RenderItems, ItemEvents, Syntax.ItemEvents, ItemsHeight, Syntax.ItemsHeight, ValidItem, ItemsOf;
    NoMembers();
    NothingRendered();
    Enclosing(0x5b, if items == [] then SPACE else [], RenderItems(ItemsOf(items)), 0x5d);
    Enclosing(0x5b, [], Syntax.RenderItems(items) + SPACE, 0x5d);
  }

  lemma Enclosing(open: byte, space: seq<byte>, body: seq<byte>, close: byte)
    ensures [open] + (SPACE + space) + body + [close] == [open, 0x20] + (space + body) + [close]
  {}

  lemma NoMembers()
    ensures forall last :: MembersOf([], last) == []
    ensures ItemsOf([]) == []
  {}

  lemma NothingRendered()
    ensures RenderMembers([]) == [] && Syntax.RenderMembers([]) == [] && RenderItems([]) == [] && Syntax.RenderItems([]) == []
  {}

  lemma {:induction false} MembersAgree(ms: seq<Syntax.Member>, last: seq<byte>)
    requires IsSpace(last) && forall m | m in ms :: Strings.IsStrict(m.key) && Syntax.WellFormed(m.value)
    ensures var ns := MembersOf(ms, last);
            && |ns| == |ms| && (forall m | m in ns :: ValidMember(m))
            && RenderMembers(ns) == Syntax.RenderMembers(ms) + (if ms == [] then [] else last)
            && MemberEvents(ns) == Syntax.MemberEvents(ms) && MembersHeight(ns) == Syntax.MembersHeight(ms)
    decreases ms, 0
  {
    hide Spelling, Strings.IsStrict, Escapes.Meaning, Syntax.Quoted, Quoted, ValidUnit, Escapes.ValidUnit, NodeOf, Render, Syntax.Render,
      Events, Syntax.Events, Height, Syntax.Height, JsonGrammar.Valid, Syntax.WellFormed;
    if ms != [] {
      var ns := MembersOf(ms, last);
      SpellingIsEscaped(ms[0].key);
      NodeAgrees(ms[0].value);
      MembersAgree(ms[1..], last);
      assert ns[1..] == MembersOf(ms[1..], last);
      assert ValidMember(ns[0]);
      assert |ms| == 1 ==> ms[1..] == [];
      hide MembersOf, IsSpace;
      MemberRendered(ns, ms, last);
    }
  }

  lemma {:induction false} MemberRendered(ns: seq<Member>, ms: seq<Syntax.Member>, last: seq<byte>)
    requires (forall m | m in ms :: Strings.IsStrict(m.key) && Syntax.WellFormed(m.value)) && |ns| == |ms| > 0
    requires RenderKey(ns[0]) + Render(ns[0].value) == Syntax.RenderKey(ms[0]) + Syntax.Render(ms[0].value)
    requires ns[0].after == (if |ms| == 1 then last else []) && ns[0].next == SPACE
    requires RenderMembers(ns[1..]) == Syntax.RenderMembers(ms[1..]) + (if ms[1..] == [] then [] else last)
    ensures RenderMembers(ns) == Syntax.RenderMembers(ms) + last
  {
    hide Render, Syntax.Render, RenderKey, Syntax.RenderKey, Syntax.WellFormed, Strings.IsStrict;
    assert |ms| == 1 <==> ms[1..] == [];
  }

  lemma {:induction false} ItemsAgree(js: seq<Syntax.Json>)
    requires forall j | j in js :: Syntax.WellFormed(j)
    ensures var ns := ItemsOf(js);
            && |ns| == |js| && (forall i | i in ns :: ValidItem(i))
            && RenderItems(ns) == Syntax.RenderItems(js) + (if js == [] then [] else SPACE)
            && ItemEvents(ns) == Syntax.ItemEvents(js) && ItemsHeight(ns) == Syntax.ItemsHeight(js)
    decreases js, 0
  {
    hide NodeOf, Render, Syntax.Render, Events, Syntax.Events, Height, Syntax.Height, JsonGrammar.Valid, Syntax.WellFormed;
    if js != [] {
      var ns := ItemsOf(js);
      NodeAgrees(js[0]);
      ItemsAgree(js[1..]);
      assert ns[1..] == ItemsOf(js[1..]);
      assert ValidItem(ns[0]);
      assert |js| == 1 ==> js[1..] == [];
    }
  }
}
