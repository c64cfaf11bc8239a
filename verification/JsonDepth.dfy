/** Texts that nest deeper than the lexer has levels: exactly those are refused. */
module JsonDepth {
  import opened Bytes
  import opened LexerStep
  import opened Lexer
  import opened JsonGrammar
  import opened JsonLexing
  import opened JsonString
  import opened JsonTokens
  import Dec = DecimalDigits
  import Escapes = JsonEscapes
  import Machine = JsonMachine
  import Syntax = JsonSyntax

  ghost predicate TooDeep(r: Lex) { r.status == Failed(LevelsExceeded) }

  lemma {:induction false} RunDead(s: Lex, client: Client, text: seq<byte>)
    requires !s.status.Running?
    ensures Run(s, client, text) == s
  {
    hide Step;
    if text != [] {
      RunDead(s, client, text[..|text| - 1]);
    }
  }

  /** Once refused, a text stays refused whatever follows. */
  lemma StaysTooDeep(s: Lex, client: Client, a: seq<byte>, b: seq<byte>)
    requires Sound(s) && TooDeep(Run(s, client, a))
    ensures TooDeep(Run(s, client, a + b))
  {
    hide Run;
    RunConcat(s, client, a, b);
    RunDead(Run(s, client, a), client, b);
  }

  /** The first byte of a token that needs a level when there is none left. */
  lemma NoLevelForString(s: Lex, client: Client)
    requires InContainer(s) && s.level + 1 == |s.stack|
    requires Top(s).kind == Kind.List || if NeedsKey(Top(s)) then s.expecting == QUOTE else s.tokLast == COLON
    ensures TooDeep(Run(s, client, [QUOTE]))
  {
    RunQuote(s, client);
    hide Run;
  }

  lemma NoLevelForContainer(s: Lex, client: Client, c: byte)
    requires InContainer(s) && s.level + 1 == |s.stack| && s.canInsert && !NeedsKey(Top(s)) && (c == OPEN_OBJECT || c == OPEN_LIST)
    ensures TooDeep(Run(s, client, [c]))
  {
    RunSingle(s, client, c);
    BracketClass(c);
    hide Run, Quote, Escape, SpecialBegin, Closing, ExtractSpecial, IsWhitespace;
    assert Step(s, client, c) == Opening(s, client, c);
  }

  lemma NoLevelForLiteral(s: Lex, client: Client, c: byte)
    requires InContainer(s) && s.level + 1 == |s.stack| && s.canInsert && !NeedsKey(Top(s))
    requires ExtractSpecial(c) != NO_FLAGS && !IsWhitespace(c)
    ensures TooDeep(Run(s, client, [c]))
  {
    RunSingle(s, client, c);
    hide Run, Quote, Escape, Structural, ExtractSpecial, IsWhitespace;
    assert Step(s, client, c) == SpecialBegin(s, client, c);
  }

  /** Where a value may start if there is a level left for it. */
  ghost predicate AwaitsValue(s: Lex) {
    InContainer(s) && s.canInsert && (Top(s).kind == Kind.List || (!NeedsKey(Top(s)) && s.tokLast == COLON))
  }

  lemma NumberBegins(negative: bool, whole: seq<Dec.digit>)
    requires whole != []
    ensures var text := WholeBytes(negative, whole);
            text != [] && ExtractSpecial(text[0]) != NO_FLAGS && !IsWhitespace(text[0])
  {
    hide Machine.DigitBytes;
    var c: byte := 0x30 + whole[0] as int;
    DigitClass(c);
  }

  lemma LetterBegins(w: Syntax.Constant)
    ensures Syntax.Spelling(w) != [] && ExtractSpecial(Syntax.Spelling(w)[0]) != NO_FLAGS && !IsWhitespace(Syntax.Spelling(w)[0])
  {}

  lemma DeepLiteral(s: Lex, client: Client, text: seq<byte>)
    requires AwaitsValue(s) && s.level + 1 == |s.stack| && text != [] && ExtractSpecial(text[0]) != NO_FLAGS && !IsWhitespace(text[0])
    ensures TooDeep(Run(s, client, text))
  {
    hide Run, ExtractSpecial, IsWhitespace;
    NoLevelForLiteral(s, client, text[0]);
    assert text == [text[0]] + text[1..];
    StaysTooDeep(s, client, [text[0]], text[1..]);
  }

  lemma DeepNumber(s: Lex, client: Client, n: Node)
    requires AwaitsValue(s) && Valid(n) && (n.Integer? || n.Fraction?) && s.level + 1 == |s.stack|
    ensures TooDeep(Run(s, client, Render(n)))
  {
    hide Run, WholeBytes, ExtractSpecial, IsWhitespace, PlacesBytes, ExponentBytes;
    NumberBegins(n.negative, n.whole);
    DeepLiteral(s, client, WholeBytes(n.negative, n.whole));
    if n.Fraction? {
      assert Render(n) == WholeBytes(n.negative, n.whole) + (PlacesBytes(n.places) + ExponentBytes(n.exponent));
      StaysTooDeep(s, client, WholeBytes(n.negative, n.whole), PlacesBytes(n.places) + ExponentBytes(n.exponent));
    }
  }

  lemma DeepWord(s: Lex, client: Client, w: Syntax.Constant)
    requires AwaitsValue(s) && s.level + 1 == |s.stack|
    ensures TooDeep(Run(s, client, Syntax.Spelling(w)))
  {
    hide Run, Syntax.Spelling, ExtractSpecial, IsWhitespace;
    LetterBegins(w);
    DeepLiteral(s, client, Syntax.Spelling(w));
  }

  lemma {:induction false} DeepValue(input: seq<byte>, s: Lex, client: Client, n: Node)
    requires AwaitsValue(s) && Quiet(client) && Valid(n) && s.level + Height(n) >= |s.stack| && Stands(input, s.pos, Render(n))
    ensures TooDeep(Run(s, client, Render(n)))
    decreases n, 2
  {
    hide Run, Quoted, Stands, WholeBytes, PlacesBytes, ExponentBytes, Syntax.Spelling, RenderMembers, RenderItems, IsSpace, ValidText;
    match n
    case Integer(_, _) => DeepNumber(s, client, n);
    case Fraction(_, _, _, _) => DeepNumber(s, client, n);
    case Const(w) => DeepWord(s, client, w);
    case Text(units) => DeepText(s, client, units);
    case Map(lead, members) => DeepMap(input, s, client, lead, members);
    case List(lead, items) => DeepArray(input, s, client, lead, items);
  }

  lemma DeepText(s: Lex, client: Client, units: seq<Escapes.Unit>)
    requires InContainer(s) && s.level + 1 == |s.stack|
    requires Top(s).kind == Kind.List || if NeedsKey(Top(s)) then s.expecting == QUOTE else s.tokLast == COLON
    ensures TooDeep(Run(s, client, Quoted(units)))
  {
    hide Run, Escapes.Text;
    NoLevelForString(s, client);
    assert Quoted(units) == [QUOTE] + (Escapes.Text(units) + [QUOTE]);
    StaysTooDeep(s, client, [QUOTE], Escapes.Text(units) + [QUOTE]);
  }

  /** An opening bracket for which there is no level. */
  lemma DeepOpening(s: Lex, client: Client, open: byte, rest: seq<byte>)
    requires AwaitsValue(s) && s.level + 1 == |s.stack| && (open == OPEN_OBJECT || open == OPEN_LIST)
    ensures TooDeep(Run(s, client, [open] + rest))
  {
    hide Run;
    NoLevelForContainer(s, client, open);
    StaysTooDeep(s, client, [open], rest);
  }

  lemma {:induction false} DeepMap(input: seq<byte>, s: Lex, client: Client, lead: seq<byte>, members: seq<Member>)
    requires var n := Node.Map(lead, members);
             && Quiet(client) && Valid(n) && s.level + Height(n) >= |s.stack| && Stands(input, s.pos, Render(n))
             && (AwaitsValue(s) || TakesContainer(s))
    ensures TooDeep(Run(s, client, Render(Node.Map(lead, members))))
    decreases members, 4
  {
    hide Run, Lexes, RenderMembers, MembersHeight, ValidMember, IsSpace;
    var a, body, c := [OPEN_OBJECT] + lead, RenderMembers(members), [CLOSE_OBJECT];
    if s.level + 1 == |s.stack| {
      assert a + body + c == [OPEN_OBJECT] + (lead + body + c);
      DeepOpening(s, client, OPEN_OBJECT, lead + body + c);
    } else {
      StandsSplit(input, s.pos, a + body, c);
      StandsSplit(input, s.pos, a, body);
      hide Stands;
      OpenSpace(input, s, client, OPEN_OBJECT, lead);
      var k := Run(s, client, a);
      StartsAt(input, s, k, |a|, [Machine.StartMap]);
      DeepMembers(input, k, client, members);
      RunConcat(s, client, a, body);
      StaysTooDeep(s, client, a + body, c);
    }
  }

  lemma {:induction false} DeepArray(input: seq<byte>, s: Lex, client: Client, lead: seq<byte>, items: seq<Item>)
    requires var n := Node.List(lead, items);
             && Quiet(client) && Valid(n) && s.level + Height(n) >= |s.stack| && Stands(input, s.pos, Render(n)) && AwaitsValue(s)
    ensures TooDeep(Run(s, client, Render(Node.List(lead, items))))
    decreases items, 4
  {
    hide Run, Lexes, RenderItems, ItemsHeight, ValidItem, IsSpace;
    var a, body, c := [OPEN_LIST] + lead, RenderItems(items), [CLOSE_LIST];
    if s.level + 1 == |s.stack| {
      assert a + body + c == [OPEN_LIST] + (lead + body + c);
      DeepOpening(s, client, OPEN_LIST, lead + body + c);
    } else {
      StandsSplit(input, s.pos, a + body, c);
      StandsSplit(input, s.pos, a, body);
      hide Stands;
      OpenSpace(input, s, client, OPEN_LIST, lead);
      var k := Run(s, client, a);
      StartsAt(input, s, k, |a|, [Machine.StartArray]);
      DeepItems(input, k, client, items);
      RunConcat(s, client, a, body);
      StaysTooDeep(s, client, a + body, c);
    }
  }

  lemma {:induction false} DeepMembers(input: seq<byte>, s: Lex, client: Client, ms: seq<Member>)
    requires TakesKey(s) && Quiet(client) && forall m | m in ms :: ValidMember(m)
    requires s.level + MembersHeight(ms) >= |s.stack| && Stands(input, s.pos, RenderMembers(ms))
    ensures TooDeep(Run(s, client, RenderMembers(ms)))
    decreases ms, 3
  {
    assert ms != [] by { assert MembersHeight([]) == 0; }
    var m := ms[0];
    assert ValidMember(m);
    hide Run, Render, RenderKey, Events, Stands, Lexes, Height, IsSpace, Valid, Escapes.ValidUnit, ValidUnit, EndsToken;
    var a, b := RenderKey(m), Render(m.value);
    var comma := if |ms| == 1 then [] else [COMMA] + m.next + RenderMembers(ms[1..]);
    assert RenderMembers(ms) == (a + b) + (m.after + comma);
    if s.level + 1 == |s.stack| || s.level + Height(m.value) >= |s.stack| {
      StandsSplit(input, s.pos, a + b, m.after + comma);
      DeepMember(input, s, client, m);
      StaysTooDeep(s, client, a + b, m.after + comma);
    } else {
      DeeperMember(ms);
      var p := NextMember(input, s, client, m, RenderMembers(ms[1..]));
      DeepMembers(input, p, client, ms[1..]);
    }
  }

  lemma {:induction false} DeeperMember(ms: seq<Member>)
    requires ms != [] && MembersHeight(ms) > Height(ms[0].value)
    ensures |ms| > 1
    ensures RenderMembers(ms) == (RenderKey(ms[0]) + Render(ms[0].value) + ms[0].after) + ([COMMA] + ms[0].next + RenderMembers(ms[1..]))
  {
    hide Render, RenderKey, Height;
    assert MembersHeight([]) == 0;
  }

  /** A member that fits and the comma behind it, in front of the next member. */
  lemma NextMember(input: seq<byte>, s: Lex, client: Client, m: Member, more: seq<byte>) returns (q: Lex)
    requires TakesKey(s) && Quiet(client) && ValidMember(m) && s.level + Height(m.value) < |s.stack|
    requires Stands(input, s.pos, (RenderKey(m) + Render(m.value) + m.after) + ([COMMA] + m.next + more))
    ensures TakesKey(q) && q.level == s.level && |q.stack| == |s.stack| && Stands(input, q.pos, more)
    ensures Run(s, client, (RenderKey(m) + Render(m.value) + m.after) + ([COMMA] + m.next + more)) == Run(q, client, more)
  {
    hide Run, Render, RenderKey, Events, Stands, Lexes, Height, IsSpace, Valid, Escapes.ValidUnit, ValidUnit, EndsToken;
    var text, comma := RenderKey(m) + Render(m.value) + m.after, [COMMA] + m.next;
    var events := [Machine.MapKey(Escapes.Meaning(m.key))] + Events(m.value);
    StandsSplit(input, s.pos, text, comma + more);
    CommaEnds();
    var p := LexMember(input, s, client, m, comma + more);
    StartsAt(input, s, p, |text|, events);
    StandsSplit(input, p.pos, comma, more);
    AfterComma(input, s, p, client, m.next, more, |text|, events);
    q := PastComma(p, m.next);
  }

  /** A member whose key or value finds no level. */
  lemma {:induction false} DeepMember(input: seq<byte>, s: Lex, client: Client, m: Member)
    requires TakesKey(s) && Quiet(client) && ValidMember(m) && Stands(input, s.pos, RenderKey(m) + Render(m.value))
    requires s.level + 1 == |s.stack| || s.level + Height(m.value) >= |s.stack|
    ensures TooDeep(Run(s, client, RenderKey(m) + Render(m.value)))
    decreases m, 3
  {
    hide Run, Render, Events, Stands, Lexes, Height, Valid, IsSpace, Escapes.ValidUnit, ValidUnit;
    var a, b := RenderKey(m), Render(m.value);
    if s.level + 1 == |s.stack| {
      DeepText(s, client, m.key);
      var rest := m.beforeColon + [COLON] + m.afterColon + b;
      assert a + b == Quoted(m.key) + rest;
      StaysTooDeep(s, client, Quoted(m.key), rest);
    } else {
      hide RenderKey;
      StandsSplit(input, s.pos, a, b);
      LexKey(input, s, client, m);
      var k := Run(s, client, a);
      StartsAt(input, s, k, |a|, [Machine.MapKey(Escapes.Meaning(m.key))]);
      DeepValue(input, k, client, m.value);
      RunConcat(s, client, a, b);
    }
  }

  lemma NextItem(input: seq<byte>, s: Lex, client: Client, i: Item, more: seq<byte>) returns (r: Lex)
    requires TakesItem(s) && Quiet(client) && ValidItem(i) && s.level + Height(i.value) < |s.stack|
    requires Stands(input, s.pos, Render(i.value) + (i.after + ([COMMA] + i.next + more)))
    ensures TakesItem(r) && r.level == s.level && |r.stack| == |s.stack| && Stands(input, r.pos, more)
    ensures Run(s, client, Render(i.value) + (i.after + ([COMMA] + i.next + more))) == Run(r, client, more)
  {
    hide Run, Render, Events, Stands, Lexes, IsSpace, Valid, EndsToken, Height;
    var b, comma := Render(i.value), [COMMA] + i.next;
    StandsSplit(input, s.pos, b, i.after + (comma + more));
    CommaEnds();
    EndsAfter(i.after, comma + more);
    var p := LexValue(input, s, client, i.value, i.after + (comma + more));
    StartsAt(input, s, p, |b|, Events(i.value));
    StandsSplit(input, p.pos, i.after, comma + more);
    AfterValue(input, s, p, client, i.after, comma + more, |b|, Events(i.value));
    var q := p.(pos := p.pos + |i.after|);
    StandsSplit(input, q.pos, comma, more);
    AfterComma(input, s, q, client, i.next, more, |b| + |i.after|, Events(i.value));
    r := PastComma(q, i.next);
  }

  lemma {:induction false} DeepItems(input: seq<byte>, s: Lex, client: Client, items: seq<Item>)
    requires TakesItem(s) && Quiet(client) && forall i | i in items :: ValidItem(i)
    requires s.level + ItemsHeight(items) >= |s.stack| && Stands(input, s.pos, RenderItems(items))
    ensures TooDeep(Run(s, client, RenderItems(items)))
    decreases items, 3
  {
    assert items != [] by { assert ItemsHeight([]) == 0; }
    var i := items[0];
    assert ValidItem(i);
    hide Run, Render, Events, Stands, Lexes, IsSpace, Valid, EndsToken;
    var b := Render(i.value);
    var comma := if |items| == 1 then [] else [COMMA] + i.next + RenderItems(items[1..]);
    assert RenderItems(items) == b + (i.after + comma);
    StandsSplit(input, s.pos, b, i.after + comma);
    if s.level + Height(i.value) >= |s.stack| {
      DeepValue(input, s, client, i.value);
      StaysTooDeep(s, client, b, i.after + comma);
    } else {
      assert ItemsHeight([]) == 0;
      var q := NextItem(input, s, client, i, RenderItems(items[1..]));
      DeepItems(input, q, client, items[1..]);
    }
  }

  /** The lexer takes a text exactly when it has more levels than the text needs. */
  lemma {:induction false} AcceptsIffShallow(client: Client, levels: nat, before: seq<byte>, n: Node, behind: seq<byte>)
    requires Quiet(client) && Valid(n) && n.Map? && IsSpace(before) && IsSpace(behind) && levels >= 2
    ensures var r := Run(Start(levels), client, before + Render(n) + behind);
            && (r.status.Running? <==> Height(n) < levels)
            && (!r.status.Running? ==> r.status == Failed(LevelsExceeded))
  {
    hide Run, Render, Valid, Height, IsSpace;
    var s := Start(levels);
    if Height(n) < levels {
      LexText(client, levels, before, n, behind, []);
    } else {
      var body := Render(n);
      var text := before + body + behind;
      LexOutside(s, client, before);
      var k := Run(s, client, before);
      assert text[|before|..|before| + |body|] == body;
      DeepMap(text, k, client, n.lead, n.members);
      RunConcat(s, client, before, body);
      StaysTooDeep(s, client, before + body, behind);
    }
  }
}
