/** The lexer over a whole JSON text, however it is spaced and spelled: the calls are those of its tree. */
module JsonLexing {
  import opened Bytes
  import opened LexerStep
  import opened Lexer
  import opened JsonString
  import opened JsonGrammar
  import Syntax = JsonSyntax
  import opened JsonTokens
  import Escapes = JsonEscapes
  import Machine = JsonMachine
  import Nesting = LexerNesting

  /** A value and whatever follows it in its container: `p` is between tokens again. */
  lemma {:induction false} LexValue(input: seq<byte>, s: Lex, client: Client, n: Node, tail: seq<byte>) returns (p: Lex)
    requires TakesValue(s) && Quiet(client) && Valid(n) && s.level + Height(n) < |s.stack| && tail != [] && EndsToken(tail[0])
    requires Stands(input, s.pos, Render(n))
    ensures At(s, p, Increment(Top(s).nelem), COMMA, 0, false) && Lexes(input, s, p, |Render(n)|, Events(n))
    ensures Run(s, client, Render(n) + tail) == Run(p, client, tail)
    decreases n, 2
  {
    hide Run, Quoted, Stands, Lexes, At, Escapes.Meaning, ValidText;
    match n
    case Text(units) =>
      LexString(input, s, client, units);
      p := Run(s, client, Quoted(units));
      RunConcat(s, client, Quoted(units), tail);
    case Integer(negative, whole) => p := LexInteger(input, s, client, negative, whole, tail);
    case Fraction(_, _, _, _) => p := LexFraction(input, s, client, n, tail);
    case Const(word) => p := LexWord(input, s, client, word, tail);
    case Map(lead, members) =>
      LexMap(input, s, client, lead, members);
      p := Run(s, client, Render(n));
      RunConcat(s, client, Render(n), tail);
    case List(lead, items) =>
      LexArray(input, s, client, lead, items);
      p := Run(s, client, Render(n));
      RunConcat(s, client, Render(n), tail);
  }

  /** The state of a container between tokens, `nelem` values or keys into it. */
  ghost predicate Within(k: Lex, q: Lex)
    requires k.level < |k.stack|
  {
    && Based(q) && q.status.Running? && q.level == k.level && |q.stack| == |k.stack| && q.stack[..k.level] == k.stack[..k.level]
    && Top(q).kind == Top(k).kind && !q.inEscape
  }

  /** The container with all its contents read. */
  ghost predicate Filled(k: Lex, q: Lex)
    requires k.level < |k.stack|
  {
    Within(k, q) && q.tokLast != COMMA && (Top(q).kind == Object ==> Top(q).nelem % 2 == 0)
  }

  /** An object in front of its next key. */
  ghost predicate TakesKey(s: Lex) {
    InContainer(s) && Top(s).kind == Object && Top(s).nelem % 2 == 0 && s.expecting == QUOTE
  }

  /** A list in front of its next item. */
  ghost predicate TakesItem(s: Lex) { InContainer(s) && Top(s).kind == Kind.List && s.canInsert }

  lemma FilledOn(s: Lex, q: Lex, f: Lex)
    requires s.level < |s.stack| && Within(s, q) && Filled(q, f)
    ensures Filled(s, f)
  {}

  /** The space behind a value. */
  lemma AfterValue(input: seq<byte>, s: Lex, p: Lex, client: Client, space: seq<byte>, tail: seq<byte>, n: nat, events: seq<Machine.Event>)
    requires InContainer(s) && IsSpace(space)
    requires At(s, p, Increment(Top(s).nelem), COMMA, 0, false) && Lexes(input, s, p, n, events)
    ensures var q := p.(pos := p.pos + |space|);
            && At(s, q, Increment(Top(s).nelem), COMMA, 0, false) && InContainer(q) && Within(s, q)
            && Lexes(input, s, q, n + |space|, events)
            && Run(p, client, space + tail) == Run(q, client, tail)
  {
    hide IsSpace, Syntax.Calls;
    StaysBased(s, p);
    LexSpaces(p, client, space);
    RunConcat(p, client, space, tail);
    hide Run;
  }

  /** Behind a comma and the space after it. */
  function PastComma(p: Lex, space: seq<byte>): Lex
    requires p.level < |p.stack|
  {
    p.(pos := p.pos + 1 + |space|, tokLast := COMMA, canInsert := p.canInsert || Top(p).kind != Object, expecting := QUOTE)
  }

  lemma RunComma(p: Lex, client: Client, space: seq<byte>, tail: seq<byte>)
    requires InContainer(p) && p.expecting == COMMA && IsSpace(space)
    ensures Run(p, client, [COMMA] + space + tail) == Run(PastComma(p, space), client, tail)
  {
    hide Run, IsSpace;
    LexComma(p, client);
    var r := Run(p, client, [COMMA]);
    LexSpaces(r, client, space);
    RunConcat(p, client, [COMMA], space);
    RunConcat(p, client, [COMMA] + space, tail);
  }

  /** The comma and the space behind it. */
  lemma AfterComma(input: seq<byte>, s: Lex, p: Lex, client: Client, space: seq<byte>, tail: seq<byte>, n: nat, events: seq<Machine.Event>)
    requires InContainer(s) && IsSpace(space) && Lexes(input, s, p, n, events)
    requires InContainer(p) && Within(s, p) && p.expecting == COMMA
    ensures var q := PastComma(p, space);
            && InContainer(q) && Within(s, q) && Top(q) == Top(p) && Lexes(input, s, q, n + 1 + |space|, events)
            && Run(p, client, [COMMA] + space + tail) == Run(q, client, tail)
  {
    hide Run, Syntax.Calls;
    RunComma(p, client, space, tail);
    hide IsSpace;
  }

  lemma StartsAt(input: seq<byte>, s: Lex, k: Lex, n: nat, events: seq<Machine.Event>)
    requires Lexes(input, s, k, n, events)
    ensures k.pos == s.pos + n
  {}

  /** A key and its value. */
  lemma {:induction false} LexMember(input: seq<byte>, s: Lex, client: Client, m: Member, tail: seq<byte>) returns (q: Lex)
    requires TakesKey(s) && Quiet(client) && ValidMember(m) && s.level + Height(m.value) < |s.stack|
    requires tail != [] && EndsToken(tail[0])
    requires var text := RenderKey(m) + Render(m.value) + m.after; Stands(input, s.pos, text)
    ensures var text := RenderKey(m) + Render(m.value) + m.after;
            && InContainer(q) && Within(s, q) && Top(q).nelem % 2 == 0 && q.expecting == COMMA && q.tokLast == 0 && !q.canInsert
            && Lexes(input, s, q, |text|, [Machine.MapKey(Escapes.Meaning(m.key))] + Events(m.value))
            && Run(s, client, text + tail) == Run(q, client, tail)
    decreases m, 3
  {
    hide Run, Render, RenderKey, Events, Stands, Lexes, Escapes.Meaning, Escapes.ValidUnit, ValidUnit, IsSpace, Valid, Height,
      EndsToken;
    var a, b, c := RenderKey(m), Render(m.value), m.after;
    var key := [Machine.MapKey(Escapes.Meaning(m.key))];
    StandsSplit(input, s.pos, a + b, c);
    StandsSplit(input, s.pos, a, b);
    LexKey(input, s, client, m);
    var k := Run(s, client, a);
    StartsAt(input, s, k, |a|, key);
    EndsAfter(c, tail);
    var p := LexValue(input, k, client, m.value, c + tail);
    AfterValue(input, k, p, client, c, tail, |b|, Events(m.value));
    q := p.(pos := p.pos + |c|);
    LexesThen(input, s, k, q, |a|, |b| + |c|, key, Events(m.value));
    RunConcat(s, client, a, b + (c + tail));
    assert a + b + c + tail == a + (b + (c + tail));
    Nesting.Parity(Top(s).nelem);
    Nesting.Parity(Top(k).nelem);
  }

  lemma EndsAfter(space: seq<byte>, tail: seq<byte>)
    requires IsSpace(space) && tail != [] && EndsToken(tail[0])
    ensures space + tail != [] && EndsToken((space + tail)[0])
  {}

  /** The members of an object, up to its closing brace. */
  lemma {:induction false} LexMembers(input: seq<byte>, s: Lex, client: Client, ms: seq<Member>, tail: seq<byte>) returns (f: Lex)
    requires TakesKey(s) && Quiet(client) && (ms == [] ==> s.tokLast != COMMA) && forall m | m in ms :: ValidMember(m)
    requires s.level + MembersHeight(ms) < |s.stack| && Stands(input, s.pos, RenderMembers(ms)) && tail != [] && EndsToken(tail[0])
    ensures Filled(s, f) && Lexes(input, s, f, |RenderMembers(ms)|, MemberEvents(ms))
    ensures Run(s, client, RenderMembers(ms) + tail) == Run(f, client, tail)
    decreases ms, 2
  {
    hide Run, Render, RenderKey, Events, Stands, Lexes, Escapes.Meaning, Escapes.ValidUnit, ValidUnit, IsSpace, Valid, Height,
      EndsToken;
    if ms == [] {
      f := s;
      assert RenderMembers(ms) + tail == tail;
      LexesNothing(input, s);
    } else if |ms| == 1 {
      assert ValidMember(ms[0]);
      OnlyMember(ms[0]);
      assert ms == [ms[0]];
      f := LexMember(input, s, client, ms[0], tail);
    } else {
      var m, rest := ms[0], RenderMembers(ms[1..]);
      assert ValidMember(m);
      var text, comma := RenderKey(m) + Render(m.value) + m.after, [COMMA] + m.next;
      assert RenderMembers(ms) == text + (comma + rest);
      assert RenderMembers(ms) + tail == text + (comma + (rest + tail));
      StandsSplit(input, s.pos, text, comma + rest);
      CommaEnds();
      var first := [Machine.MapKey(Escapes.Meaning(m.key))] + Events(m.value);
      var p := LexMember(input, s, client, m, comma + (rest + tail));
      StartsAt(input, s, p, |text|, first);
      StandsSplit(input, p.pos, comma, rest);
      AfterComma(input, s, p, client, m.next, rest + tail, |text|, first);
      var q := PastComma(p, m.next);
      f := LexMembers(input, q, client, ms[1..], tail);
      FilledOn(s, q, f);
      LexesThen(input, s, q, f, |text| + 1 + |m.next|, |rest|, first, MemberEvents(ms[1..]));
    }
  }

  lemma CommaEnds()
    ensures EndsToken(COMMA)
  {}

  lemma LexesNothing(input: seq<byte>, s: Lex)
    ensures Lexes(input, s, s, 0, [])
  {
    assert Syntax.Calls(input, s.trace) + [] == Syntax.Calls(input, s.trace);
  }

  lemma OnlyMember(m: Member)
    requires ValidMember(m)
    ensures RenderMembers([m]) == RenderKey(m) + Render(m.value) + m.after
    ensures MemberEvents([m]) == [Machine.MapKey(Escapes.Meaning(m.key))] + Events(m.value)
    ensures MembersHeight([m]) == Height(m.value)
  {
    hide Render, RenderKey, Events, Escapes.Meaning, Valid;
    assert [m][1..] == [];
    assert MemberEvents([]) == [] && MembersHeight([]) == 0;
  }

  lemma OnlyItem(i: Item)
    requires ValidItem(i)
    ensures RenderItems([i]) == Render(i.value) + i.after && ItemEvents([i]) == Events(i.value)
    ensures ItemsHeight([i]) == Height(i.value)
  {
    hide Render, Events, Valid;
    assert [i][1..] == [];
    assert ItemEvents([]) == [] && ItemsHeight([]) == 0;
  }

  /** The items of an array, up to its closing bracket. */
  lemma {:induction false} LexItems(input: seq<byte>, s: Lex, client: Client, items: seq<Item>, tail: seq<byte>) returns (f: Lex)
    requires TakesItem(s) && Quiet(client) && (items == [] ==> s.tokLast != COMMA) && forall i | i in items :: ValidItem(i)
    requires s.level + ItemsHeight(items) < |s.stack| && Stands(input, s.pos, RenderItems(items)) && tail != [] && EndsToken(tail[0])
    ensures Filled(s, f) && Lexes(input, s, f, |RenderItems(items)|, ItemEvents(items))
    ensures Run(s, client, RenderItems(items) + tail) == Run(f, client, tail)
    decreases items, 3
  {
    hide Run, Render, Events, Stands, Lexes, IsSpace, Valid, Height, EndsToken;
    if items == [] {
      f := s;
      assert RenderItems(items) + tail == tail;
      LexesNothing(input, s);
    } else {
      var i, rest := items[0], RenderItems(items[1..]);
      assert ValidItem(i);
      var b, comma := Render(i.value), if |items| == 1 then [] else [COMMA] + i.next + rest;
      assert RenderItems(items) == b + (i.after + comma);
      StandsSplit(input, s.pos, b, i.after + comma);
      CommaEnds();
      EndsAfter(i.after, comma + tail);
      assert RenderItems(items) + tail == b + (i.after + (comma + tail));
      var p := LexValue(input, s, client, i.value, i.after + (comma + tail));
      StartsAt(input, s, p, |b|, Events(i.value));
      StandsSplit(input, p.pos, i.after, comma);
      AfterValue(input, s, p, client, i.after, comma + tail, |b|, Events(i.value));
      f := p.(pos := p.pos + |i.after|);
      if |items| == 1 {
        assert items == [i];
        OnlyItem(i);
        assert comma + tail == tail;
      } else {
        f := MoreItems(input, s, f, client, items, tail);
      }
    }
  }

  /** The comma behind an item, and the items after it. */
  lemma {:induction false} MoreItems(input: seq<byte>, s: Lex, p: Lex, client: Client, items: seq<Item>, tail: seq<byte>) returns (f: Lex)
    requires TakesItem(s) && Quiet(client) && |items| > 1 && ValidItem(items[0]) && (forall i | i in items :: ValidItem(i)) && tail != [] && EndsToken(tail[0])
    requires InContainer(p) && Within(s, p) && p.expecting == COMMA && Top(p).kind == Kind.List
    requires s.level + ItemsHeight(items) < |s.stack|
    requires Lexes(input, s, p, |Render(items[0].value)| + |items[0].after|, Events(items[0].value))
    requires Stands(input, p.pos, [COMMA] + items[0].next + RenderItems(items[1..]))
    ensures Filled(s, f) && Lexes(input, s, f, |RenderItems(items)|, ItemEvents(items))
    ensures Run(p, client, [COMMA] + items[0].next + RenderItems(items[1..]) + tail) == Run(f, client, tail)
    decreases items, 2
  {
    hide Run, Render, Events, Stands, Lexes, IsSpace, Valid, Height, EndsToken;
    var i, rest := items[0], RenderItems(items[1..]);
    assert ValidItem(i);
    var n := |Render(i.value)| + |i.after|;
    StandsSplit(input, p.pos, [COMMA] + i.next, rest);
    AfterComma(input, s, p, client, i.next, rest + tail, n, Events(i.value));
    var q := PastComma(p, i.next);
    f := LexItems(input, q, client, items[1..], tail);
    FilledOn(s, q, f);
    LexesThen(input, s, q, f, n + 1 + |i.next|, |rest|, Events(i.value), ItemEvents(items[1..]));
    assert [COMMA] + i.next + rest + tail == [COMMA] + i.next + (rest + tail);
    assert |RenderItems(items)| == n + 1 + |i.next| + |rest|;
  }

  /** A container that has just been opened inside `s`. */
  ghost predicate Opened(s: Lex, k: Lex, kind: Kind)
    requires s.level < |s.stack|
  {
    && InContainer(k) && k.level == s.level + 1 && |k.stack| == |s.stack|
    && k.stack[..s.level] == s.stack[..s.level] && k.stack[s.level] == Counted(Top(s))
    && Top(k).kind == kind && Top(k).nelem == 0 && k.canInsert && k.tokLast == 0 && (kind == Object ==> k.expecting == QUOTE)
  }

  function OpenCall(c: byte): Machine.Event { if c == OPEN_OBJECT then Machine.StartMap else Machine.StartArray }

  function CloseCall(c: byte): Machine.Event { if c == CLOSE_OBJECT then Machine.EndMap else Machine.EndArray }

  lemma OpenSpace(input: seq<byte>, s: Lex, client: Client, open: byte, space: seq<byte>)
    requires TakesContainer(s) && Quiet(client) && (open == OPEN_OBJECT || open == OPEN_LIST) && IsSpace(space)
    ensures var k := Run(s, client, [open] + space);
            Opened(s, k, KindOf(open))
            && Lexes(input, s, k, 1 + |space|, [OpenCall(open)])
  {
    hide Run, Syntax.Calls, IsSpace;
    LexOpen(s, client, open);
    var m := Run(s, client, [open]);
    LexSpaces(m, client, space);
    RunConcat(s, client, [open], space);
    LexesOne(input, s, m, 1, Event(PUSH, Top(m), m.level));
  }

  lemma CloseContainer(input: seq<byte>, s: Lex, k: Lex, q: Lex, client: Client, kind: Kind, close: byte)
    requires s.level < |s.stack| && Opened(s, k, kind) && Filled(k, q) && Quiet(client)
    requires (kind == Object && close == CLOSE_OBJECT) || (kind == Kind.List && close == CLOSE_LIST)
    ensures var r := Run(q, client, [close]);
            At(s, r, Increment(Top(s).nelem), COMMA, 0, false)
            && Lexes(input, q, r, 1, [CloseCall(close)])
  {
    hide Run, Syntax.Calls;
    StaysBased(k, q);
    LexClose(q, client, close);
    var r := Run(q, client, [close]);
    LexesOne(input, q, r, 1, Event(POP, Top(q), q.level));
    assert k.stack[s.level] == k.stack[..k.level][s.level] == q.stack[..k.level][s.level];
    assert r.stack[..s.level] == q.stack[..k.level][..s.level] == k.stack[..k.level][..s.level];
  }

  lemma EnclosedRun(input: seq<byte>, s: Lex, client: Client, open: byte, lead: seq<byte>, body: seq<byte>, close: byte, k: Lex, q: Lex)
    requires TakesContainer(s) && k == Run(s, client, [open] + lead) && Sound(k) && Sound(q)
    requires Run(k, client, body + [close]) == Run(q, client, [close])
    ensures Run(s, client, [open] + lead + (body + [close])) == Run(q, client, [close])
  {
    hide Run;
    RunConcat(s, client, [open] + lead, body + [close]);
  }

  /** Brackets around what fills them. */
  lemma Enclosed(input: seq<byte>, s: Lex, client: Client, open: byte, lead: seq<byte>, body: seq<byte>, close: byte, k: Lex, q: Lex,
                 events: seq<Machine.Event>)
    requires TakesContainer(s) && Quiet(client) && IsSpace(lead) && k == Run(s, client, [open] + lead)
    requires (open == OPEN_OBJECT && close == CLOSE_OBJECT) || (open == OPEN_LIST && close == CLOSE_LIST)
    requires Opened(s, k, KindOf(open)) && Filled(k, q) && Lexes(input, k, q, |body|, events)
    requires Run(k, client, body + [close]) == Run(q, client, [close])
    ensures var r := Run(s, client, [open] + lead + (body + [close]));
            At(s, r, Increment(Top(s).nelem), COMMA, 0, false)
            && Lexes(input, s, r, 1 + |lead| + |body| + 1, [OpenCall(open)] + events + [CloseCall(close)])
  {
    hide Run, Lexes, At, IsSpace, OpenCall, CloseCall, Quiet;
    CloseContainer(input, s, k, q, client, KindOf(open), close);
    EnclosedRun(input, s, client, open, lead, body, close, k, q);
    EnclosedCalls(input, s, client, open, lead, k, q, Run(q, client, [close]), |body|, events, CloseCall(close));
  }

  lemma EnclosedCalls(input: seq<byte>, s: Lex, client: Client, open: byte, lead: seq<byte>, k: Lex, q: Lex, r: Lex, n: nat,
                      events: seq<Machine.Event>, last: Machine.Event)
    requires TakesContainer(s) && Quiet(client) && IsSpace(lead) && k == Run(s, client, [open] + lead)
    requires (open == OPEN_OBJECT || open == OPEN_LIST) && Lexes(input, k, q, n, events) && Lexes(input, q, r, 1, [last])
    ensures Lexes(input, s, r, 1 + |lead| + n + 1, [OpenCall(open)] + events + [last])
  {
    hide Run, Lexes, IsSpace, OpenCall, Quiet, Opened;
    OpenSpace(input, s, client, open, lead);
    ThreeParts(input, s, k, q, r, 1 + |lead|, n, OpenCall(open), events, last);
  }

  lemma ThreeParts(input: seq<byte>, s: Lex, k: Lex, q: Lex, r: Lex, a: nat, b: nat, x: Machine.Event, events: seq<Machine.Event>, y: Machine.Event)
    requires Lexes(input, s, k, a, [x]) && Lexes(input, k, q, b, events) && Lexes(input, q, r, 1, [y])
    ensures Lexes(input, s, r, a + b + 1, [x] + events + [y])
  {
    hide Lexes;
    LexesThen(input, s, k, q, a, b, [x], events);
    LexesThen(input, s, q, r, a + b, 1, [x] + events, [y]);
  }

  /** An object, wherever one may stand. */
  lemma {:induction false} LexMap(input: seq<byte>, s: Lex, client: Client, lead: seq<byte>, members: seq<Member>)
    requires var n := Node.Map(lead, members);
             && TakesContainer(s) && Quiet(client) && Valid(n) && s.level + Height(n) < |s.stack|
             && Stands(input, s.pos, Render(n))
    ensures var n := Node.Map(lead, members);
            var r := Run(s, client, Render(n));
            && At(s, r, Increment(Top(s).nelem), COMMA, 0, false)
            && Lexes(input, s, r, |Render(n)|, Events(n))
    decreases members, 4
  {
    hide Run, At, Lexes, RenderMembers, MemberEvents, MembersHeight, ValidMember, IsSpace;
    var a, body, c := [OPEN_OBJECT] + lead, RenderMembers(members), [CLOSE_OBJECT];
    StandsSplit(input, s.pos, a + body, c);
    StandsSplit(input, s.pos, a, body);
    hide Stands;
    OpenSpace(input, s, client, OPEN_OBJECT, lead);
    var k := Run(s, client, a);
    StartsAt(input, s, k, |a|, [Machine.StartMap]);
    var q := LexMembers(input, k, client, members, c);
    Enclosed(input, s, client, OPEN_OBJECT, lead, body, CLOSE_OBJECT, k, q, MemberEvents(members));
    assert a + body + c == a + (body + c);
  }

  /** An array, wherever one may stand. */
  lemma {:induction false} LexArray(input: seq<byte>, s: Lex, client: Client, lead: seq<byte>, items: seq<Item>)
    requires var n := Node.List(lead, items);
             && TakesContainer(s) && Quiet(client) && Valid(n) && s.level + Height(n) < |s.stack|
             && Stands(input, s.pos, Render(n))
    ensures var n := Node.List(lead, items);
            var r := Run(s, client, Render(n));
            && At(s, r, Increment(Top(s).nelem), COMMA, 0, false)
            && Lexes(input, s, r, |Render(n)|, Events(n))
    decreases items, 4
  {
    hide Run, At, Lexes, RenderItems, ItemEvents, ItemsHeight, ValidItem, IsSpace;
    var a, body, c := [OPEN_LIST] + lead, RenderItems(items), [CLOSE_LIST];
    StandsSplit(input, s.pos, a + body, c);
    StandsSplit(input, s.pos, a, body);
    hide Stands;
    OpenSpace(input, s, client, OPEN_LIST, lead);
    var k := Run(s, client, a);
    StartsAt(input, s, k, |a|, [Machine.StartArray]);
    var q := LexItems(input, k, client, items, c);
    Enclosed(input, s, client, OPEN_LIST, lead, body, CLOSE_LIST, k, q, ItemEvents(items));
    assert a + body + c == a + (body + c);
  }

  /** Space in front of a whole text or behind it. */
  lemma {:induction false} LexOutside(s: Lex, client: Client, space: seq<byte>)
    requires Based(s) && s.status.Running? && s.level == 0 && !s.inEscape && IsSpace(space)
    ensures Run(s, client, space) == s.(pos := s.pos + |space|)
  {
    hide Step;
    if space != [] {
      LexOutside(s, client, space[..|space| - 1]);
      SpaceOutside(s.(pos := s.pos + (|space| - 1)), client, space[|space| - 1]);
    }
  }

  lemma SpaceOutside(s: Lex, client: Client, c: byte)
    requires Based(s) && s.status.Running? && s.level == 0 && !s.inEscape && c in {0x20, 0x09, 0x0a, 0x0d}
    ensures Step(s, client, c) == s.(pos := s.pos + 1)
  {}

  /** The document is closed, and nothing but a comma is expected. */
  ghost predicate Closed(r: Lex) {
    r.status.Running? && r.level == 0 && Based(r) && !r.inEscape && r.expecting == COMMA && r.tokLast == 0 && !r.canInsert
  }

  /** A whole text: one object, with space around it, whatever follows. */
  lemma LexText(client: Client, levels: nat, before: seq<byte>, n: Node, behind: seq<byte>, more: seq<byte>)
    requires Quiet(client) && Valid(n) && n.Map? && Height(n) < levels && IsSpace(before) && IsSpace(behind) && levels >= 2
    ensures var text := before + Render(n) + behind;
            var r := Run(Start(levels), client, text);
            Closed(r) && |r.stack| == levels && r.pos == |text| && Syntax.Calls(text + more, r.trace) == Events(n)
  {
    hide Run, Render, Events, Valid, Height, IsSpace;
    var body := Render(n);
    var text, s := before + body + behind + more, Start(levels);
    LexOutside(s, client, before);
    var k := Run(s, client, before);
    assert text[|before|..|before| + |body|] == body;
    LexMap(text, k, client, n.lead, n.members);
    var r := Run(k, client, body);
    RunConcat(s, client, before, body);
    RunConcat(s, client, before + body, behind);
    LexOutside(r, client, behind);
    assert Syntax.Calls(text, []) == [];
  }
}
