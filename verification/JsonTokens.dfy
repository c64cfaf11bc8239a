/** The lexer over one token of a JSON text after the other, and the calls they make. */
module JsonTokens {
  import opened Bytes
  import opened LexerStep
  import opened Lexer
  import opened JsonString
  import opened JsonSyntax
  import Dec = DecimalDigits
  import Escapes = JsonEscapes
  import Grammar = JsonGrammar
  import Machine = JsonMachine
  import Nesting = LexerNesting

  ghost predicate Stands(input: seq<byte>, at: nat, text: seq<byte>) {
    at + |text| <= |input| && input[at..at + |text|] == text
  }

  lemma StandsSplit(input: seq<byte>, at: nat, a: seq<byte>, b: seq<byte>)
    requires Stands(input, at, a + b)
    ensures Stands(input, at, a) && Stands(input, at + |a|, b)
  {
    assert input[at..at + |a|] == (a + b)[..|a|];
    assert input[at + |a|..at + |a| + |b|] == (a + b)[|a|..];
  }

  /** `n` bytes further on, with these calls made. */
  ghost predicate Lexes(input: seq<byte>, s: Lex, r: Lex, n: nat, events: seq<Machine.Event>) {
    r.pos == s.pos + n && Calls(input, r.trace) == Calls(input, s.trace) + events
  }

  lemma LexesThen(input: seq<byte>, s: Lex, m: Lex, r: Lex, a: nat, b: nat, x: seq<Machine.Event>, y: seq<Machine.Event>)
    requires Lexes(input, s, m, a, x) && Lexes(input, m, r, b, y)
    ensures Lexes(input, s, r, a + b, x + y)
  {}

  lemma LexesOne(input: seq<byte>, s: Lex, r: Lex, n: nat, e: Event)
    requires r.pos == s.pos + n && r.trace == s.trace + [e]
    ensures Lexes(input, s, r, n, Call(input, e))
  {
    assert r.trace[..|r.trace| - 1] == s.trace;
  }

  /** The same place in the same container, with the registers a token has left. */
  ghost predicate At(s: Lex, r: Lex, nelem: uint64, expecting: byte, tokLast: byte, canInsert: bool)
    requires s.level < |s.stack|
  {
    && r.status.Running? && r.level == s.level && |r.stack| == |s.stack| && r.stack[..s.level] == s.stack[..s.level]
    && Top(r).kind == Top(s).kind && Top(r).nelem == nelem
    && r.expecting == expecting && r.tokLast == tokLast && r.canInsert == canInsert && !r.inEscape
  }

  /** Inside an object or a list, between tokens. */
  ghost predicate InContainer(s: Lex) {
    Based(s) && s.level > 0 && s.status.Running? && !s.inEscape && (Top(s).kind == Object || Top(s).kind == List)
  }

  lemma StaysBased(s: Lex, r: Lex)
    requires Based(s) && r.level == s.level > 0 && |r.stack| == |s.stack| && r.stack[..s.level] == s.stack[..s.level]
    ensures Based(r)
  {
    assert r.stack[0] == r.stack[..s.level][0] == s.stack[..s.level][0];
  }

  /** Any space between tokens. */
  lemma {:induction false} LexSpaces(s: Lex, client: Client, text: seq<byte>)
    requires InContainer(s) && Grammar.IsSpace(text)
    ensures Run(s, client, text) == s.(pos := s.pos + |text|)
  {
    hide Step;
    if text != [] {
      LexSpaces(s, client, text[..|text| - 1]);
      SpaceStep(s.(pos := s.pos + (|text| - 1)), client, text[|text| - 1]);
    }
  }

  lemma SpaceStep(s: Lex, client: Client, c: byte)
    requires InContainer(s) && c in {0x20, 0x09, 0x0a, 0x0d}
    ensures Step(s, client, c) == s.(pos := s.pos + 1)
  {}

  lemma LexColon(s: Lex, client: Client)
    requires InContainer(s) && s.expecting == COLON
    ensures Run(s, client, [COLON]) == s.(pos := s.pos + 1, tokLast := COLON, canInsert := true, expecting := QUOTE)
  {
    RunSingle(s, client, COLON);
    hide Run, Quote, Escape, SpecialBegin, Opening, Closing;
  }

  lemma LexComma(s: Lex, client: Client)
    requires InContainer(s) && s.expecting == COMMA
    ensures Run(s, client, [COMMA])
         == s.(pos := s.pos + 1, tokLast := COMMA, canInsert := s.canInsert || Top(s).kind != Object, expecting := QUOTE)
  {
    RunSingle(s, client, COMMA);
    hide Run, Quote, Escape, SpecialBegin, Opening, Closing;
  }

  /** Where a brace or bracket may open a container. */
  ghost predicate TakesContainer(s: Lex) {
    && Based(s) && s.status.Running? && !s.inEscape && s.canInsert && s.level + 1 < |s.stack|
    && (Top(s).kind == Root || Top(s).kind == List || Top(s).kind == Object) && !NeedsKey(Top(s))
  }

  function KindOf(c: byte): Kind { if c == OPEN_OBJECT then Object else List }

  lemma LexOpen(s: Lex, client: Client, c: byte)
    requires TakesContainer(s) && Quiet(client) && (c == OPEN_OBJECT || c == OPEN_LIST)
    ensures var r := Run(s, client, [c]);
            && InContainer(r) && r.level == s.level + 1 && |r.stack| == |s.stack|
            && r.stack[..s.level] == s.stack[..s.level] && r.stack[s.level] == Counted(Top(s))
            && Top(r).kind == KindOf(c) && Top(r).nelem == 0 && r.canInsert && r.tokLast == 0
            && (c == OPEN_OBJECT ==> r.expecting == QUOTE)
            && r.pos == s.pos + 1 && r.trace == s.trace + [Event(PUSH, Top(r), r.level)]
  {
    RunSingle(s, client, c);
    BracketClass(c);
    hide Run, Quote, Escape, SpecialBegin, Closing, ExtractSpecial, IsWhitespace;
    assert Step(s, client, c) == Opening(s, client, c);
  }

  lemma BracketClass(c: byte)
    requires c == OPEN_OBJECT || c == OPEN_LIST || c == CLOSE_OBJECT || c == CLOSE_LIST
    ensures !IsWhitespace(c) && ExtractSpecial(c) == NO_FLAGS
  {}

  lemma LexClose(s: Lex, client: Client, c: byte)
    requires InContainer(s) && Quiet(client) && s.tokLast != COMMA
    requires (c == CLOSE_OBJECT && Top(s).kind == Object && Top(s).nelem % 2 == 0) || (c == CLOSE_LIST && Top(s).kind == List)
    ensures var r := Run(s, client, [c]);
            && r.status.Running? && r.level == s.level - 1 && |r.stack| == |s.stack| && r.stack[..r.level] == s.stack[..r.level]
            && Top(r) == s.stack[r.level].(posCur := s.pos) && r.pos == s.pos + 1
            && r.expecting == COMMA && r.tokLast == 0 && !r.canInsert && !r.inEscape
            && r.trace == s.trace + [Event(POP, Top(s), s.level)]
  {
    RunSingle(s, client, c);
    BracketClass(c);
    hide Run, Quote, Escape, SpecialBegin, Opening, ExtractSpecial, IsWhitespace;
    assert Step(s, client, c) == Closing(s, client, c);
  }

  lemma {:induction false} EscapesAreSilent(input: seq<byte>, calls: seq<Event>)
    requires forall i | 0 <= i < |calls| :: calls[i].action == UESCAPE
    ensures Calls(input, calls) == []
  {
    if calls != [] {
      EscapesAreSilent(input, calls[..|calls| - 1]);
    }
  }

  /** Of the calls of one string only its pop reaches the reader. */
  lemma CallsOfPair(input: seq<byte>, before: seq<Event>, after: seq<Event>, kind: Kind, begin: nat, end: nat)
    requires OnePair(before, after, kind, begin, end) && IsStringy(kind)
    ensures Calls(input, after) == Calls(input, before) + Call(input, after[|after| - 1])
  {
    hide Call, Calls;
    var push, middle, pop := after[|before|], after[|before| + 1..|after| - 1], after[|after| - 1];
    assert after == before + [push] + middle + [pop];
    forall i | 0 <= i < |middle| ensures middle[i].action == UESCAPE {
      assert middle[i] == after[|before| + 1 + i];
    }
    hide OnePair;
    PushIsSilent(input, push);
    CallsAround(input, before, push, middle, pop);
  }

  lemma CallsAround(input: seq<byte>, before: seq<Event>, push: Event, middle: seq<Event>, pop: Event)
    requires Call(input, push) == [] && forall i | 0 <= i < |middle| :: middle[i].action == UESCAPE
    ensures Calls(input, before + [push] + middle + [pop]) == Calls(input, before) + Call(input, pop)
  {
    hide Call, Calls;
    EscapesAreSilent(input, middle);
    CallsOne(input, push);
    CallsOne(input, pop);
    CallsConcat(input, before, [push]);
    CallsConcat(input, before + [push], middle);
    CallsConcat(input, before + [push] + middle, [pop]);
    assert Calls(input, before) + [] == Calls(input, before);
  }

  lemma CallsOne(input: seq<byte>, e: Event)
    ensures Calls(input, [e]) == Call(input, e)
  {
    assert [e][..0] == [];
  }

  lemma PushIsSilent(input: seq<byte>, e: Event)
    requires e.action == PUSH && e.slot.kind != Object && e.slot.kind != List
    ensures Call(input, e) == []
  {}

  lemma StayConcat(s: Lex, client: Client, a: seq<byte>, b: seq<byte>)
    requires InString(s) && Stays(s, client, a) && (InString(Run(s, client, a)) ==> Stays(Run(s, client, a), client, b))
    ensures Stays(s, client, a + b)
  {
    hide Run;
    var m := Run(s, client, a);
    SameStringTrans(s, m, m, |a|, 0);
    RunConcat(s, client, a, b);
    SameStringTrans(s, m, Run(m, client, b), |a|, |b|);
  }

  lemma SimpleStays(s: Lex, client: Client, x: Escapes.Simple)
    requires InString(s) && Quiet(client) && Escapes.ValidSimple(x) && Grammar.IsLiteral(x)
    ensures Stays(s, client, Escapes.SimpleText(x))
  {
    hide Run, SameString;
    match x
    case Byte(b) => SimpleRun(s, client, [b]);
    case Letter(c) =>
      Escapes.LetterTaken(c);
      EscapedPair(s, client, c);
  }

  lemma {:induction false} SimplesStay(s: Lex, client: Client, xs: seq<Escapes.Simple>)
    requires InString(s) && Quiet(client) && Escapes.AllSimple(xs) && Grammar.AllLiteral(xs)
    ensures Stays(s, client, Escapes.SimpleTexts(xs))
    decreases |xs|
  {
    hide Run, SameString, Escapes.SimpleText, Escapes.ValidSimple, Grammar.IsLiteral;
    if xs == [] {
      SimpleRun(s, client, []);
    } else {
      SimpleStays(s, client, xs[0]);
      var m := Run(s, client, Escapes.SimpleText(xs[0]));
      if InString(m) {
        SimplesStay(m, client, xs[1..]);
      }
      StayConcat(s, client, Escapes.SimpleText(xs[0]), Escapes.SimpleTexts(xs[1..]));
    }
  }

  lemma HexIsSimple(digits: seq<byte>, v: int)
    requires Escapes.Spells16(digits, v)
    ensures forall i | 0 <= i < |digits| :: IsSimple(digits[i])
  {}

  lemma CodeStays(s: Lex, client: Client, digits: seq<byte>, v: int)
    requires InString(s) && Quiet(client) && Escapes.Spells16(digits, v)
    ensures Stays(s, client, [BACKSLASH, LOWER_U] + digits)
  {
    hide Run, SameString;
    EscapedPair(s, client, LOWER_U);
    HexIsSimple(digits, v);
    var m := Run(s, client, [BACKSLASH, LOWER_U]);
    if InString(m) {
      SimpleRun(m, client, digits);
    }
    StayConcat(s, client, [BACKSLASH, LOWER_U], digits);
  }

  lemma UnitStays(s: Lex, client: Client, u: Escapes.Unit)
    requires InString(s) && Quiet(client) && Grammar.ValidUnit(u)
    ensures Stays(s, client, Escapes.UnitText(u))
  {
    hide Run, SameString, Escapes.Spells16, Escapes.SimpleTexts, Escapes.SimpleText, Escapes.ValidSimple;
    match u
    case Alone(x) => SimpleStays(s, client, x);
    case Code(digits, v) => CodeStays(s, client, digits, v);
    case Surrogates(high, h, between, low, l) =>
      var a, b, c := [BACKSLASH, LOWER_U] + high, Escapes.SimpleTexts(between), [BACKSLASH, LOWER_U] + low;
      CodeStays(s, client, high, h);
      if InString(Run(s, client, a)) {
        SimplesStay(Run(s, client, a), client, between);
      }
      StayConcat(s, client, a, b);
      if InString(Run(s, client, a + b)) {
        CodeStays(Run(s, client, a + b), client, low, l);
      }
      StayConcat(s, client, a + b, c);
      assert Escapes.UnitText(u) == a + b + c;
  }

  lemma {:induction false} UnitsStay(s: Lex, client: Client, units: seq<Escapes.Unit>)
    requires InString(s) && Quiet(client) && Grammar.ValidText(units)
    ensures Stays(s, client, Escapes.Text(units))
    decreases |units|
  {
    hide Run, SameString, Escapes.UnitText, Escapes.ValidUnit, Grammar.ValidUnit;
    if units == [] {
      SimpleRun(s, client, []);
    } else {
      UnitStays(s, client, units[0]);
      var m := Run(s, client, Escapes.UnitText(units[0]));
      if InString(m) {
        UnitsStay(m, client, units[1..]);
      }
      StayConcat(s, client, Escapes.UnitText(units[0]), Escapes.Text(units[1..]));
    }
  }

  lemma QuotedText(input: seq<byte>, at: nat, text: seq<byte>, body: seq<byte>, slot: Slot)
    requires Stands(input, at, [QUOTE] + body + [QUOTE]) && slot.posBegin == at && slot.posCur == at + |body| + 1
    requires UnescapeFrom(body, 0) == Ok(text)
    ensures slot.kind == HKey ==> Call(input, Event(POP, slot, 0)) == [Machine.MapKey(text)]
    ensures slot.kind == String ==> Call(input, Event(POP, slot, 0)) == [Machine.StringRead(text)]
  {
    StandsSplit(input, at, [QUOTE] + body, [QUOTE]);
    StandsSplit(input, at, [QUOTE], body);
    assert Between(input, slot) == body;
  }

  /** A string in any of its spellings is one token, and its text is what the spelling stands for. */
  lemma LexString(input: seq<byte>, s: Lex, client: Client, units: seq<Escapes.Unit>)
    requires TakesString(s) && Quiet(client) && Grammar.ValidText(units) && Stands(input, s.pos, Grammar.Quoted(units))
    ensures var text, r := Escapes.Meaning(units), Run(s, client, Grammar.Quoted(units));
            && At(s, r, Increment(Top(s).nelem), if NeedsKey(Top(s)) then COLON else COMMA, 0, false)
            && Lexes(input, s, r, |Grammar.Quoted(units)|, [if NeedsKey(Top(s)) then Machine.MapKey(text) else Machine.StringRead(text)])
  {
    hide Run, Calls, Call, UnescapeFrom, Escapes.Text, Escapes.Meaning, SameString;
    var body, text := Escapes.Text(units), Escapes.Meaning(units);
    var m := Run(s, client, [QUOTE]);
    if InString(m) {
      UnitsStay(m, client, units);
    }
    BodyIsOneToken(s, client, body);
    Escapes.Understood(units);
    var kind := if NeedsKey(Top(s)) then HKey else String;
    var r := Run(s, client, [QUOTE] + body + [QUOTE]);
    CallsOfPair(input, s.trace, r.trace, kind, s.pos, r.pos - 1);
    var pop := r.trace[|r.trace| - 1];
    QuotedText(input, s.pos, text, body, pop.slot);
    LevelIsIgnored(input, pop);
  }

  lemma LevelIsIgnored(input: seq<byte>, e: Event)
    ensures Call(input, e) == Call(input, e.(level := 0))
  {}

  /** Where a member's or an item's value may start. */
  ghost predicate TakesValue(s: Lex) {
    && InContainer(s) && s.canInsert && s.level + 1 < |s.stack|
    && (Top(s).kind == List || (!NeedsKey(Top(s)) && s.tokLast == COLON))
  }

  /** A key, its colon and the space around it. */
  lemma LexKey(input: seq<byte>, s: Lex, client: Client, m: Grammar.Member)
    requires InContainer(s) && Quiet(client) && NeedsKey(Top(s)) && s.expecting == QUOTE && s.level + 1 < |s.stack|
    requires Grammar.ValidText(m.key) && Grammar.IsSpace(m.beforeColon) && Grammar.IsSpace(m.afterColon)
    requires Stands(input, s.pos, Grammar.RenderKey(m))
    ensures var r := Run(s, client, Grammar.RenderKey(m));
            && At(s, r, Increment(Top(s).nelem), QUOTE, COLON, true) && TakesValue(r)
            && Lexes(input, s, r, |Grammar.RenderKey(m)|, [Machine.MapKey(Escapes.Meaning(m.key))])
  {
    hide Run, Calls, Grammar.Quoted, Escapes.Meaning, Grammar.IsSpace, Grammar.ValidText;
    var a, b, c := Grammar.Quoted(m.key), m.beforeColon, [COLON];
    StandsSplit(input, s.pos, a + b + c, m.afterColon);
    StandsSplit(input, s.pos, a + b, c);
    StandsSplit(input, s.pos, a, b);
    LexString(input, s, client, m.key);
    var r1 := Run(s, client, a);
    StaysBased(s, r1);
    LexSpaces(r1, client, b);
    var r2 := r1.(pos := r1.pos + |b|);
    LexColon(r2, client);
    var r3 := Run(r2, client, c);
    LexSpaces(r3, client, m.afterColon);
    RunConcat(s, client, a, b);
    RunConcat(s, client, a + b, c);
    RunConcat(s, client, a + b + c, m.afterColon);
    Nesting.Parity(Top(s).nelem);
  }

  /** Inside a number or a word that began at `s`, `n` bytes ago. */
  ghost predicate InLiteral(s: Lex, m: Lex, flags: Flags, nelem: uint64, length: nat, n: nat)
    requires s.level < |s.stack|
  {
    && m.status.Running? && m.level == s.level + 1 < |m.stack| == |s.stack|
    && m.stack[..s.level] == s.stack[..s.level] && m.stack[s.level] == Counted(Top(s))
    && Top(m).kind == Special && Top(m).flags == flags && Top(m).nelem == nelem && Top(m).nescapes == length
    && Top(m).posBegin == s.pos && m.pos == s.pos + n && !m.inEscape
    && s.trace < m.trace && |m.trace| == |s.trace| + 1
    && m.trace[|s.trace|].action == PUSH && m.trace[|s.trace|].slot.kind == Special
  }

  lemma LiteralBegins(s: Lex, client: Client, c: byte)
    requires TakesValue(s) && Quiet(client) && ExtractSpecial(c) != NO_FLAGS && !IsWhitespace(c)
    ensures var f := ExtractSpecial(c);
            InLiteral(s, Run(s, client, [c]), f, if f == UNSIGNED && IsDigit(c) then c - ZERO else 0, 1, 1)
  {
    RunSingle(s, client, c);
    hide Run, ExtractSpecial, IsWhitespace, Quote, Escape, Structural;
    assert Step(s, client, c) == SpecialBegin(s, client, c);
  }

  /** What may follow a value at once: space, a comma or a closing bracket. */
  predicate EndsToken(c: byte) { c in {0x20, 0x09, 0x0a, 0x0d, COMMA, CLOSE_OBJECT, CLOSE_LIST} }

  lemma EndClass(c: byte)
    requires EndsToken(c)
    ensures IsSpecialEnd(c) && !IsDigit(c) && c !in {POINT, LOWER_E, UPPER_E, MINUS, PLUS, QUOTE, BACKSLASH, LOWER_I, UPPER_I}
    ensures !IsWhitespace(c) ==> ExtractSpecial(c) == NO_FLAGS
  {}

  /** Between tokens such a byte is looked at for itself. */
  lemma StepBetween(p: Lex, client: Client, c: byte)
    requires InContainer(p) && EndsToken(c)
    ensures Step(p, client, c) == if IsWhitespace(c) then Next(p) else Structural(p, client, c)
  {
    EndClass(c);
    hide Structural, IsWhitespace, ExtractSpecial, Next, Quote, Escape, SpecialBegin;
  }

  /** The byte after a literal pops it and is then taken for itself. */
  lemma LiteralEnds(input: seq<byte>, s: Lex, m: Lex, client: Client, tail: seq<byte>, slot: Slot, flags: Flags, nelem: uint64, length: nat,
                    n: nat) returns (p: Lex)
    requires InContainer(s) && Quiet(client) && InLiteral(s, m, flags, nelem, length, n) && tail != [] && EndsToken(tail[0])
    requires slot == Top(m).(flags := slot.flags, nelem := slot.nelem)
    requires Step(m, client, tail[0]) == SpecialEnd(m.(canInsert := false), client, tail[0], slot)
    ensures At(s, p, Increment(Top(s).nelem), COMMA, 0, false)
    ensures Lexes(input, s, p, n, Call(input, Event(POP, slot.(posCur := m.pos), m.level)))
    ensures Run(m, client, tail) == Run(p, client, tail)
  {
    StaysBased(s, m.(level := s.level));
    hide Run, Step, Calls, Call, IsWhitespace, EndsToken;
    LiteralPops(s, m, client, slot, flags, nelem, length, n);
    var popped := PopLeaf(SetTop(m.(canInsert := false), slot), client);
    p := popped.(tokLast := 0, expecting := COMMA);
    LiteralCalls(input, s.trace, m.trace, Event(POP, slot.(posCur := m.pos), m.level));
    StaysBased(s, p);
    hide PopLeaf, Structural;
    SameTail(m, p, client, tail);
  }

  lemma SameTail(m: Lex, p: Lex, client: Client, tail: seq<byte>)
    requires tail != [] && EndsToken(tail[0]) && InContainer(p) && Based(m) && m.status.Running?
    requires Step(m, client, tail[0]) == if IsWhitespace(tail[0]) then Next(p) else Structural(p, client, tail[0])
    ensures Run(m, client, tail) == Run(p, client, tail)
  {
    hide Run, Step, Structural, Next, IsWhitespace, EndsToken;
    StepBetween(p, client, tail[0]);
    RunSingle(m, client, tail[0]);
    RunSingle(p, client, tail[0]);
    assert tail == [tail[0]] + tail[1..];
    RunConcat(m, client, [tail[0]], tail[1..]);
    RunConcat(p, client, [tail[0]], tail[1..]);
  }

  lemma LiteralCalls(input: seq<byte>, before: seq<Event>, after: seq<Event>, pop: Event)
    requires before < after && |after| == |before| + 1 && after[|before|].action == PUSH && after[|before|].slot.kind == Special
    ensures Calls(input, after + [pop]) == Calls(input, before) + Call(input, pop)
  {
    hide Calls, Call;
    var push := after[|before|];
    PushIsSilent(input, push);
    CallsAround(input, before, push, [], pop);
    assert after + [pop] == before + [push] + [] + [pop];
  }

  lemma LiteralPops(s: Lex, m: Lex, client: Client, slot: Slot, flags: Flags, nelem: uint64, length: nat, n: nat)
    requires InContainer(s) && Quiet(client) && InLiteral(s, m, flags, nelem, length, n)
    requires slot == Top(m).(flags := slot.flags, nelem := slot.nelem)
    ensures var p := PopLeaf(SetTop(m.(canInsert := false), slot), client);
            && p.status.Running? && p.level == s.level && |p.stack| == |s.stack| && p.stack[..s.level] == s.stack[..s.level]
            && Top(p) == Counted(Top(s)).(posCur := m.pos) && p.pos == m.pos && !p.canInsert && !p.inEscape
            && p.trace == m.trace + [Event(POP, slot.(posCur := m.pos), m.level)]
  {}

  /** The literal goes on by one byte. */
  function Advanced(m: Lex, flags: Flags, nelem: uint64, tokLast: byte): Lex
    requires m.level < |m.stack|
  {
    SetTop(m, Top(m).(flags := flags, nelem := nelem)).(pos := m.pos + 1, tokLast := tokLast)
  }

  lemma GoesOn(s: Lex, m: Lex, client: Client, c: byte, flags: Flags, nelem: uint64, n: nat, flags': Flags, nelem': uint64, tokLast: byte)
    requires Based(s) && s.level > 0 && InLiteral(s, m, flags, nelem, 1, n) && Step(m, client, c) == Advanced(m, flags', nelem', tokLast)
    ensures Run(m, client, [c]) == Advanced(m, flags', nelem', tokLast)
    ensures InLiteral(s, Run(m, client, [c]), flags', nelem', 1, n + 1)
  {
    hide Step;
    StaysBased(s, m.(level := s.level));
    RunSingle(m, client, c);
    hide Run;
  }

  /** Before the point: with a zero alone, or with digits; with a minus sign or without. */
  function WholeFlags(negative: bool, whole: seq<Dec.digit>): Flags {
    if whole == [0] then if negative then SIGNED_ZERO else ZERO_FLAG else if negative then SIGNED else UNSIGNED
  }

  lemma DigitClass(c: byte)
    requires ZERO <= c <= 0x39
    ensures ExtractSpecial(c) == (if c == ZERO then ZERO_FLAG else UNSIGNED) && !IsWhitespace(c)
    ensures ExtractSpecial(MINUS) == DASH && !IsWhitespace(MINUS)
  {}

  lemma DigitStep(m: Lex, client: Client, c: byte)
    requires m.level < |m.stack| && m.status.Running? && Top(m).kind == Special && IsDigit(c)
    requires Top(m).flags == UNSIGNED || Top(m).flags == SIGNED
    ensures Step(m, client, c) == Advanced(m, Top(m).flags, (Top(m).nelem * 10 + (c - ZERO)) % TWO_64, m.tokLast)
  {
    hide Numeric, Word;
  }

  lemma DashStep(m: Lex, client: Client, c: byte)
    requires m.level < |m.stack| && m.status.Running? && Top(m).kind == Special && IsDigit(c) && Top(m).flags == DASH && Top(m).nelem == 0
    ensures Step(m, client, c) == Advanced(m, if c == ZERO then SIGNED_ZERO else SIGNED, c - ZERO, m.tokLast)
  {
    hide Numeric, Word;
  }

  lemma ValueWraps(init: nat, last: nat)
    ensures ((init % TWO_64) * 10 + last) % TWO_64 == (init * 10 + last) % TWO_64
  {
    var q := init / TWO_64;
    assert init == TWO_64 * q + init % TWO_64;
    Multiple(q * 10, (init % TWO_64) * 10 + last);
  }

  lemma Multiple(k: nat, r: nat)
    ensures (TWO_64 * k + r) % TWO_64 == r % TWO_64
    decreases k
  {
    if k > 0 {
      Multiple(k - 1, r);
      assert TWO_64 * k + r == TWO_64 + (TWO_64 * (k - 1) + r);
    }
  }

  lemma SingleDigit(d: Dec.digit)
    ensures Machine.DigitBytes([d]) == [0x30 + d] && Dec.Value([d]) == d
  {
    assert [d][..0] == [];
    assert Machine.DigitBytes([]) == [] && Dec.Value([]) == 0;
  }

  lemma LexDigit(s: Lex, client: Client, negative: bool, d: Dec.digit)
    requires TakesValue(s) && Quiet(client)
    ensures var text := Grammar.WholeBytes(negative, [d]);
            InLiteral(s, Run(s, client, text), WholeFlags(negative, [d]), Dec.Value([d]) % TWO_64, 1, |text|)
  {
    hide Run, Step;
    var c: byte := 0x30 + d;
    SingleDigit(d);
    DigitClass(c);
    if negative {
      LiteralBegins(s, client, MINUS);
      var m := Run(s, client, [MINUS]);
      RunConcat(s, client, [MINUS], [c]);
      DashStep(m, client, c);
      GoesOn(s, m, client, c, DASH, 0, 1, WholeFlags(negative, [d]), d, m.tokLast);
    } else {
      assert Grammar.WholeBytes(negative, [d]) == [c];
      LiteralBegins(s, client, c);
    }
  }

  /** The digits before the point, and their value as far as 64 bits hold it. */
  lemma {:induction false} LexWhole(s: Lex, client: Client, negative: bool, whole: seq<Dec.digit>)
    requires TakesValue(s) && Quiet(client) && Grammar.ValidWhole(whole)
    ensures var text := Grammar.WholeBytes(negative, whole);
            InLiteral(s, Run(s, client, text), WholeFlags(negative, whole), Dec.Value(whole) % TWO_64, 1, |text|)
    decreases |whole|
  {
    hide Run, Step;
    var text := Grammar.WholeBytes(negative, whole);
    var last: byte := 0x30 + whole[|whole| - 1] as int;
    if |whole| == 1 {
      assert whole == [whole[0]];
      LexDigit(s, client, negative, whole[0]);
    } else {
      var init := whole[..|whole| - 1];
      LexWhole(s, client, negative, init);
      assert text == Grammar.WholeBytes(negative, init) + [last];
      var m := Run(s, client, Grammar.WholeBytes(negative, init));
      RunConcat(s, client, Grammar.WholeBytes(negative, init), [last]);
      DigitStep(m, client, last);
      ValueWraps(Dec.Value(init), whole[|whole| - 1]);
      var f := WholeFlags(negative, whole);
      assert WholeFlags(negative, init) == f;
      GoesOn(s, m, client, last, f, Dec.Value(init) % TWO_64, |text| - 1, f, Dec.Value(whole) % TWO_64, m.tokLast);
    }
  }

  predicate IsWholeFlags(f: Flags) { f == ZERO_FLAG || f == SIGNED_ZERO || f == SIGNED || f == UNSIGNED }

  /** A zero that a point or an exponent follows is an ordinary number, with or without sign. */
  function Plain(f: Flags): Flags { if f == ZERO_FLAG then UNSIGNED else f }

  /** Behind a point or in an exponent. */
  predicate IsFractionFlags(f: Flags) { (f.signed || f.unsigned) && !f.inf && !f.dash && (f.float || f.exponent) }

  lemma PointStep(m: Lex, client: Client)
    requires m.level < |m.stack| && m.status.Running? && Top(m).kind == Special && IsWholeFlags(Top(m).flags)
    ensures Step(m, client, POINT) == Advanced(m, Plain(Top(m).flags).(float := true), Top(m).nelem, POINT)
  {
    hide Word, SpecialPop;
    NumericCase(m, client, POINT);
    hide SpecialByte;
  }

  lemma MarkStep(m: Lex, client: Client, c: byte)
    requires m.level < |m.stack| && m.status.Running? && Top(m).kind == Special && (c == LOWER_E || c == UPPER_E)
    requires IsWholeFlags(Top(m).flags) || (IsFractionFlags(Top(m).flags) && !Top(m).flags.exponent)
    ensures Step(m, client, c) == Advanced(m, Plain(Top(m).flags).(exponent := true), Top(m).nelem, LOWER_E)
  {
    hide Word, SpecialPop;
    NumericCase(m, client, c);
    hide SpecialByte;
  }

  lemma SignStep(m: Lex, client: Client, c: byte)
    requires m.level < |m.stack| && m.status.Running? && Top(m).kind == Special && (c == MINUS || c == PLUS)
    requires IsFractionFlags(Top(m).flags) && m.tokLast == LOWER_E
    ensures Step(m, client, c) == Advanced(m, Top(m).flags, Top(m).nelem, MINUS)
  {
    hide Word, SpecialPop;
    NumericCase(m, client, c);
    hide SpecialByte;
    assert m.stack[m.level := Top(m)] == m.stack;
  }

  lemma PlaceStep(m: Lex, client: Client, c: byte)
    requires m.level < |m.stack| && m.status.Running? && Top(m).kind == Special && IsDigit(c) && IsFractionFlags(Top(m).flags)
    ensures Step(m, client, c) == Advanced(m, Top(m).flags, Top(m).nelem, ONE)
  {
    hide Word, SpecialPop;
    NumericCase(m, client, c);
    hide SpecialByte;
    assert m.stack[m.level := Top(m)] == m.stack;
  }

  /** Which way a byte of a number goes. */
  lemma NumericCase(m: Lex, client: Client, c: byte)
    requires m.level < |m.stack| && m.status.Running? && Top(m).kind == Special
    requires (IsWholeFlags(Top(m).flags) && !IsDigit(c)) || IsFractionFlags(Top(m).flags)
    ensures Step(m, client, c) == Numeric(SetTop(m, Top(m).(flags := Plain(Top(m).flags))), client, c)
  {
    hide Word, Numeric;
    assert m.stack[m.level := Top(m)] == m.stack;
  }

  lemma {:induction false} LexPlaces(s: Lex, m: Lex, client: Client, flags: Flags, nelem: uint64, n: nat, ds: seq<Dec.digit>)
    requires Based(s) && s.level > 0 && InLiteral(s, m, flags, nelem, 1, n) && IsFractionFlags(flags)
    ensures var r := Run(m, client, Machine.DigitBytes(ds));
            InLiteral(s, r, flags, nelem, 1, n + |ds|) && (ds != [] ==> r.tokLast == ONE)
    decreases |ds|
  {
    hide Step, IsFractionFlags;
    if ds != [] {
      var init, last: byte := ds[..|ds| - 1], 0x30 + ds[|ds| - 1] as int;
      LexPlaces(s, m, client, flags, nelem, n, init);
      var k := Run(m, client, Machine.DigitBytes(init));
      StaysBased(s, m.(level := s.level));
      RunConcat(m, client, Machine.DigitBytes(init), [last]);
      hide Run;
      PlaceStep(k, client, last);
      GoesOn(s, k, client, last, flags, nelem, n + |init|, flags, nelem, ONE);
    }
  }

  lemma FlagsOfWhole(negative: bool, whole: seq<Dec.digit>)
    ensures var f := WholeFlags(negative, whole);
            && IsWholeFlags(f) && IsFractionFlags(Plain(f).(float := true)) && IsFractionFlags(Plain(f).(exponent := true))
            && !Plain(f).(float := true).exponent
  {}

  /** The point and the digits behind it. */
  lemma LexPoint(s: Lex, m: Lex, client: Client, flags: Flags, nelem: uint64, n: nat, places: seq<Dec.digit>)
    requires Based(s) && s.level > 0 && InLiteral(s, m, flags, nelem, 1, n) && IsWholeFlags(flags) && places != []
    requires IsFractionFlags(Plain(flags).(float := true))
    ensures var r := Run(m, client, Grammar.PlacesBytes(places));
            InLiteral(s, r, Plain(flags).(float := true), nelem, 1, n + |Grammar.PlacesBytes(places)|) && r.tokLast == ONE
  {
    hide Run, Step, IsFractionFlags, IsWholeFlags, Plain;
    PointStep(m, client);
    var f := Plain(flags).(float := true);
    GoesOn(s, m, client, POINT, flags, nelem, n, f, nelem, POINT);
    StaysBased(s, m.(level := s.level));
    RunConcat(m, client, [POINT], Machine.DigitBytes(places));
    LexPlaces(s, Run(m, client, [POINT]), client, f, nelem, n + 1, places);
  }

  /** The mark, the sign and the digits of an exponent. */
  lemma LexExponent(s: Lex, m: Lex, client: Client, flags: Flags, nelem: uint64, n: nat, e: Grammar.Exponent)
    requires Based(s) && s.level > 0 && InLiteral(s, m, flags, nelem, 1, n) && e.Exponent? && Grammar.ValidExponent(e)
    requires IsWholeFlags(flags) || (IsFractionFlags(flags) && !flags.exponent)
    requires IsFractionFlags(Plain(flags).(exponent := true))
    ensures var r := Run(m, client, Grammar.ExponentBytes(e));
            InLiteral(s, r, Plain(flags).(exponent := true), nelem, 1, n + |Grammar.ExponentBytes(e)|) && r.tokLast == ONE
  {
    hide Run, Step, IsFractionFlags, IsWholeFlags, Plain;
    var f := Plain(flags).(exponent := true);
    var c: byte := if e.upper then UPPER_E else LOWER_E;
    MarkStep(m, client, c);
    GoesOn(s, m, client, c, flags, nelem, n, f, nelem, LOWER_E);
    var k := Run(m, client, [c]);
    StaysBased(s, m.(level := s.level));
    StaysBased(s, k.(level := s.level));
    var sign := Grammar.SignBytes(e.sign);
    RunConcat(m, client, [c], sign);
    RunConcat(m, client, [c] + sign, Machine.DigitBytes(e.digits));
    if e.sign == Grammar.NoSign {
      RunNothing(k, client);
      LexPlaces(s, k, client, f, nelem, n + 1, e.digits);
    } else {
      SignStep(k, client, sign[0]);
      assert sign == [sign[0]];
      GoesOn(s, k, client, sign[0], f, nelem, n + 1, f, nelem, MINUS);
      LexPlaces(s, Run(k, client, sign), client, f, nelem, n + 2, e.digits);
    }
  }

  lemma RunNothing(s: Lex, client: Client)
    requires Sound(s)
    ensures Run(s, client, []) == s
  {}

  /** Of a zero no sign is kept. */
  function EndFlags(f: Flags): Flags { if f == ZERO_FLAG || f == SIGNED_ZERO then UNSIGNED else f }

  lemma IntegerEnds(m: Lex, client: Client, d: byte)
    requires m.level < |m.stack| && m.status.Running? && Top(m).kind == Special && EndsToken(d) && IsWholeFlags(Top(m).flags)
    ensures Step(m, client, d) == SpecialEnd(m.(canInsert := false), client, d, Top(m).(flags := EndFlags(Top(m).flags)))
  {
    EndClass(d);
    hide Word, SpecialEnd, Structural, EndsToken, IsSpecialEnd, IsWhitespace, ExtractSpecial;
    NumericCase(m, client, d);
    hide SpecialByte, Step;
    var u := SetTop(m, Top(m).(flags := Plain(Top(m).flags)));
    assert Numeric(u, client, d) == SpecialPop(u, client, d);
    hide Numeric;
    SameEnd(m, u, client, d, Top(m).(flags := EndFlags(Top(m).flags)));
  }

  lemma FractionEnds(m: Lex, client: Client, d: byte)
    requires m.level < |m.stack| && m.status.Running? && Top(m).kind == Special && EndsToken(d)
    requires IsFractionFlags(Top(m).flags) && m.tokLast == ONE
    ensures Step(m, client, d) == SpecialEnd(m.(canInsert := false), client, d, Top(m))
  {
    EndClass(d);
    hide Word, SpecialEnd, Structural, EndsToken, IsSpecialEnd, IsWhitespace, ExtractSpecial;
    NumericCase(m, client, d);
    hide SpecialByte, Step;
    var u := SetTop(m, Top(m).(flags := Plain(Top(m).flags)));
    assert Numeric(u, client, d) == SpecialPop(u, client, d);
    hide Numeric;
    SameEnd(m, u, client, d, Top(m));
  }

  lemma SameEnd(m: Lex, u: Lex, client: Client, d: byte, slot: Slot)
    requires m.level < |m.stack| && |u.stack| == |m.stack| && u.level == m.level && u == SetTop(m, Top(u))
    ensures SpecialEnd(u.(canInsert := false), client, d, slot) == SpecialEnd(m.(canInsert := false), client, d, slot)
  {
    assert SetTop(u.(canInsert := false), slot) == SetTop(m.(canInsert := false), slot);
    hide PopLeaf, Structural;
  }

  /** Any integer: one token with its sign and its value as far as 64 bits hold it. */
  lemma LexInteger(input: seq<byte>, s: Lex, client: Client, negative: bool, whole: seq<Dec.digit>, tail: seq<byte>) returns (p: Lex)
    requires TakesValue(s) && Quiet(client) && Grammar.ValidWhole(whole) && tail != [] && EndsToken(tail[0])
    ensures var text := Grammar.WholeBytes(negative, whole);
            && At(s, p, Increment(Top(s).nelem), COMMA, 0, false)
            && Lexes(input, s, p, |text|, [Grammar.IntegerEvent(negative, whole)])
            && Run(s, client, text + tail) == Run(p, client, tail)
  {
    hide Run, Step, Call, SpecialEnd, Grammar.WholeBytes, EndsToken;
    var text, flags := Grammar.WholeBytes(negative, whole), WholeFlags(negative, whole);
    LexWhole(s, client, negative, whole);
    var m := Run(s, client, text);
    RunConcat(s, client, text, tail);
    FlagsOfWhole(negative, whole);
    IntegerEnds(m, client, tail[0]);
    var slot := Top(m).(flags := EndFlags(flags));
    p := LiteralEnds(input, s, m, client, tail, slot, flags, Dec.Value(whole) % TWO_64, 1, |text|);
    IntegerCall(input, slot.(posCur := m.pos), m.level, negative, whole);
  }

  lemma IntegerCall(input: seq<byte>, slot: Slot, level: nat, negative: bool, whole: seq<Dec.digit>)
    requires slot.kind == Special && slot.flags == EndFlags(WholeFlags(negative, whole)) && slot.nelem == Dec.Value(whole) % TWO_64
    ensures Call(input, Event(POP, slot, level)) == [Grammar.IntegerEvent(negative, whole)]
  {}

  /** Any number with a point or an exponent: one token, read as a double. */
  lemma LexFraction(input: seq<byte>, s: Lex, client: Client, j: Grammar.Node, tail: seq<byte>) returns (p: Lex)
    requires TakesValue(s) && Quiet(client) && j.Fraction? && Grammar.Valid(j) && tail != [] && EndsToken(tail[0])
    ensures var text := Grammar.Render(j);
            && At(s, p, Increment(Top(s).nelem), COMMA, 0, false) && Lexes(input, s, p, |text|, [Machine.DoubleRead])
            && Run(s, client, text + tail) == Run(p, client, tail)
  {
    hide Run, Step, Call, SpecialEnd, Grammar.WholeBytes, Grammar.PlacesBytes, Grammar.ExponentBytes, Grammar.ValidExponent,
      IsFractionFlags, IsWholeFlags, EndsToken;
    var Fraction(negative, whole, places, exponent) := j;
    var a, b, c := Grammar.WholeBytes(negative, whole), Grammar.PlacesBytes(places), Grammar.ExponentBytes(exponent);
    var x, f := Dec.Value(whole) % TWO_64, WholeFlags(negative, whole);
    LexWhole(s, client, negative, whole);
    FlagsOfWhole(negative, whole);
    RunConcat(s, client, a, b);
    RunConcat(s, client, a + b, c);
    var m := Run(s, client, a);
    StaysBased(s, m.(level := s.level));
    EmptyParts();
    var k := Run(m, client, b);
    if places == [] {
      RunNothing(m, client);
    } else {
      LexPoint(s, m, client, f, x, |a|, places);
      StaysBased(s, k.(level := s.level));
      f := Plain(f).(float := true);
      FloatStays(f);
    }
    if exponent == Grammar.NoExponent {
      RunNothing(k, client);
    } else {
      LexExponent(s, k, client, f, x, |a + b|, exponent);
      f := Plain(f).(exponent := true);
    }
    var q := Run(k, client, c);
    RunConcat(s, client, a + b + c, tail);
    FractionEnds(q, client, tail[0]);
    p := LiteralEnds(input, s, q, client, tail, Top(q), f, x, 1, |a + b + c|);
    FractionCall(input, Top(q).(posCur := q.pos), q.level);
  }

  lemma EmptyParts()
    ensures Grammar.PlacesBytes([]) == [] && Grammar.ExponentBytes(Grammar.NoExponent) == []
  {}

  lemma FloatStays(f: Flags)
    requires IsFractionFlags(f)
    ensures Plain(f) == f && IsFractionFlags(f.(exponent := true))
  {}

  lemma FractionCall(input: seq<byte>, slot: Slot, level: nat)
    requires slot.kind == Special && IsFractionFlags(slot.flags)
    ensures Call(input, Event(POP, slot, level)) == [Machine.DoubleRead]
  {}

  function FlagsOf(w: Constant): Flags {
    match w
    case TrueWord => TRUE
    case FalseWord => FALSE
    case NullWord => NULL
  }

  /** One more letter of a word. */
  lemma WordStep(s: Lex, m: Lex, client: Client, w: Constant, n: nat)
    requires Based(s) && s.level > 0 && InLiteral(s, m, FlagsOf(w), 0, n, n) && 0 < n < |Spelling(w)|
    ensures InLiteral(s, Run(m, client, [Spelling(w)[n]]), FlagsOf(w), 0, n + 1, n + 1)
  {
    StaysBased(s, m.(level := s.level));
    var c := Spelling(w)[n];
    RunSingle(m, client, c);
    LetterClass(w, n);
    hide Run, SpecialPop, Numeric, IsSpecialEnd, Structural;
    assert Step(m, client, c) == Word(m, client, c);
  }

  lemma LetterClass(w: Constant, n: nat)
    requires n < |Spelling(w)|
    ensures !IsSpecialEnd(Spelling(w)[n]) && !IsWhitespace(Spelling(w)[n])
  {}

  /** The second letter of `null` rules out NaN. */
  lemma NullStep(s: Lex, m: Lex, client: Client)
    requires Based(s) && s.level > 0 && InLiteral(s, m, NULL_OR_NAN, 0, 1, 1)
    ensures InLiteral(s, Run(m, client, [LOWER_U]), NULL, 0, 2, 2)
  {
    StaysBased(s, m.(level := s.level));
    RunSingle(m, client, LOWER_U);
    hide Run, SpecialPop, Numeric, Structural;
    assert Step(m, client, LOWER_U) == Word(m, client, LOWER_U);
  }

  lemma {:induction false} LexLetters(s: Lex, client: Client, w: Constant, n: nat)
    requires TakesValue(s) && Quiet(client) && 0 < n <= |Spelling(w)| && (w == NullWord ==> n > 1)
    ensures InLiteral(s, Run(s, client, Spelling(w)[..n]), FlagsOf(w), 0, n, n)
  {
    hide Run;
    var text := Spelling(w);
    if n == 1 {
      LiteralBegins(s, client, text[0]);
      assert text[..1] == [text[0]];
    } else {
      assert text[..n] == text[..n - 1] + [text[n - 1]];
      RunConcat(s, client, text[..n - 1], [text[n - 1]]);
      if w == NullWord && n == 2 {
        LiteralBegins(s, client, text[0]);
        assert text[..1] == [text[0]];
        NullStep(s, Run(s, client, [text[0]]), client);
      } else {
        LexLetters(s, client, w, n - 1);
        WordStep(s, Run(s, client, text[..n - 1]), client, w, n - 1);
      }
    }
  }

  lemma WordEnds(m: Lex, client: Client, w: Constant, d: byte)
    requires m.level < |m.stack| && m.status.Running? && Top(m).kind == Special && EndsToken(d)
    requires Top(m).flags == FlagsOf(w) && Top(m).nescapes == |Spelling(w)|
    ensures Step(m, client, d)
         == SpecialEnd(m.(canInsert := false), client, d, if w == TrueWord then Top(m).(nelem := 1) else Top(m))
  {
    EndClass(d);
    hide SpecialEnd, Structural, Numeric, EndsToken, IsSpecialEnd, IsWhitespace, ExtractSpecial;
    assert Step(m, client, d) == Word(m, client, d);
    assert Word(m, client, d) == SpecialPop(m, client, d);
  }

  lemma LexWord(input: seq<byte>, s: Lex, client: Client, w: Constant, tail: seq<byte>) returns (p: Lex)
    requires TakesValue(s) && Quiet(client) && tail != [] && EndsToken(tail[0]) && Stands(input, s.pos, Spelling(w))
    ensures var text := Spelling(w);
            && At(s, p, Increment(Top(s).nelem), COMMA, 0, false) && Lexes(input, s, p, |text|, [Grammar.ConstEvent(w)])
            && Run(s, client, text + tail) == Run(p, client, tail)
  {
    hide Run, Step, Call, SpecialEnd, EndsToken;
    var text := Spelling(w);
    LexLetters(s, client, w, |text|);
    assert text[..|text|] == text;
    var m := Run(s, client, text);
    RunConcat(s, client, text, tail);
    WordEnds(m, client, w, tail[0]);
    var slot := if w == TrueWord then Top(m).(nelem := 1) else Top(m);
    p := LiteralEnds(input, s, m, client, tail, slot, FlagsOf(w), 0, |text|, |text|);
    assert input[s.pos] == input[s.pos..s.pos + |text|][0] == text[0];
    WordCall(input, slot.(posCur := m.pos), m.level, w);
  }

  lemma WordCall(input: seq<byte>, slot: Slot, level: nat, w: Constant)
    requires slot.kind == Special && slot.flags == FlagsOf(w) && slot.posBegin < |input| && input[slot.posBegin] == Spelling(w)[0]
    ensures Call(input, Event(POP, slot, level)) == [Grammar.ConstEvent(w)]
  {}
}
