/** Every run's calls nest: matched pushes and pops, and keys and values that alternate in each object. */
module LexerNesting {
  import opened Bytes
  import opened LexerStep
  import opened Lexer

  /** An open push and how many children it has had. */
  datatype Frame = Frame(kind: Kind, count: nat)

  datatype Nesting = Broken | Open(frames: seq<Frame>)

  /** Where a child may stand: in an object, a key exactly when an even number of children came before. */
  predicate Accepts(parent: Frame, kind: Kind) {
    match parent.kind
    case Object => kind != Root && (kind == HKey <==> parent.count % 2 == 0)
    case List => kind != Root && kind != HKey
    case Root => kind != Root && !IsStringy(kind)
    case _ => false
  }

  function NestStep(frames: seq<Frame>, e: Event): Nesting
    requires frames != []
  {
    var top := frames[|frames| - 1];
    match e.action
    case PUSH =>
      if !Accepts(top, e.slot.kind) || e.level != |frames| then Broken
      else Open(frames[|frames| - 1 := top.(count := top.count + 1)] + [Frame(e.slot.kind, 0)])
    case POP =>
      if |frames| == 1 || top.kind != e.slot.kind || e.level != |frames| - 1 || (top.kind == Object && top.count % 2 != 0) then Broken
      else Open(frames[..|frames| - 1])
    case UESCAPE => if IsStringy(top.kind) then Open(frames) else Broken
  }

  /** The pushes still open after a trace, the document itself first; `Broken` if they do not nest. */
  function Nest(trace: seq<Event>): (n: Nesting)
    ensures n.Open? ==> n.frames != []
  {
    if trace == [] then Open([Frame(Root, 0)])
    else
      var before := Nest(trace[..|trace| - 1]);
      if before.Broken? then Broken else NestStep(before.frames, trace[|trace| - 1])
  }

  lemma NestAppend(trace: seq<Event>, e: Event)
    requires Nest(trace).Open?
    ensures Nest(trace + [e]) == NestStep(Nest(trace).frames, e)
  {
    assert (trace + [e])[..|trace|] == trace;
  }

  predicate IsContainer(k: Kind) { k == Root || k == Object || k == List }

  /** A frame and the slot that holds the same open push. */
  predicate Fits(frame: Frame, slot: Slot, bottom: bool, top: bool) {
    && frame.kind == slot.kind && (frame.kind == Object ==> frame.count % 2 == slot.nelem % 2)
    && (bottom <==> frame.kind == Root) && (top || IsContainer(frame.kind))
  }

  /** The stack holds the open pushes, each with an element count of the right parity. */
  ghost predicate Pairs(stack: seq<Slot>, frames: seq<Frame>) {
    && 0 < |frames| <= |stack|
    && forall k | 0 <= k < |frames| :: Fits(frames[k], stack[k], k == 0, k == |frames| - 1)
  }

  /** The lexer's stack is the stack of open pushes. */
  ghost predicate Matches(s: Lex, frames: seq<Frame>) {
    |frames| == s.level + 1 && Pairs(s.stack, frames)
  }

  ghost predicate Nested(s: Lex) {
    Nest(s.trace).Open? && (s.status.Running? ==> Matches(s, Nest(s.trace).frames))
  }

  /** Only the stack, the level, the calls and the status matter. */
  lemma Registers(s: Lex, r: Lex)
    requires Nested(s) && r.trace == s.trace && (r.status.Running? ==> r.stack == s.stack && r.level == s.level && s.status.Running?)
    ensures Nested(r)
  {}

  lemma PairsPush(stack: seq<Slot>, frames: seq<Frame>, kind: Kind, slot: Slot)
    requires Pairs(stack, frames) && |frames| < |stack| && Accepts(frames[|frames| - 1], kind)
    requires slot.kind == kind && (kind == Object ==> slot.nelem == 0)
    ensures var n := |frames| - 1;
            Pairs(stack[n := Counted(stack[n])][n + 1 := slot],
                  frames[n := frames[n].(count := frames[n].count + 1)] + [Frame(kind, 0)])
  {
    hide Accepts, Increment;
    var n := |frames| - 1;
    var stack', frames' := stack[n := Counted(stack[n])][n + 1 := slot], frames[n := frames[n].(count := frames[n].count + 1)] + [Frame(kind, 0)];
    assert Fits(frames[n], stack[n], n == 0, true);
    Parity(stack[n].nelem);
    NotRoot(frames[n], kind);
    forall k | 0 <= k < |frames'| ensures Fits(frames'[k], stack'[k], k == 0, k == |frames'| - 1) {
      if k < n {
        assert Fits(frames[k], stack[k], k == 0, false);
      }
    }
  }

  lemma PairsPop(stack: seq<Slot>, frames: seq<Frame>, slot: Slot, pos: nat)
    requires Pairs(stack, frames) && |frames| > 1
    ensures var n := |frames| - 1;
            Pairs(stack[n := slot][n - 1 := stack[n - 1].(posCur := pos)], frames[..n])
  {
    var n := |frames| - 1;
    var stack' := stack[n := slot][n - 1 := stack[n - 1].(posCur := pos)];
    forall k | 0 <= k < n ensures Fits(frames[..n][k], stack'[k], k == 0, k == n - 1) {
      assert Fits(frames[k], stack[k], k == 0, false);
    }
  }

  lemma Parity(n: uint64)
    ensures Increment(n) % 2 == (n + 1) % 2
  {}

  lemma NotRoot(parent: Frame, kind: Kind)
    requires Accepts(parent, kind)
    ensures kind != Root && IsContainer(parent.kind)
  {}

  lemma TopFits(s: Lex)
    requires Nested(s) && s.status.Running?
    ensures s.level < |s.stack| && |Nest(s.trace).frames| == s.level + 1
    ensures Fits(Nest(s.trace).frames[s.level], Top(s), s.level == 0, true)
  {
    hide Nest;
  }

  lemma PushNests(s0: Lex, s: Lex, client: Client, slot: Slot)
    requires Nested(s0) && s0.status.Running? && s.status.Running? && s.trace == s0.trace && s.level == s0.level < |s0.stack|
    requires s.stack == s0.stack[s0.level := Counted(Top(s0))]
    requires Accepts(Nest(s0.trace).frames[s0.level], slot.kind)
    requires slot.kind == Object ==> slot.nelem == 0
    ensures Nested(Push(s, client, slot))
  {
    hide Accepts, Pairs;
    var r, f := Push(s, client, slot), Nest(s0.trace).frames;
    if s.level < |s.stack| - 1 {
      var e := Event(PUSH, slot, s.level + 1);
      assert r.trace == s.trace + [e];
      NestAppend(s.trace, e);
      hide Nest;
      PairsPush(s0.stack, f, slot.kind, slot);
    }
  }

  lemma PopLeafNests(s: Lex, client: Client)
    requires Nested(s) && s.status.Running? && s.level < |s.stack| && !IsContainer(Top(s).kind)
    ensures Nested(PopLeaf(s, client))
    ensures PopLeaf(s, client).status.Running? ==> PopLeaf(s, client).level == s.level - 1
  {
    hide Pairs;
    var r, f := PopLeaf(s, client), Nest(s.trace).frames;
    TopFits(s);
    var slot := Top(s).(posCur := s.pos);
    var e := Event(POP, slot, s.level);
    NestAppend(s.trace, e);
    hide Nest;
    assert r.trace == s.trace + [e];
    PairsPop(s.stack, f, slot.(nescapes := 0), s.pos);
    assert r.status.Running? ==>
             r.stack == s.stack[s.level := slot.(nescapes := 0)][s.level - 1 := s.stack[s.level - 1].(posCur := s.pos)];
  }

  ghost predicate Alive(s: Lex) { Nested(s) && s.status.Running? && s.level < |s.stack| }

  lemma SlotNests(s: Lex, slot: Slot)
    requires Alive(s) && slot.kind == Top(s).kind && slot.kind != Object
    ensures Alive(SetTop(s, slot))
  {
    hide Nest;
    var f := Nest(s.trace).frames;
    TopFits(s);
    forall k | 0 <= k < |f| ensures Fits(f[k], SetTop(s, slot).stack[k], k == 0, k == |f| - 1) {
      assert Fits(f[k], s.stack[k], k == 0, k == |f| - 1);
    }
  }

  lemma QuoteNests(s: Lex, client: Client)
    requires Alive(s)
    ensures Nested(Quote(s, client))
  {
    hide Nest, Pairs, Push, PopLeaf;
    var s1 := s.(canInsert := false);
    Registers(s, s1);
    TopFits(s1);
    var top := Top(s1);
    var counted := SetTop(s1, Counted(top));
    if IsStringy(top.kind) {
      PopLeafNests(s1, client);
    } else if top.kind == Object {
      if top.nelem % 2 == 1 {
        PushNests(s1, counted.(expecting := COMMA, tokLast := 0), client, Above(s1).(kind := String));
      } else {
        PushNests(s1, counted.(tokLast := 0, expecting := COLON), client, Above(s1).(kind := HKey));
      }
    } else if top.kind == List {
      PushNests(s1, counted, client, Above(s1).(kind := String));
    }
  }

  lemma EscapeNests(s: Lex)
    requires Alive(s)
    ensures Nested(Escape(s))
  {
    hide Nest, Pairs;
    if IsStringy(Top(s).kind) {
      SlotNests(s, Top(s).(nescapes := (Top(s).nescapes + 1) % TWO_32));
    }
  }

  /** A container that needs no key takes a new element. */
  lemma ElementNests(s: Lex, client: Client, slot: Slot)
    requires Alive(s) && IsContainer(Top(s).kind) && !NeedsKey(Top(s))
    requires slot.kind == Special || slot.kind == List || (slot.kind == Object && slot.nelem == 0)
    ensures Nested(Push(SetTop(s, Counted(Top(s))), client, slot))
  {
    TopFits(s);
    hide Nest, Pairs, Push;
    PushNests(s, SetTop(s, Counted(Top(s))), client, slot);
  }

  lemma SpecialBeginNests(s: Lex, client: Client, c: byte)
    requires Alive(s) && IsContainer(Top(s).kind)
    ensures Nested(SpecialBegin(s, client, c))
  {
    hide Nest, Pairs, Push, ExtractSpecial;
    var top, flags := Top(s), ExtractSpecial(c);
    if flags != NO_FLAGS && !NeedsKey(top) && s.canInsert {
      var number: uint64 := if flags == UNSIGNED && IsDigit(c) then c - ZERO else 0;
      ElementNests(s, client, Above(s).(kind := Special, flags := flags, nescapes := 1, nelem := number));
    }
  }

  lemma OpeningNests(s: Lex, client: Client, c: byte)
    requires Alive(s) && IsContainer(Top(s).kind)
    ensures Nested(Opening(s, client, c))
  {
    hide Nest, Pairs, Push;
    if s.canInsert && !NeedsKey(Top(s)) {
      var kind := if c == OPEN_OBJECT then Object else List;
      ElementNests(s, client, Above(s).(kind := kind, nelem := 0));
    }
  }

  lemma ClosingNests(s: Lex, client: Client, c: byte)
    requires Alive(s)
    ensures Nested(Closing(s, client, c))
  {
    TopFits(s);
    hide Nest, Pairs;
    var top, f := Top(s), Nest(s.trace).frames;
    assert f[s.level].kind == top.kind && (s.level == 0 <==> top.kind == Root);
    assert top.kind == Object ==> f[s.level].count % 2 == top.nelem % 2;
    hide Fits;
    if s.tokLast != COMMA && top.kind == (if c == CLOSE_LIST then List else Object) && !(top.kind == Object && top.nelem % 2 != 0) {
      var e := Event(POP, top, s.level);
      NestAppend(s.trace, e);
      var r := Closing(s, client, c);
      assert r.trace == s.trace + [e];
      PairsPop(s.stack, f, top, s.pos);
      assert s.stack[s.level := top] == s.stack;
    }
  }

  lemma StructuralNests(s: Lex, client: Client, c: byte)
    requires Alive(s) && IsContainer(Top(s).kind)
    ensures Nested(Structural(s, client, c))
  {
    hide Nest, Pairs, Opening, Closing, SpecialBegin;
    OpeningNests(s, client, c);
    ClosingNests(s, client, c);
    SpecialBeginNests(s, client, c);
  }

  lemma ParentIsContainer(s: Lex)
    requires Alive(s)
    ensures forall k | 0 <= k < s.level :: IsContainer(s.stack[k].kind)
  {
    hide Nest;
    var f := Nest(s.trace).frames;
    forall k | 0 <= k < s.level ensures IsContainer(s.stack[k].kind) {
      assert Fits(f[k], s.stack[k], k == 0, k == |f| - 1);
    }
  }

  lemma SpecialEndNests(s: Lex, client: Client, c: byte, top: Slot)
    requires Alive(s) && Top(s).kind == Special && top.kind == Special
    ensures Nested(SpecialEnd(s, client, c, top))
  {
    SlotNests(s, top);
    var s0 := SetTop(s, top);
    PopLeafNests(s0, client);
    var s1 := PopLeaf(s0, client);
    if s1.status.Running? {
      ParentIsContainer(s0);
      assert s1.stack[s1.level].kind == s0.stack[s0.level - 1].kind;
      hide Nest, Pairs, PopLeaf, Structural;
      var s2 := s1.(tokLast := 0, expecting := COMMA);
      Registers(s1, s2);
      StructuralNests(s2, client, c);
    }
  }

  lemma SpecialPopNests(s: Lex, client: Client, c: byte)
    requires Alive(s) && Top(s).kind == Special
    ensures Nested(SpecialPop(s, client, c))
  {
    hide Nest, Pairs, SpecialEnd;
    var s1 := s.(canInsert := false);
    Registers(s, s1);
    var top := Top(s1);
    SpecialEndNests(s1, client, c, top);
    SpecialEndNests(s1, client, c, top.(flags := UNSIGNED));
    SpecialEndNests(s1, client, c, top.(nelem := 1));
  }

  /** The outcomes that leave a literal open, with any other flags and counts. */
  lemma EditNests(s: Lex, slot: Slot, tok: byte)
    requires Alive(s) && Top(s).kind == slot.kind == Special
    ensures Nested(Next(SetTop(s, slot).(tokLast := tok))) && Nested(Next(SetTop(s, slot)))
    ensures forall e :: Nested(Fail(SetTop(s, slot), e))
  {
    hide Nest, Pairs;
    SlotNests(s, slot);
  }

  lemma OnlyRegisters(s: Lex, tok: byte)
    requires Alive(s)
    ensures Nested(Next(s.(tokLast := tok))) && forall e :: Nested(Fail(s, e))
  {
    hide Nest, Pairs;
  }

  lemma NumericNests(s: Lex, client: Client, c: byte)
    requires Alive(s) && Top(s).kind == Special
    ensures Nested(Numeric(s, client, c))
  {
    var top := Top(s);
    hide Alive, Nested, Next, Fail, SetTop, SpecialPop, Top, IsSpecialEnd, IsDigit;
    OnlyRegisters(s, ONE);
    if IsDigit(c) {
      assert Numeric(s, client, c) == Next(s.(tokLast := ONE));
    } else if c == POINT {
      var slot := top.(flags := top.flags.(float := true));
      EditNests(s, slot, POINT);
      assert Numeric(s, client, c) == Fail(s, InvalidNumber) || Numeric(s, client, c) == Next(SetTop(s, slot).(tokLast := POINT));
    } else if c == LOWER_E || c == UPPER_E {
      var slot := top.(flags := top.flags.(exponent := true));
      EditNests(s, slot, LOWER_E);
      assert Numeric(s, client, c) == Fail(s, InvalidNumber) || Numeric(s, client, c) == Next(SetTop(s, slot).(tokLast := LOWER_E));
    } else if c == MINUS || c == PLUS {
      OnlyRegisters(s, MINUS);
      assert Numeric(s, client, c) == Fail(s, InvalidNumber) || Numeric(s, client, c) == Next(s.(tokLast := MINUS));
    } else if IsSpecialEnd(c) {
      SpecialPopNests(s, client, c);
      assert Numeric(s, client, c) == SpecialPop(s, client, c);
    } else {
      assert Numeric(s, client, c) == Fail(s, InvalidNumber);
    }
  }

  lemma WordNests(s: Lex, client: Client, c: byte)
    requires Alive(s) && Top(s).kind == Special
    ensures Nested(Word(s, client, c))
  {
    var f := Top(s).flags;
    var top := Top(s).(nescapes := (Top(s).nescapes + 1) % TWO_32);
    var g := if c != LOWER_U then f.(isNull := false) else f;
    var slot := top.(flags := if Lower(c) != LOWER_A then g.(nan := false) else g);
    SlotNests(s, top);
    hide Alive, Nested, Next, Fail, SetTop, SpecialPop, LitAt, Lower, IsSpecialEnd;
    if IsSpecialEnd(c) {
      SpecialPopNests(s, client, c);
      assert Word(s, client, c) == SpecialPop(s, client, c);
    } else {
      var s1 := SetTop(s, top);
      EditNests(s, top, 0);
      EditNests(s1, slot, 0);
      WordCases(s, client, c, s1, slot);
    }
  }

  lemma SpecialByteNests(s: Lex, client: Client, c: byte)
    requires Alive(s) && Top(s).kind == Special
    ensures Nested(SpecialByte(s, client, c))
  {
    hide Nest, Pairs, Numeric, Word;
    var top := Top(s);
    NumericNests(s, client, c);
    WordNests(s, client, c);
    SlotNests(s, top.(flags := NEG_INF));
    SlotNests(s, top.(flags := SIGNED_ZERO));
    SlotNests(s, top.(flags := UNSIGNED));
    NumericNests(SetTop(s, top.(flags := UNSIGNED)), client, c);
    if IsDigit(c) {
      SlotNests(s, Digit(top, c));
      SlotNests(s, top.(flags := SIGNED, nelem := c - ZERO));
    }
  }

  lemma StringByteNests(s: Lex, client: Client, c: byte)
    requires Alive(s) && IsStringy(Top(s).kind)
    ensures Nested(StringByte(s, client, c))
  {
    TopFits(s);
    NestAppend(s.trace, Event(UESCAPE, Top(s), s.level));
    hide Nest, Pairs, Quote, Escape;
    QuoteNests(s, client);
    EscapeNests(s);
  }

  lemma StepNests(s: Lex, client: Client, c: byte)
    requires Alive(s)
    ensures Nested(Step(s, client, c))
  {
    hide Nest, Pairs, Quote, Escape, StringByte, SpecialByte, Structural, SpecialBegin;
    if IsStringy(Top(s).kind) {
      StringByteNests(s, client, c);
    } else if Top(s).kind == Special {
      SpecialByteNests(s, client, c);
    } else {
      QuoteNests(s, client);
      EscapeNests(s);
      SpecialBeginNests(s, client, c);
      StructuralNests(s, client, c);
    }
  }

  /**
   Every run, whatever the input and whoever stops it: the calls nest, and while the lexer runs its level is
   the number of open pushes, below the number of levels, and its slots hold their types.
   */
  lemma {:induction false} RunNests(levels: nat, client: Client, input: seq<byte>)
    requires levels >= 2
    ensures var r := Run(Start(levels), client, input);
            && Nest(r.trace).Open?
            && (r.status.Running? ==> Matches(r, Nest(r.trace).frames) && r.level < levels)
  {
    hide Step;
    if input == [] {
      assert Nest([]) == Open([Frame(Root, 0)]);
    } else {
      var init := input[..|input| - 1];
      RunNests(levels, client, init);
      var r := Run(Start(levels), client, init);
      if r.status.Running? {
        StepNests(r, client, input[|input| - 1]);
      }
    }
  }

  /** A document that has been closed leaves nothing open: its pushes and pops balance. */
  lemma ClosedDocument(levels: nat, client: Client, input: seq<byte>)
    requires levels >= 2
    ensures var r := Run(Start(levels), client, input);
            r.status.Running? && r.level == 0 ==> exists n :: Nest(r.trace) == Open([Frame(Root, n)])
  {
    RunNests(levels, client, input);
    var r := Run(Start(levels), client, input);
    if r.status.Running? && r.level == 0 {
      hide Run, Nest;
      var f := Nest(r.trace).frames;
      assert Fits(f[0], r.stack[0], true, true);
      assert Nest(r.trace) == Open([Frame(Root, f[0].count)]);
    }
  }
}
