/** `jsonsl_feed`: the loop over a buffer with its fast scans, and why the cuts between buffers do not matter. */
module Lexer {
  import opened Bytes
  import opened LexerStep

  /** The level is inside the stack, whose bottom slot is the document's own. */
  ghost predicate Based(s: Lex) { s.level < |s.stack| && s.stack[0].kind == Root }

  ghost predicate Sound(s: Lex) { s.status.Running? ==> Based(s) }

  /** Every branch leaves the stack its size and, while it runs, the level inside it. */
  ghost predicate Keeps(s: Lex, r: Lex) { Sound(r) && |r.stack| == |s.stack| }

  lemma PopLeafKeeps(s: Lex, client: Client)
    requires Based(s)
    ensures Keeps(s, PopLeaf(s, client))
  {}

  lemma PushKeeps(s: Lex, client: Client, slot: Slot)
    requires Based(s)
    ensures Keeps(s, Push(s, client, slot))
    ensures var r := Push(s, client, slot); r.status.Running? ==> Based(r)
  {}

  lemma QuoteKeeps(s0: Lex, client: Client)
    requires Based(s0)
    ensures Keeps(s0, Quote(s0, client))
  {
    hide PopLeaf, Increment, Push;
    var s := s0.(canInsert := false);
    if IsStringy(Top(s).kind) {
      PopLeafKeeps(s, client);
    } else {
      QuotePushes(s, client);
    }
  }

  lemma QuotePushes(s: Lex, client: Client)
    requires Based(s) && !s.canInsert && !IsStringy(Top(s).kind)
    ensures Keeps(s, Quote(s, client))
  {
    hide PopLeaf, Increment, Push;
    var counted := SetTop(s, Counted(Top(s)));
    PushKeeps(counted.(expecting := COMMA, tokLast := 0), client, Above(s).(kind := String));
    PushKeeps(counted.(tokLast := 0, expecting := COLON), client, Above(s).(kind := HKey));
    PushKeeps(counted, client, Above(s).(kind := String));
    assert s.(canInsert := false) == s;
  }

  lemma StructuralKeeps(s: Lex, client: Client, c: byte)
    requires Based(s)
    ensures Keeps(s, Structural(s, client, c)) && Keeps(s, SpecialBegin(s, client, c))
  {
    SpecialBeginKeeps(s, client, c);
    OpeningKeeps(s, client, c);
    ClosingKeeps(s, client, c);
    hide SpecialBegin, Opening, Closing;
  }

  lemma OpeningKeeps(s: Lex, client: Client, c: byte)
    requires Based(s)
    ensures Keeps(s, Opening(s, client, c))
  {}

  lemma ClosingKeeps(s: Lex, client: Client, c: byte)
    requires Based(s)
    ensures Keeps(s, Closing(s, client, c))
  {}

  lemma SpecialBeginKeeps(s: Lex, client: Client, c: byte)
    requires Based(s)
    ensures Keeps(s, SpecialBegin(s, client, c))
  {}

  lemma SpecialPopKeeps(s: Lex, client: Client, c: byte)
    requires Based(s)
    ensures Keeps(s, SpecialPop(s, client, c))
  {
    hide Structural;
    forall s': Lex, top: Slot | Based(s') && top.kind == Top(s').kind ensures Keeps(s', SpecialEnd(s', client, c, top)) {
      SpecialEndKeeps(s', client, c, top);
    }
    hide SpecialEnd;
  }

  lemma SpecialEndKeeps(s: Lex, client: Client, c: byte, top: Slot)
    requires Based(s) && top.kind == Top(s).kind
    ensures Keeps(s, SpecialEnd(s, client, c, top))
  {
    hide PopLeaf, Structural;
    PopLeafKeeps(SetTop(s, top), client);
    var s1 := PopLeaf(SetTop(s, top), client);
    if s1.status.Running? {
      StructuralKeeps(s1.(tokLast := 0, expecting := COMMA), client, c);
    }
  }

  lemma NumericKeeps(s: Lex, client: Client, c: byte)
    requires Based(s)
    ensures Keeps(s, Numeric(s, client, c))
  {
    SpecialPopKeeps(s, client, c);
    hide SpecialPop, IsSpecialEnd;
  }

  lemma WordCases(s: Lex, client: Client, c: byte, s1: Lex, slot: Slot)
    requires s.level < |s.stack| && !IsSpecialEnd(c)
    requires s1 == SetTop(s, Top(s).(nescapes := (Top(s).nescapes + 1) % TWO_32))
    requires var f := Top(s).flags;
             var g := if c != LOWER_U then f.(isNull := false) else f;
             slot == Top(s1).(flags := if Lower(c) != LOWER_A then g.(nan := false) else g)
    ensures var r := Word(s, client, c);
            r == Next(s1) || r == Fail(s1, SpecialExpected) || r == Fail(s1, PastLiteral) || r == Next(SetTop(s1, slot))
  {
    hide LitAt, Lower, IsSpecialEnd, Next, Fail;
  }

  lemma WordKeeps(s: Lex, client: Client, c: byte)
    requires Based(s)
    ensures Keeps(s, Word(s, client, c))
  {
    hide SpecialPop, Verify, LitAt, Lower;
    if IsSpecialEnd(c) {
      SpecialPopKeeps(s, client, c);
      hide IsSpecialEnd;
    } else {
      hide IsSpecialEnd;
      WordInside(s, client, c);
    }
  }

  lemma WordInside(s: Lex, client: Client, c: byte)
    requires Based(s) && !IsSpecialEnd(c)
    ensures Keeps(s, Word(s, client, c))
  {
    hide Word, IsSpecialEnd, Lower;
    var s1 := SetTop(s, Top(s).(nescapes := (Top(s).nescapes + 1) % TWO_32));
    var f := Top(s).flags;
    var g := if c != LOWER_U then f.(isNull := false) else f;
    var slot := Top(s1).(flags := if Lower(c) != LOWER_A then g.(nan := false) else g);
    WordCases(s, client, c, s1, slot);
  }

  lemma SpecialByteKeeps(s: Lex, client: Client, c: byte)
    requires Based(s)
    ensures Keeps(s, SpecialByte(s, client, c))
  {
    hide Numeric, Word;
    NumericKeeps(s, client, c);
    WordKeeps(s, client, c);
    NumericKeeps(SetTop(s, Top(s).(flags := UNSIGNED)), client, c);
  }

  lemma StepKeeps(s: Lex, client: Client, c: byte)
    requires Based(s)
    ensures Keeps(s, Step(s, client, c))
  {
    hide SpecialByte, Structural, SpecialBegin, Quote;
    SpecialByteKeeps(s, client, c);
    StructuralKeeps(s, client, c);
    QuoteKeeps(s, client);
  }

  /** One byte at a time, until the input ends, the client stops or an error is reported. */
  function Run(s: Lex, client: Client, input: seq<byte>): (r: Lex)
    requires Sound(s)
    ensures Keeps(s, r)
  {
    if input == [] then s
    else
      var r := Run(s, client, input[..|input| - 1]);
      if !r.status.Running? then r
      else
        StepKeeps(r, client, input[|input| - 1]);
        Step(r, client, input[|input| - 1])
  }

  /** Chunking independence: where the input is cut makes no difference to anything. */
  lemma {:induction false} RunConcat(s: Lex, client: Client, a: seq<byte>, b: seq<byte>)
    requires Sound(s)
    ensures Run(s, client, a + b) == Run(Run(s, client, a), client, b)
  {
    hide Step;
    if b == [] {
      assert a + b == a;
    } else {
      var init := b[..|b| - 1];
      assert (a + b)[..|a + b| - 1] == a + init;
      RunConcat(s, client, a, init);
    }
  }

  lemma RunOne(s: Lex, client: Client, input: seq<byte>, i: nat)
    requires Sound(s) && i < |input|
    ensures var r := Run(s, client, input[..i]);
            Run(s, client, input[..i + 1]) == if r.status.Running? then Step(r, client, input[i]) else r
  {
    hide Step;
    assert input[..i + 1][..i] == input[..i];
  }

  lemma RunSingle(s: Lex, client: Client, c: byte)
    requires Sound(s) && s.status.Running?
    ensures Run(s, client, [c]) == Step(s, client, c)
  {
    hide Step;
    assert [c][..0] == [];
  }

  lemma {:induction false} RunHalted(s: Lex, client: Client, input: seq<byte>, i: nat)
    requires Sound(s) && i <= |input| && !Run(s, client, input[..i]).status.Running?
    ensures Run(s, client, input) == Run(s, client, input[..i])
    decreases |input|
  {
    hide Step;
    if i < |input| {
      var init := input[..|input| - 1];
      assert init[..i] == input[..i];
      RunHalted(s, client, init, i);
    } else {
      assert input[..i] == input;
    }
  }

  class Parser {
    var stack: seq<Slot>
    var level: nat
    var pos: nat
    var expecting: byte
    var tokLast: byte
    var canInsert: bool
    var inEscape: bool
    var trace: seq<Event>
    var status: Status

    function State(): Lex
      reads this
    {
      Lex(stack, level, pos, expecting, tokLast, canInsert, inEscape, trace, status)
    }

    /** `jsonsl_new`: a zeroed stack, then `jsonsl_reset`. */
    constructor (levels: nat)
      requires levels >= 2
      ensures State() == Start(levels)
    {
      stack := seq(levels, _ => NO_SLOT);
      level, pos, expecting, tokLast, canInsert, inEscape := 0, 0, 0, 0, true, false;
      trace, status := [], Running;
    }

    method Store(s: Lex)
      modifies this
      ensures State() == s
    {
      stack, level, pos, expecting, tokLast, canInsert, inEscape, trace, status :=
        s.stack, s.level, s.pos, s.expecting, s.tokLast, s.canInsert, s.inEscape, s.trace, s.status;
    }

    /** `jsonsl__str_fastparse`: simple bytes only move the position, which is added up once. */
    method StrFastparse(ghost s0: Lex, client: Client, bytes: seq<byte>, from: nat) returns (next: nat)
      requires from <= |bytes| && Sound(s0) && State() == Run(s0, client, bytes[..from])
      requires status.Running? && IsStringy(stack[level].kind) && !inEscape
      modifies this`pos
      ensures from <= next <= |bytes| && State() == Run(s0, client, bytes[..next])
      ensures next < |bytes| ==> !IsSimple(bytes[next])
    {
      hide Run;
      next := from;
      while next < |bytes| && IsSimple(bytes[next])
        invariant from <= next <= |bytes| && State() == old(State())
        invariant Run(s0, client, bytes[..next]) == State().(pos := pos + (next - from))
      {
        RunOne(s0, client, bytes, next);
        next := next + 1;
      }
      pos := pos + (next - from);
    }

    /** `jsonsl__num_fastparse`: digits also accumulate in the slot. */
    method NumFastparse(ghost s0: Lex, client: Client, bytes: seq<byte>, from: nat) returns (next: nat)
      requires from <= |bytes| && Sound(s0) && State() == Run(s0, client, bytes[..from])
      requires status.Running? && level < |stack| && stack[level].kind == Special && IsNormalNumber(stack[level])
      modifies this`pos, this`stack
      ensures from <= next <= |bytes| && State() == Run(s0, client, bytes[..next])
      ensures level < |stack| && stack[level].kind == Special && IsNormalNumber(stack[level])
      ensures next < |bytes| ==> !IsDigit(bytes[next])
    {
      hide Run;
      next := from;
      while next < |bytes| && IsDigit(bytes[next])
        invariant from <= next <= |bytes| && State() == old(State()).(stack := stack)
        invariant level < |stack| && stack[level].kind == Special && IsNormalNumber(stack[level])
        invariant Run(s0, client, bytes[..next]) == State().(pos := pos + (next - from))
      {
        RunOne(s0, client, bytes, next);
        stack := stack[level := Digit(stack[level], bytes[next])];
        next := next + 1;
      }
      pos := pos + (next - from);
    }

    /** `jsonsl_feed`. */
    method Feed(client: Client, bytes: seq<byte>)
      requires Sound(State()) && status.Running?
      modifies this
      ensures State() == Run(old(State()), client, bytes)
    {
      hide Run, Step, Quote, Escape, Numeric;
      ghost var s0 := State();
      var i := 0;
      EmptyRun(s0, client, bytes);
      while i < |bytes|
        invariant i <= |bytes| && State() == Run(s0, client, bytes[..i])
        invariant Sound(State()) && status.Running?
      {
        var next;
        var kind := stack[level].kind;
        if IsStringy(kind) && !inEscape {
          next := StrFastparse(s0, client, bytes, i);
          if next == |bytes| {
            assert bytes[..next] == bytes;
            return;
          }
          i := next;
          RunOne(s0, client, bytes, i);
          AfterString(State(), client, bytes[i]);
          if bytes[i] == QUOTE {
            Store(Quote(State(), client));
          } else if bytes[i] == BACKSLASH {
            Store(Escape(State()));
          } else {
            status := Failed(WeirdWhitespace);
          }
        } else if kind == Special && IsNormalNumber(stack[level]) {
          next := NumFastparse(s0, client, bytes, i);
          if next == |bytes| {
            assert bytes[..next] == bytes;
            return;
          }
          i := next;
          RunOne(s0, client, bytes, i);
          AfterNumber(State(), client, bytes[i]);
          Store(Numeric(State(), client, bytes[i]));
        } else {
          RunOne(s0, client, bytes, i);
          Store(Step(State(), client, bytes[i]));
        }
        if !status.Running? {
          RunHalted(s0, client, bytes, i + 1);
          return;
        }
        i := i + 1;
      }
      assert bytes[..i] == bytes;
    }
  }

  const NO_SLOT: Slot := Slot(Root, NO_FLAGS, 0, 0, 0, 0)

  function Start(levels: nat): Lex {
    Lex(seq(levels, _ => NO_SLOT), 0, 0, 0, 0, true, false, [], Running)
  }

  lemma EmptyRun(s: Lex, client: Client, bytes: seq<byte>)
    requires Sound(s)
    ensures Run(s, client, bytes[..0]) == s
  {}

  lemma AfterString(s: Lex, client: Client, c: byte)
    requires s.level < |s.stack| && IsStringy(Top(s).kind) && !s.inEscape && !IsSimple(c)
    ensures Step(s, client, c) == if c == QUOTE then Quote(s, client) else if c == BACKSLASH then Escape(s) else Fail(s, WeirdWhitespace)
  {
    hide Quote, Escape;
  }

  lemma AfterNumber(s: Lex, client: Client, c: byte)
    requires s.level < |s.stack| && Top(s).kind == Special && IsNormalNumber(Top(s)) && !IsDigit(c)
    ensures Step(s, client, c) == Numeric(s, client, c)
  {
    hide Numeric;
  }
}
