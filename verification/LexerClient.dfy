/** Clients that may stop the lexer: one that does not object to the calls of a run gets the whole of it. */
module LexerClient {
  import opened Bytes
  import opened LexerStep
  import opened Lexer
  import opened JsonString

  /** The client has nothing against any of the calls made after `before`. */
  ghost predicate Lets(client: Client, before: seq<Event>, after: seq<Event>) {
    before <= after && forall i | |before| < i <= |after| :: !client(after[..i])
  }

  lemma LetsBoth(client: Client, a: seq<Event>, b: seq<Event>, c: seq<Event>)
    requires a <= b <= c && Lets(client, a, c)
    ensures Lets(client, a, b) && Lets(client, b, c)
  {
    forall i | |a| < i <= |b| ensures !client(b[..i]) {
      assert b[..i] == c[..i];
    }
  }

  /** With `r` what a client that never stops gets, `r'` is the same if the client lets it. */
  ghost predicate Agree(client: Client, s: Lex, r: Lex, r': Lex) {
    s.trace <= r.trace && (Lets(client, s.trace, r.trace) ==> r' == r)
  }

  lemma CallbackAgrees(s: Lex, quiet: Client, client: Client, action: Action, at: nat)
    requires at < |s.stack| && Quiet(quiet)
    ensures Agree(client, s, Callback(s, quiet, action, at), Callback(s, client, action, at))
  {
    var r := Callback(s, quiet, action, at);
    assert r.trace[..|r.trace|] == r.trace;
  }

  lemma PushAgrees(s: Lex, quiet: Client, client: Client, slot: Slot)
    requires s.level < |s.stack| && Quiet(quiet)
    ensures Agree(client, s, Push(s, quiet, slot), Push(s, client, slot))
  {
    hide Callback;
    if s.level < |s.stack| - 1 {
      CallbackAgrees(s.(level := s.level + 1, stack := s.stack[s.level + 1 := slot]), quiet, client, PUSH, s.level + 1);
    }
  }

  lemma PopLeafAgrees(s: Lex, quiet: Client, client: Client)
    requires s.level < |s.stack| && Quiet(quiet)
    ensures Agree(client, s, PopLeaf(s, quiet), PopLeaf(s, client))
  {
    CallbackAgrees(SetTop(s, Top(s).(posCur := s.pos)), quiet, client, POP, s.level);
    hide Callback;
  }

  lemma QuoteAgrees(s: Lex, quiet: Client, client: Client)
    requires s.level < |s.stack| && Quiet(quiet)
    ensures Agree(client, s, Quote(s, quiet), Quote(s, client))
  {
    hide PopLeaf, Push, Above, Increment, Lets, Quiet;
    var t := s.(canInsert := false);
    var counted := SetTop(t, Counted(Top(t)));
    match Top(t).kind
    case Object =>
      if NeedsKey(Top(t)) {
        PushAgrees(counted.(expecting := COLON, tokLast := 0), quiet, client, Above(t).(kind := HKey));
      } else {
        PushAgrees(counted.(expecting := COMMA, tokLast := 0), quiet, client, Above(t).(kind := String));
      }
    case List => PushAgrees(counted, quiet, client, Above(t).(kind := String));
    case String | HKey => PopLeafAgrees(t, quiet, client);
    case Special | Root =>
  }

  lemma SpecialBeginAgrees(s: Lex, quiet: Client, client: Client, c: byte)
    requires s.level < |s.stack| && Quiet(quiet)
    ensures Agree(client, s, SpecialBegin(s, quiet, c), SpecialBegin(s, client, c))
  {
    var flags := ExtractSpecial(c);
    var number: uint64 := if flags == UNSIGNED && IsDigit(c) then c - ZERO else 0;
    PushAgrees(SetTop(s, Counted(Top(s))), quiet, client, Above(s).(kind := Special, flags := flags, nescapes := 1, nelem := number));
    hide Push, Above, ExtractSpecial;
  }

  lemma OpeningAgrees(s: Lex, quiet: Client, client: Client, c: byte)
    requires s.level < |s.stack| && Quiet(quiet)
    ensures Agree(client, s, Opening(s, quiet, c), Opening(s, client, c))
  {
    var kind := if c == OPEN_OBJECT then Object else List;
    PushAgrees(SetTop(s, Counted(Top(s))), quiet, client, Above(s).(kind := kind, nelem := 0));
    hide Push, Above;
  }

  lemma ClosingAgrees(s: Lex, quiet: Client, client: Client, c: byte)
    requires s.level < |s.stack| && Quiet(quiet)
    ensures Agree(client, s, Closing(s, quiet, c), Closing(s, client, c))
  {
    var s1 := s.(canInsert := false, level := if s.level > 0 then s.level - 1 else TWO_32 - 1, expecting := COMMA, tokLast := 0);
    CallbackAgrees(s1, quiet, client, POP, s.level);
    hide Callback;
  }

  lemma StructuralAgrees(s: Lex, quiet: Client, client: Client, c: byte)
    requires s.level < |s.stack| && Quiet(quiet)
    ensures Agree(client, s, Structural(s, quiet, c), Structural(s, client, c))
  {
    OpeningAgrees(s, quiet, client, c);
    ClosingAgrees(s, quiet, client, c);
    SpecialBeginAgrees(s, quiet, client, c);
    hide Opening, Closing, SpecialBegin, Lets, Quiet;
  }

  lemma SpecialEndAgrees(s: Lex, quiet: Client, client: Client, c: byte, top: Slot)
    requires s.level < |s.stack| && Quiet(quiet)
    ensures Agree(client, s, SpecialEnd(s, quiet, c, top), SpecialEnd(s, client, c, top))
  {
    PopLeafAgrees(SetTop(s, top), quiet, client);
    var p := PopLeaf(SetTop(s, top), quiet);
    hide PopLeaf, Structural, IsWhitespace;
    if p.status.Running? {
      var q := p.(tokLast := 0, expecting := COMMA);
      StructuralAgrees(q, quiet, client, c);
      if Lets(client, s.trace, SpecialEnd(s, quiet, c, top).trace) {
        LetsBoth(client, s.trace, p.trace, SpecialEnd(s, quiet, c, top).trace);
      }
    }
  }

  lemma SpecialPopAgrees(s: Lex, quiet: Client, client: Client, c: byte)
    requires s.level < |s.stack| && Quiet(quiet)
    ensures Agree(client, s, SpecialPop(s, quiet, c), SpecialPop(s, client, c))
  {
    hide SpecialEnd, Lets, Quiet;
    var t := s.(canInsert := false);
    var top := Top(t);
    var f, length := top.flags, top.nescapes;
    if f == ZERO_FLAG || f == SIGNED_ZERO {
      SpecialEndAgrees(t, quiet, client, c, top.(flags := UNSIGNED));
    } else if (f.inf && f != SIGNED && f != UNSIGNED && f != DASH) || (f == TRUE && length == 4) {
      SpecialEndAgrees(t, quiet, client, c, top.(nelem := 1));
    } else {
      SpecialEndAgrees(t, quiet, client, c, top);
    }
  }

  lemma NumericAgrees(s: Lex, quiet: Client, client: Client, c: byte)
    requires s.level < |s.stack| && Quiet(quiet)
    ensures Agree(client, s, Numeric(s, quiet, c), Numeric(s, client, c))
  {
    SpecialPopAgrees(s, quiet, client, c);
    hide SpecialPop, IsSpecialEnd, Lets, Quiet;
  }

  lemma WordAgrees(s: Lex, quiet: Client, client: Client, c: byte)
    requires s.level < |s.stack| && Quiet(quiet)
    ensures Agree(client, s, LexerStep.Word(s, quiet, c), LexerStep.Word(s, client, c))
  {
    hide Lets, Quiet, SpecialPop;
    if IsSpecialEnd(c) {
      SpecialPopAgrees(s, quiet, client, c);
    } else {
      var s1 := SetTop(s, Top(s).(nescapes := (Top(s).nescapes + 1) % TWO_32));
      var f := Top(s).flags;
      var g := if c != LOWER_U then f.(isNull := false) else f;
      WordCases(s, quiet, c, s1, Top(s1).(flags := if Lower(c) != LOWER_A then g.(nan := false) else g));
      assert LexerStep.Word(s, quiet, c) == LexerStep.Word(s, client, c) by { hide LitAt, Lower, Verify, IsSpecialEnd; }
      hide LexerStep.Word;
    }
  }

  lemma SpecialByteAgrees(s: Lex, quiet: Client, client: Client, c: byte)
    requires s.level < |s.stack| && Quiet(quiet)
    ensures Agree(client, s, SpecialByte(s, quiet, c), SpecialByte(s, client, c))
  {
    NumericAgrees(s, quiet, client, c);
    NumericAgrees(SetTop(s, Top(s).(flags := UNSIGNED)), quiet, client, c);
    WordAgrees(s, quiet, client, c);
    hide Numeric, LexerStep.Word;
  }

  lemma StringByteAgrees(s: Lex, quiet: Client, client: Client, c: byte)
    requires s.level < |s.stack| && Quiet(quiet)
    ensures Agree(client, s, StringByte(s, quiet, c), StringByte(s, client, c))
  {
    QuoteAgrees(s, quiet, client);
    CallbackAgrees(s.(inEscape := false), quiet, client, UESCAPE, s.level);
    hide Quote, Callback, IsAllowedEscape, IsSimple;
  }

  lemma StepAgrees(s: Lex, quiet: Client, client: Client, c: byte)
    requires s.level < |s.stack| && Quiet(quiet)
    ensures Agree(client, s, Step(s, quiet, c), Step(s, client, c))
  {
    StringByteAgrees(s, quiet, client, c);
    SpecialByteAgrees(s, quiet, client, c);
    SpecialBeginAgrees(s, quiet, client, c);
    QuoteAgrees(s, quiet, client);
    StructuralAgrees(s, quiet, client, c);
    hide StringByte, SpecialByte, SpecialBegin, Quote, Structural, IsWhitespace, ExtractSpecial, Lets, Quiet;
  }

  /** A client that would not stop at any call of an unstopped run gets exactly that run. */
  lemma {:induction false} RunAgrees(s: Lex, quiet: Client, client: Client, input: seq<byte>)
    requires Sound(s) && Quiet(quiet)
    ensures Agree(client, s, Run(s, quiet, input), Run(s, client, input))
    decreases |input|
  {
    hide Step;
    if input != [] {
      var init, last := input[..|input| - 1], input[|input| - 1];
      RunAgrees(s, quiet, client, init);
      var m := Run(s, quiet, init);
      if m.status.Running? {
        StepAgrees(m, quiet, client, last);
        var r := Step(m, quiet, last);
        if Lets(client, s.trace, r.trace) {
          LetsBoth(client, s.trace, m.trace, r.trace);
        }
      }
    }
  }
}
