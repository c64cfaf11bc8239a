/** Where the tokens of a text begin and end, in every run of the lexer: what lets a token be gathered from several buffers. */
module LexerTokens {
  import opened Bytes
  import opened LexerStep
  import opened Lexer

  datatype Option<T> = None | Some(value: T)

  /** Keys, strings and literals: the tokens with a text. */
  predicate IsToken(k: Kind) { k == String || k == HKey || k == Special }

  /** Where the token that is open after some calls begins. */
  function OpenAt(trace: seq<Event>): Option<nat> {
    if trace == [] then None
    else
      var e := trace[|trace| - 1];
      match e.action
      case UESCAPE => OpenAt(trace[..|trace| - 1])
      case POP => None
      case PUSH => if IsToken(e.slot.kind) then Some(e.slot.posBegin) else OpenAt(trace[..|trace| - 1])
  }

  /** A call made at a byte's position: a token opens when none is open, and closes as the one that is. */
  ghost predicate Fitting(before: seq<Event>, e: Event, pos: nat) {
    && (e.action == PUSH && IsToken(e.slot.kind) ==> OpenAt(before) == None && e.slot.posBegin == pos)
    && (e.action == POP && IsToken(e.slot.kind) ==>
          OpenAt(before) == Some(e.slot.posBegin) && e.slot.posCur == pos && e.slot.posBegin < pos)
  }

  /** The position at which a token's call is made. */
  function At(e: Event): nat { if e.action == PUSH then e.slot.posBegin else e.slot.posCur }

  /** The call opens or closes a token, if it does, between the two positions. */
  ghost predicate Within(before: seq<Event>, e: Event, low: nat, high: nat) {
    IsToken(e.slot.kind) && e.action != UESCAPE ==> low <= At(e) < high && Fitting(before, e, At(e))
  }

  /** All calls of a trace from the call `from` on do. */
  ghost predicate Placed(trace: seq<Event>, from: nat, low: nat, high: nat) {
    forall k | from <= k < |trace| :: Within(trace[..k], trace[k], low, high)
  }

  /** Between bytes: below the top there are only containers, and a token on top is the open one. */
  ghost predicate Tracked(s: Lex) {
    && Based(s) && (forall i | 0 <= i < s.level :: !IsToken(s.stack[i].kind))
    && OpenAt(s.trace) == if IsToken(Top(s).kind) then Some(Top(s).posBegin) else None
  }

  /** And the token began at an earlier byte. */
  ghost predicate Settled(s: Lex) {
    s.status.Running? ==> Tracked(s) && (IsToken(Top(s).kind) ==> Top(s).posBegin < s.pos)
  }

  /** One byte's worth of calls after `s`, at `s`'s position. */
  ghost predicate Follows(s: Lex, r: Lex) {
    s.trace <= r.trace && forall k | |s.trace| <= k < |r.trace| :: Fitting(r.trace[..k], r.trace[k], s.pos)
  }

  /** In the middle of a byte: the position has not moved yet. */
  ghost predicate Midway(s: Lex, r: Lex) {
    Follows(s, r) && (r.status.Running? ==> Tracked(r) && r.pos == s.pos)
  }

  /** A byte has been taken. */
  ghost predicate Taken(s: Lex, r: Lex) {
    Follows(s, r) && (r.status.Running? ==> r.pos == s.pos + 1) && Settled(r)
  }

  lemma OpenAfter(trace: seq<Event>, e: Event)
    ensures OpenAt(trace + [e]) == match e.action
                                   case UESCAPE => OpenAt(trace)
                                   case POP => None
                                   case PUSH => if IsToken(e.slot.kind) then Some(e.slot.posBegin) else OpenAt(trace)
  {
    assert (trace + [e])[..|trace|] == trace;
  }

  lemma FollowsOne(s: Lex, r: Lex, e: Event)
    requires r.trace == s.trace + [e] && Fitting(s.trace, e, s.pos)
    ensures Follows(s, r)
  {
    hide Fitting;
    assert r.trace[..|s.trace|] == s.trace;
  }

  lemma FollowsThen(s: Lex, m: Lex, r: Lex)
    requires Follows(s, m) && Follows(m, r) && m.pos == s.pos
    ensures Follows(s, r)
  {
    hide Fitting;
    forall k | |s.trace| <= k < |r.trace| ensures Fitting(r.trace[..k], r.trace[k], s.pos) {
      if k < |m.trace| {
        assert r.trace[..k] == m.trace[..k] && r.trace[k] == m.trace[k];
      }
    }
  }

  lemma NextTaken(s: Lex, m: Lex)
    requires Midway(s, m) && (m.status.Running? && IsToken(Top(m).kind) ==> Top(m).posBegin <= m.pos)
    ensures Taken(s, Next(m))
  {
    hide Fitting, OpenAt;
  }

  lemma FailTaken(s: Lex, m: Lex, e: Error)
    requires Follows(s, m)
    ensures Taken(s, Fail(m, e))
  {
    hide Fitting;
  }

  lemma PushMidway(s: Lex, s0: Lex, client: Client, slot: Slot)
    requires Tracked(s) && !IsToken(Top(s).kind) && slot.posBegin == s.pos
    requires s0.status.Running? && s0.trace == s.trace && s0.pos == s.pos && s0.level == s.level
    requires |s0.stack| == |s.stack| && s0.stack[..s.level] == s.stack[..s.level] && s0.stack[s.level].kind == Top(s).kind
    ensures var r := Push(s0, client, slot);
            Midway(s, r) && (r.status.Running? ==> Top(r) == slot)
  {
    var r := Push(s0, client, slot);
    if s.level < |s0.stack| - 1 {
      var e := Event(PUSH, slot, s.level + 1);
      assert r.trace == s.trace + [e];
      OpenAfter(s.trace, e);
      FollowsOne(s, r, e);
      hide OpenAt, Fitting, Follows;
      forall i | 0 <= i < s.level + 1 ensures !IsToken(r.stack[i].kind) {
        if i < s.level {
          assert r.stack[i] == s0.stack[..s.level][i] == s.stack[i];
        }
      }
      if s.level > 0 {
        assert r.stack[0] == s0.stack[..s.level][0] == s.stack[0];
      }
    }
  }

  /** `slot` is the open token's, but for what does not matter here. */
  lemma PopMidway(s: Lex, s0: Lex, client: Client)
    requires Tracked(s) && IsToken(Top(s).kind) && Top(s).posBegin < s.pos
    requires s0.status.Running? && s0.trace == s.trace && s0.pos == s.pos && s0.level == s.level
    requires |s0.stack| == |s.stack| && s0.stack[..s.level] == s.stack[..s.level]
    requires s0.stack[s.level].kind == Top(s).kind && s0.stack[s.level].posBegin == Top(s).posBegin
    ensures Midway(s, PopLeaf(s0, client))
    ensures PopLeaf(s0, client).status.Running? ==> !IsToken(Top(PopLeaf(s0, client)).kind)
  {
    var r := PopLeaf(s0, client);
    var e := Event(POP, Top(s0).(posCur := s0.pos), s.level);
    assert r.trace == s.trace + [e];
    OpenAfter(s.trace, e);
    FollowsOne(s, r, e);
    hide OpenAt, Fitting, Follows;
    forall i | 0 <= i < s.level ensures !IsToken(s0.stack[i].kind) {
      assert s0.stack[i] == s0.stack[..s.level][i] == s.stack[i];
    }
    assert s0.stack[0] == s0.stack[..s.level][0] == s.stack[0];
  }

  /** A running lexer between bytes. */
  ghost predicate Ready(s: Lex) { s.status.Running? && s.level < |s.stack| && Tracked(s) && (IsToken(Top(s).kind) ==> Top(s).posBegin < s.pos) }

  ghost predicate InContainer(s: Lex) { s.status.Running? && s.level < |s.stack| && Tracked(s) && !IsToken(Top(s).kind) }

  /** Changes that no position depends on. */
  lemma SameTaken(s: Lex, m: Lex)
    requires Ready(s) && m.trace == s.trace && m.level == s.level && m.pos == s.pos && |m.stack| == |s.stack|
    requires m.stack[..s.level] == s.stack[..s.level]
    requires m.stack[s.level].kind == Top(s).kind && m.stack[s.level].posBegin == Top(s).posBegin
    ensures Taken(s, Next(m))
  {
    hide OpenAt, Fitting;
    SameTracked(s, m);
    NextTaken(s, m);
  }

  lemma SameTracked(s: Lex, m: Lex)
    requires Tracked(s) && m.trace == s.trace && m.level == s.level && |m.stack| == |s.stack|
    requires m.stack[..s.level] == s.stack[..s.level]
    requires m.stack[s.level].kind == Top(s).kind && m.stack[s.level].posBegin == Top(s).posBegin
    ensures Tracked(m)
  {
    hide OpenAt;
    forall i | 0 <= i < s.level ensures !IsToken(m.stack[i].kind) {
      assert m.stack[i] == m.stack[..s.level][i] == s.stack[i];
    }
    if s.level > 0 {
      assert m.stack[0] == m.stack[..s.level][0] == s.stack[0];
    }
  }

  lemma SameFailed(s: Lex, m: Lex, e: Error)
    requires m.trace == s.trace
    ensures Taken(s, Fail(m, e))
  {
    hide Fitting;
    FailTaken(s, m, e);
  }

  lemma QuoteTaken(s: Lex, client: Client)
    requires Ready(s)
    ensures Taken(s, Quote(s, client))
  {
    hide OpenAt, Fitting, Taken, Midway, Push, PopLeaf, Tracked, Increment;
    var m := s.(canInsert := false);
    var counted := SetTop(m, Counted(Top(m)));
    match Top(s).kind {
      case String =>
        PopMidway(s, m, client);
        NextTaken(s, PopLeaf(m, client));
      case HKey =>
        PopMidway(s, m, client);
        NextTaken(s, PopLeaf(m, client));
      case Object =>
        SameFailed(s, counted, MissingToken);
        SameFailed(s, counted, StrayToken);
        StringTaken(s, counted.(expecting := COMMA, tokLast := 0), client, Above(m).(kind := String));
        StringTaken(s, counted.(tokLast := 0, expecting := COLON), client, Above(m).(kind := HKey));
      case List =>
        ListStringTaken(s, counted, client, Above(m).(kind := String));
      case Special => SameFailed(s, m, StrayToken);
      case Root => SameFailed(s, m, StringOutsideContainer);
    }
  }

  /** A token that has no slot left is an error before it is a call. */
  lemma PushFails(s: Lex, m: Lex, client: Client, slot: Slot)
    requires m.level < |m.stack| && m.trace == s.trace
    ensures m.level >= |m.stack| - 1 ==> Push(m, client, slot) == Fail(m, LevelsExceeded) && Taken(s, Push(m, client, slot))
  {
    hide Taken, Fitting;
    SameFailed(s, m, LevelsExceeded);
  }

  lemma StringTaken(s: Lex, m: Lex, client: Client, slot: Slot)
    requires InContainer(s) && m.status.Running? && m.trace == s.trace && m.pos == s.pos && m.level == s.level
    requires |m.stack| == |s.stack| && m.stack[..s.level] == s.stack[..s.level] && m.stack[s.level].kind == Top(s).kind
    requires s.level + 1 < |s.stack| ==> slot.posBegin == s.pos
    ensures Taken(s, Next(Push(m, client, slot)))
  {
    hide OpenAt, Fitting, Tracked, Push;
    if s.level + 1 < |s.stack| {
      PushMidway(s, m, client, slot);
      NextTaken(s, Push(m, client, slot));
    } else {
      PushFails(s, m, client, slot);
    }
  }

  /** In a list the registers are set after the push. */
  lemma ListStringTaken(s: Lex, m: Lex, client: Client, slot: Slot)
    requires InContainer(s) && m.status.Running? && m.trace == s.trace && m.pos == s.pos && m.level == s.level
    requires |m.stack| == |s.stack| && m.stack[..s.level] == s.stack[..s.level] && m.stack[s.level].kind == Top(s).kind
    requires s.level + 1 < |s.stack| ==> slot.posBegin == s.pos
    ensures forall insert, expecting, tokLast :: 
              var pushed := Push(m, client, slot);
              if pushed.status.Failed? then Taken(s, pushed)
              else Taken(s, Next(pushed.(canInsert := insert, expecting := expecting, tokLast := tokLast)))
  {
    hide OpenAt, Fitting, Push;
    var pushed := Push(m, client, slot);
    if s.level + 1 < |s.stack| {
      PushMidway(s, m, client, slot);
      forall insert, expecting, tokLast ensures Taken(s, Next(pushed.(canInsert := insert, expecting := expecting, tokLast := tokLast))) {
        NextTaken(s, pushed.(canInsert := insert, expecting := expecting, tokLast := tokLast));
      }
    } else {
      PushFails(s, m, client, slot);
    }
  }

  lemma EscapeTaken(s: Lex)
    requires Ready(s)
    ensures Taken(s, Escape(s))
  {
    hide Taken, Tracked;
    SameFailed(s, s, EscapeOutsideString);
    SameTaken(s, SetTop(s, Top(s).(nescapes := (Top(s).nescapes + 1) % TWO_32)).(inEscape := true));
  }

  lemma SpecialBeginTaken(s: Lex, client: Client, c: byte)
    requires InContainer(s)
    ensures Taken(s, SpecialBegin(s, client, c))
  {
    hide Taken, Tracked, Push, ExtractSpecial, Increment;
    var top, flags := Top(s), ExtractSpecial(c);
    var counted := SetTop(s, Counted(top));
    forall m: Lex, e | m.trace == s.trace ensures Taken(s, Fail(m, e)) {
      SameFailed(s, m, e);
    }
    var number: uint64 := if flags == UNSIGNED && IsDigit(c) then c - ZERO else 0;
    TokenTaken(s, counted, client, Above(s).(kind := Special, flags := flags, nescapes := 1, nelem := number));
  }

  lemma TokenTaken(s: Lex, m: Lex, client: Client, slot: Slot)
    requires InContainer(s) && m.status.Running? && m.trace == s.trace && m.pos == s.pos && m.level == s.level
    requires |m.stack| == |s.stack| && m.stack[..s.level] == s.stack[..s.level] && m.stack[s.level].kind == Top(s).kind
    requires s.level + 1 < |s.stack| ==> slot.posBegin == s.pos
    ensures forall tokLast ::
              var pushed := Push(m, client, slot);
              if pushed.status.Failed? then Taken(s, pushed) else Taken(s, Next(pushed.(tokLast := tokLast)))
  {
    hide Taken, Tracked, Push;
    ListStringTaken(s, m, client, slot);
    var pushed := Push(m, client, slot);
    forall tokLast ensures !pushed.status.Failed? ==> Taken(s, Next(pushed.(tokLast := tokLast))) {
      assert pushed.(tokLast := tokLast)
          == pushed.(canInsert := pushed.canInsert, expecting := pushed.expecting, tokLast := tokLast);
    }
  }

  lemma OpeningTaken(s: Lex, client: Client, c: byte)
    requires InContainer(s)
    ensures Taken(s, Opening(s, client, c))
  {
    hide Taken, Tracked, Push, Increment;
    forall m: Lex, e | m.trace == s.trace ensures Taken(s, Fail(m, e)) {
      SameFailed(s, m, e);
    }
    var kind := if c == OPEN_OBJECT then Object else List;
    var m, slot := SetTop(s, Counted(Top(s))), Above(s).(kind := kind, nelem := 0);
    ListStringTaken(s, m, client, slot);
    var pushed := Push(m, client, slot);
    var s2 := pushed.(canInsert := true, expecting := if c == OPEN_OBJECT then QUOTE else s.expecting);
    if s2.status.Stopped? {
      assert Next(pushed.(canInsert := true, expecting := s2.expecting, tokLast := pushed.tokLast)) == s2;
    }
    assert s2.(tokLast := 0) == pushed.(canInsert := true, expecting := s2.expecting, tokLast := 0);
    PushKeeps(m, client, slot);
  }

  lemma PushKeeps(m: Lex, client: Client, slot: Slot)
    requires m.level < |m.stack|
    ensures var r := Push(m, client, slot); r.expecting == m.expecting && r.canInsert == m.canInsert && r.tokLast == m.tokLast
  {}

  lemma ClosingTaken(s: Lex, client: Client, c: byte)
    requires InContainer(s)
    ensures Taken(s, Closing(s, client, c))
  {
    hide OpenAt, Fitting;
    forall m: Lex, e | m.trace == s.trace ensures Taken(s, Fail(m, e)) {
      SameFailed(s, m, e);
    }
    var top := Top(s);
    if s.tokLast != COMMA && top.kind == (if c == CLOSE_LIST then List else Object) && !(top.kind == Object && top.nelem % 2 != 0) {
      var r, e := Closing(s, client, c), Event(POP, top, s.level);
      assert r.trace == s.trace + [e];
      OpenAfter(s.trace, e);
      CloseFits(s.trace, e, s.pos);
      FollowsOne(s, r, e);
      hide Follows;
      assert s.level > 0;
      if r.status.Running? {
        forall i | 0 <= i < r.level ensures !IsToken(r.stack[i].kind) {
          assert r.stack[i] == s.stack[i];
        }
        assert !IsToken(s.stack[s.level - 1].kind);
      }
    }
  }

  lemma CloseFits(before: seq<Event>, e: Event, pos: nat)
    requires e.action == POP && !IsToken(e.slot.kind)
    ensures Fitting(before, e, pos)
  {}

  lemma StructuralTaken(s: Lex, client: Client, c: byte)
    requires InContainer(s)
    ensures Taken(s, Structural(s, client, c))
  {
    hide Taken, Tracked, Opening, Closing, SpecialBegin;
    OpeningTaken(s, client, c);
    ClosingTaken(s, client, c);
    SpecialBeginTaken(s, client, c);
    SameFailed(s, s, StrayToken);
    SameTaken(s, s.(tokLast := COLON, canInsert := true, expecting := QUOTE));
    SameTaken(s, s.(canInsert := s.canInsert || Top(s).kind != Object, tokLast := COMMA, expecting := QUOTE));
  }

  lemma SpecialEndTaken(s: Lex, s0: Lex, client: Client, c: byte, top: Slot)
    requires Ready(s) && Top(s).kind == Special && top.kind == Special && top.posBegin == Top(s).posBegin
    requires s0.status.Running? && s0.trace == s.trace && s0.pos == s.pos && s0.level == s.level && s0.stack == s.stack
    ensures Taken(s, SpecialEnd(s0, client, c, top))
  {
    hide OpenAt, Fitting, PopLeaf, Structural;
    PopMidway(s, SetTop(s0, top), client);
    var s1 := PopLeaf(SetTop(s0, top), client);
    if s1.status.Running? {
      var s2 := s1.(tokLast := 0, expecting := COMMA);
      MidwayInContainer(s, s1, s2);
      if IsWhitespace(c) {
        NextTaken(s, s2);
      } else {
        StructuralTaken(s2, client, c);
        FollowsThen(s, s2, Structural(s2, client, c));
      }
    }
  }

  lemma MidwayInContainer(s: Lex, m: Lex, r: Lex)
    requires Midway(s, m) && m.status.Running? && m.level < |m.stack| && !IsToken(Top(m).kind)
    requires r == m.(tokLast := r.tokLast, expecting := r.expecting)
    ensures Midway(s, r) && InContainer(r)
  {
    hide OpenAt, Fitting;
  }

  lemma SpecialPopTaken(s: Lex, s0: Lex, client: Client, c: byte)
    requires Ready(s) && Top(s).kind == Special && s0 == s.(stack := s0.stack) && |s0.stack| == |s.stack|
    requires s0.stack[..s.level] == s.stack[..s.level] && s0.stack[s.level].kind == Special && s0.stack[s.level].posBegin == Top(s).posBegin
    ensures Taken(s, SpecialPop(s0, client, c))
  {
    hide Taken, Tracked, SpecialEnd;
    forall m: Lex, e | m.trace == s.trace ensures Taken(s, Fail(m, e)) {
      SameFailed(s, m, e);
    }
    SameTracked(s, s0);
    var m, top := s0.(canInsert := false), Top(s0);
    TakenFrom(s, s0, client, c, top);
    TakenFrom(s, s0, client, c, top.(flags := UNSIGNED));
    TakenFrom(s, s0, client, c, top.(nelem := 1));
  }

  lemma TakenFrom(s: Lex, s0: Lex, client: Client, c: byte, top: Slot)
    requires Ready(s0) && Top(s0).kind == Special && top.kind == Special && top.posBegin == Top(s0).posBegin
    requires s0.trace == s.trace && s0.pos == s.pos
    ensures Taken(s, SpecialEnd(s0.(canInsert := false), client, c, top))
  {
    hide OpenAt, Fitting, Tracked, SpecialEnd;
    SpecialEndTaken(s0, s0.(canInsert := false), client, c, top);
  }

  lemma NumericTaken(s: Lex, s0: Lex, client: Client, c: byte)
    requires Ready(s) && Top(s).kind == Special && s0 == s.(stack := s0.stack) && |s0.stack| == |s.stack|
    requires s0.stack[..s.level] == s.stack[..s.level] && s0.stack[s.level].kind == Special && s0.stack[s.level].posBegin == Top(s).posBegin
    ensures Taken(s, Numeric(s0, client, c))
  {
    hide Taken, Tracked, SpecialPop, IsSpecialEnd;
    forall m: Lex, e | m.trace == s.trace ensures Taken(s, Fail(m, e)) {
      SameFailed(s, m, e);
    }
    SpecialPopTaken(s, s0, client, c);
    var top := Top(s0);
    SameTaken(s, s0.(tokLast := ONE));
    SameTaken(s, s0.(tokLast := MINUS));
    SameTaken(s, SetTop(s0, top.(flags := top.flags.(float := true))).(tokLast := POINT));
    SameTaken(s, SetTop(s0, top.(flags := top.flags.(exponent := true))).(tokLast := LOWER_E));
  }

  lemma WordTaken(s: Lex, client: Client, c: byte)
    requires Ready(s) && Top(s).kind == Special
    ensures Taken(s, Word(s, client, c))
  {
    hide Taken, Tracked, SpecialPop, IsSpecialEnd, Lower;
    if IsSpecialEnd(c) {
      SpecialPopTaken(s, s, client, c);
    } else {
      var s1 := SetTop(s, Top(s).(nescapes := (Top(s).nescapes + 1) % TWO_32));
      var f := Top(s).flags;
      var g := if c != LOWER_U then f.(isNull := false) else f;
      var slot := Top(s1).(flags := if Lower(c) != LOWER_A then g.(nan := false) else g);
      WordCases(s, client, c, s1, slot);
      SameTaken(s, s1);
      SameTaken(s, SetTop(s1, slot));
      SameFailed(s, s1, SpecialExpected);
      SameFailed(s, s1, PastLiteral);
      hide Word;
    }
  }

  lemma SpecialByteTaken(s: Lex, client: Client, c: byte)
    requires Ready(s) && Top(s).kind == Special
    ensures Taken(s, SpecialByte(s, client, c))
  {
    hide Taken, Tracked, Numeric, Word;
    forall m: Lex, e | m.trace == s.trace ensures Taken(s, Fail(m, e)) {
      SameFailed(s, m, e);
    }
    var top := Top(s);
    NumericTaken(s, s, client, c);
    NumericTaken(s, SetTop(s, top.(flags := UNSIGNED)), client, c);
    WordTaken(s, client, c);
    SameTaken(s, SetTop(s, top.(flags := NEG_INF)));
    if IsDigit(c) {
      SameTaken(s, SetTop(s, Digit(top, c)));
      SameTaken(s, SetTop(s, top.(flags := SIGNED_ZERO)));
      SameTaken(s, SetTop(s, top.(flags := SIGNED, nelem := c - ZERO)));
    }
  }

  lemma UescapeTaken(s: Lex, client: Client)
    requires Ready(s)
    ensures Taken(s, Next(Callback(s.(inEscape := false), client, UESCAPE, s.level)))
  {
    hide OpenAt;
    var m, e := Callback(s.(inEscape := false), client, UESCAPE, s.level), Event(UESCAPE, Top(s), s.level);
    OpenAfter(s.trace, e);
    FollowsOne(s, m, e);
    NextTaken(s, m);
  }

  lemma StringByteTaken(s: Lex, client: Client, c: byte)
    requires Ready(s)
    ensures Taken(s, StringByte(s, client, c))
  {
    hide Taken, Tracked, Quote, Escape, IsSimple, IsAllowedEscape;
    forall m: Lex, e | m.trace == s.trace ensures Taken(s, Fail(m, e)) {
      SameFailed(s, m, e);
    }
    SameTaken(s, s);
    SameTaken(s, s.(inEscape := false));
    UescapeTaken(s, client);
    QuoteTaken(s, client);
    EscapeTaken(s);
  }

  /** One byte, in any branch. */
  lemma StepTaken(s: Lex, client: Client, c: byte)
    requires Ready(s)
    ensures Taken(s, Step(s, client, c))
  {
    hide Taken, Tracked, StringByte, SpecialByte, SpecialBegin, Quote, Escape, Structural, IsWhitespace, ExtractSpecial;
    var kind := Top(s).kind;
    StringByteTaken(s, client, c);
    if kind == Special {
      SpecialByteTaken(s, client, c);
    } else if !IsStringy(kind) {
      SameTaken(s, s);
      SpecialBeginTaken(s, client, c);
      QuoteTaken(s, client);
      EscapeTaken(s);
      StructuralTaken(s, client, c);
    }
  }

  /** A run over one buffer: its calls are made at positions inside that buffer. */
  lemma {:induction false} RunPlaced(s: Lex, client: Client, input: seq<byte>)
    requires s.status.Running? && Based(s) && Settled(s)
    ensures var r := Run(s, client, input);
            && s.trace <= r.trace && Placed(r.trace, |s.trace|, s.pos, s.pos + |input|) && Settled(r)
            && (r.status.Running? ==> r.pos == s.pos + |input|)
  {
    hide Step, OpenAt, Fitting, Tracked;
    if input != [] {
      var init := input[..|input| - 1];
      RunPlaced(s, client, init);
      var m, r := Run(s, client, init), Run(s, client, input);
      if m.status.Running? {
        StepTaken(m, client, input[|input| - 1]);
      }
      forall k | |s.trace| <= k < |r.trace| ensures Within(r.trace[..k], r.trace[k], s.pos, s.pos + |input|) {
        if k < |m.trace| {
          assert r.trace[..k] == m.trace[..k] && r.trace[k] == m.trace[k];
          assert Within(m.trace[..k], m.trace[k], s.pos, s.pos + |init|);
        } else {
          FitsWithin(r.trace[..k], r.trace[k], m.pos);
        }
      }
    }
  }

  lemma FitsWithin(before: seq<Event>, e: Event, pos: nat)
    requires Fitting(before, e, pos)
    ensures Within(before, e, pos, pos + 1)
  {}
}
