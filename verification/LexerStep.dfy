/** `jsonsl_feed` on one byte: the lexer's tables, its registers and stack, and every labelled branch. */
module LexerStep {
  import opened Bytes

  const QUOTE: byte := 0x22
  const PLUS: byte := 0x2b
  const COMMA: byte := 0x2c
  const MINUS: byte := 0x2d
  const POINT: byte := 0x2e
  const ZERO: byte := 0x30
  const ONE: byte := 0x31
  const COLON: byte := 0x3a
  const UPPER_E: byte := 0x45
  const UPPER_I: byte := 0x49
  const OPEN_LIST: byte := 0x5b
  const BACKSLASH: byte := 0x5c
  const CLOSE_LIST: byte := 0x5d
  const LOWER_A: byte := 0x61
  const LOWER_E: byte := 0x65
  const LOWER_I: byte := 0x69
  const LOWER_U: byte := 0x75
  const OPEN_OBJECT: byte := 0x7b
  const CLOSE_OBJECT: byte := 0x7d

  /** The bits of `special_flags`; the private "zero" bit always comes with `unsigned`. */
  datatype Flags = Flags(signed: bool, unsigned: bool, isTrue: bool, isFalse: bool, isNull: bool, float: bool,
                         exponent: bool, nan: bool, inf: bool, zero: bool, dash: bool)

  const NO_FLAGS: Flags := Flags(false, false, false, false, false, false, false, false, false, false, false)
  const SIGNED: Flags := NO_FLAGS.(signed := true)
  const UNSIGNED: Flags := NO_FLAGS.(unsigned := true)
  const TRUE: Flags := NO_FLAGS.(isTrue := true)
  const FALSE: Flags := NO_FLAGS.(isFalse := true)
  const NULL: Flags := NO_FLAGS.(isNull := true)
  const NAN: Flags := NO_FLAGS.(nan := true)
  const NULL_OR_NAN: Flags := NO_FLAGS.(isNull := true, nan := true)
  const INF: Flags := NO_FLAGS.(inf := true)
  const NEG_INF: Flags := NO_FLAGS.(inf := true, signed := true)
  const ZERO_FLAG: Flags := NO_FLAGS.(zero := true, unsigned := true)
  const SIGNED_ZERO: Flags := NO_FLAGS.(zero := true, unsigned := true, signed := true)
  const DASH: Flags := NO_FLAGS.(dash := true)

  datatype Kind = Root | String | HKey | Object | List | Special

  datatype Action = PUSH | POP | UESCAPE

  /** `PastLiteral` is none of the source's: a NUL in a word has led it to read on behind the literal it compares with. */
  datatype Error =
    | EscapeInvalid | WeirdWhitespace | InvalidNumber | SpecialExpected | SpecialIncomplete | MissingToken
    | StrayToken | StringOutsideContainer | EscapeOutsideString | CantInsert | HKeyExpected | LevelsExceeded
    | TrailingComma | BracketMismatch | ValueExpected | FoundNullByte | PastLiteral

  /** `struct jsonsl_state_st`; slots above the current level keep what they last held. */
  datatype Slot = Slot(kind: Kind, flags: Flags, posBegin: nat, posCur: nat, nelem: uint64, nescapes: uint32)

  /** One call of a callback and what the callee can see of the slot. */
  datatype Event = Event(action: Action, slot: Slot, level: nat)

  datatype Status = Running | Stopped | Failed(error: Error)

  /** `struct jsonsl_st`, the calls it has made so far, and whether it has returned early. */
  datatype Lex = Lex(stack: seq<Slot>, level: nat, pos: nat, expecting: byte, tokLast: byte, canInsert: bool, inEscape: bool,
                     trace: seq<Event>, status: Status)

  /** Whether the callee asks the lexer to stop, from all the calls it has seen. */
  type Client = seq<Event> -> bool

  predicate IsDigit(c: byte) { ZERO <= c <= 0x39 }

  function Lower(c: byte): byte { if 0x41 <= c <= 0x5a then c + 32 else c }

  /** `Special_Table`, with NaN and infinity enabled. */
  function ExtractSpecial(c: byte): Flags {
    if c == MINUS then DASH
    else if c == ZERO then ZERO_FLAG
    else if IsDigit(c) then UNSIGNED
    else if c == UPPER_I || c == LOWER_I then INF
    else if c == 0x4e then NAN
    else if c == 0x66 then FALSE
    else if c == 0x6e then NULL_OR_NAN
    else if c == 0x74 then TRUE
    else NO_FLAGS
  }

  predicate IsWhitespace(c: byte) { c == 0x20 || c == 0x09 || c == 0x0a || c == 0x0d }

  predicate IsSpecialEnd(c: byte) {
    IsWhitespace(c) || c in [QUOTE, COMMA, COLON, OPEN_LIST, BACKSLASH, CLOSE_LIST, OPEN_OBJECT, CLOSE_OBJECT]
  }

  predicate IsAllowedEscape(c: byte) { c in [QUOTE, 0x2f, BACKSLASH, 0x62, 0x66, 0x6e, 0x72, 0x74, LOWER_U] }

  /** The control characters from 0x14 to 0x1f count as simple. */
  predicate IsSimple(c: byte) { c >= 0x14 && c != QUOTE && c != BACKSLASH }

  const TRUE_TEXT: seq<byte> := [0x74, 0x72, 0x75, 0x65]
  const FALSE_TEXT: seq<byte> := [0x66, 0x61, 0x6c, 0x73, 0x65]
  const NULL_TEXT: seq<byte> := [0x6e, 0x75, 0x6c, 0x6c]
  const NAN_TEXT: seq<byte> := [0x6e, 0x61, 0x6e]
  const INFINITY_TEXT: seq<byte> := [0x69, 0x6e, 0x66, 0x69, 0x6e, 0x69, 0x74, 0x79]
  const NEG_INFINITY_TEXT: seq<byte> := [MINUS] + INFINITY_TEXT

  /** A literal and its NUL. */
  function LitAt(lit: seq<byte>, i: int): byte {
    if 0 <= i < |lit| then lit[i] else 0
  }

  function Top(s: Lex): Slot
    requires s.level < |s.stack|
  {
    s.stack[s.level]
  }

  function SetTop(s: Lex, slot: Slot): Lex
    requires s.level < |s.stack|
  {
    s.(stack := s.stack[s.level := slot])
  }

  function Fail(s: Lex, e: Error): Lex { s.(status := Failed(e)) }

  function Next(s: Lex): Lex { if s.status.Running? then s.(pos := s.pos + 1) else s }

  function Increment(n: uint64): uint64 { (n + 1) % TWO_64 }

  function Counted(slot: Slot): Slot { slot.(nelem := Increment(slot.nelem)) }

  /** `DO_CALLBACK` for a slot. */
  function Callback(s: Lex, client: Client, action: Action, at: nat): Lex
    requires at < |s.stack|
  {
    var trace := s.trace + [Event(action, s.stack[at], at)];
    s.(trace := trace, status := if client(trace) then Stopped else s.status)
  }

  /** The slot a push will use, as its last use left it. */
  function Above(s: Lex): Slot {
    if s.level + 1 < |s.stack| then s.stack[s.level + 1].(posBegin := s.pos) else Slot(Root, NO_FLAGS, 0, 0, 0, 0)
  }

  /** `STACK_PUSH` and the push callback; `slot` is what was made of the slot above in between. */
  function Push(s: Lex, client: Client, slot: Slot): Lex
    requires s.level < |s.stack|
  {
    if s.level >= |s.stack| - 1 then Fail(s, LevelsExceeded)
    else
      var s1 := s.(level := s.level + 1, stack := s.stack[s.level + 1 := slot]);
      Callback(s1, client, PUSH, s1.level)
  }

  /** `CALLBACK_AND_POP`. */
  function PopLeaf(s: Lex, client: Client): Lex
    requires s.level < |s.stack|
  {
    var s1 := Callback(SetTop(s, Top(s).(posCur := s.pos)), client, POP, s.level);
    if s1.status.Running? && s1.level > 0 then
      var s2 := SetTop(s1, Top(s1).(nescapes := 0)).(level := s1.level - 1);
      SetTop(s2, Top(s2).(posCur := s2.pos))
    else s1
  }

  function Quote(s0: Lex, client: Client): Lex
    requires s0.level < |s0.stack|
  {
    var s := s0.(canInsert := false);
    var top := Top(s);
    match top.kind
    case String => Next(PopLeaf(s, client))
    case HKey => Next(PopLeaf(s, client))
    case Object =>
      var counted := SetTop(s, Counted(top));
      if top.nelem % 2 == 1 then
        if s.tokLast != COLON then Fail(counted, MissingToken)
        else Next(Push(counted.(expecting := COMMA, tokLast := 0), client, Above(s).(kind := String)))
      else if s.expecting != QUOTE then Fail(counted, StrayToken)
      else Next(Push(counted.(tokLast := 0, expecting := COLON), client, Above(s).(kind := HKey)))
    case List =>
      var pushed := Push(SetTop(s, Counted(top)), client, Above(s).(kind := String));
      if pushed.status.Failed? then pushed else Next(pushed.(expecting := COMMA, tokLast := 0))
    case Special => Fail(s, StrayToken)
    case Root => Fail(s, StringOutsideContainer)
  }

  predicate IsStringy(k: Kind) { k == String || k == HKey }

  function Escape(s: Lex): Lex
    requires s.level < |s.stack|
  {
    if !IsStringy(Top(s).kind) then Fail(s, EscapeOutsideString)
    else Next(SetTop(s, Top(s).(nescapes := (Top(s).nescapes + 1) % TWO_32)).(inEscape := true))
  }

  predicate NeedsKey(slot: Slot) { slot.nelem % 2 == 0 && slot.kind == Object }

  function SpecialBegin(s: Lex, client: Client, c: byte): Lex
    requires s.level < |s.stack|
  {
    var top, flags := Top(s), ExtractSpecial(c);
    if top.kind == Special then Next(s)
    else if flags == NO_FLAGS then
      Fail(s, if c == 0 then FoundNullByte else if c < 0x20 then WeirdWhitespace else SpecialExpected)
    else if NeedsKey(top) then Fail(s, HKeyExpected)
    else
      var counted := SetTop(s, Counted(top));
      if !s.canInsert then Fail(counted, CantInsert)
      else
        var plain := flags == UNSIGNED;
        var number: uint64 := if plain && IsDigit(c) then c - ZERO else 0;
        var pushed := Push(counted, client,
                           Above(s).(kind := Special, flags := flags, nescapes := 1, nelem := number));
        if pushed.status.Failed? then pushed else Next(pushed.(tokLast := if plain then ONE else MINUS))
  }

  /** `{` and `[`. */
  function Opening(s: Lex, client: Client, c: byte): Lex
    requires s.level < |s.stack|
  {
    var top := Top(s);
    if !s.canInsert then Fail(s, CantInsert)
    else if NeedsKey(top) then Fail(s, HKeyExpected)
    else
      var kind := if c == OPEN_OBJECT then Object else List;
      var pushed := Push(SetTop(s, Counted(top)), client, Above(s).(kind := kind, nelem := 0));
      if pushed.status.Failed? then pushed
      else
        var s2 := pushed.(canInsert := true, expecting := if c == OPEN_OBJECT then QUOTE else s.expecting);
        if s2.status.Running? then Next(s2.(tokLast := 0)) else s2
  }

  /** `}` and `]`. */
  function Closing(s: Lex, client: Client, c: byte): Lex
    requires s.level < |s.stack|
  {
    var top := Top(s);
    if s.tokLast == COMMA then Fail(s, TrailingComma)
    else
      var s1 := s.(canInsert := false, level := if s.level > 0 then s.level - 1 else TWO_32 - 1, expecting := COMMA, tokLast := 0);
      if top.kind != (if c == CLOSE_LIST then List else Object) then Fail(s1, BracketMismatch)
      else if top.kind == Object && top.nelem % 2 != 0 then Fail(s1, ValueExpected)
      else
        var s2 := Callback(s1, client, POP, s.level);
        if s2.status.Running? && s2.level < |s2.stack| then Next(SetTop(s2, Top(s2).(posCur := s2.pos))) else s2
  }

  function Structural(s: Lex, client: Client, c: byte): Lex
    requires s.level < |s.stack|
  {
    var top := Top(s);
    if c == COLON then
      if s.expecting != c then Fail(s, StrayToken)
      else Next(s.(tokLast := COLON, canInsert := true, expecting := QUOTE))
    else if c == COMMA then
      if s.expecting != c then Fail(s, StrayToken)
      else Next(s.(canInsert := s.canInsert || top.kind != Object, tokLast := COMMA, expecting := QUOTE))
    else if c == OPEN_OBJECT || c == OPEN_LIST then Opening(s, client, c)
    else if c == CLOSE_OBJECT || c == CLOSE_LIST then Closing(s, client, c)
    else SpecialBegin(s, client, c)
  }

  /** `GT_SPECIAL_POP`. */
  function SpecialPop(s0: Lex, client: Client, c: byte): Lex
    requires s0.level < |s0.stack|
  {
    var s := s0.(canInsert := false);
    var top := Top(s);
    var f, length := top.flags, top.nescapes;
    if f == SIGNED || f == UNSIGNED then SpecialEnd(s, client, c, top)
    else if f == ZERO_FLAG || f == SIGNED_ZERO then SpecialEnd(s, client, c, top.(flags := UNSIGNED))
    else if f == DASH then Fail(s, InvalidNumber)
    else if f.inf then if length != 8 then Fail(s, SpecialIncomplete) else SpecialEnd(s, client, c, top.(nelem := 1))
    else if (f.signed || f.unsigned) then if s.tokLast != ONE then Fail(s, InvalidNumber) else SpecialEnd(s, client, c, top)
    else if f == TRUE then if length != 4 then Fail(s, SpecialIncomplete) else SpecialEnd(s, client, c, top.(nelem := 1))
    else if (f == FALSE && length != 5) || (f == NULL && length != 4) then Fail(s, SpecialIncomplete)
    else SpecialEnd(s, client, c, top)
  }

  /** `SPECIAL_POP`, after which the byte that ended the literal is looked at again. */
  function SpecialEnd(s: Lex, client: Client, c: byte, top: Slot): Lex
    requires s.level < |s.stack|
  {
    var s1 := PopLeaf(SetTop(s, top), client);
    if !s1.status.Running? then s1
    else
      var s2 := s1.(tokLast := 0, expecting := COMMA);
      if IsWhitespace(c) then Next(s2) else Structural(s2, client, c)
  }

  /** `GT_SPECIAL_NUMERIC`. */
  function Numeric(s: Lex, client: Client, c: byte): Lex
    requires s.level < |s.stack|
  {
    var top := Top(s);
    if IsDigit(c) then Next(s.(tokLast := ONE))
    else if c == POINT then
      if top.flags.float then Fail(s, InvalidNumber)
      else Next(SetTop(s, top.(flags := top.flags.(float := true))).(tokLast := POINT))
    else if c == LOWER_E || c == UPPER_E then
      if top.flags.exponent then Fail(s, InvalidNumber)
      else Next(SetTop(s, top.(flags := top.flags.(exponent := true))).(tokLast := LOWER_E))
    else if c == MINUS || c == PLUS then
      if s.tokLast != LOWER_E then Fail(s, InvalidNumber) else Next(s.(tokLast := MINUS))
    else if IsSpecialEnd(c) then SpecialPop(s, client, c)
    else Fail(s, InvalidNumber)
  }

  predicate IsNormalNumber(slot: Slot) { slot.flags == SIGNED || slot.flags == UNSIGNED }

  function Digit(slot: Slot, c: byte): Slot
    requires IsDigit(c)
  {
    slot.(nelem := (slot.nelem * 10 + (c - ZERO)) % TWO_64)
  }

  /** A byte of a literal word. */
  function Word(s: Lex, client: Client, c: byte): Lex
    requires s.level < |s.stack|
  {
    var f := Top(s).flags;
    if IsSpecialEnd(c) then SpecialPop(s, client, c)
    else
      var top := Top(s).(nescapes := (Top(s).nescapes + 1) % TWO_32);
      var s1, at := SetTop(s, top), s.pos - top.posBegin;
      if f == TRUE then Verify(s1, c, TRUE_TEXT, at)
      else if f == FALSE then Verify(s1, c, FALSE_TEXT, at)
      else if f == NULL then Verify(s1, c, NULL_TEXT, at)
      else if f == INF then Verify(s1, Lower(c), INFINITY_TEXT, at)
      else if f == NEG_INF then Verify(s1, Lower(c), NEG_INFINITY_TEXT, at)
      else if f == NAN then Verify(s1, Lower(c), NAN_TEXT, at)
      else if f.isNull || f.nan then
        var g := if c != LOWER_U then f.(isNull := false) else f;
        Next(SetTop(s1, top.(flags := if Lower(c) != LOWER_A then g.(nan := false) else g)))
      else Next(s1)
  }

  function Verify(s: Lex, c: byte, lit: seq<byte>, at: int): Lex {
    if at > |lit| then Fail(s, PastLiteral) else if c != LitAt(lit, at) then Fail(s, SpecialExpected) else Next(s)
  }

  function SpecialByte(s: Lex, client: Client, c: byte): Lex
    requires s.level < |s.stack|
  {
    var top := Top(s);
    if IsNormalNumber(top) then if IsDigit(c) then Next(SetTop(s, Digit(top, c))) else Numeric(s, client, c)
    else if top.flags == DASH then
      if c == UPPER_I || c == LOWER_I then Next(SetTop(s, top.(flags := NEG_INF)))
      else if !IsDigit(c) then Fail(s, InvalidNumber)
      else if c == ZERO then Next(SetTop(s, top.(flags := SIGNED_ZERO)))
      else Next(SetTop(s, top.(flags := SIGNED, nelem := c - ZERO)))
    else if top.flags == ZERO_FLAG then
      if IsDigit(c) then Fail(s, InvalidNumber) else Numeric(SetTop(s, top.(flags := UNSIGNED)), client, c)
    else if (top.flags.signed || top.flags.unsigned) && !top.flags.inf then Numeric(s, client, c)
    else Word(s, client, c)
  }

  function StringByte(s: Lex, client: Client, c: byte): Lex
    requires s.level < |s.stack|
  {
    if s.inEscape then
      var s1 := s.(inEscape := false);
      if !IsAllowedEscape(c) then Fail(s1, EscapeInvalid)
      else if c == LOWER_U then Next(Callback(s1, client, UESCAPE, s1.level))
      else Next(s1)
    else if IsSimple(c) then Next(s)
    else if c == QUOTE then Quote(s, client)
    else if c == BACKSLASH then Escape(s)
    else Fail(s, WeirdWhitespace)
  }

  /** One byte. */
  function Step(s: Lex, client: Client, c: byte): Lex
    requires s.level < |s.stack|
  {
    var kind := Top(s).kind;
    if IsStringy(kind) then StringByte(s, client, c)
    else if kind == Special then SpecialByte(s, client, c)
    else if IsWhitespace(c) then Next(s)
    else if ExtractSpecial(c) != NO_FLAGS then SpecialBegin(s, client, c)
    else if c == QUOTE then Quote(s, client)
    else if c == BACKSLASH then Escape(s)
    else Structural(s, client, c)
  }
}
