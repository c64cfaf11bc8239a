/** JSON texts as the canonical writer spaces them, and what the lexer's calls on a text mean to the reader. */
module JsonSyntax {
  import opened Bytes
  import opened LexerStep
  import opened JsonString
  import Machine = JsonMachine

  datatype Constant = TrueWord | FalseWord | NullWord

  /** `spaced` tells whether the writer puts a space before the closing brace, or before the colon. */
  datatype Json =
    | Text(text: seq<byte>)
    | Number(n: uint32)
    | Const(word: Constant)
    | Map(members: seq<Member>, spaced: bool)
    | Array(items: seq<Json>)

  datatype Member = Member(key: seq<byte>, spaced: bool, value: Json)

  const SPACE: byte := 0x20

  ghost function Quoted(text: seq<byte>): seq<byte>
    requires IsStrict(text)
  {
    [QUOTE] + EscapedText(text) + [QUOTE]
  }

  function Spelling(w: Constant): seq<byte> {
    match w
    case TrueWord => TRUE_TEXT
    case FalseWord => FALSE_TEXT
    case NullWord => NULL_TEXT
  }

  /** Every text can be escaped. */
  ghost predicate WellFormed(j: Json)
    decreases j
  {
    match j
    case Text(text) => IsStrict(text)
    case Map(members, spaced) =>
      forall m | m in members :: IsStrict(m.key) && WellFormed(m.value)
    case Array(items) => forall i | i in items :: WellFormed(i)
    case _ => true
  }

  ghost function Render(j: Json): seq<byte>
    requires WellFormed(j)
    decreases j, 1
  {
    match j
    case Text(text) => Quoted(text)
    case Number(n) => Machine.Decimal(n)
    case Const(w) => Spelling(w)
    case Map(members, spaced) =>
      [OPEN_OBJECT, SPACE] + RenderMembers(members) + (if spaced then [SPACE] else []) + [CLOSE_OBJECT]
    case Array(items) => [OPEN_LIST, SPACE] + RenderItems(items) + [SPACE, CLOSE_LIST]
  }

  ghost function RenderKey(m: Member): seq<byte>
    requires IsStrict(m.key)
  {
    Quoted(m.key) + (if m.spaced then [SPACE] else []) + [COLON, SPACE]
  }

  ghost function RenderMembers(ms: seq<Member>): seq<byte>
    requires forall m | m in ms :: IsStrict(m.key) && WellFormed(m.value)
    decreases ms, 0
  {
    if ms == [] then []
    else RenderKey(ms[0]) + Render(ms[0].value) + (if |ms| == 1 then [] else [COMMA, SPACE] + RenderMembers(ms[1..]))
  }

  ghost function RenderItems(js: seq<Json>): seq<byte>
    requires forall j | j in js :: WellFormed(j)
    decreases js, 0
  {
    if js == [] then [] else Render(js[0]) + (if |js| == 1 then [] else [COMMA, SPACE] + RenderItems(js[1..]))
  }

  /** The calls a reader gets for a text, in order. */
  function Events(j: Json): seq<Machine.Event>
    decreases j, 1
  {
    match j
    case Text(text) => [Machine.StringRead(text)]
    case Number(n) => [Machine.IntegerRead(n, false)]
    case Const(w) => [if w == NullWord then Machine.NullRead else Machine.BooleanRead(w == TrueWord)]
    case Map(members, _) => [Machine.StartMap] + MemberEvents(members) + [Machine.EndMap]
    case Array(items) => [Machine.StartArray] + ItemEvents(items) + [Machine.EndArray]
  }

  function MemberEvents(ms: seq<Member>): seq<Machine.Event>
    decreases ms, 0
  {
    if ms == [] then [] else [Machine.MapKey(ms[0].key)] + Events(ms[0].value) + MemberEvents(ms[1..])
  }

  function ItemEvents(js: seq<Json>): seq<Machine.Event>
    decreases js, 0
  {
    if js == [] then [] else Events(js[0]) + ItemEvents(js[1..])
  }

  /** How many levels of the lexer's stack a text needs above the one it stands in. */
  function Height(j: Json): nat
    decreases j, 1
  {
    match j
    case Map(members, _) => 1 + MembersHeight(members)
    case Array(items) => 1 + ItemsHeight(items)
    case _ => 1
  }

  function Max(a: nat, b: nat): nat { if a > b then a else b }

  function MembersHeight(ms: seq<Member>): nat
    decreases ms, 0
  {
    if ms == [] then 0 else Max(Height(ms[0].value), MembersHeight(ms[1..]))
  }

  function ItemsHeight(js: seq<Json>): nat
    decreases js, 0
  {
    if js == [] then 0 else Max(Height(js[0]), ItemsHeight(js[1..]))
  }

  /** The bytes of a token inside its quotes. */
  function Between(input: seq<byte>, slot: Slot): seq<byte> {
    if slot.posBegin < slot.posCur <= |input| then input[slot.posBegin + 1..slot.posCur] else []
  }

  /** `_push_callback` and `_pop_callback`: which callback of the reader a call of the lexer becomes, and with what. */
  function Call(input: seq<byte>, e: Event): seq<Machine.Event> {
    match e.action
    case UESCAPE => []
    case PUSH => if e.slot.kind == Object then [Machine.StartMap] else if e.slot.kind == List then [Machine.StartArray] else []
    case POP =>
      match e.slot.kind
      case HKey =>
        (match UnescapeFrom(Between(input, e.slot), 0)
         case Ok(text) => [Machine.MapKey(text)]
         case Err(_) => [Machine.BadText])
      case String =>
        (match UnescapeFrom(Between(input, e.slot), 0)
         case Ok(text) => [Machine.StringRead(text)]
         case Err(_) => [Machine.BadText])
      case Object => [Machine.EndMap]
      case List => [Machine.EndArray]
      case Special =>
        var f := e.slot.flags;
        if f.float || f.exponent || f.nan || f.inf then [Machine.DoubleRead]
        else if f.signed || f.unsigned then [Machine.IntegerRead(e.slot.nelem, f.signed)]
        else if f.isTrue || f.isFalse then [Machine.BooleanRead(e.slot.posBegin < |input| && input[e.slot.posBegin] == 0x74)]
        else if f.isNull then [Machine.NullRead]
        else []
      case Root => []
  }

  function Calls(input: seq<byte>, trace: seq<Event>): seq<Machine.Event> {
    if trace == [] then [] else Calls(input, trace[..|trace| - 1]) + Call(input, trace[|trace| - 1])
  }

  lemma {:induction false} CallsConcat(input: seq<byte>, a: seq<Event>, b: seq<Event>)
    ensures Calls(input, a + b) == Calls(input, a) + Calls(input, b)
  {
    hide Call;
    if b == [] {
      assert a + b == a;
    } else {
      assert (a + b)[..|a + b| - 1] == a + b[..|b| - 1];
      CallsConcat(input, a, b[..|b| - 1]);
    }
  }
}
