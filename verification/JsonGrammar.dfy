/** JSON texts as RFC 8259 has them: any spacing, any spelling of a string, any number; and the calls each stands for. */
module JsonGrammar {
  import opened Bytes
  import Dec = DecimalDigits
  import Escapes = JsonEscapes
  import Machine = JsonMachine
  import Syntax = JsonSyntax

  datatype Sign = NoSign | PlusSign | MinusSign

  datatype Exponent = NoExponent | Exponent(upper: bool, sign: Sign, digits: seq<Dec.digit>)

  /** `lead` is the space behind the opening brace or bracket. */
  datatype Node =
    | Text(units: seq<Escapes.Unit>)
    | Integer(negative: bool, whole: seq<Dec.digit>)
    | Fraction(negative: bool, whole: seq<Dec.digit>, places: seq<Dec.digit>, exponent: Exponent)
    | Const(word: Syntax.Constant)
    | Map(lead: seq<byte>, members: seq<Member>)
    | List(lead: seq<byte>, items: seq<Item>)

  /** `after` is the space behind the value, and `next` the space behind the comma if one follows. */
  datatype Member =
    Member(key: seq<Escapes.Unit>, beforeColon: seq<byte>, afterColon: seq<byte>, value: Node, after: seq<byte>, next: seq<byte>)

  datatype Item = Item(value: Node, after: seq<byte>, next: seq<byte>)

  /** Section 2 of RFC 8259. */
  predicate IsSpace(text: seq<byte>) { forall i | 0 <= i < |text| :: text[i] in {0x20, 0x09, 0x0a, 0x0d} }

  /** A byte that may stand in a string; the source also lets those from 0x14 on pass, which section 7 forbids. */
  predicate IsLiteral(s: Escapes.Simple) { s.Byte? ==> 0x14 <= s.b && s.b != 0x22 }

  predicate AllLiteral(ss: seq<Escapes.Simple>) { forall i | 0 <= i < |ss| :: IsLiteral(ss[i]) }

  predicate ValidUnit(u: Escapes.Unit) {
    && Escapes.ValidUnit(u)
    && match u
       case Alone(s) => IsLiteral(s)
       case Code(_, _) => true
       case Surrogates(_, _, between, _, _) => AllLiteral(between)
  }

  predicate ValidText(units: seq<Escapes.Unit>) { Escapes.AllValid(units) && forall i | 0 <= i < |units| :: ValidUnit(units[i]) }

  /** Section 6: no leading zero, and a digit at least wherever there is a mark. */
  predicate ValidWhole(ds: seq<Dec.digit>) { ds != [] && (ds[0] == 0 ==> |ds| == 1) }

  predicate ValidExponent(e: Exponent) { e.Exponent? ==> e.digits != [] }

  predicate Valid(n: Node)
    decreases n
  {
    match n
    case Text(units) => ValidText(units)
    case Integer(_, whole) => ValidWhole(whole)
    case Fraction(_, whole, places, exponent) =>
      ValidWhole(whole) && ValidExponent(exponent) && (places != [] || exponent.Exponent?)
    case Const(_) => true
    case Map(lead, members) => IsSpace(lead) && forall m | m in members :: ValidMember(m)
    case List(lead, items) => IsSpace(lead) && forall i | i in items :: ValidItem(i)
  }

  predicate ValidMember(m: Member)
    decreases m
  {
    ValidText(m.key) && IsSpace(m.beforeColon) && IsSpace(m.afterColon) && Valid(m.value) && IsSpace(m.after) && IsSpace(m.next)
  }

  predicate ValidItem(i: Item)
    decreases i
  {
    Valid(i.value) && IsSpace(i.after) && IsSpace(i.next)
  }

  function Quoted(units: seq<Escapes.Unit>): seq<byte> { [0x22] + Escapes.Text(units) + [0x22] }

  function Digits(ds: seq<Dec.digit>): seq<byte> { Machine.DigitBytes(ds) }

  function SignBytes(s: Sign): seq<byte> {
    match s
    case NoSign => []
    case PlusSign => [0x2b]
    case MinusSign => [0x2d]
  }

  function WholeBytes(negative: bool, whole: seq<Dec.digit>): seq<byte> { (if negative then [0x2d] else []) + Digits(whole) }

  function PlacesBytes(places: seq<Dec.digit>): seq<byte> { if places == [] then [] else [0x2e] + Digits(places) }

  function ExponentBytes(e: Exponent): seq<byte> {
    if e.NoExponent? then [] else [if e.upper then 0x45 else 0x65] + SignBytes(e.sign) + Digits(e.digits)
  }

  function Render(n: Node): seq<byte>
    decreases n, 1
  {
    match n
    case Text(units) => Quoted(units)
    case Integer(negative, whole) => WholeBytes(negative, whole)
    case Fraction(negative, whole, places, exponent) => WholeBytes(negative, whole) + PlacesBytes(places) + ExponentBytes(exponent)
    case Const(word) => Syntax.Spelling(word)
    case Map(lead, members) => [0x7b] + lead + RenderMembers(members) + [0x7d]
    case List(lead, items) => [0x5b] + lead + RenderItems(items) + [0x5d]
  }

  function RenderKey(m: Member): seq<byte> { Quoted(m.key) + m.beforeColon + [0x3a] + m.afterColon }

  function RenderMembers(ms: seq<Member>): seq<byte>
    decreases ms, 0
  {
    if ms == [] then []
    else
      RenderKey(ms[0]) + Render(ms[0].value) + ms[0].after
      + (if |ms| == 1 then [] else [0x2c] + ms[0].next + RenderMembers(ms[1..]))
  }

  function RenderItems(items: seq<Item>): seq<byte>
    decreases items, 0
  {
    if items == [] then []
    else
      Render(items[0].value) + items[0].after
      + (if |items| == 1 then [] else [0x2c] + items[0].next + RenderItems(items[1..]))
  }

  /** Of an integer the lexer keeps 64 bits, and of a zero no sign. */
  function IntegerEvent(negative: bool, whole: seq<Dec.digit>): Machine.Event {
    Machine.IntegerRead(Dec.Value(whole) % TWO_64, negative && whole != [0])
  }

  function ConstEvent(w: Syntax.Constant): Machine.Event {
    match w
    case TrueWord => Machine.BooleanRead(true)
    case FalseWord => Machine.BooleanRead(false)
    case NullWord => Machine.NullRead
  }

  /** The calls the reader gets, in order. */
  function Events(n: Node): seq<Machine.Event>
    requires Valid(n)
    decreases n, 1
  {
    match n
    case Text(units) => [Machine.StringRead(Escapes.Meaning(units))]
    case Integer(negative, whole) => [IntegerEvent(negative, whole)]
    case Fraction(_, _, _, _) => [Machine.DoubleRead]
    case Const(word) => [ConstEvent(word)]
    case Map(_, members) => [Machine.StartMap] + MemberEvents(members) + [Machine.EndMap]
    case List(_, items) => [Machine.StartArray] + ItemEvents(items) + [Machine.EndArray]
  }

  function MemberEvents(ms: seq<Member>): seq<Machine.Event>
    requires forall m | m in ms :: ValidMember(m)
    decreases ms, 0
  {
    if ms == [] then []
    else
      assert ValidMember(ms[0]);
      [Machine.MapKey(Escapes.Meaning(ms[0].key))] + Events(ms[0].value) + MemberEvents(ms[1..])
  }

  function ItemEvents(items: seq<Item>): seq<Machine.Event>
    requires forall i | i in items :: ValidItem(i)
    decreases items, 0
  {
    if items == [] then []
    else
      assert ValidItem(items[0]);
      Events(items[0].value) + ItemEvents(items[1..])
  }

  /** How many levels of the lexer's stack a text needs above the one it stands in. */
  function Height(n: Node): (h: nat)
    ensures h >= 1
    decreases n, 1
  {
    match n
    case Map(_, members) => 1 + MembersHeight(members)
    case List(_, items) => 1 + ItemsHeight(items)
    case _ => 1
  }

  function Max(a: nat, b: nat): nat { if a > b then a else b }

  function MembersHeight(ms: seq<Member>): nat
    decreases ms, 0
  {
    if ms == [] then 0 else Max(Height(ms[0].value), MembersHeight(ms[1..]))
  }

  function ItemsHeight(items: seq<Item>): nat
    decreases items, 0
  {
    if items == [] then 0 else Max(Height(items[0].value), ItemsHeight(items[1..]))
  }
}
