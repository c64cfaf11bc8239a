/**
 What a JSON text means as Extended JSON: every value of every documented form, canonical, relaxed or legacy, read off
 the tree.  `JsonDenotation` proves that the reader's callbacks come to the same.
 */
module JsonMeaning {
  import opened Bytes
  import opened BsonTree
  import opened RegexOptions
  import Base64
  import Bits = DecimalBits
  import Dec = DecimalDigits
  import Escapes = JsonEscapes
  import Grammar = JsonGrammar
  import Range = DecimalRange
  import Syntax = JsonSyntax
  import Utf8
  import opened JsonMachine

  /** A JSON value, however it is spelled. */
  datatype Tree =
    | Str(text: seq<byte>)
    | Num(magnitude: uint64, negative: bool)
    | Dbl
    | Truth(b: bool)
    | Nil
    | Obj(members: seq<Member>)
    | Arr(items: seq<Tree>)

  datatype Member = Member(key: seq<byte>, value: Tree)

  /** `Refused` is an error; `Silent` is where the model stops. */
  datatype Meaning<+T> = Is(value: T) | Refused | Silent {
    predicate IsFailure() { !Is? }
    function PropagateFailure<U>(): Meaning<U>
      requires !Is?
    {
      if Refused? then Refused else Silent
    }
    function Extract(): T
      requires Is?
    {
      value
    }
  }

  ghost function ValidText(t: Tree): Meaning<seq<byte>> { if t.Str? && Utf8.Valid(t.text, true) then Is(t.text) else Refused }

  /** A bare number. */
  function Integer(t: Tree): Meaning<int64>
    requires t.Num?
  {
    if t.magnitude > (if t.negative then TWO_63 else TWO_63 - 1) then Refused
    else Is(if t.negative then -(t.magnitude as int) else t.magnitude)
  }

  /** The smallest of the two integer types that holds the number. */
  function Sized(z: int64): Value { if -0x8000_0000 <= z <= 0x7fff_ffff then Int32(z) else Int64(z) }

  /** A number written as a string. */
  ghost function Written(t: Tree): Meaning<int64> {
    var text :- ValidText(t);
    if ParseInt64(text).None? then Refused else Is(ParseInt64(text).value)
  }

  /** The value under the one key of a wrapper. */
  ghost function Scalar(k: Keyword, t: Tree): Meaning<Value> {
    match k
    case OID => var text :- ValidText(t); if |text| == 24 then Is(ObjectId(OidFromText(text))) else Refused
    case INT32 => var z :- Written(t); if -0x8000_0000 <= z <= 0x7fff_ffff then Is(Int32(z)) else Refused
    case INT64 => var z :- Written(t); Is(Int64(z))
    case DECIMAL128 =>
      var text :- ValidText(t);
      (match Range.Outcome(CharsOf(UpToNul(text)))
       case Accepted(d) => Is(Value.Decimal128(d.low, d.high))
       case Invalid => Is(Value.Decimal128(0, 0x7c00_0000_0000_0000))
       case Unspecified => Silent)
    case SYMBOL => var text :- ValidText(t); Is(Symbol(text))
    case UNDEFINED => if t.Truth? then Is(Undefined) else Refused
    case MINKEY => if t == Num(1, false) then Is(MinKey) else Refused
    case MAXKEY => if t == Num(1, false) then Is(MaxKey) else Refused
    case DATE => if t.Num? then var z :- Integer(t); Is(DateTime(z)) else var text :- ValidText(t); Silent
    case DOUBLE => var text :- ValidText(t); Silent
    case _ => Refused
  }

  /** The base64 text of a binary value, up to its first NUL. */
  ghost function Base64Bytes(t: Tree): Meaning<seq<byte>> {
    var whole :- ValidText(t);
    var text := UpToNul(whole);
    if !Base64.Ascii(text) then Silent
    else if Base64.Length(text) < 0 then Refused
    else Is(Base64.Decode(Base64.ScanDigits(text, []).digits).bytes)
  }

  /** Its subtype in hexadecimal. */
  ghost function Subtype(t: Tree): Meaning<byte> {
    var text :- ValidText(t);
    match ScanHex(UpToNul(text))
    case Scanned(n) => Is(n)
    case Unclear => Silent
    case NoHex => Refused
  }

  /** The operand of a query operator `$type` if it is none. */
  ghost function TypeAlone(t: Tree): Meaning<Value> {
    var text :- ValidText(t);
    match ScanHex(UpToNul(text))
    case Scanned(_) => Refused
    case Unclear => Silent
    case NoHex => Is(Document([Element(Literal(TYPE), Utf8(text))]))
  }

  /** One part of a timestamp, cut to 32 bits. */
  function TimePart(t: Tree): Meaning<uint32> {
    if !t.Num? then Refused else var z :- Integer(t); if t.negative then Refused else Is(z as int % TWO_32)
  }

  function RegexFrom(pattern: seq<byte>, options: seq<byte>): Value {
    Regex(UpToNul(pattern), SortedOptions(UpToNul(options), REGEX_OPTIONS))
  }

  predicate IsLeaf(t: Tree) { !t.Obj? }

  predicate Keyed(ms: seq<Member>, ks: seq<Keyword>) {
    |ms| == |ks| && forall i | 0 <= i < |ms| :: ms[i].key == Literal(ks[i]) && IsLeaf(ms[i].value)
  }

  ghost function RegexParts(pattern: Tree, options: Tree): Meaning<Value> {
    var p :- ValidText(pattern);
    var o :- ValidText(options);
    Is(RegexFrom(p, o))
  }

  /** Of two parts that are both unreadable the earlier one counts. */
  ghost function DataAndSubtype(data: Tree, subtype: Tree): Meaning<Value> {
    var b :- Base64Bytes(data);
    var n :- Subtype(subtype);
    Is(Binary(n, b))
  }

  ghost function SubtypeAndData(subtype: Tree, data: Tree): Meaning<Value> {
    var n :- Subtype(subtype);
    var b :- Base64Bytes(data);
    Is(Binary(n, b))
  }

  function TimeParts(t: Tree, i: Tree): Meaning<Value> {
    var seconds :- TimePart(t);
    var increment :- TimePart(i);
    Is(Timestamp(seconds, increment))
  }

  /** The wrappers of two members, in either order. */
  ghost function Paired(ms: seq<Member>): Meaning<Value>
    requires IsPaired(ms)
  {
    var a, b := ms[0].value, ms[1].value;
    if Keyed(ms, [REGEX, OPTIONS]) then RegexParts(a, b)
    else if Keyed(ms, [OPTIONS, REGEX]) then RegexParts(b, a)
    else if Keyed(ms, [BINARY, TYPE]) then DataAndSubtype(a, b)
    else SubtypeAndData(a, b)
  }

  ghost predicate IsPaired(ms: seq<Member>) {
    || Keyed(ms, [REGEX, OPTIONS]) || Keyed(ms, [OPTIONS, REGEX]) || Keyed(ms, [BINARY, TYPE])
    || (Keyed(ms, [TYPE, BINARY]) && (ValidText(ms[0].value).Is? ==> !ScanHex(UpToNul(ms[0].value.text)).NoHex?))
  }

  /** A wrapper that has not got all it needs is an error whatever it has. */
  function Lacking<S>(m: Meaning<S>): Meaning<Value> { if m.Silent? then Silent else Refused }

  /** The one member of a second map that wants two. */
  ghost function Half(k: Keyword, m: Member): Meaning<Value> {
    if k == BINARY then if m.key == Literal(BASE64) then Lacking(Base64Bytes(m.value)) else Lacking(Subtype(m.value))
    else Refused
  }

  /** The members of the second map of a wrapper, in either order; an empty date is the epoch. */
  ghost function Nested(k: Keyword, ms: seq<Member>): Meaning<Value>
    requires IsNested(k, ms)
  {
    if ms == [] then if k == DATE then Is(DateTime(0)) else Refused
    else if k == DATE then var z :- Written(ms[0].value); Is(DateTime(z))
    else if |ms| == 1 then Half(k, ms[0])
    else
      var a, b := ms[0].value, ms[1].value;
      if k == TIMESTAMP then if ms[0].key == Literal(T) then TimeParts(a, b) else TimeParts(b, a)
      else if k == REGULAR_EXPRESSION then if ms[0].key == Literal(PATTERN) then RegexParts(a, b) else RegexParts(b, a)
      else if ms[0].key == Literal(BASE64) then DataAndSubtype(a, b)
      else SubtypeAndData(a, b)
  }

  /** The keys a second map may have. */
  function PartsOf(k: Keyword): (Keyword, Keyword) {
    match k
    case TIMESTAMP => (T, I)
    case REGULAR_EXPRESSION => (PATTERN, PLAIN_OPTIONS)
    case _ => (BASE64, SUBTYPE)
  }

  predicate IsNested(k: Keyword, ms: seq<Member>) {
    if k == DATE then ms == [] || Keyed(ms, [INT64])
    else
      && (k == TIMESTAMP || k == REGULAR_EXPRESSION || k == BINARY)
      && var (x, y) := PartsOf(k);
         ms == [] || Keyed(ms, [x]) || Keyed(ms, [y]) || Keyed(ms, [x, y]) || Keyed(ms, [y, x])
  }

  /** The keys that make an object below the root a wrapper when they come first. */
  const WRAPPER_NAMES: seq<string> :=
    ["$regularExpression", "$regex", "$options", "$code", "$scope", "$oid", "$binary", "$type", "$date", "$undefined", "$maxKey",
     "$minKey", "$timestamp", "$numberInt", "$numberLong", "$numberDouble", "$numberDecimal", "$dbPointer", "$symbol"]

  predicate Opens(key: seq<byte>) { exists i :: 0 <= i < |WRAPPER_NAMES| && key == Ascii(WRAPPER_NAMES[i]) }

  /** One member that stands alone in its wrapper. */
  ghost function Single(k: Keyword, t: Tree): Meaning<Value> {
    if k == TYPE then TypeAlone(t)
    else if k == BINARY then var b :- Base64Bytes(t); Refused
    else Scalar(k, t)
  }

  /** A member behind the first one whose key belongs to no wrapper. */
  predicate IsBroken(ms: seq<Member>) {
    && |ms| >= 2 && IsLeaf(ms[0].value) && 0 !in ms[1].key && !IsKnown(KeywordOf(ms[1].key))
    && KeywordOf(ms[0].key) !in {TYPE, TIMESTAMP, REGULAR_EXPRESSION}
  }

  /** What its first member comes to does not save it. */
  ghost function Broken(k: Keyword, t: Tree): Meaning<Value> {
    if k == BINARY then Lacking(Base64Bytes(t)) else Lacking(Scalar(k, t))
  }

  ghost function Wrapper(ms: seq<Member>): Meaning<Value>
    requires ms != []
  {
    var k := KeywordOf(ms[0].key);
    if k == DBPOINTER || k == CODE || k == SCOPE then Silent
    else if |ms| == 1 then if ms[0].value.Obj? then
        if IsNested(k, ms[0].value.members) then Nested(k, ms[0].value.members) else Silent
      else Single(k, ms[0].value)
    else if IsPaired(ms) then Paired(ms)
    else if IsBroken(ms) then Broken(k, ms[0].value)
    else Silent
  }

  /** The documented forms of a wrapper, and the ones that lack a part or have one that is no part of any. */
  ghost predicate IsForm(ms: seq<Member>)
    requires ms != []
  {
    var k := KeywordOf(ms[0].key);
    || k == DBPOINTER || k == CODE || k == SCOPE
    || (|ms| == 1 && (ms[0].value.Obj? ==> IsNested(k, ms[0].value.members)))
    || IsPaired(ms) || IsBroken(ms)
  }

  predicate Has(ms: seq<Member>, k: Keyword) { exists i :: 0 <= i < |ms| && ms[i].key == Literal(k) }

  /** The value below a key of a document; in documents below the root `$ref` and `$db` want a string. */
  predicate WantsText(key: seq<byte>, root: bool) { !root && (key == Literal(REF) || key == Literal(DB)) }

  /** What a value stands for. */
  ghost function Denote(t: Tree): Meaning<Value>
    decreases t, 1
  {
    match t
    case Str(_) => var text :- ValidText(t); Is(Utf8(text))
    case Num(_, _) => var z :- Integer(t); Is(Sized(z))
    case Dbl => Silent
    case Truth(b) => Is(Boolean(b))
    case Nil => Is(Null)
    case Arr(items) => var es :- Items(items, 0); Is(Array(es))
    case Obj(ms) =>
      if ms != [] && Opens(ms[0].key) then Wrapper(ms)
      else
        var es :- Fields(ms, false);
        if Has(ms, REF) != Has(ms, ID) then Refused else Is(Document(es))
  }

  ghost function Fields(ms: seq<Member>, root: bool): Meaning<seq<Element>>
    decreases ms, 0
  {
    if ms == [] then Is([])
    else if !Utf8.Valid(ms[0].key, true) then Refused
    else if 0 in ms[0].key then Silent
    else
      var v :- if WantsText(ms[0].key, root) then TextOnly(ms[0].value) else Denote(ms[0].value);
      var rest :- Fields(ms[1..], root);
      Is([Element(ms[0].key, v)] + rest)
  }

  ghost function TextOnly(t: Tree): Meaning<Value> { var text :- ValidText(t); Is(Utf8(text)) }

  /** The items of an array under the keys 0, 1, 2 and so on. */
  ghost function Items(ts: seq<Tree>, i: nat): Meaning<seq<Element>>
    decreases ts, 0
  {
    if ts == [] then Is([])
    else
      var v :- Denote(ts[0]);
      var rest :- Items(ts[1..], i + 1);
      Is([Element(Index(i), v)] + rest)
  }

  function Index(i: nat): (key: CString)
    ensures key == Decimal(i)
  {
    IndexHasNoNul(i);
    Decimal(i)
  }

  lemma IndexHasNoNul(i: nat)
    ensures 0 !in Decimal(i)
  {
    hide Dec.Digits;
  }

  /** Trees of which the meaning says something: wrappers in one of the forms above, keys without NULs, and texts for `$ref` and `$db`. */
  ghost predicate Orderly(t: Tree)
    decreases t, 1
  {
    match t
    case Arr(items) => forall i | i in items :: Orderly(i)
    case Obj(ms) => if ms != [] && Opens(ms[0].key) then IsForm(ms) else OrderlyFields(ms, false)
    case _ => true
  }

  ghost predicate OrderlyFields(ms: seq<Member>, root: bool)
    decreases ms, 0
  {
    ms == [] || (0 !in ms[0].key && Orderly(ms[0].value) && (WantsText(ms[0].key, root) ==> IsLeaf(ms[0].value)) && OrderlyFields(ms[1..], root))
  }

  /** The tree a text spells. */
  function TreeOf(n: Grammar.Node): Tree
    requires Grammar.Valid(n)
    decreases n, 1
  {
    match n
    case Text(units) => Str(Escapes.Meaning(units))
    case Integer(negative, whole) => Num(Dec.Value(whole) % TWO_64, negative && whole != [0])
    case Fraction(_, _, _, _) => Dbl
    case Const(w) => if w == Syntax.NullWord then Nil else Truth(w == Syntax.TrueWord)
    case Map(_, members) => Obj(MembersOf(members))
    case List(_, items) => Arr(ItemsOf(items))
  }

  function MembersOf(ms: seq<Grammar.Member>): seq<Member>
    requires forall m | m in ms :: Grammar.ValidMember(m)
    decreases ms, 0
  {
    if ms == [] then []
    else
      assert Grammar.ValidMember(ms[0]);
      [Member(Escapes.Meaning(ms[0].key), TreeOf(ms[0].value))] + MembersOf(ms[1..])
  }

  function ItemsOf(items: seq<Grammar.Item>): seq<Tree>
    requires forall i | i in items :: Grammar.ValidItem(i)
    decreases items, 0
  {
    if items == [] then []
    else
      assert Grammar.ValidItem(items[0]);
      [TreeOf(items[0].value)] + ItemsOf(items[1..])
  }
}
