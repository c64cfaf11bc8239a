/**
 The reader of one document as a function of its bytes.  `Decode` is the step `Iter.Cursor.Next`
 performs, and `Elements` what a caller gets by stepping to the end and calling the typed accessors.
 */
module BsonDecode {
  import opened Bytes
  import opened BsonTree

  /** What one step finds: the offsets of an element's fields, the end of the document, or damage. */
  datatype Step =
    | Found(d1: nat, d2: nat, d3: nat, d4: nat, next: nat)
    | End
    | Corrupt(err: nat, orElse: nat, unsupported: bool)

  function Damage(err: nat): Step { Corrupt(err, err, false) }

  function FindNul(raw: seq<byte>, from: nat): (i: nat)
    requires from <= |raw|
    ensures from <= i <= |raw| && (i < |raw| ==> raw[i] == 0) && 0 !in raw[from..i]
    decreases |raw| - from
  {
    if from == |raw| || raw[from] == 0 then from else FindNul(raw, from + 1)
  }

  /** Every element must end before the document's last byte. */
  function Bounded(raw: seq<byte>, f: Step, o: nat): Step {
    if f.Found? && f.next >= |raw| then Damage(o) else f
  }

  function DecodeString(raw: seq<byte>, o: nat): (r: Step)
    requires o <= |raw|
    ensures r.Corrupt? ==> !r.unsupported
  {
    if o + 4 >= |raw| then Damage(o)
    else
      var l := U32At(raw, o);
      if l > |raw| - (o + 4) || l == 0 || o + 4 + l >= |raw| then Damage(o)
      else if raw[o + 4 + l - 1] != 0 then Damage(o + 4 + l - 1)
      else Found(o, o + 4, 0, 0, o + 4 + l)
  }

  /** The inner length of subtype 2 is read before the element is known to lie in the document. */
  function DecodeBinary(raw: seq<byte>, o: nat): (r: Step)
    requires o <= |raw|
    ensures r.Corrupt? ==> !r.unsupported
  {
    if o + 4 >= |raw| then Damage(o)
    else
      var l := U32At(raw, o);
      if l >= |raw| - o then Damage(o)
      else if raw[o + 4] == 2 && l < 4 then Damage(o)
      else if raw[o + 4] == 2 && o + 9 > |raw| then Corrupt(o, o + 5, false)
      else if raw[o + 4] == 2 && U32At(raw, o + 5) + 4 != l then Damage(o + 5)
      else Found(o, o + 4, o + 5, 0, o + 5 + l)
  }

  function DecodeDocument(raw: seq<byte>, o: nat): (r: Step)
    requires o <= |raw|
    ensures r.Corrupt? ==> !r.unsupported
  {
    if o + 4 >= |raw| then Damage(o)
    else
      var l := U32At(raw, o);
      if l > |raw| - o then Damage(o) else Found(o, 0, 0, 0, o + l)
  }

  function DecodeRegex(raw: seq<byte>, at: nat, o: nat): (r: Step)
    requires o <= |raw|
    ensures r.Corrupt? ==> !r.unsupported
  {
    var e1 := FindNul(raw, o);
    if e1 == |raw| then Damage(at)
    else
      var e2 := FindNul(raw, e1 + 1);
      if e2 == |raw| then Damage(at) else Found(o, e1 + 1, 0, 0, e2 + 1)
  }

  function DecodeDbPointer(raw: seq<byte>, o: nat): (r: Step)
    requires o <= |raw|
    ensures r.Corrupt? ==> !r.unsupported
  {
    if o + 4 >= |raw| then Damage(o)
    else
      var l := U32At(raw, o);
      if l == 0 || l > |raw| - o - 4 then Damage(o)
      else if raw[o + l + 3] != 0 then Damage(o + l + 3)
      else Found(o, o + 4, o + 4 + l, 0, o + 4 + l + 12)
  }

  function DecodeCodeWithScope(raw: seq<byte>, o: nat): (r: Step)
    requires o <= |raw|
    ensures r.Corrupt? ==> !r.unsupported
  {
    if |raw| < 19 || o + 14 >= |raw| then Damage(o)
    else
      var total := U32At(raw, o);
      if total < 14 || total >= |raw| - o then Damage(o)
      else
        var l := U32At(raw, o + 4);
        if l == 0 || l >= |raw| - o - 8 then Damage(o)
        else if o + 8 + l + 4 >= o + total then Damage(o + 4)
        else if o + 8 + l + U32At(raw, o + 8 + l) != o + total then Damage(o + 8 + l)
        else Found(o, o + 4, o + 8, o + 8 + l, o + total)
  }

  function DecodePayload(raw: seq<byte>, tag: byte, at: nat, o: nat): Step
    requires o <= |raw|
  {
    match tag
    case 0x09 | 0x01 | 0x12 | 0x11 => Found(o, 0, 0, 0, o + 8)
    case 0x0d | 0x0e | 0x02 => DecodeString(raw, o)
    case 0x05 => DecodeBinary(raw, o)
    case 0x03 | 0x04 => DecodeDocument(raw, o)
    case 0x07 => Found(o, 0, 0, 0, o + 12)
    case 0x08 =>
      if o >= |raw| || (raw[o] != 0 && raw[o] != 1) then Damage(o) else Found(o, 0, 0, 0, o + 1)
    case 0x0b => DecodeRegex(raw, at, o)
    case 0x0c => DecodeDbPointer(raw, o)
    case 0x0f => DecodeCodeWithScope(raw, o)
    case 0x10 => Found(o, 0, 0, 0, o + 4)
    case 0x13 => Found(o, 0, 0, 0, o + 16)
    case 0x7f | 0xff | 0x0a | 0x06 => Found(TWO_32 - 1, 0, 0, 0, o)
    case 0x00 => Damage(o)
    case _ => Corrupt(o, o, true)
  }

  /** The element that starts at `at`: its type byte, its key up to the NUL, its payload. */
  function Decode(raw: seq<byte>, at: nat): Step {
    if at + 1 >= |raw| then End
    else
      var k := FindNul(raw, at + 1);
      if k == |raw| then End else Bounded(raw, DecodePayload(raw, raw[at], at, k + 1), k + 1)
  }

  /**
   What the accessors of each type rely on: the fields they use are set, in order, and what they read
   through them ends where the next element starts, which is still in front of the last byte.
   */
  predicate FieldsInside(raw: seq<byte>, tag: byte, o: nat, f: Step) {
    && f.Found? && o <= f.next < |raw|
    && match tag
       case 0x09 | 0x01 | 0x12 | 0x11 => f.d1 == o && o + 8 == f.next
       case 0x0d | 0x0e | 0x02 =>
         f.d1 == o && f.d2 == o + 4 < f.next && f.d2 + U32At(raw, o) == f.next && raw[f.next - 1] == 0
       case 0x05 =>
         && f.d1 == o && f.d2 == o + 4 && f.d3 == o + 5 <= f.next && f.d3 + U32At(raw, o) == f.next
         && (raw[f.d2] == 2 ==> f.d3 + 4 <= f.next && U32At(raw, o) == 4 + U32At(raw, f.d3))
       case 0x03 | 0x04 => f.d1 == o && o + 4 < |raw| && o + U32At(raw, o) == f.next
       case 0x07 => f.d1 == o && o + 12 == f.next
       case 0x08 => f.d1 == o && o + 1 == f.next && raw[o] <= 1
       case 0x0b => f.d1 == o && o < f.d2 < f.next && raw[f.d2 - 1] == 0 && raw[f.next - 1] == 0
       case 0x0c =>
         f.d1 == o && f.d2 == o + 4 < f.d3 == f.next - 12 && f.d2 + U32At(raw, o) == f.d3 && raw[f.d3 - 1] == 0
       case 0x0f =>
         && f.d1 == o && f.d2 == o + 4 && f.d3 == o + 8 < f.d4 && f.d4 + 4 < f.next && o + U32At(raw, o) == f.next
         && f.d4 == f.d3 + U32At(raw, f.d2) && f.d4 + U32At(raw, f.d4) == f.next
       case 0x10 => f.d1 == o && o + 4 == f.next
       case 0x13 => f.d1 == o && o + 16 == f.next
       case 0x7f | 0xff | 0x0a | 0x06 => f.next == o
       case _ => false
  }

  lemma PayloadStaysInside(raw: seq<byte>, tag: byte, at: nat, o: nat)
    requires o <= |raw| && Bounded(raw, DecodePayload(raw, tag, at, o), o).Found?
    ensures FieldsInside(raw, tag, o, DecodePayload(raw, tag, at, o))
  {
    hide U32;
    match tag
    case 0x0d | 0x0e | 0x02 =>
    case 0x05 =>
    case 0x03 | 0x04 =>
    case 0x0b =>
    case 0x0c =>
    case 0x0f =>
    case _ =>
  }

  /** A step over any bytes at all makes progress and leaves only fields that lie inside the document. */
  lemma DecodeStaysInside(raw: seq<byte>, at: nat)
    requires Decode(raw, at).Found?
    ensures var o := FindNul(raw, at + 1) + 1;
            at + 1 < o <= Decode(raw, at).next && FieldsInside(raw, raw[at], o, Decode(raw, at))
  {
    hide DecodePayload, FieldsInside;
    PayloadStaysInside(raw, raw[at], at, FindNul(raw, at + 1) + 1);
    assert FieldsInside(raw, raw[at], FindNul(raw, at + 1) + 1, Decode(raw, at));
    NextIsAhead(raw, raw[at], FindNul(raw, at + 1) + 1, Decode(raw, at));
  }

  lemma NextIsAhead(raw: seq<byte>, tag: byte, o: nat, f: Step)
    requires FieldsInside(raw, tag, o, f)
    ensures f.Found? && o <= f.next < |raw|
  {}

  /** When the last byte is NUL, a walk stops without damage exactly on it. */
  lemma EndIsLastByte(raw: seq<byte>, at: nat)
    requires |raw| >= 5 && raw[|raw| - 1] == 0 && at < |raw|
    ensures Decode(raw, at).End? <==> at == |raw| - 1
  {
    if at + 1 < |raw| {
      assert raw[|raw| - 1] in raw[at + 1..|raw|];
    }
  }

  /** The offsets a walk from `at` visits, up to the one where it stops. */
  function Walk(raw: seq<byte>, at: nat): seq<nat>
    decreases if at < |raw| then |raw| - at else 0
  {
    if Decode(raw, at).Found? then
      DecodeStaysInside(raw, at);
      [at] + Walk(raw, Decode(raw, at).next)
    else [at]
  }

  /** The element at one place of a walk ends, further on, where the next place is. */
  ghost predicate Joins(raw: seq<byte>, w: seq<nat>, i: nat)
    requires i + 1 < |w|
  {
    w[i] < |raw| && Decode(raw, w[i]).Found? && w[i] < Decode(raw, w[i]).next == w[i + 1]
  }

  /**
   A walk over any accepted bytes moves strictly forward, one step at a time, and never past the last
   byte; it stops cleanly iff it stops on it, that is iff elements tile everything in between.
   */
  lemma {:induction false} WalkTiles(raw: seq<byte>, at: nat)
    requires |raw| >= 5 && raw[|raw| - 1] == 0 && at < |raw|
    ensures var w := Walk(raw, at);
            && |w| > 0 && w[0] == at
            && (forall i | 0 <= i < |w| - 1 :: Joins(raw, w, i))
            && w[|w| - 1] < |raw|
            && (Decode(raw, w[|w| - 1]).End? <==> w[|w| - 1] == |raw| - 1)
            && !Decode(raw, w[|w| - 1]).Found?
    decreases |raw| - at
  {
    hide Decode, FieldsInside, FindNul;
    if Decode(raw, at).Found? {
      DecodeStaysInside(raw, at);
      var next := Decode(raw, at).next;
      NextIsAhead(raw, raw[at], FindNul(raw, at + 1) + 1, Decode(raw, at));
      WalkTiles(raw, next);
      var w, rest := Walk(raw, at), Walk(raw, next);
      assert w == [at] + rest;
      hide Walk;
      forall i | 0 <= i < |w| - 1
        ensures Joins(raw, w, i)
      {
        if i > 0 {
          assert Joins(raw, rest, i - 1) && w[i] == rest[i - 1] && w[i + 1] == rest[i];
        }
      }
    } else {
      EndIsLastByte(raw, at);
    }
  }

  datatype Parsed<+T> = Parsed(value: T) | Bad {
    predicate IsFailure() { Bad? }
    function PropagateFailure<U>(): Parsed<U>
      requires Bad?
    {
      Bad
    }
    function Extract(): T
      requires Parsed?
    {
      value
    }
  }

  /** A pointer into the document read as a C string. */
  function CStringAt(raw: seq<byte>, i: nat): CString
    requires i <= |raw|
  {
    raw[i..FindNul(raw, i)]
  }

  /** `bson_iter_utf8_len_unsafe`. */
  function TextLength(raw: seq<byte>, f: Step): nat
    requires f.Found? && f.d1 + 4 <= |raw|
  {
    var val := ToSigned32(U32At(raw, f.d1));
    if val - 1 > 0 then val - 1 else 0
  }

  function BinaryAt(raw: seq<byte>, o: nat, f: Step): Value
    requires FieldsInside(raw, 0x05, o, f)
  {
    var len := U32At(raw, f.d1);
    if raw[f.d2] == 2 then Binary(raw[f.d2], raw[f.d3 + 4..f.d3 + 4 + (len - 4)])
    else Binary(raw[f.d2], raw[f.d3..f.d3 + len])
  }

  function RegexAt(raw: seq<byte>, o: nat, f: Step): Value
    requires FieldsInside(raw, 0x0b, o, f)
  {
    Regex(CStringAt(raw, f.d1), CStringAt(raw, f.d2))
  }

  /** What the typed accessor of the element's type returns; documents are walked with a child iterator. */
  function ValueAt(raw: seq<byte>, tag: byte, o: nat, f: Step): Parsed<Value>
    requires |raw| <= INT32_MAX && FieldsInside(raw, tag, o, f)
    decreases |raw|, 0, 0
  {
    match tag
    case 0x01 => Parsed(Double(raw[f.d1..f.d1 + 8]))
    case 0x02 => Parsed(Utf8(raw[f.d2..f.d2 + TextLength(raw, f)]))
    case 0x03 => var es :- Elements(raw[f.d1..f.d1 + U32At(raw, f.d1)], 4); Parsed(Document(es))
    case 0x04 => var es :- Elements(raw[f.d1..f.d1 + U32At(raw, f.d1)], 4); Parsed(Array(es))
    case 0x05 => Parsed(BinaryAt(raw, o, f))
    case 0x06 => Parsed(Undefined)
    case 0x07 => Parsed(ObjectId(raw[f.d1..f.d1 + 12]))
    case 0x08 => Parsed(Boolean(raw[f.d1] != 0))
    case 0x09 => Parsed(DateTime(ToSigned64(U64At(raw, f.d1))))
    case 0x0a => Parsed(Null)
    case 0x0b => Parsed(RegexAt(raw, o, f))
    case 0x0c => Parsed(DbPointer(CStringAt(raw, f.d2), raw[f.d3..f.d3 + 12]))
    case 0x0d => Parsed(Code(CStringAt(raw, f.d2)))
    case 0x0e => Parsed(Symbol(raw[f.d2..f.d2 + TextLength(raw, f)]))
    case 0x0f =>
      var es :- Elements(raw[f.d4..f.d4 + U32At(raw, f.d4)], 4);
      Parsed(CodeWithScope(CStringAt(raw, f.d3), es))
    case 0x10 => Parsed(Int32(ToSigned32(U32At(raw, f.d1))))
    case 0x11 => var n := U64At(raw, f.d1); Parsed(Timestamp(n / TWO_32, n % TWO_32))
    case 0x12 => Parsed(Int64(ToSigned64(U64At(raw, f.d1))))
    case 0x13 => Parsed(Decimal128(U64At(raw, f.d1), U64At(raw, f.d1 + 8)))
    case 0x7f => Parsed(MaxKey)
    case 0xff => Parsed(MinKey)
    case _ => Bad
  }

  /** The elements a caller reads by stepping from offset `at` until a step fails; `Bad` if one is damaged. */
  function Elements(raw: seq<byte>, at: nat): Parsed<seq<Element>>
    requires |raw| <= INT32_MAX
    decreases |raw|, if at < |raw| then |raw| - at else 0, 1
  {
    match Decode(raw, at)
    case End => Parsed([])
    case Corrupt(_, _, _) => Bad
    case Found(_, _, _, _, next) =>
      DecodeStaysInside(raw, at);
      var v :- ValueAt(raw, raw[at], FindNul(raw, at + 1) + 1, Decode(raw, at));
      var rest :- Elements(raw, next);
      Parsed([Element(CStringAt(raw, at + 1), v)] + rest)
  }

  /** The bytes `s` stand at offset `i`. */
  predicate At(raw: seq<byte>, i: nat, s: seq<byte>) {
    i + |s| <= |raw| && raw[i..i + |s|] == s
  }

  lemma AtParts(raw: seq<byte>, i: nat, a: seq<byte>, b: seq<byte>)
    requires At(raw, i, a + b)
    ensures At(raw, i, a) && At(raw, i + |a|, b) && i + |a| + |b| <= |raw|
  {
    var s := raw[i..i + |a + b|];
    assert raw[i..i + |a|] == s[..|a|] && raw[i + |a|..i + |a| + |b|] == s[|a|..];
  }

  lemma AtByte(raw: seq<byte>, i: nat, b: byte)
    requires At(raw, i, [b])
    ensures i < |raw| && raw[i] == b
  {
    assert raw[i] == raw[i..i + 1][0];
  }

  lemma AtCString(raw: seq<byte>, i: nat, s: CString)
    requires At(raw, i, s + [0])
    ensures FindNul(raw, i) == i + |s| && CStringAt(raw, i) == s
  {
    AtParts(raw, i, s, [0]);
    assert raw[i + |s|] == raw[i + |s|..i + |s| + 1][0];
    assert forall j | i <= j < i + |s| :: raw[j] == raw[i..i + |s|][j - i];
  }

  lemma AtNumber(raw: seq<byte>, i: nat, n: uint32)
    requires At(raw, i, LE4(n))
    ensures i + 4 <= |raw| && U32At(raw, i) == n
  {
    ReadLE4(raw, i, n);
  }

  lemma AtString(raw: seq<byte>, o: nat, text: seq<byte>)
    requires At(raw, o, LengthPrefixed(text)) && o + |LengthPrefixed(text)| < |raw| <= INT32_MAX
    ensures var f := DecodeString(raw, o);
            && f == Found(o, o + 4, 0, 0, o + |LengthPrefixed(text)|)
            && U32At(raw, o) == |text| + 1
            && raw[f.d2..f.d2 + TextLength(raw, f)] == text
            && raw[f.d2..f.d2 + |text| + 1] == text + [0]
            && FieldsInside(raw, 0x02, o, f) && FieldsInside(raw, 0x0d, o, f) && FieldsInside(raw, 0x0e, o, f)
  {
    hide LE4, U32;
    assert LengthPrefixed(text) == LE4(|text| + 1) + (text + [0]);
    AtParts(raw, o, LE4(|text| + 1), text + [0]);
    AtParts(raw, o + 4, text, [0]);
    AtNumber(raw, o, |text| + 1);
  }

  lemma AtBinary(raw: seq<byte>, o: nat, subtype: byte, data: seq<byte>)
    requires var v := Binary(subtype, data);
             At(raw, o, Payload(v)) && o + |Payload(v)| < |raw| <= INT32_MAX
    ensures var f := DecodeBinary(raw, o);
            && f == Found(o, o + 4, o + 5, 0, o + |Payload(Binary(subtype, data))|)
            && FieldsInside(raw, 0x05, o, f) && BinaryAt(raw, o, f) == Binary(subtype, data)
  {
    hide LE4, U32;
    if subtype == 2 {
      var rest := [subtype] + (LE4(|data|) + data);
      assert Payload(Binary(subtype, data)) == LE4(|data| + 4) + rest;
      AtParts(raw, o, LE4(|data| + 4), rest);
      AtParts(raw, o + 4, [subtype], LE4(|data|) + data);
      AtParts(raw, o + 5, LE4(|data|), data);
      AtNumber(raw, o, |data| + 4);
      AtNumber(raw, o + 5, |data|);
    } else {
      assert Payload(Binary(subtype, data)) == LE4(|data|) + ([subtype] + data);
      AtParts(raw, o, LE4(|data|), [subtype] + data);
      AtParts(raw, o + 4, [subtype], data);
      AtNumber(raw, o, |data|);
    }
    assert raw[o + 4] == raw[o + 4..o + 5][0] == subtype;
  }

  lemma AtRegex(raw: seq<byte>, at: nat, o: nat, pattern: CString, options: CString)
    requires var v := Regex(pattern, options);
             At(raw, o, Payload(v)) && o + |Payload(v)| < |raw|
    ensures var f := DecodeRegex(raw, at, o);
            && f == Found(o, o + |pattern| + 1, 0, 0, o + |pattern| + 1 + |options| + 1)
            && FieldsInside(raw, 0x0b, o, f) && RegexAt(raw, o, f) == Regex(pattern, options)
  {
    hide FindNul;
    assert Payload(Regex(pattern, options)) == (pattern + [0]) + (options + [0]);
    AtParts(raw, o, pattern + [0], options + [0]);
    AtCString(raw, o, pattern);
    AtCString(raw, o + |pattern| + 1, options);
  }

  lemma AtDbPointer(raw: seq<byte>, o: nat, collection: CString, target: Bytes12)
    requires var v := DbPointer(collection, target);
             At(raw, o, Payload(v)) && o + |Payload(v)| < |raw| <= INT32_MAX
    ensures var f := DecodeDbPointer(raw, o);
            && f == Found(o, o + 4, o + 4 + |collection| + 1, 0, o + |Payload(DbPointer(collection, target))|)
            && FieldsInside(raw, 0x0c, o, f)
            && CStringAt(raw, f.d2) == collection && raw[f.d3..f.d3 + 12] == target
  {
    hide LE4, U32, FindNul, TextLength;
    AtParts(raw, o, LengthPrefixed(collection), target);
    AtString(raw, o, collection);
    AtCString(raw, o + 4, collection);
    assert At(raw, o + 4 + |collection| + 1, target);
    assert raw[o + |collection| + 4] == raw[o + 4..o + 4 + |collection| + 1][|collection|];
  }

  lemma AtCodeWithScopeParts(raw: seq<byte>, o: nat, js: CString, scope: seq<Element>)
    requires var v := CodeWithScope(js, scope);
             At(raw, o, Payload(v)) && o + |Payload(v)| < |raw| <= INT32_MAX
    ensures var n := |js| + 1;
            && o + 8 + n + |Encode(scope)| < |raw| && |Encode(scope)| >= 5
            && |Payload(CodeWithScope(js, scope))| == 8 + n + |Encode(scope)|
            && U32At(raw, o) == 8 + n + |Encode(scope)| && U32At(raw, o + 4) == n
            && CStringAt(raw, o + 8) == js && At(raw, o + 8 + n, Encode(scope))
  {
    hide LE4, U32, Body, Encode, FindNul, CStringAt;
    EncodeParts(scope);
    var doc := Encode(scope);
    var inner := LengthPrefixed(js) + doc;
    AtParts(raw, o, LE4(4 + |inner|), inner);
    AtNumber(raw, o, 4 + |inner|);
    AtParts(raw, o + 4, LengthPrefixed(js), doc);
    assert LengthPrefixed(js) == LE4(|js| + 1) + (js + [0]);
    AtParts(raw, o + 4, LE4(|js| + 1), js + [0]);
    AtNumber(raw, o + 4, |js| + 1);
    AtCString(raw, o + 8, js);
  }

  lemma AtCodeWithScope(raw: seq<byte>, o: nat, js: CString, scope: seq<Element>)
    requires var v := CodeWithScope(js, scope);
             o >= 6 && At(raw, o, Payload(v)) && o + |Payload(v)| < |raw| <= INT32_MAX
    ensures var f := DecodeCodeWithScope(raw, o);
            && f == Found(o, o + 4, o + 8, o + 8 + |js| + 1, o + |Payload(CodeWithScope(js, scope))|)
            && FieldsInside(raw, 0x0f, o, f)
            && CStringAt(raw, f.d3) == js && raw[f.d4..f.d4 + U32At(raw, f.d4)] == Encode(scope)
  {
    hide LE4, U32, Payload, Encode, CStringAt;
    AtCodeWithScopeParts(raw, o, js, scope);
    AtDocument(raw, o + 8 + |js| + 1, scope);
  }

  lemma AtDocument(raw: seq<byte>, o: nat, es: seq<Element>)
    requires At(raw, o, Encode(es)) && o + |Encode(es)| < |raw| <= INT32_MAX
    ensures DecodeDocument(raw, o) == Found(o, 0, 0, 0, o + |Encode(es)|)
    ensures raw[o..o + U32At(raw, o)] == Encode(es)
  {
    hide LE4, U32, Body;
    EncodeParts(es);
    var doc := Encode(es);
    assert doc == LE4(|doc|) + (Body(es) + [0]);
    AtParts(raw, o, LE4(|doc|), Body(es) + [0]);
    AtNumber(raw, o, |doc|);
  }

  lemma AtLong(raw: seq<byte>, i: nat, n: uint64)
    requires At(raw, i, LE8(n))
    ensures i + 8 <= |raw| && U64At(raw, i) == n
  {
    ReadLE8(raw, i, n);
  }

  ghost predicate ReadsBack(raw: seq<byte>, at: nat, o: nat, v: Value)
    requires o <= |raw| <= INT32_MAX
  {
    var f := DecodePayload(raw, TypeOf(v), at, o);
    && FieldsInside(raw, TypeOf(v), o, f) && f.next == o + |Payload(v)|
    && ValueAt(raw, TypeOf(v), o, f) == Parsed(v)
  }

  lemma SignedRoundTrip()
    ensures forall n: int32 :: ToSigned32(ToUnsigned32(n)) == n
    ensures forall n: int64 :: ToSigned64(ToUnsigned64(n)) == n
  {}

  lemma EmptyReadsBack(raw: seq<byte>, at: nat, o: nat, v: Value)
    requires o < |raw| <= INT32_MAX && (v.Undefined? || v.Null? || v.MinKey? || v.MaxKey?)
    ensures ReadsBack(raw, at, o, v)
  {}

  lemma OpaqueReadsBack(raw: seq<byte>, at: nat, o: nat, v: Value)
    requires At(raw, o, Payload(v)) && o + |Payload(v)| < |raw| <= INT32_MAX
    requires v.Double? || v.ObjectId? || v.Boolean?
    ensures ReadsBack(raw, at, o, v)
  {
    assert v.Boolean? ==> raw[o] == raw[o..o + 1][0];
  }

  lemma LongReadsBack(raw: seq<byte>, at: nat, o: nat, v: Value)
    requires At(raw, o, Payload(v)) && o + |Payload(v)| < |raw| <= INT32_MAX
    requires v.DateTime? || v.Int64? || v.Timestamp?
    ensures ReadsBack(raw, at, o, v)
  {
    hide LE4, LE8, U32, U64At, ToSigned32, ToSigned64, ToUnsigned64;
    SignedRoundTrip();
    match v
    case DateTime(ms) => AtLong(raw, o, ToUnsigned64(ms));
    case Int64(l) => AtLong(raw, o, ToUnsigned64(l));
    case Timestamp(t, inc) =>
      AtLong(raw, o, t * TWO_32 + inc);
      assert (t * TWO_32 + inc) / TWO_32 == t;
  }

  lemma IntReadsBack(raw: seq<byte>, at: nat, o: nat, v: Value)
    requires At(raw, o, Payload(v)) && o + |Payload(v)| < |raw| <= INT32_MAX
    requires v.Int32? || v.Decimal128?
    ensures ReadsBack(raw, at, o, v)
  {
    hide LE4, LE8, U32, U64At, ToSigned32, ToSigned64, ToUnsigned32;
    SignedRoundTrip();
    match v
    case Int32(i) => AtNumber(raw, o, ToUnsigned32(i));
    case Decimal128(low, high) =>
      AtParts(raw, o, LE8(low), LE8(high));
      AtLong(raw, o, low);
      AtLong(raw, o + 8, high);
  }

  lemma TextReadsBack(raw: seq<byte>, at: nat, o: nat, v: Value)
    requires At(raw, o, Payload(v)) && o + |Payload(v)| < |raw| <= INT32_MAX
    requires v.Utf8? || v.Symbol?
    ensures ReadsBack(raw, at, o, v)
  {
    hide LE4, U32, DecodeString, TextLength, FieldsInside;
    AtString(raw, o, v.text);
  }

  lemma CodeReadsBack(raw: seq<byte>, at: nat, o: nat, js: CString)
    requires At(raw, o, Payload(Code(js))) && o + |Payload(Code(js))| < |raw| <= INT32_MAX
    ensures ReadsBack(raw, at, o, Code(js))
  {
    hide LE4, U32, CStringAt, DecodeString, TextLength, FieldsInside;
    AtString(raw, o, js);
    AtSlice(raw, o + 4, js + [0]);
    AtCString(raw, o + 4, js);
  }

  lemma CompoundReadsBack(raw: seq<byte>, at: nat, o: nat, v: Value)
    requires At(raw, o, Payload(v)) && o + |Payload(v)| < |raw| <= INT32_MAX
    requires v.Binary? || v.Regex? || v.DbPointer?
    ensures ReadsBack(raw, at, o, v)
  {
    hide LE4, U32, BinaryAt, RegexAt, CStringAt, DecodeBinary, DecodeRegex, DecodeDbPointer, FieldsInside;
    match v
    case Binary(subtype, data) => AtBinary(raw, o, subtype, data);
    case Regex(pattern, options) => AtRegex(raw, at, o, pattern, options);
    case DbPointer(collection, target) => AtDbPointer(raw, o, collection, target);
  }

  lemma AtSlice(raw: seq<byte>, i: nat, s: seq<byte>)
    requires i + |s| <= |raw| && raw[i..i + |s|] == s
    ensures At(raw, i, s)
  {}

  /** Each value's bytes are one step wide, and its accessor gives it back. */
  lemma {:induction false} PayloadRoundTrip(raw: seq<byte>, at: nat, o: nat, v: Value)
    requires o >= 6 && At(raw, o, Payload(v)) && o + |Payload(v)| < |raw| <= INT32_MAX
    ensures ReadsBack(raw, at, o, v)
    decreases v
  {
    match v
    case Document(fields) =>
      RoundTrip(fields);
      DocumentReadsBack(raw, at, o, v, fields);
    case Array(items) =>
      RoundTrip(items);
      DocumentReadsBack(raw, at, o, v, items);
    case CodeWithScope(js, scope) =>
      RoundTrip(scope);
      CodeWithScopeReadsBack(raw, at, o, js, scope);
    case Utf8(_) | Symbol(_) => TextReadsBack(raw, at, o, v);
    case Code(js) => CodeReadsBack(raw, at, o, js);
    case Binary(_, _) | Regex(_, _) | DbPointer(_, _) => CompoundReadsBack(raw, at, o, v);
    case Undefined | Null | MinKey | MaxKey => EmptyReadsBack(raw, at, o, v);
    case Double(_) | ObjectId(_) | Boolean(_) => OpaqueReadsBack(raw, at, o, v);
    case DateTime(_) | Int64(_) | Timestamp(_, _) => LongReadsBack(raw, at, o, v);
    case Int32(_) | Decimal128(_, _) => IntReadsBack(raw, at, o, v);
  }

  lemma DocumentReadsBack(raw: seq<byte>, at: nat, o: nat, v: Value, es: seq<Element>)
    requires v == Document(es) || v == Array(es)
    requires At(raw, o, Payload(v)) && o + |Payload(v)| < |raw| <= INT32_MAX
    requires Elements(Encode(es), 4) == Parsed(es)
    ensures ReadsBack(raw, at, o, v)
  {
    hide LE4, U32, Encode, Elements;
    AtDocument(raw, o, es);
  }

  lemma CodeWithScopeReadsBack(raw: seq<byte>, at: nat, o: nat, js: CString, scope: seq<Element>)
    requires o >= 6 && At(raw, o, Payload(CodeWithScope(js, scope)))
    requires o + |Payload(CodeWithScope(js, scope))| < |raw| <= INT32_MAX
    requires |Encode(scope)| <= INT32_MAX && Elements(Encode(scope), 4) == Parsed(scope)
    ensures ReadsBack(raw, at, o, CodeWithScope(js, scope))
  {
    hide LE4, U32, U32At, Payload, At, Encode, Elements, CStringAt, DecodeCodeWithScope, FieldsInside;
    AtCodeWithScope(raw, o, js, scope);
  }

  lemma AtHeader(raw: seq<byte>, at: nat, tag: byte, key: CString, tail: seq<byte>)
    requires At(raw, at, [tag] + (key + [0]) + tail)
    ensures at + 1 + |key| + 1 <= |raw|
    ensures raw[at] == tag && FindNul(raw, at + 1) == at + 1 + |key| && CStringAt(raw, at + 1) == key
    ensures At(raw, at + 1 + |key| + 1, tail)
  {
    hide At, FindNul, CStringAt;
    assert [tag] + (key + [0]) + tail == [tag] + ((key + [0]) + tail);
    AtParts(raw, at, [tag], (key + [0]) + tail);
    AtParts(raw, at + 1, key + [0], tail);
    AtByte(raw, at, tag);
    AtCString(raw, at + 1, key);
  }

  lemma Regroup(t: seq<byte>, k: seq<byte>, z: seq<byte>, p: seq<byte>, rest: seq<byte>)
    ensures ((t + k + z) + p) + rest == t + (k + z) + (p + rest)
  {}

  /** One step over an element's bytes finds its key and payload and stops at what follows. */
  lemma ElementParts(raw: seq<byte>, at: nat, e: Element, rest: seq<byte>)
    requires At(raw, at, ElementBytes(e) + rest) && rest != []
    ensures var o := at + 1 + |e.key| + 1;
            && o + |Payload(e.value)| < |raw|
            && raw[at] == TypeOf(e.value) && FindNul(raw, at + 1) == o - 1 && CStringAt(raw, at + 1) == e.key
            && At(raw, o, Payload(e.value)) && At(raw, o + |Payload(e.value)|, rest)
  {
    hide Payload, FindNul, CStringAt, TypeOf, At;
    Regroup([TypeOf(e.value)], e.key, [0], Payload(e.value), rest);
    AtHeader(raw, at, TypeOf(e.value), e.key, Payload(e.value) + rest);
    AtParts(raw, at + 1 + |e.key| + 1, Payload(e.value), rest);
  }

  lemma {:induction false} ElementsRoundTrip(raw: seq<byte>, at: nat, es: seq<Element>)
    requires at >= 4 && At(raw, at, Body(es) + [0]) && at + |Body(es)| + 1 == |raw| <= INT32_MAX
    ensures Elements(raw, at) == Parsed(es)
    decreases es, 0
  {
    hide LE4, Payload, DecodePayload, ValueAt, FieldsInside, FindNul, CStringAt, ElementBytes, At;
    if es != [] {
      var e, rest := es[0], Body(es[1..]) + [0];
      assert Body(es) + [0] == ElementBytes(e) + rest;
      ElementParts(raw, at, e, rest);
      var o := at + 1 + |e.key| + 1;
      PayloadRoundTrip(raw, at, o, e.value);
      NextIsAhead(raw, raw[at], o, DecodePayload(raw, raw[at], at, o));
      ElementLength(e);
      ElementsRoundTrip(raw, o + |Payload(e.value)|, es[1..]);
      assert Decode(raw, at) == DecodePayload(raw, raw[at], at, o);
      assert Elements(raw, at) == Parsed([Element(e.key, e.value)] + es[1..]);
      assert es == [e] + es[1..];
    }
  }

  lemma ElementLength(e: Element)
    ensures |ElementBytes(e)| == 1 + |e.key| + 1 + |Payload(e.value)|
  {}

  /** Decoding undoes encoding: walking a document's bytes gives back its keys and typed values, all the way down. */
  lemma {:induction false} RoundTrip(es: seq<Element>)
    requires |Encode(es)| <= INT32_MAX
    ensures Elements(Encode(es), 4) == Parsed(es)
    decreases es, 1
  {
    hide LE4, Body;
    EncodeParts(es);
    var raw := Encode(es);
    assert raw == LE4(|Body(es)| + 5) + (Body(es) + [0]);
    ElementsRoundTrip(raw, 4, es);
  }

  /** So no two trees share their bytes. */
  lemma EncodeInjective(xs: seq<Element>, ys: seq<Element>)
    requires |Encode(xs)| <= INT32_MAX && Encode(xs) == Encode(ys)
    ensures xs == ys
  {
    RoundTrip(xs);
    RoundTrip(ys);
  }
}
