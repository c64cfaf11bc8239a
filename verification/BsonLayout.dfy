/** The bytes of every element, as the BSON specification lists them: the type byte, the key, and the fields of the payload. */
module BsonLayout {
  import opened Bytes
  import opened BsonTree

  /** The number that some bytes stand for, low byte first. */
  function Little(s: seq<byte>): nat { if s == [] then 0 else s[0] as int + 256 * Little(s[1..]) }

  lemma LittleStep(s: seq<byte>)
    requires s != []
    ensures Little(s) == s[0] as int + 256 * Little(s[1..])
  {}

  lemma LittleFour(s: seq<byte>)
    requires |s| == 4
    ensures Little(s) == s[0] as int + 0x100 * s[1] as int + 0x1_0000 * s[2] as int + 0x100_0000 * s[3] as int
  {
    hide Little;
    var t1, t2, t3 := s[1..], s[2..], s[3..];
    assert t1[1..] == t2 && t2[1..] == t3 && t3[1..] == [];
    assert t1[0] == s[1] && t2[0] == s[2] && t3[0] == s[3];
    LittleStep(s);
    LittleStep(t1);
    LittleStep(t2);
    LittleStep(t3);
    assert Little([]) == 0 by { NoBytes(); }
  }

  lemma NoBytes()
    ensures Little([]) == 0
  {}

  lemma LittleConcat(a: seq<byte>, b: seq<byte>)
    requires |a| == 4
    ensures Little(a + b) == Little(a) + 0x1_0000_0000 * Little(b)
  {
    hide Little;
    var s := a + b;
    var t1, t2, t3 := s[1..], s[2..], s[3..];
    assert t1[1..] == t2 && t2[1..] == t3 && t3[1..] == b;
    assert s[0] == a[0] && t1[0] == a[1] && t2[0] == a[2] && t3[0] == a[3];
    LittleStep(s);
    LittleStep(t1);
    LittleStep(t2);
    LittleStep(t3);
    LittleFour(a);
  }

  /** Thirty-two bits. */
  lemma FourBytes(n: nat)
    requires n < 0x1_0000_0000
    ensures |LE4(n)| == 4 && Little(LE4(n)) == n
  {
    LE4Digits(n);
    LittleFour(LE4(n));
  }

  /** Sixty-four. */
  lemma EightBytes(n: nat)
    requires n < 0x1_0000_0000_0000_0000
    ensures |LE8(n)| == 8 && Little(LE8(n)) == n
  {
    hide LE4;
    FourBytes(n % TWO_32);
    FourBytes(n / TWO_32);
    LittleConcat(LE4(n % TWO_32), LE4(n / TWO_32));
  }

  /** A number of `size` bytes, negative ones in two's complement. */
  ghost predicate Holds(s: seq<byte>, size: nat, z: int) {
    |s| == size && Little(s) == if z >= 0 then z else if size == 4 then z + 0x1_0000_0000 else z + 0x1_0000_0000_0000_0000
  }

  /** A text behind its length, which counts the NUL. */
  ghost predicate IsString(s: seq<byte>, text: seq<byte>) {
    |s| == |text| + 5 && Holds(s[..4], 4, |text| + 1) && s[4..] == text + [0]
  }

  /** A document: its own size, its elements, and a NUL. */
  ghost predicate IsDocument(s: seq<byte>, es: seq<Element>) {
    |s| == |Body(es)| + 5 && Holds(s[..4], 4, |s|) && s[4..] == Body(es) + [0]
  }

  /** The payload of each type. */
  ghost predicate IsPayload(s: seq<byte>, v: Value) {
    match v
    case Double(bits) => s == bits
    case Utf8(text) => IsString(s, text)
    case Document(fields) => IsDocument(s, fields)
    case Array(items) => IsDocument(s, items)
    case Binary(subtype, data) =>
      if subtype == 2 then |s| == |data| + 9 && Holds(s[..4], 4, |data| + 4) && s[4] == 2 && Holds(s[5..9], 4, |data|) && s[9..] == data
      else |s| == |data| + 5 && Holds(s[..4], 4, |data|) && s[4] == subtype && s[5..] == data
    case Undefined => s == []
    case ObjectId(oid) => s == oid
    case Boolean(b) => s == if b then [1] else [0]
    case DateTime(ms) => Holds(s, 8, ms)
    case Null => s == []
    case Regex(pattern, options) => s == pattern + [0] + options + [0]
    case DbPointer(collection, target) => |s| == |collection| + 17 && IsString(s[..|collection| + 5], collection) && s[|collection| + 5..] == target
    case Code(js) => IsString(s, js)
    case Symbol(text) => IsString(s, text)
    case CodeWithScope(js, scope) =>
      && |s| == |js| + |Body(scope)| + 14 && Holds(s[..4], 4, |s|)
      && IsString(s[4..|js| + 9], js) && IsDocument(s[|js| + 9..], scope)
    case Int32(i) => Holds(s, 4, i)
    case Timestamp(t, inc) => |s| == 8 && Holds(s[..4], 4, inc) && Holds(s[4..], 4, t)
    case Int64(l) => Holds(s, 8, l)
    case Decimal128(low, high) => |s| == 16 && Holds(s[..8], 8, low) && Holds(s[8..], 8, high)
    case MinKey => s == []
    case MaxKey => s == []
  }

  function TypeByte(v: Value): byte {
    match v
    case Double(_) => 1
    case Utf8(_) => 2
    case Document(_) => 3
    case Array(_) => 4
    case Binary(_, _) => 5
    case Undefined => 6
    case ObjectId(_) => 7
    case Boolean(_) => 8
    case DateTime(_) => 9
    case Null => 10
    case Regex(_, _) => 11
    case DbPointer(_, _) => 12
    case Code(_) => 13
    case Symbol(_) => 14
    case CodeWithScope(_, _) => 15
    case Int32(_) => 16
    case Timestamp(_, _) => 17
    case Int64(_) => 18
    case Decimal128(_, _) => 19
    case MaxKey => 127
    case MinKey => 255
  }

  lemma StringLayout(text: seq<byte>)
    requires |text| < 0xffff_ffff
    ensures IsString(LengthPrefixed(text), text)
  {
    hide LE4, Little;
    FourBytes(|text| + 1);
    assert LengthPrefixed(text)[..4] == LE4(|text| + 1);
  }

  /** Whole documents; the root is one. */
  lemma DocumentLayout(es: seq<Element>)
    requires |Encode(es)| < 0x1_0000_0000
    ensures IsDocument(Encode(es), es)
  {
    hide LE4, Little, Body;
    FourBytes(|Body(es)| + 5);
    assert Encode(es)[..4] == LE4(|Body(es)| + 5);
  }

  lemma BinaryLayout(subtype: byte, data: seq<byte>)
    requires |data| + 4 < 0x1_0000_0000
    ensures IsPayload(Payload(Binary(subtype, data)), Binary(subtype, data))
  {
    hide LE4, Little;
    FourBytes(|data|);
    FourBytes(|data| + 4);
    var s := Payload(Binary(subtype, data));
    if subtype == 2 {
      assert s[..4] == LE4(|data| + 4) && s[5..9] == LE4(|data|) && s[9..] == data;
    } else {
      assert s[..4] == LE4(|data|) && s[5..] == data;
    }
  }

  lemma ScopeLayout(js: CString, scope: seq<Element>)
    requires |js| + |Body(scope)| + 14 < 0x1_0000_0000
    ensures IsPayload(Payload(CodeWithScope(js, scope)), CodeWithScope(js, scope))
  {
    hide LE4, Little, Body, Encode, LengthPrefixed;
    StringLayout(js);
    EncodedSize(scope);
    DocumentLayout(scope);
    var s, total := Payload(CodeWithScope(js, scope)), |js| + |Body(scope)| + 14;
    ScopeParts(js, scope);
    FourBytes(total);
  }

  lemma EncodedSize(es: seq<Element>)
    ensures |Encode(es)| == |Body(es)| + 5
  {}

  lemma ScopeParts(js: CString, scope: seq<Element>)
    ensures var s := Payload(CodeWithScope(js, scope));
            && |s| == |js| + |Body(scope)| + 14 && s[..4] == LE4(|js| + |Body(scope)| + 14)
            && s[4..|js| + 9] == LengthPrefixed(js) && s[|js| + 9..] == Encode(scope)
  {
    hide LE4, Body, Encode;
  }

  lemma TimestampLayout(t: uint32, inc: uint32)
    ensures IsPayload(Payload(Timestamp(t, inc)), Timestamp(t, inc))
  {
    hide LE4, Little;
    FourBytes(t);
    FourBytes(inc);
    var s := Payload(Timestamp(t, inc));
    assert (t * TWO_32 + inc) % TWO_32 == inc && (t * TWO_32 + inc) / TWO_32 == t;
    assert s[..4] == LE4(inc) && s[4..] == LE4(t);
  }

  lemma DecimalLayout(low: uint64, high: uint64)
    ensures IsPayload(Payload(Decimal128(low, high)), Decimal128(low, high))
  {
    hide LE8, Little;
    EightBytes(low);
    EightBytes(high);
    var s := Payload(Decimal128(low, high));
    assert s[..8] == LE8(low) && s[8..] == LE8(high);
  }

  lemma PointerLayout(collection: CString, target: Bytes12)
    requires |collection| < 0xffff_ffff
    ensures IsPayload(Payload(DbPointer(collection, target)), DbPointer(collection, target))
  {
    StringLayout(collection);
    hide LengthPrefixed, Little;
    var s := Payload(DbPointer(collection, target));
    assert s[..|collection| + 5] == LengthPrefixed(collection);
  }

  /** Every element is its type byte, its key with a NUL, and the payload of its type. */
  lemma Layout(e: Element)
    requires |Payload(e.value)| < 0x1_0000_0000
    ensures ElementBytes(e) == [TypeByte(e.value)] + e.key + [0] + Payload(e.value) && IsPayload(Payload(e.value), e.value)
  {
    hide Little, LE4, LE8, Body, Encode;
    match e.value
    case Utf8(text) => StringLayout(text);
    case Document(fields) => DocumentLayout(fields);
    case Array(items) => DocumentLayout(items);
    case Binary(subtype, data) => BinaryLayout(subtype, data);
    case DateTime(ms) => EightBytes(ToUnsigned64(ms));
    case DbPointer(collection, target) => PointerLayout(collection, target);
    case Code(js) => StringLayout(js);
    case Symbol(text) => StringLayout(text);
    case CodeWithScope(js, scope) =>
      ScopeParts(js, scope);
      ScopeLayout(js, scope);
    case Int32(i) => FourBytes(ToUnsigned32(i));
    case Timestamp(t, inc) => TimestampLayout(t, inc);
    case Int64(l) => EightBytes(ToUnsigned64(l));
    case Decimal128(low, high) => DecimalLayout(low, high);
    case _ =>
  }
}
