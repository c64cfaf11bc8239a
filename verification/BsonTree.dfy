/**
 The document model of BSON 1.1: a tree of keyed, typed values, and the bytes that stand for it.
 Everything about the writer and the reader is stated against `Encode`.
 */
module BsonTree {
  import opened Bytes

  type Bytes8 = s: seq<byte> | |s| == 8 witness [0, 0, 0, 0, 0, 0, 0, 0]
  type Bytes12 = s: seq<byte> | |s| == 12 witness [0, 0, 0, 0, 0, 0, 0, 0, 0, 0, 0, 0]

  datatype Value =
    | Double(bits: Bytes8)
    | Utf8(text: seq<byte>)
    | Document(fields: seq<Element>)
    | Array(items: seq<Element>)
    | Binary(subtype: byte, data: seq<byte>)
    | Undefined
    | ObjectId(oid: Bytes12)
    | Boolean(b: bool)
    | DateTime(ms: int64)
    | Null
    | Regex(pattern: CString, options: CString)
    | DbPointer(collection: CString, target: Bytes12)
    | Code(js: CString)
    | Symbol(text: seq<byte>)
    | CodeWithScope(js: CString, scope: seq<Element>)
    | Int32(i: int32)
    | Timestamp(t: uint32, inc: uint32)
    | Int64(l: int64)
    | Decimal128(low: uint64, high: uint64)
    | MinKey
    | MaxKey

  datatype Element = Element(key: CString, value: Value)

  /** `bson_type_t`. */
  function TypeOf(v: Value): byte {
    match v
    case Double(_) => 0x01
    case Utf8(_) => 0x02
    case Document(_) => 0x03
    case Array(_) => 0x04
    case Binary(_, _) => 0x05
    case Undefined => 0x06
    case ObjectId(_) => 0x07
    case Boolean(_) => 0x08
    case DateTime(_) => 0x09
    case Null => 0x0a
    case Regex(_, _) => 0x0b
    case DbPointer(_, _) => 0x0c
    case Code(_) => 0x0d
    case Symbol(_) => 0x0e
    case CodeWithScope(_, _) => 0x0f
    case Int32(_) => 0x10
    case Timestamp(_, _) => 0x11
    case Int64(_) => 0x12
    case Decimal128(_, _) => 0x13
    case MinKey => 0xff
    case MaxKey => 0x7f
  }

  function LengthPrefixed(text: seq<byte>): seq<byte> {
    LE4(|text| + 1) + text + [0]
  }

  function Payload(v: Value): seq<byte>
    decreases v
  {
    match v
    case Double(bits) => bits
    case Utf8(text) => LengthPrefixed(text)
    case Document(fields) => Encode(fields)
    case Array(items) => Encode(items)
    case Binary(subtype, data) =>
      if subtype == 2 then LE4(|data| + 4) + [subtype] + LE4(|data|) + data
      else LE4(|data|) + [subtype] + data
    case Undefined => []
    case ObjectId(oid) => oid
    case Boolean(b) => [if b then 1 else 0]
    case DateTime(ms) => LE8(ToUnsigned64(ms))
    case Null => []
    case Regex(pattern, options) => pattern + [0] + options + [0]
    case DbPointer(collection, target) => LengthPrefixed(collection) + target
    case Code(js) => LengthPrefixed(js)
    case Symbol(text) => LengthPrefixed(text)
    case CodeWithScope(js, scope) =>
      var inner := LengthPrefixed(js) + Encode(scope);
      LE4(4 + |inner|) + inner
    case Int32(i) => LE4(ToUnsigned32(i))
    case Timestamp(t, inc) => LE8(t * TWO_32 + inc)
    case Int64(l) => LE8(ToUnsigned64(l))
    case Decimal128(low, high) => LE8(low) + LE8(high)
    case MinKey => []
    case MaxKey => []
  }

  /** Type byte, key and the key's NUL. */
  function Header(tag: byte, key: CString): seq<byte> {
    [tag] + key + [0]
  }

  function ElementBytes(e: Element): seq<byte>
    decreases e
  {
    Header(TypeOf(e.value), e.key) + Payload(e.value)
  }

  /** The elements of a document, without its length prefix and final NUL. */
  function Body(es: seq<Element>): seq<byte>
    decreases es, 0
  {
    if es == [] then [] else ElementBytes(es[0]) + Body(es[1..])
  }

  function Encode(es: seq<Element>): (s: seq<byte>)
    ensures |s| == |Body(es)| + 5
    decreases es, 1
  {
    LE4(|Body(es)| + 5) + Body(es) + [0]
  }

  lemma {:induction false} BodyConcat(xs: seq<Element>, ys: seq<Element>)
    ensures Body(xs + ys) == Body(xs) + Body(ys)
  {
    if xs == [] {
      assert xs + ys == ys;
    } else {
      assert (xs + ys)[0] == xs[0] && (xs + ys)[1..] == xs[1..] + ys;
      BodyConcat(xs[1..], ys);
    }
  }

  lemma BodySingle(e: Element)
    ensures Body([e]) == ElementBytes(e)
  {
    assert Body([e]) == ElementBytes(e) + Body([]);
  }

  lemma EncodeParts(es: seq<Element>)
    ensures Encode(es) == LE4(|Body(es)| + 5) + Body(es) + [0]
  {}
}
