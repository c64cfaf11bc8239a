/** Looking an element up by key, and by a dotted path, on the bytes and on the tree they encode. */
module BsonFind {
  import opened Bytes
  import opened BsonTree
  import opened BsonDecode

  datatype Option<+T> = None | Some(value: T)

  const DOT: byte := 46

  /** Offset of the first element from `at` on whose key is `key`; a damaged element ends the search. */
  function FindKey(raw: seq<byte>, at: nat, key: CString): Option<nat>
    decreases if at < |raw| then |raw| - at else 0
  {
    match Decode(raw, at)
    case Found(_, _, _, _, next) =>
      DecodeStaysInside(raw, at);
      if CStringAt(raw, at + 1) == key then Some(at) else FindKey(raw, next, key)
    case _ => None
  }

  lemma FindKeyStep(raw: seq<byte>, at: nat, key: CString)
    ensures Decode(raw, at).Found? ==>
              && at < Decode(raw, at).next < |raw| && at + 1 <= |raw|
              && FindKey(raw, at, key) == (if CStringAt(raw, at + 1) == key then Some(at) else FindKey(raw, Decode(raw, at).next, key))
    ensures !Decode(raw, at).Found? ==> FindKey(raw, at, key) == None
  {
    hide FieldsInside;
    if Decode(raw, at).Found? {
      DecodeStaysInside(raw, at);
    }
  }

  function IndexOfDot(path: CString): (i: nat)
    ensures i <= |path| && (i < |path| ==> path[i] == DOT) && DOT !in path[..i]
  {
    if path == [] || path[0] == DOT then 0
    else
      var i := 1 + IndexOfDot(path[1..]);
      assert path[..i] == [path[0]] + path[1..][..i - 1];
      i
  }

  /** `bson_iter_recurse`: the bytes a child iterator over the document at `p` sees. */
  function ChildAt(raw: seq<byte>, p: nat): seq<byte>
    requires p < |raw| && Decode(raw, p).Found? && (raw[p] == 0x03 || raw[p] == 0x04)
  {
    DecodeStaysInside(raw, p);
    var d1 := Decode(raw, p).d1;
    raw[d1..d1 + U32At(raw, d1)]
  }

  /** The document that holds the element a dotted path leads to, and the element's offset in it. */
  function Descend(raw: seq<byte>, at: nat, path: CString): Option<(seq<byte>, nat)>
    decreases |path|
  {
    var dot := IndexOfDot(path);
    if dot == 0 then None
    else
      match FindKey(raw, at, path[..dot])
      case None => None
      case Some(p) =>
        FoundIsStep(raw, at, path[..dot]);
        if dot == |path| then Some((raw, p))
        else if raw[p] == 0x03 || raw[p] == 0x04 then Descend(ChildAt(raw, p), 4, path[dot + 1..])
        else None
  }

  lemma {:induction false} FoundIsStep(raw: seq<byte>, at: nat, key: CString)
    requires FindKey(raw, at, key).Some?
    ensures var p := FindKey(raw, at, key).value;
            p < |raw| && Decode(raw, p).Found? && CStringAt(raw, p + 1) == key
    decreases if at < |raw| then |raw| - at else 0
  {
    DecodeStaysInside(raw, at);
    if CStringAt(raw, at + 1) != key {
      FoundIsStep(raw, Decode(raw, at).next, key);
    }
  }

  function FirstWith(es: seq<Element>, key: CString): Option<Element> {
    if es == [] then None else if es[0].key == key then Some(es[0]) else FirstWith(es[1..], key)
  }

  /** What a dotted path means on a tree: the first element of that name at every level, never a later one. */
  function Lookup(es: seq<Element>, path: CString): Option<Value>
    decreases |path|
  {
    var dot := IndexOfDot(path);
    if dot == 0 then None
    else
      match FirstWith(es, path[..dot])
      case None => None
      case Some(e) =>
        if dot == |path| then Some(e.value)
        else
          match e.value
          case Document(fields) => Lookup(fields, path[dot + 1..])
          case Array(items) => Lookup(items, path[dot + 1..])
          case _ => None
  }

  /** The element `e` stands at offset `p` of `raw`, and a step there reads it back. */
  ghost predicate StandsAt(raw: seq<byte>, p: nat, e: Element)
    requires |raw| <= INT32_MAX
  {
    var o := p + 1 + |e.key| + 1;
    && o + |Payload(e.value)| < |raw| && At(raw, o, Payload(e.value))
    && raw[p] == TypeOf(e.value)
    && FindNul(raw, p + 1) + 1 == o
    && ReadsBack(raw, p, o, e.value)
    && Decode(raw, p) == DecodePayload(raw, raw[p], p, o)
  }

  lemma {:induction false} FindsFirst(raw: seq<byte>, at: nat, es: seq<Element>, key: CString)
    requires at >= 4 && At(raw, at, Body(es) + [0]) && at + |Body(es)| + 1 == |raw| <= INT32_MAX
    ensures match FirstWith(es, key)
            case None => FindKey(raw, at, key) == None
            case Some(e) => FindKey(raw, at, key).Some? && StandsAt(raw, FindKey(raw, at, key).value, e)
    decreases |es|
  {
    hide Payload, DecodePayload, ValueAt, FieldsInside, FindNul, CStringAt, ElementBytes, At, ReadsBack;
    if es != [] {
      var e, rest := es[0], Body(es[1..]) + [0];
      assert Body(es) + [0] == ElementBytes(e) + rest;
      ElementParts(raw, at, e, rest);
      var o := at + 1 + |e.key| + 1;
      PayloadRoundTrip(raw, at, o, e.value);
      StepReadsBack(raw, at, o, e.value);
      ElementLength(e);
      if e.key != key {
        FindsFirst(raw, o + |Payload(e.value)|, es[1..], key);
      }
    }
  }

  lemma StepReadsBack(raw: seq<byte>, at: nat, o: nat, v: Value)
    requires o <= |raw| <= INT32_MAX && ReadsBack(raw, at, o, v)
    ensures var f := DecodePayload(raw, TypeOf(v), at, o);
            f.Found? && f.next == o + |Payload(v)| && Bounded(raw, f, o) == f
  {
    hide Payload, DecodePayload, ValueAt;
  }

  ghost predicate Holds(place: (seq<byte>, nat), v: Value) {
    |place.0| <= INT32_MAX && exists key: CString :: StandsAt(place.0, place.1, Element(key, v))
  }

  /** `bson_iter_find_descendant` on a document's bytes finds exactly what the path means on its tree. */
  lemma {:induction false} DescendIsLookup(es: seq<Element>, path: CString)
    requires |Encode(es)| <= INT32_MAX
    ensures match Lookup(es, path)
            case None => Descend(Encode(es), 4, path) == None
            case Some(v) =>
              Descend(Encode(es), 4, path).Some? && Holds(Descend(Encode(es), 4, path).value, v)
    decreases |path|
  {
    hide StandsAt, Body, Encode, FindKey, FirstWith, IndexOfDot, At, ChildAt, Decode;
    var raw, dot := Encode(es), IndexOfDot(path);
    if dot > 0 {
      EncodeParts(es);
      assert raw == LE4(|Body(es)| + 5) + (Body(es) + [0]);
      AtWhole(raw, LE4(|Body(es)| + 5), Body(es) + [0]);
      FindsFirst(raw, 4, es, path[..dot]);
      match FirstWith(es, path[..dot])
      case None =>
      case Some(e) =>
        assert Element(e.key, e.value) == e;
        if dot < |path| {
          FoundIsStep(raw, 4, path[..dot]);
          ChildBytes(raw, FindKey(raw, 4, path[..dot]).value, e);
          match e.value
          case Document(fields) => DescendIsLookup(fields, path[dot + 1..]);
          case Array(items) => DescendIsLookup(items, path[dot + 1..]);
          case _ =>
        }
    }
  }

  lemma AtWhole(raw: seq<byte>, a: seq<byte>, b: seq<byte>)
    requires raw == a + b
    ensures At(raw, |a|, b)
  {}

  /** The child iterator over a document value sees exactly that document's encoding. */
  lemma ChildBytes(raw: seq<byte>, p: nat, e: Element)
    requires |raw| <= INT32_MAX && StandsAt(raw, p, e) && p < |raw| && Decode(raw, p).Found?
    ensures raw[p] == TypeOf(e.value)
    ensures e.value.Document? ==> ChildAt(raw, p) == Encode(e.value.fields) && |Encode(e.value.fields)| <= INT32_MAX
    ensures e.value.Array? ==> ChildAt(raw, p) == Encode(e.value.items) && |Encode(e.value.items)| <= INT32_MAX
  {
    hide LE4, U32, FindNul, ValueAt, Encode;
    if e.value.Document? || e.value.Array? {
      AtDocument(raw, p + 1 + |e.key| + 1, if e.value.Document? then e.value.fields else e.value.items);
    }
  }

  /** A path is cut at its dots: what stands in front of the first one is a key, and what follows is looked up inside. */
  lemma PathOfTwo(es: seq<Element>, key: CString, rest: CString)
    requires key != [] && '.' as int !in key
    ensures Lookup(es, key + ['.' as int] + rest)
         == match FirstWith(es, key)
            case None => None
            case Some(e) => if e.value.Document? then Lookup(e.value.fields, rest) else if e.value.Array? then Lookup(e.value.items, rest) else None
    ensures Lookup(es, key) == match FirstWith(es, key) case None => None case Some(e) => Some(e.value)
  {
    var path := key + ['.' as int] + rest;
    DotAt(key, ['.' as int] + rest);
    DotAt(key, []);
    assert path == key + (['.' as int] + rest) && key + [] == key;
    assert path[..|key|] == key && path[|key| + 1..] == rest;
  }

  lemma {:induction false} DotAt(key: CString, rest: CString)
    requires '.' as int !in key && (rest != [] ==> rest[0] as char == '.')
    ensures IndexOfDot(key + rest) == |key|
  {
    if key == [] {
      assert key + rest == rest;
    } else {
      assert (key + rest)[1..] == key[1..] + rest;
      DotAt(key[1..], rest);
    }
  }
}
