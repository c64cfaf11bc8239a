/**
 The writer: nested documents built in place inside one growing buffer.

 A `Doc` is a `bson_t`.  A child opened with `AppendChildBegin` writes straight into its parent's
 buffer, so while it is open the length prefix of every ancestor is stale and no ancestor has its
 final NUL.  `Image` says which bytes those are at every moment.
 */
module Builder {
  import opened Bytes
  import opened BsonTree
  import opened RegexOptions

  const INLINE_SIZE: nat := 120

  /** What the source grows an inline document by before it opens a child. */
  const FIRST_HEAP_SIZE: nat := 128
  const MAX_BUFFER: nat := 0x4000_0000

  /** Least power of two, from `p` upwards, that is not below `v`. */
  function NextPowerOfTwo(v: nat, p: nat := 1): (q: nat)
    requires p > 0
    ensures q >= v
    decreases v - p
  {
    if p >= v then p else NextPowerOfTwo(v, 2 * p)
  }

  function Pow2(k: nat): nat { if k == 0 then 1 else 2 * Pow2(k - 1) }

  lemma {:induction false} NextPowerOfTwoFits(v: nat, p: nat, k: nat)
    requires p > 0 && p * Pow2(k) == MAX_BUFFER
    ensures if v <= MAX_BUFFER then NextPowerOfTwo(v, p) <= MAX_BUFFER else NextPowerOfTwo(v, p) >= 2 * MAX_BUFFER
    decreases k
  {
    if k == 0 {
      if p < v {
        NextPowerOfTwoGrows(v, 2 * p);
      }
    } else {
      assert 2 * p * Pow2(k - 1) == p * Pow2(k);
      if p < v {
        NextPowerOfTwoFits(v, 2 * p, k - 1);
      } else {
        assert p <= p * Pow2(k) by { Pow2Positive(k); }
      }
    }
  }

  /** A buffer can grow exactly up to 2^30 bytes. */
  lemma GrownSizeFits(v: nat)
    ensures NextPowerOfTwo(v) <= INT32_MAX <==> v <= MAX_BUFFER
    ensures v <= MAX_BUFFER ==> NextPowerOfTwo(v) <= MAX_BUFFER
  {
    assert Pow2(10) == 1024 && Pow2(20) == 1024 * Pow2(10) && Pow2(30) == MAX_BUFFER;
    NextPowerOfTwoFits(v, 1, 30);
  }

  /** How long the buffer is once there is room for `need` bytes. */
  function Grown(need: nat, length: nat): (r: nat)
    ensures r >= need
  {
    if need <= length then length else NextPowerOfTwo(need)
  }

  lemma Pow2Positive(k: nat)
    ensures Pow2(k) >= 1
  {}

  lemma NextPowerOfTwoGrows(v: nat, p: nat)
    requires p > 0
    ensures NextPowerOfTwo(v, p) >= p
    decreases v - p
  {}

  /** One open document: how its parent refers to it, and what has been appended to it. */
  datatype Frame = Frame(key: CString, isArray: bool, elems: seq<Element>)

  function Tag(f: Frame): byte { if f.isArray then 0x04 else 0x03 }

  function Closed(f: Frame): Element {
    Element(f.key, if f.isArray then Array(f.elems) else Document(f.elems))
  }

  /** What the `len` field of an ancestor holds: it counts its open child as an empty document. */
  function OpenLen(f: Frame, child: Frame): nat {
    |Body(f.elems)| + 5 + |Header(Tag(child), child.key)| + 5
  }

  function OpenBytes(f: Frame, child: Frame): seq<byte> {
    LE4(OpenLen(f, child)) + (Body(f.elems) + Header(Tag(child), child.key))
  }

  /** What follows a document's length prefix when `child` is the last thing appended to it, up to its own NUL. */
  function Content(f: Frame, child: Frame): seq<byte> {
    Body(f.elems) + Header(Tag(child), child.key) + Encode(child.elems)
  }

  /** All bytes in front of the innermost open document. */
  function Prefix(fs: seq<Frame>): seq<byte> {
    if |fs| <= 1 then [] else Prefix(fs[..|fs| - 1]) + OpenBytes(fs[|fs| - 2], fs[|fs| - 1])
  }

  /** The meaningful bytes of the shared buffer while the documents `fs` are open, outermost first. */
  function Image(fs: seq<Frame>): seq<byte>
    requires fs != []
  {
    Prefix(fs) + Encode(fs[|fs| - 1].elems)
  }

  function Top(fs: seq<Frame>): Frame
    requires fs != []
  {
    fs[|fs| - 1]
  }

  function PutAll(fs: seq<Frame>, es: seq<Element>): (r: seq<Frame>)
    requires fs != []
    ensures |r| == |fs|
  {
    fs[|fs| - 1 := Top(fs).(elems := Top(fs).elems + es)]
  }

  lemma PutNothing(fs: seq<Frame>)
    requires fs != []
    ensures PutAll(fs, []) == fs
  {
    assert Top(fs).elems + [] == Top(fs).elems;
  }

  lemma PrefixOfPut(fs: seq<Frame>, es: seq<Element>)
    requires fs != []
    ensures Prefix(PutAll(fs, es)) == Prefix(fs)
  {
    var gs := PutAll(fs, es);
    if |fs| > 1 {
      assert gs[..|gs| - 1] == fs[..|fs| - 1];
      assert gs[|gs| - 2] == fs[|fs| - 2];
      assert OpenBytes(fs[|fs| - 2], Top(gs)) == OpenBytes(fs[|fs| - 2], Top(fs));
    }
  }

  lemma BodyClosed(f: Frame, child: Frame)
    ensures Body(f.elems + [Closed(child)]) == Content(f, child)
  {
    var e := Closed(child);
    BodyConcat(f.elems, [e]);
    BodySingle(e);
    assert ElementBytes(e) == Header(Tag(child), child.key) + Encode(child.elems);
  }

  lemma PrefixOfOpen(fs: seq<Frame>, child: Frame)
    requires fs != []
    ensures Prefix(fs + [child]) == Prefix(fs) + OpenBytes(Top(fs), child)
  {
    assert (fs + [child])[..|fs|] == fs;
  }

  lemma ImageOfPut(fs: seq<Frame>, es: seq<Element>)
    requires fs != []
    ensures Image(PutAll(fs, es)) == Prefix(fs) + Encode(Top(fs).elems + es)
  {
    PrefixOfPut(fs, es);
  }

  /** While `child` is open, only its parent's length prefix and final NUL differ from the closed form below. */
  lemma ImageOfOpen(fs: seq<Frame>, child: Frame)
    requires fs != []
    ensures Image(fs + [child]) == Prefix(fs) + (LE4(OpenLen(Top(fs), child)) + Content(Top(fs), child))
  {
    hide LE4, Body, Encode;
    PrefixOfOpen(fs, child);
    var f := Top(fs);
    var l, b, h, c := LE4(OpenLen(f, child)), Body(f.elems), Header(Tag(child), child.key), Encode(child.elems);
    hide Prefix;
    FiveParts(Prefix(fs), l, b, h, c);
  }

  lemma FiveParts(p: seq<byte>, l: seq<byte>, b: seq<byte>, h: seq<byte>, c: seq<byte>)
    ensures (p + (l + (b + h))) + c == p + (l + (b + h + c))
  {}

  lemma ImageOfClose(fs: seq<Frame>, child: Frame)
    requires fs != []
    ensures Image(PutAll(fs, [Closed(child)]))
         == Prefix(fs) + (LE4(|Content(Top(fs), child)| + 5) + Content(Top(fs), child) + [0])
  {
    hide LE4, Body, Encode, Image;
    ImageOfPut(fs, [Closed(child)]);
    BodyClosed(Top(fs), child);
    EncodeParts(Top(fs).elems + [Closed(child)]);
  }

  lemma EmptyChildBytes(f: Frame)
    requires f.elems == []
    ensures Body([Closed(f)]) == Concat([[Tag(f)], f.key, [0], [5, 0, 0, 0, 0]])
    ensures |Body([Closed(f)])| == 1 + |f.key| + 1 + 5
  {
    BodySingle(Closed(f));
    Concat4([Tag(f)], f.key, [0], [5, 0, 0, 0, 0]);
    assert Encode([]) == [5, 0, 0, 0, 0];
  }

  /** Appending the empty child leaves the image of the two open documents, then one NUL. */
  lemma OpenImage(fs: seq<Frame>, child: Frame)
    requires fs != [] && child.elems == []
    ensures Image(PutAll(fs, [Closed(child)])) == Image(fs + [child]) + [0]
  {
    hide LE4;
    ImageOfOpen(fs, child);
    ImageOfClose(fs, child);
    var f := Top(fs);
    assert |Content(f, child)| + 5 == OpenLen(f, child);
    var p, l, c := Prefix(fs), LE4(OpenLen(f, child)), Content(f, child);
    assert p + (l + c + [0]) == p + (l + c) + [0];
  }

  lemma PrefixLength(fs: seq<Frame>, child: Frame)
    requires fs != []
    ensures |Prefix(fs + [child])| == |Prefix(fs)| + OpenLen(Top(fs), child) - 6
    ensures |Image(fs + [child])| + 1 == |Prefix(fs)| + |Encode(Top(fs).elems + [Closed(child)])|
  {
    hide LE4, Prefix, Body;
    PrefixOfOpen(fs, child);
    BodyClosed(Top(fs), child);
  }

  /** Closing `child`: the parent's new length over its stale one, and its NUL, complete the parent. */
  lemma CloseImage(fs: seq<Frame>, child: Frame, data: seq<byte>, image: seq<byte>)
    requires fs != [] && Image(fs + [child]) <= data
    requires var at, end := |Prefix(fs)|, |Image(fs + [child])|;
             at + 4 <= end && image == data[..at] + (LE4(end + 1 - at) + data[at + 4..end] + [0])
    ensures image == Image(PutAll(fs, [Closed(child)]))
  {
    hide LE4, Prefix, Body, Encode, Image;
    ImageOfOpen(fs, child);
    ImageOfClose(fs, child);
    var p, l, c := Prefix(fs), LE4(OpenLen(Top(fs), child)), Content(Top(fs), child);
    var open := p + (l + c);
    assert data[..|open|] == open;
    assert data[..|p|] == open[..|p|] == p;
    assert data[|p| + 4..|open|] == open[|p| + 4..] == c;
  }

  /** Where opening `child` leaves the documents, and the lengths they carry. */
  lemma ExtentsOfOpen(fs: seq<Frame>, child: Frame, i: nat)
    requires fs != [] && child.elems == [] && i <= |fs|
    ensures var gs := fs + [child];
            && |Prefix(gs)| == |Prefix(fs)| + OpenLen(Top(fs), child) - 6
            && |Prefix(PutAll(fs, [Closed(child)]))| == |Prefix(fs)|
            && |Encode(Top(fs).elems + [Closed(child)])| == OpenLen(Top(fs), child)
            && (i < |fs| ==> Prefix(gs[..i + 1]) == Prefix(fs[..i + 1]))
            && gs[..|gs|] == gs && |Encode(child.elems)| == 5
  {
    hide LE4, Prefix;
    PrefixOfOpen(fs, child);
    PrefixOfPut(fs, [Closed(child)]);
    assert Body([]) == [];
    BodyClosed(Top(fs), child);
    if i < |fs| {
      assert (fs + [child])[..i + 1] == fs[..i + 1];
    }
  }

  /** Where the innermost document's parts lie in the buffer. */
  lemma TopParts(fs: seq<Frame>, data: seq<byte>)
    requires fs != [] && Image(fs) <= data
    ensures var at, end := |Prefix(fs)|, |Image(fs)|;
            && at + 5 <= end
            && data[..at] == Prefix(fs)
            && data[at + 4..end - 1] == Body(Top(fs).elems)
  {
    hide LE4, Body, Prefix;
    var p, b := Prefix(fs), Body(Top(fs).elems);
    var l := LE4(|b| + 5);
    assert Image(fs) == p + l + b + [0];
    assert data[..|Image(fs)|] == Image(fs);
    assert data[|p| + 4..|Image(fs)| - 1] == Image(fs)[|p| + 4..|Image(fs)| - 1] == b;
  }

  /** Appending to the innermost document moves no document and changes no ancestor's length. */
  lemma ExtentsOfPut(fs: seq<Frame>, es: seq<Element>, i: nat)
    requires i < |fs|
    ensures var gs := PutAll(fs, es);
            && Prefix(gs[..i + 1]) == Prefix(fs[..i + 1])
            && (i + 1 < |fs| ==> OpenLen(gs[i], gs[i + 1]) == OpenLen(fs[i], fs[i + 1]))
            && (i + 1 == |fs| ==> |Encode(gs[i].elems)| == |Encode(fs[i].elems)| + |Body(es)|)
  {
    hide LE4, Prefix, Encode, Body;
    var gs := PutAll(fs, es);
    if i + 1 < |fs| {
      assert gs[..i + 1] == fs[..i + 1];
    } else {
      assert fs[..i + 1] == fs && gs[..i + 1] == gs;
      PrefixOfPut(fs, es);
      BodyConcat(fs[i].elems, es);
    }
  }

  lemma AppendImage(fs: seq<Frame>, es: seq<Element>, data: seq<byte>, image: seq<byte>)
    requires fs != [] && Image(fs) <= data
    requires var at, end := |Prefix(fs)|, |Image(fs)|;
             var len := end - at + |Body(es)|;
             at + 5 <= end && image == data[..at] + (LE4(len) + (data[at + 4..end - 1] + Body(es)) + [0])
    ensures image == Image(PutAll(fs, es))
  {
    hide LE4, Prefix, Encode, Body;
    TopParts(fs, data);
    ImageOfPut(fs, es);
    BodyConcat(Top(fs).elems, es);
    EncodeParts(Top(fs).elems + es);
    EncodeParts(Top(fs).elems);
  }

  /** `bson_empty`: a document is empty iff its fifth byte is its final NUL. */
  lemma FirstByte(es: seq<Element>)
    ensures es == [] <==> |Encode(es)| == 5
    ensures es == [] <==> Encode(es)[4] == 0
  {
    hide LE4;
    EncodeParts(es);
    if es != [] {
      assert Body(es)[0] == TypeOf(es[0].value);
    }
  }

  function Concat(pairs: seq<seq<byte>>): seq<byte> {
    if pairs == [] then [] else Concat(pairs[..|pairs| - 1]) + pairs[|pairs| - 1]
  }

  lemma {:induction false} ConcatConcat(ps: seq<seq<byte>>, qs: seq<seq<byte>>)
    ensures Concat(ps + qs) == Concat(ps) + Concat(qs)
  {
    if qs == [] {
      assert ps + qs == ps;
    } else {
      var q := qs[|qs| - 1];
      assert (ps + qs)[..|ps + qs| - 1] == ps + qs[..|qs| - 1];
      ConcatConcat(ps, qs[..|qs| - 1]);
    }
  }

  lemma Concat0()
    ensures Concat([]) == []
  {}

  lemma Concat1(a: seq<byte>)
    ensures Concat([a]) == a
  {
    assert [a][..0] == [];
  }

  lemma Concat2(a: seq<byte>, b: seq<byte>)
    ensures Concat([a, b]) == a + b
  {
    Concat1(a);
    assert [a, b][..1] == [a];
  }

  lemma Concat3(a: seq<byte>, b: seq<byte>, c: seq<byte>)
    ensures Concat([a, b, c]) == a + b + c
  {
    Concat2(a, b);
    assert [a, b, c][..2] == [a, b];
  }

  lemma Concat4(a: seq<byte>, b: seq<byte>, c: seq<byte>, d: seq<byte>)
    ensures Concat([a, b, c, d]) == a + b + c + d
  {
    Concat3(a, b, c);
    assert [a, b, c, d][..3] == [a, b, c];
  }

  lemma {:induction false} ConcatPrefix(pairs: seq<seq<byte>>, i: nat)
    requires i <= |pairs|
    ensures Concat(pairs[..i]) <= Concat(pairs)
    ensures i < |pairs| ==> Concat(pairs[..i + 1]) == Concat(pairs[..i]) + pairs[i] <= Concat(pairs)
    decreases |pairs| - i
  {
    if i < |pairs| {
      assert pairs[..i + 1][..i] == pairs[..i];
      ConcatPrefix(pairs, i + 1);
    } else {
      assert pairs[..i] == pairs;
    }
  }

  /** The three stores of an append, `s0` the copying, `s1` the length, then the NUL, seen as one. */
  lemma Assemble(s: seq<byte>, s0: seq<byte>, s1: seq<byte>, at: nat, end: nat, more: seq<byte>, l: seq<byte>)
    requires |s| == |s0| == |s1| && at + 4 <= end && end + |more| < |s| && |l| == 4
    requires s0[..end + |more|] == s[..end] + more
    requires s1[..at] == s0[..at] && s1[at..at + 4] == l && s1[at + 4..] == s0[at + 4..]
    ensures s1[..end + |more|] + [0] == s[..at] + (l + (s[at + 4..end] + more) + [0])
  {
    var pos := end + |more|;
    assert s0[..at] == s0[..pos][..at] == s[..at];
    assert s0[at + 4..pos] == s0[..pos][at + 4..] == s[at + 4..end] + more;
    assert s1[at + 4..pos] == s1[at + 4..][..pos - at - 4] == s0[at + 4..pos];
    assert s1[..pos] == s1[..at] + (s1[at..at + 4] + s1[at + 4..pos]);
  }

  /** The two stores of a close, `s0` the NUL, then the length, seen as one. */
  lemma CloseStores(s: seq<byte>, s0: seq<byte>, s1: seq<byte>, at: nat, end: nat, l: seq<byte>)
    requires |s| == |s0| == |s1| && at + 4 <= end < |s| && |l| == 4
    requires s0 == s[end := 0]
    requires s1[..at] == s0[..at] && s1[at..at + 4] == l && s1[at + 4..] == s0[at + 4..]
    ensures s1[..end + 1] == s[..at] + (l + s[at + 4..end] + [0])
  {
    assert s1[at + 4..end + 1] == s1[at + 4..][..end + 1 - at - 4] == s0[at + 4..end + 1] == s[at + 4..end] + [0];
    assert s1[..end + 1] == s1[..at] + (s1[at..at + 4] + s1[at + 4..end + 1]);
  }

  /** `*buf` and `*buflen`, which a document shares with all its open descendants. */
  class Buffer {
    var data: array<byte>
    ghost var open: seq<Doc>
    ghost var frames: seq<Frame>

    constructor ()
      ensures fresh(data) && data.Length == INLINE_SIZE
      ensures data[0] == 5 && forall i | 1 <= i < 5 :: data[i] == 0
    {
      data := new byte[INLINE_SIZE];
      new;
      data[0], data[1], data[2], data[3], data[4] := 5, 0, 0, 0, 0;
    }

    ghost predicate Describes(i: nat)
      requires i < |open| == |frames|
      reads this, open
    {
      var d := open[i];
      && d.buf == this
      && d.offset == |Prefix(frames[..i + 1])|
      && d.len == (if i + 1 < |frames| then OpenLen(frames[i], frames[i + 1]) else |Encode(frames[i].elems)|)
      && d.depth == i
      && d.isChild == (i > 0)
      && d.inChild == (i + 1 < |open|)
      && d.parent == (if i == 0 then null else open[i - 1])
      && (d.inline ==> |open| == 1 && data.Length == INLINE_SIZE)
    }

    ghost predicate Valid()
      reads this, data, open
    {
      && |open| == |frames| >= 1
      && (forall i, j | 0 <= i < j < |open| :: open[i] != open[j])
      && (forall i | 0 <= i < |open| :: Describes(i))
      && |Image(frames)| + |open| - 1 <= data.Length
      && data[..|Image(frames)|] == Image(frames)
    }

    /** `realloc`, or the `malloc` and `memcpy` that move an inline document to the heap. */
    method Reallocate(size: nat, kept: nat)
      requires kept <= data.Length && kept <= size
      modifies `data
      ensures fresh(data) && data.Length == size && data[..kept] == old(data[..kept])
    {
      var bigger := new byte[size];
      forall i | 0 <= i < kept {
        bigger[i] := data[i];
      }
      data := bigger;
    }

    /** The innermost document ends where the image ends. */
    lemma TopExtent()
      requires Valid()
      ensures var d := open[|open| - 1];
              && d.offset == |Prefix(frames)| && d.len == |Encode(Top(frames).elems)|
              && d.offset + d.len == |Image(frames)|
              && d.depth == |open| - 1
              && (d.inline ==> d.offset == 0 && |open| == 1 && data.Length == INLINE_SIZE)
    {
      hide LE4, Body, OpenLen;
      assert Describes(|open| - 1);
      assert frames[..|frames|] == frames;
    }
  }

  /** `memcpy` into the buffer. */
  method CopyInto(data: array<byte>, at: nat, src: seq<byte>)
    requires at + |src| <= data.Length
    modifies data
    ensures data[..at] == old(data[..at])
    ensures data[at..at + |src|] == src
    ensures data[at + |src|..] == old(data[at + |src|..])
  {
    for i := 0 to |src|
      invariant data[..at] == old(data[..at])
      invariant data[at..at + i] == src[..i]
      invariant data[at + |src|..] == old(data[at + |src|..])
    {
      data[at + i] := src[i];
      assert data[at..at + i + 1] == data[at..at + i] + [src[i]];
    }
    assert src[..|src|] == src;
  }

  /** A `bson_t`. */
  class Doc {
    var inline: bool
    var isChild: bool
    var inChild: bool
    var len: nat
    var depth: nat
    var parent: Doc?
    var buf: Buffer
    var offset: nat

    constructor (buf: Buffer, parent: Doc?, depth: nat, offset: nat)
      ensures this.buf == buf && this.parent == parent && this.depth == depth && this.offset == offset
      ensures len == 5 && !inChild && isChild == (parent != null) && inline == (parent == null)
    {
      this.inline, this.isChild, this.inChild := parent == null, parent != null, false;
      this.len, this.depth, this.parent, this.buf, this.offset := 5, depth, parent, buf, offset;
    }

    static method Init() returns (d: Doc)
      ensures fresh(d) && fresh(d.buf) && fresh(d.buf.data)
      ensures d.buf.Valid() && d.buf.open == [d] && d.inline && d.buf.data.Length == INLINE_SIZE
      ensures d.buf.frames == [Frame([], false, [])]
    {
      var b := new Buffer();
      d := new Doc(b, null, 0, 0);
      b.open, b.frames := [d], [Frame([], false, [])];
      assert Image(b.frames) == Encode([]) == [5, 0, 0, 0, 0];
      assert b.data[..5] == [5, 0, 0, 0, 0];
    }

    ghost predicate Innermost()
      reads this, buf
    {
      buf.open != [] && buf.open[|buf.open| - 1] == this
    }

    /** How long the buffer must be for `n` more bytes, the documents' NULs included. */
    function Need(n: nat): nat
      reads this
    {
      offset + len + n + depth
    }

    /** Room for `n` more bytes, the documents' NULs included, in the buffer or in a larger one. */
    ghost predicate Fits(n: nat)
      reads this, buf
    {
      && n <= INT32_MAX - len
      && (offset + len + n + depth <= buf.data.Length || offset + len + n + depth <= MAX_BUFFER)
    }

    method Grow(size: nat) returns (ok: bool)
      requires buf.Valid() && Innermost()
      modifies buf`data, `inline
      ensures buf.Valid()
      ensures ok ==> buf.data.Length == Grown(offset + len + size + depth, old(buf.data.Length))
      ensures ok <==> (offset + len + size + depth <= old(buf.data.Length) || offset + len + size + depth <= MAX_BUFFER)
      ensures ok ==> offset + len + size + depth <= buf.data.Length
      ensures buf.data.Length == old(buf.data.Length) || buf.data.Length <= MAX_BUFFER
      ensures buf.data == old(buf.data) || fresh(buf.data)
      ensures !ok ==> buf.data == old(buf.data)
      ensures inline == (old(inline) && buf.data.Length == old(buf.data.Length))
      ensures inline && ok ==> len + size <= INLINE_SIZE
    {
      hide LE4, Prefix, Encode, Body, Image, NextPowerOfTwo, OpenLen;
      GrownSizeFits(offset + len + size + depth);
      buf.TopExtent();
      var req := if inline then len + size else offset + len + size + depth;
      var room := if inline then INLINE_SIZE else buf.data.Length;
      if req <= room {
        return true;
      }
      req := NextPowerOfTwo(req);
      if req > INT32_MAX {
        return false;
      }
      buf.Reallocate(req, if inline then len else buf.data.Length);
      inline := false;
      assert buf.data[..offset + len] == old(buf.data[..offset + len]);
      forall i | 0 <= i < |buf.open|
        ensures buf.Describes(i)
      {
        assert old(buf.Describes(i));
      }
      return true;
    }

    /** `_bson_encode_length`. */
    method EncodeLength()
      requires offset + 4 <= buf.data.Length
      modifies buf.data
      ensures buf.data[..offset] == old(buf.data[..offset])
      ensures buf.data[offset..offset + 4] == LE4(len)
      ensures buf.data[offset + 4..] == old(buf.data[offset + 4..])
    {
      CopyInto(buf.data, offset, LE4(len));
    }

    /** The copying loop of `_bson_append_va`: the pairs go over the old NUL and what follows it. */
    method CopyPairs(pairs: seq<seq<byte>>) returns (pos: nat)
      requires len >= 5 && offset + len + |Concat(pairs)| <= buf.data.Length
      modifies buf.data, `len
      ensures len == old(len) + |Concat(pairs)| && pos == offset + len - 1
      ensures buf.data[..pos] == old(buf.data[..offset + len - 1]) + Concat(pairs)
    {
      hide Concat;
      ghost var before, start := buf.data[..offset + len - 1], len;
      pos := offset + len - 1;
      Concat0();
      for i := 0 to |pairs|
        invariant len == start + |Concat(pairs[..i])| && pos == offset + len - 1
        invariant |Concat(pairs[..i])| <= |Concat(pairs)|
        invariant buf.data[..pos] == before + Concat(pairs[..i])
      {
        ConcatPrefix(pairs, i);
        CopyInto(buf.data, pos, pairs[i]);
        assert buf.data[..pos + |pairs[i]|] == buf.data[..pos] + buf.data[pos..pos + |pairs[i]|];
        len := len + |pairs[i]|;
        pos := pos + |pairs[i]|;
      }
      assert pairs[..|pairs|] == pairs;
    }

    /** `_bson_append_va`, once there is room. */
    method WritePairs(pairs: seq<seq<byte>>)
      requires len >= 5 && offset + len + |Concat(pairs)| <= buf.data.Length
      modifies buf.data, `len
      ensures len == old(len) + |Concat(pairs)|
      ensures buf.data[..offset + len]
           == old(buf.data[..offset]) + (LE4(len) + (old(buf.data[offset + 4..offset + len - 1]) + Concat(pairs)) + [0])
    {
      hide LE4, Concat;
      ghost var end, s := offset + len - 1, buf.data[..];
      var pos := CopyPairs(pairs);
      ghost var s0 := buf.data[..];
      EncodeLength();
      ghost var s1 := buf.data[..];
      buf.data[pos] := 0;
      assert buf.data[..pos + 1] == s1[..pos] + [0];
      Assemble(s, s0, s1, offset, end, Concat(pairs), LE4(len));
    }

    /** A successful append seen from the frames: only the innermost one gains elements. */
    method Commit(pairs: seq<seq<byte>>, ghost es: seq<Element>)
      requires buf.Valid() && Innermost()
      requires Concat(pairs) == Body(es) && offset + len + |Body(es)| + depth <= buf.data.Length
      modifies buf`frames, buf.data, `len
      ensures buf.Valid()
      ensures buf.frames == PutAll(old(buf.frames), es)
    {
      hide LE4, Body, Encode, Image, Prefix, Concat, OpenLen;
      ghost var fs, data := buf.frames, buf.data[..];
      buf.TopExtent();
      WritePairs(pairs);
      AppendImage(fs, es, data, buf.data[..offset + len]);
      buf.frames := PutAll(fs, es);
      forall i | 0 <= i < |buf.open|
        ensures buf.Describes(i)
      {
        assert old(buf.Describes(i));
        ExtentsOfPut(fs, es, i);
      }
    }

    /** `_bson_append`: `n` is the total the caller declares, `es` the elements whose bytes the pairs spell. */
    method AppendPairs(n: nat, pairs: seq<seq<byte>>, ghost es: seq<Element>) returns (ok: bool)
      requires buf.Valid() && Innermost()
      requires Concat(pairs) == Body(es) && n == |Body(es)|
      modifies buf, buf.data, `len, `inline
      ensures buf.Valid() && buf.open == old(buf.open)
      ensures ok == old(Fits(n))
      ensures buf.frames == if ok then PutAll(old(buf.frames), es) else old(buf.frames)
      ensures buf.data == old(buf.data) || fresh(buf.data)
      ensures buf.data.Length == old(if Fits(n) then Grown(Need(n), buf.data.Length) else buf.data.Length)
      ensures inline == (old(inline) && buf.data.Length == old(buf.data.Length))
    {
      hide LE4, Body, Encode, Image, Prefix, Concat;
      if n > INT32_MAX - len {
        return false;
      }
      ok := Grow(n);
      if ok {
        Commit(pairs, es);
      }
    }

    /** The `bson_append_*` family, one case per type; `bson_append_regex` is not part of it. */
    method AppendValue(e: Element) returns (ok: bool)
      requires buf.Valid() && Innermost() && !e.value.Regex?
      modifies buf, buf.data, `len, `inline
      ensures buf.Valid() && buf.open == old(buf.open)
      ensures ok == old(Fits(|ElementBytes(e)|))
      ensures buf.frames == if ok then PutAll(old(buf.frames), [e]) else old(buf.frames)
      ensures buf.data == old(buf.data) || fresh(buf.data)
      ensures buf.data.Length == old(if Fits(|ElementBytes(e)|) then Grown(Need(|ElementBytes(e)|), buf.data.Length) else buf.data.Length)
      ensures inline == (old(inline) && buf.data.Length == old(buf.data.Length))
    {
      var n, parts := ValueParts(e.value);
      var head := [[TypeOf(e.value)], e.key, [0]];
      ConcatConcat(head, parts);
      Concat3([TypeOf(e.value)], e.key, [0]);
      BodySingle(e);
      ok := AppendPairs(1 + |e.key| + 1 + n, head + parts, [e]);
    }

    /** The bytes that `bson_append_regex` declares: it leaves out the last NUL. */
    function RegexDeclares(key: CString, pattern: CString, options: CString): nat {
      1 + |key| + 1 + (|pattern| + 1) + |options|
    }

    /** Whether `n` declared bytes fill the buffer, as it is or as it will have grown, to its last byte. */
    predicate Fills(n: nat)
      reads this, buf
    {
      Grown(Need(n), buf.data.Length) == Need(n)
    }

    /**
     `bson_append_regex`.  It declares one byte fewer than it copies, so it must not be called when the
     declared bytes fill the buffer: `RegexKeepsRoomIff` says that this is the exact condition.
     */
    method AppendRegex(key: CString, pattern: CString, options: CString) returns (ok: bool)
      requires buf.Valid() && Innermost()
      requires var n := RegexDeclares(key, pattern, SortedOptions(options, REGEX_OPTIONS)); Fits(n) ==> !Fills(n)
      modifies buf, buf.data, `len, `inline
      ensures buf.Valid() && buf.open == old(buf.open)
      ensures ok == old(Fits(RegexDeclares(key, pattern, SortedOptions(options, REGEX_OPTIONS))))
      ensures buf.frames == if ok then PutAll(old(buf.frames), [RegexElement(key, pattern, options)]) else old(buf.frames)
      ensures buf.data == old(buf.data) || fresh(buf.data)
      ensures var n := RegexDeclares(key, pattern, SortedOptions(options, REGEX_OPTIONS));
              buf.data.Length == old(if Fits(n) then Grown(Need(n), buf.data.Length) else buf.data.Length)
      ensures inline == (old(inline) && buf.data.Length == old(buf.data.Length))
    {
      hide LE4, Encode, Image, Prefix, SortedOptions, Grown;
      var sorted := SortOptions(options);
      var n := RegexDeclares(key, pattern, sorted);
      ghost var e := RegexElement(key, pattern, options);
      RegexParts(key, pattern, sorted);
      BodySingle(e);
      if n > INT32_MAX - len {
        return false;
      }
      ok := Grow(n);
      if ok {
        Commit([[0x0b], key, [0], pattern + [0], sorted + [0]], [e]);
      }
    }

    /** A regex keeps room for the open documents' NULs exactly when what it declares does not fill the buffer. */
    lemma RegexKeepsRoomIff(key: CString, pattern: CString, options: CString)
      requires buf.Valid() && Innermost()
      ensures var n := RegexDeclares(key, pattern, SortedOptions(options, REGEX_OPTIONS));
              var after := PutAll(buf.frames, [RegexElement(key, pattern, options)]);
              |Image(after)| + |buf.open| - 1 <= Grown(offset + len + n + depth, buf.data.Length) <==> !Fills(n)
    {
      hide LE4, Prefix, SortedOptions, Grown, Encode, Body;
      var e := RegexElement(key, pattern, options);
      RegexParts(key, pattern, SortedOptions(options, REGEX_OPTIONS));
      BodySingle(e);
      buf.TopExtent();
      ImageOfPut(buf.frames, [e]);
      BodyConcat(Top(buf.frames).elems, [e]);
    }

    /** `bson_concat`: the elements of another document follow those of this one. */
    method AppendDocument(src: seq<byte>, ghost es: seq<Element>) returns (ok: bool)
      requires buf.Valid() && Innermost() && src == Encode(es)
      modifies buf, buf.data, `len, `inline
      ensures buf.Valid() && buf.open == old(buf.open)
      ensures ok == (es == [] || old(Fits(|src| - 5)))
      ensures buf.frames == if ok then PutAll(old(buf.frames), es) else old(buf.frames)
      ensures buf.data == old(buf.data) || fresh(buf.data)
      ensures inline ==> old(inline)
    {
      FirstByte(es);
      if |src| == 5 || src[4] == 0 {
        PutNothing(buf.frames);
        return true;
      }
      hide LE4, Concat;
      EncodeParts(es);
      Concat1(src[4..|src| - 1]);
      ok := AppendPairs(|src| - 5, [src[4..|src| - 1]], es);
    }

    /** `_bson_append_bson_begin`. */
    method AppendChildBegin(key: CString, isArray: bool) returns (ok: bool, child: Doc?)
      requires buf.Valid() && Innermost()
      modifies buf, buf.data, `len, `inline, `inChild
      ensures buf.Valid()
      ensures ok == old(Fits(1 + |key| + 1 + 5)) == (child != null)
      ensures ok ==> child.buf == buf && fresh(child)
      ensures ok ==> buf.open == old(buf.open) + [child] && buf.frames == old(buf.frames) + [Frame(key, isArray, [])]
      ensures !ok ==> buf.open == old(buf.open) && buf.frames == old(buf.frames)
      ensures buf.data == old(buf.data) || fresh(buf.data)
      ensures !inline && buf.data.Length == old(
                var heap := if inline then Grown(FIRST_HEAP_SIZE, buf.data.Length) else buf.data.Length;
                var n := 1 + |key| + 1 + 5;
                if Fits(n) then Grown(Need(n), heap) else heap)
    {
      hide LE4, Body, Encode, Image, Prefix, Concat;
      child := null;
      if inline {
        buf.TopExtent();
        ok := Grow(FIRST_HEAP_SIZE - len);
        if !ok {
          return;
        }
      }
      ghost var f := Frame(key, isArray, []);
      EmptyChildBytes(f);
      ok := AppendPairs(1 + |key| + 1 + 5, [[if isArray then 0x04 else 0x03], key, [0], [5, 0, 0, 0, 0]], [Closed(f)]);
      if ok {
        child := LinkChild(old(buf.frames), f);
      }
    }

    /** The second half of `_bson_append_bson_begin`: the appended empty document becomes an open child. */
    method LinkChild(ghost fs: seq<Frame>, ghost f: Frame) returns (child: Doc)
      requires buf.Valid() && Innermost() && !inline
      requires fs != [] && f.elems == [] && buf.frames == PutAll(fs, [Closed(f)])
      modifies buf`open, buf`frames, `inChild
      ensures buf.Valid() && child.buf == buf && fresh(child)
      ensures buf.open == old(buf.open) + [child] && buf.frames == fs + [f]
    {
      hide LE4, Body, Encode, Image, Prefix, Header;
      buf.TopExtent();
      OpenImage(fs, f);
      ExtentsOfOpen(fs, f, 0);
      inChild := true;
      child := new Doc(buf, this, depth + 1, offset + len - 1 - 5);
      buf.open, buf.frames := buf.open + [child], fs + [f];
      forall i | 0 <= i < |buf.open|
        ensures buf.Describes(i)
      {
        assert i < |fs| ==> old(buf.Describes(i));
        ExtentsOfOpen(fs, f, i);
        if i < |fs| {
          ExtentsOfPut(fs, [Closed(f)], i);
        }
      }
    }

    /** The stores of `_bson_append_bson_end`: the parent takes in a child of `childLen` bytes. */
    method AbsorbChild(childLen: nat)
      requires len >= 6 && childLen >= 5 && offset + len + childLen - 5 <= buf.data.Length
      modifies buf.data, `len
      ensures len == old(len) + childLen - 5
      ensures buf.data[..offset + len]
           == old(buf.data[..offset]) + (LE4(len) + old(buf.data[offset + 4..offset + len + childLen - 6]) + [0])
    {
      hide LE4;
      ghost var s := buf.data[..];
      len := len + childLen - 5;
      buf.data[offset + len - 1] := 0;
      ghost var s0 := buf.data[..];
      EncodeLength();
      CloseStores(s, s0, buf.data[..], offset, offset + len - 1, LE4(len));
    }

    /** `_bson_append_bson_end`: `this` is the parent.  The buffer never grows here. */
    method AppendChildEnd(child: Doc)
      requires buf.Valid() && |buf.open| >= 2
      requires child == buf.open[|buf.open| - 1] && this == buf.open[|buf.open| - 2]
      modifies buf`open, buf`frames, buf.data, `len, `inChild
      ensures buf.Valid()
      ensures buf.open == old(buf.open)[..|old(buf.open)| - 1]
      ensures buf.frames == PutAll(old(buf.frames)[..|buf.open|], [Closed(Top(old(buf.frames)))])
    {
      hide LE4, Body, Encode, Image, Prefix, Header;
      ghost var n := |buf.open| - 1;
      ghost var fs, f, data := buf.frames[..n], Top(buf.frames), buf.data[..];
      assert buf.Describes(n - 1) && buf.frames == fs + [f];
      buf.TopExtent();
      PrefixLength(fs, f);
      assert fs[..n] == fs;
      inChild := false;
      AbsorbChild(child.len);
      CloseImage(fs, f, data, buf.data[..offset + len]);
      buf.open, buf.frames := buf.open[..n], PutAll(fs, [Closed(f)]);
      forall i | 0 <= i < n
        ensures buf.Describes(i)
      {
        assert old(buf.Describes(i));
        ExtentsOfPut(fs, [Closed(f)], i);
        assert (fs + [f])[..i + 1] == fs[..i + 1];
      }
    }
  }

  /** What is appended: the options are sorted first. */
  function RegexElement(key: CString, pattern: CString, options: CString): Element {
    Element(key, Regex(pattern, SortedOptions(options, REGEX_OPTIONS)))
  }

  lemma RegexParts(key: CString, pattern: CString, sorted: CString)
    ensures var e := Element(key, Regex(pattern, sorted));
            Concat([[0x0b], key, [0], pattern + [0], sorted + [0]]) == ElementBytes(e)
            && |ElementBytes(e)| == 1 + |key| + 1 + (|pattern| + 1) + (|sorted| + 1)
  {
    hide Concat;
    var head, tail := [[0x0b], key, [0]], [pattern + [0], sorted + [0]];
    assert [[0x0b], key, [0], pattern + [0], sorted + [0]] == head + tail;
    ConcatConcat(head, tail);
    Concat3([0x0b], key, [0]);
    Concat2(pattern + [0], sorted + [0]);
    assert (pattern + [0]) + (sorted + [0]) == pattern + [0] + sorted + [0];
  }

  /** A value's pairs, and the number of bytes its append function declares for them. */
  method ValueParts(v: Value) returns (n: nat, parts: seq<seq<byte>>)
    requires !v.Regex?
    ensures Concat(parts) == Payload(v) && n == |Payload(v)|
  {
    hide LE4, LE8, Encode, Concat, ToUnsigned32, ToUnsigned64;
    match v
    case Double(bits) =>
      n, parts := 8, [bits];
      Concat1(bits);
    case Utf8(text) =>
      n, parts := 4 + |text| + 1, [LE4(|text| + 1), text, [0]];
      Concat3(LE4(|text| + 1), text, [0]);
    case Document(fields) =>
      n, parts := |Encode(fields)|, [Encode(fields)];
      Concat1(Encode(fields));
    case Array(items) =>
      n, parts := |Encode(items)|, [Encode(items)];
      Concat1(Encode(items));
    case Binary(subtype, data) =>
      if subtype == 2 {
        n, parts := 4 + 1 + 4 + |data|, [LE4(|data| + 4), [subtype], LE4(|data|), data];
        Concat4(LE4(|data| + 4), [subtype], LE4(|data|), data);
      } else {
        n, parts := 4 + 1 + |data|, [LE4(|data|), [subtype], data];
        Concat3(LE4(|data|), [subtype], data);
      }
    case ObjectId(oid) =>
      n, parts := 12, [oid];
      Concat1(oid);
    case Boolean(b) =>
      n, parts := 1, [[if b then 1 else 0]];
      Concat1([if b then 1 else 0]);
    case DateTime(ms) =>
      n, parts := 8, [LE8(ToUnsigned64(ms))];
      Concat1(LE8(ToUnsigned64(ms)));
    case DbPointer(collection, target) =>
      var length := |collection| + 1;
      n, parts := 4 + length + 12, [LE4(length), collection + [0], target];
      Concat3(LE4(length), collection + [0], target);
    case Code(js) =>
      var length := |js| + 1;
      n, parts := 4 + length, [LE4(length), js + [0]];
      Concat2(LE4(length), js + [0]);
    case Symbol(text) =>
      n, parts := 4 + |text| + 1, [LE4(|text| + 1), text, [0]];
      Concat3(LE4(|text| + 1), text, [0]);
    case CodeWithScope(js, scope) =>
      var length := |js| + 1;
      var total := 4 + 4 + length + |Encode(scope)|;
      n, parts := 4 + 4 + length + |Encode(scope)|, [LE4(total), LE4(length), js + [0], Encode(scope)];
      Concat4(LE4(total), LE4(length), js + [0], Encode(scope));
    case Int32(i) =>
      n, parts := 4, [LE4(ToUnsigned32(i))];
      Concat1(LE4(ToUnsigned32(i)));
    case Timestamp(t, inc) =>
      n, parts := 8, [LE8(t * TWO_32 + inc)];
      Concat1(LE8(t * TWO_32 + inc));
    case Int64(l) =>
      n, parts := 8, [LE8(ToUnsigned64(l))];
      Concat1(LE8(ToUnsigned64(l)));
    case Decimal128(low, high) =>
      n, parts := 16, [LE8(low) + LE8(high)];
      Concat1(LE8(low) + LE8(high));
    case Undefined | Null | MinKey | MaxKey =>
      n, parts := 0, [];
      Concat0();
  }
}
