/** `bson-md5.c`: the streaming part of MD5, for any compression function of a state and a 64-byte block. */
module Md5 {
  import opened Bytes
  import Layout = BsonLayout

  datatype Words = Words(a: uint32, b: uint32, c: uint32, d: uint32)

  type Compress = (Words, seq<byte>) -> Words

  const INIT: Words := Words(0x67452301, 0xefcdab89, 0x98badcfe, 0x10325476)

  /** The compression function over the full blocks of a message. */
  function Fold(f: Compress, m: seq<byte>): Words
    decreases |m|
  {
    if |m| < 64 then INIT
    else
      var full := |m| - |m| % 64;
      f(Fold(f, m[..full - 64]), m[full - 64..full])
  }

  function Tail(m: seq<byte>): seq<byte> { m[|m| - |m| % 64..] }

  function Zeros(n: nat): (z: seq<byte>)
    ensures |z| == n && forall i | 0 <= i < n :: z[i] == 0
  {
    if n == 0 then [] else Zeros(n - 1) + [0]
  }

  /** Sections 3.1 and 3.2 of RFC 1321: a one bit, zeros up to 56 bytes modulo 64, and the length in bits. */
  function Padded(m: seq<byte>): seq<byte> {
    m + ([0x80] + Zeros((55 - |m|) % 64)) + LE8(8 * |m| % TWO_64)
  }

  /** The four words, low byte first. */
  function DigestBytes(w: Words): seq<byte> { LE4(w.a) + LE4(w.b) + LE4(w.c) + LE4(w.d) }

  /** Padding and hashing a message at once. */
  function Digest(f: Compress, m: seq<byte>): seq<byte> { DigestBytes(Fold(f, Padded(m))) }

  lemma PaddingArithmetic(n: nat)
    ensures (n + 1 + (55 - n) % 64 + 8) % 64 == 0
  {
    var q, r := n / 64, n % 64;
    if r <= 55 {
      assert (55 - n) % 64 == 55 - r;
      assert n + 1 + (55 - r) + 8 == 64 * (q + 1);
    } else {
      assert (55 - n) % 64 == 119 - r;
      assert n + 1 + (119 - r) + 8 == 64 * (q + 2);
    }
  }

  lemma PaddedLength(m: seq<byte>)
    ensures |Padded(m)| == |m| + 1 + (55 - |m|) % 64 + 8 && |Padded(m)| % 64 == 0
  {
    PaddingArithmetic(|m|);
    hide LE8;
  }

  lemma NextBlock(n: nat)
    requires n % 64 == 0
    ensures (n + 64) % 64 == 0
  {}

  lemma FoldBlock(f: Compress, m: seq<byte>, block: seq<byte>)
    requires |m| % 64 == 0 && |block| == 64
    ensures Fold(f, m + block) == f(Fold(f, m), block)
  {
    var w := m + block;
    NextBlock(|m|);
    assert |w| - |w| % 64 == |m| + 64;
    assert w[..|m|] == m && w[|m|..|m| + 64] == block;
  }

  /** Only the full blocks count. */
  lemma FoldIgnoresTail(f: Compress, m: seq<byte>, tail: seq<byte>)
    requires |m| % 64 == 0 && |tail| < 64
    ensures Fold(f, m + tail) == Fold(f, m) && Tail(m + tail) == tail
  {
    var w := m + tail;
    OffsetSum(|m|, |tail|);
    assert |w| - |w| % 64 == |m|;
    if |m| >= 64 {
      assert w[..|m| - 64] == m[..|m| - 64] && w[|m| - 64..|m|] == m[|m| - 64..|m|];
    }
  }

  lemma Whole(m: seq<byte>)
    ensures var full := |m| - |m| % 64;
            full % 64 == 0 && m == m[..full] + Tail(m) && |Tail(m)| == |m| % 64
  {}

  class State {
    const compress: Compress
    var count0: uint32
    var count1: uint32
    var abcd: Words
    const buf: array<byte>
    ghost var message: seq<byte>

    /** What has been appended so far, as the fields hold it. */
    ghost predicate Valid()
      reads this, buf
    {
      && buf.Length == 64
      && count1 * TWO_32 + count0 == 8 * |message| % TWO_64
      && abcd == Fold(compress, message)
      && buf[..|message| % 64] == Tail(message)
    }

    /** `bson_md5_init`. */
    constructor (f: Compress)
      ensures Valid() && message == [] && compress == f && fresh(buf)
    {
      compress := f;
      count0, count1 := 0, 0;
      abcd := INIT;
      buf := new byte[64];
      message := [];
    }

    /** The two-word counter. */
    method Count(nbytes: uint32)
      modifies this`count0, this`count1
      ensures count1 * TWO_32 + count0 == (old(count1 * TWO_32 + count0) + 8 * nbytes) % TWO_64
    {
      var nbits: uint32 := nbytes * 8 % TWO_32;
      CarrySum(count1, count0, nbytes);
      count1 := (count1 + nbytes / 0x2000_0000) % TWO_32;
      count0 := (count0 + nbits) % TWO_32;
      if count0 < nbits {
        count1 := (count1 + 1) % TWO_32;
      }
    }

    /** Copies bytes into the partial block. */
    method Copy(at: nat, data: seq<byte>)
      requires buf.Length == 64 && at + |data| <= 64
      modifies buf
      ensures buf[..at + |data|] == old(buf[..at]) + data
    {
      for i := 0 to |data|
        invariant buf[..at] == old(buf[..at]) && buf[at..at + i] == data[..i]
      {
        buf[at + i] := data[i];
      }
      assert data[..|data|] == data;
      assert buf[..at + |data|] == buf[..at] + buf[at..at + |data|];
    }

    /** The full blocks in the middle of an append. */
    method Blocks(data: seq<byte>, from: nat, ghost before: seq<byte>) returns (p: nat)
      requires from <= |data| && |before + data[..from]| % 64 == 0 && abcd == Fold(compress, before + data[..from])
      modifies this`abcd
      ensures from <= p <= |data| < p + 64 && |before + data[..p]| % 64 == 0 && abcd == Fold(compress, before + data[..p])
    {
      hide Fold;
      p := from;
      while |data| - p >= 64
        invariant from <= p <= |data| && |before + data[..p]| % 64 == 0 && abcd == Fold(compress, before + data[..p])
      {
        var block := data[p..p + 64];
        FoldBlock(compress, before + data[..p], block);
        NextBlock(|before + data[..p]|);
        assert (before + data[..p]) + block == before + data[..p + 64];
        abcd := compress(abcd, block);
        p := p + 64;
      }
    }

    /** A partial block left by earlier appends: it is filled up, and compressed if it becomes full. */
    method FillPartial(data: seq<byte>, offset: nat, ghost before: seq<byte>) returns (full: bool, p: nat)
      requires 0 < offset == |before| % 64 && buf.Length == 64 && buf[..offset] == Tail(before) && abcd == Fold(compress, before)
      modifies this`abcd, buf
      ensures p == (if offset + |data| > 64 then 64 - offset else |data|) && (full <==> offset + p == 64)
      ensures full ==> |before + data[..p]| % 64 == 0 && abcd == Fold(compress, before + data[..p])
      ensures !full ==> abcd == Fold(compress, before + data) && |before + data| % 64 == offset + |data|
                        && buf[..offset + |data|] == Tail(before + data)
    {
      hide Fold, Tail;
      p := if offset + |data| > 64 then 64 - offset else |data|;
      Whole(before);
      ghost var done := before[..|before| - |before| % 64];
      ghost var pending := Tail(before) + data[..p];
      assert done + pending == before + data[..p];
      FoldIgnoresTail(compress, done, Tail(before));
      Copy(offset, data[..p]);
      full := offset + p >= 64;
      if full {
        assert buf[..] == buf[..64] == pending;
        FoldBlock(compress, done, pending);
        NextBlock(|done|);
        abcd := compress(abcd, buf[..]);
      } else {
        assert data[..p] == data;
        FoldIgnoresTail(compress, done, pending);
        OffsetSum(|done|, |pending|);
      }
    }

    /** `bson_md5_append`: whatever the pieces, the state is that of all the bytes so far. */
    method Append(data: seq<byte>)
      requires Valid() && |data| < 0x8000_0000
      modifies this, buf
      ensures Valid() && message == old(message) + data
    {
      hide Fold, Tail;
      var nbytes := |data|;
      var offset := count0 / 8 % 64;
      CounterOffset(count0, count1, |message|);
      if nbytes <= 0 {
        assert message + data == message;
        return;
      }
      Count(nbytes);
      ghost var before := message;
      CounterSum(|before|, nbytes);
      message := message + data;
      var p := 0;
      assert before + data[..0] == before;
      if offset != 0 {
        var full;
        full, p := FillPartial(data, offset, before);
        if !full {
          return;
        }
      }
      p := Blocks(data, p, before);
      if nbytes - p != 0 {
        Copy(0, data[p..]);
      }
      LastPiece(compress, before + data[..p], data[p..]);
      assert (before + data[..p]) + data[p..] == before + data;
    }

    /** `bson_md5_finish`: the same digest as padding and hashing the whole message at once. */
    method Finish() returns (digest: seq<byte>)
      requires Valid()
      modifies this, buf
      ensures digest == Digest(compress, old(message))
    {
      hide Fold, Tail, LE4, LE8, DigestBytes;
      ghost var m := message;
      var data := LE4(count0) + LE4(count1);
      LengthBytes(count0, count1, |m|);
      PadLength(count0, count1, |m|);
      var pad := [0x80] + Zeros((55 - count0 / 8) % 64);
      Append(pad);
      Append(data);
      assert message == Padded(m);
      PaddedLength(m);
      return DigestBytes(abcd);
    }
  }

  lemma LengthBytes(count0: uint32, count1: uint32, n: nat)
    requires count1 * TWO_32 + count0 == 8 * n % TWO_64
    ensures LE4(count0) + LE4(count1) == LE8(8 * n % TWO_64)
  {
    var k := 8 * n % TWO_64;
    assert k % TWO_32 == count0 && k / TWO_32 == count1;
    hide LE4;
  }

  lemma PadLength(count0: uint32, count1: uint32, n: nat)
    requires count1 * TWO_32 + count0 == 8 * n % TWO_64
    ensures (55 - count0 / 8) % 64 == (55 - n) % 64
  {
    CounterOffset(count0, count1, n);
    SameRemainder(count0 / 8, n);
  }

  lemma SameRemainder(a: int, b: int)
    requires a % 64 == b % 64
    ensures (55 - a) % 64 == (55 - b) % 64
  {
    assert 55 - a == (55 - b) + 64 * (b / 64 - a / 64);
  }

  lemma OffsetSum(a: nat, b: nat)
    requires a % 64 == 0 && b < 64
    ensures (a + b) % 64 == b
  {}

  lemma LastPiece(f: Compress, done: seq<byte>, tail: seq<byte>)
    requires |done| % 64 == 0 && |tail| < 64
    ensures Fold(f, done + tail) == Fold(f, done) && Tail(done + tail) == tail && |done + tail| % 64 == |tail|
  {
    hide Fold;
    FoldIgnoresTail(f, done, tail);
    OffsetSum(|done|, |tail|);
  }

  lemma CounterOffset(count0: uint32, count1: uint32, n: nat)
    requires count1 * TWO_32 + count0 == 8 * n % TWO_64
    ensures count0 / 8 % 64 == n % 64
  {}

  lemma CounterSum(n: nat, k: nat)
    ensures (8 * n % TWO_64 + 8 * k) % TWO_64 == 8 * (n + k) % TWO_64
  {}

  lemma CarrySum(high: uint32, low: uint32, n: uint32)
    ensures var bits := n * 8 % TWO_32;
            var h, l := (high + n / 0x2000_0000) % TWO_32, (low + bits) % TWO_32;
            (if l < bits then (h + 1) % TWO_32 else h) * TWO_32 + l == (high * TWO_32 + low + 8 * n) % TWO_64
  {
    var bits, up := n * 8 % TWO_32, n / 0x2000_0000;
    assert 8 * n == up * TWO_32 + bits;
    var carry := if low + bits >= TWO_32 then 1 else 0;
    var l := low + bits - carry * TWO_32;
    assert (low + bits) % TWO_32 == l && (l < bits <==> carry == 1);
    Wrap(high + up + carry, l);
    Wrapped(high + up);
    Wrapped(high + up + carry);
    Wrapped((high + up) % TWO_32 + carry);
    assert high * TWO_32 + low + 8 * n == (high + up + carry) * TWO_32 + l;
  }

  lemma Wrapped(h: nat)
    requires h < 2 * TWO_32
    ensures h % TWO_32 == if h < TWO_32 then h else h - TWO_32
  {}

  lemma Wrap(h: nat, l: uint32)
    requires h < 2 * TWO_32
    ensures (h * TWO_32 + l) % TWO_64 == (if h < TWO_32 then h else h - TWO_32) * TWO_32 + l
  {}

  /** The four words of section 3.3 of RFC 1321, low-order byte first. */
  lemma FirstWords()
    ensures DigestBytes(INIT) == [0x01, 0x23, 0x45, 0x67, 0x89, 0xab, 0xcd, 0xef, 0xfe, 0xdc, 0xba, 0x98, 0x76, 0x54, 0x32, 0x10]
  {}

  /** What follows the message: a one bit, zero bits, and in the last eight bytes its length in bits, low-order byte first. */
  lemma PaddingIs(m: seq<byte>)
    requires |m| < 0x2000_0000_0000_0000
    ensures var p := Padded(m);
            && |p| % 64 == 0 && |m| + 9 <= |p| <= |m| + 72 && p[..|m|] == m && p[|m|] == 0x80
            && (forall i | |m| < i < |p| - 8 :: p[i] == 0)
            && Layout.Little(p[|p| - 8..]) == 8 * |m|
  {
    hide LE8, Layout.Little;
    PaddedLength(m);
    var zeros, size := Zeros((55 - |m|) % 64), LE8(8 * |m| % TWO_64);
    Layout.EightBytes(8 * |m|);
    var p := Padded(m);
    assert p == (m + ([0x80] + zeros)) + size;
    assert p[|p| - 8..] == size;
  }
}
