/** `bson-reader.c`: the reader over a callback refines the reader over memory, however the stream is cut. */
module Reader {
  import opened Bytes

  datatype Option<T> = None | Some(value: T)

  const LIMIT: int := 0x4000_0000

  /** The length field of a document, as the `int32_t` the readers compare. */
  function LengthAt(s: seq<byte>, at: nat): int32
    requires at + 4 <= |s|
  {
    ToSigned32(U32At(s, at))
  }

  datatype Outcome = Doc(bytes: seq<byte>) | Corrupt | Short | Ended

  /** What stands at a position of a whole stream. */
  function DocumentAt(s: seq<byte>, at: nat): Outcome
    requires at <= |s|
  {
    if at == |s| then Ended
    else if at + 4 > |s| then Short
    else
      var n := LengthAt(s, at);
      if n < 5 then Corrupt
      else if n > |s| - at then Short
      else if s[at + n - 1] != 0 then Corrupt
      else Doc(s[at..at + n])
  }

  /** All the documents from a position on. */
  function Documents(s: seq<byte>, at: nat): seq<seq<byte>>
    requires at <= |s|
    decreases |s| - at
  {
    match DocumentAt(s, at)
    case Doc(d) => [d] + Documents(s, at + |d|)
    case _ => []
  }

  /** `bson_init_static` on `length` bytes. */
  predicate InitStatic(data: seq<byte>) {
    5 <= |data| <= INT32_MAX && U32At(data, 0) == |data| && data[|data| - 1] == 0
  }

  /** The first bytes of a document hold its length again. */
  lemma InitsFromField(s: seq<byte>, at: nat, n: nat)
    requires at + 4 <= |s| && n == LengthAt(s, at) && 5 <= n <= |s| - at
    ensures InitStatic(s[at..at + n]) <==> s[at + n - 1] == 0
  {
    var d := s[at..at + n];
    assert d[0] == s[at] && d[1] == s[at + 1] && d[2] == s[at + 2] && d[3] == s[at + 3];
    assert U32At(d, 0) == U32At(s, at);
  }

  /** `bson_reader_data_t`. */
  class DataReader {
    const data: seq<byte>
    var offset: nat

    constructor (data: seq<byte>)
      ensures this.data == data && offset == 0
    {
      this.data := data;
      offset := 0;
    }

    /** `_bson_reader_data_read`: what is left is cast to `int32_t`, so a document may be refused where 2^31 bytes or more are. */
    method Read() returns (doc: Option<seq<byte>>, reachedEof: bool)
      requires offset <= |data|
      modifies this
      ensures offset <= |data|
      ensures match DocumentAt(data, old(offset))
              case Doc(d) =>
                !reachedEof && if |d| <= ToSigned32((|data| - old(offset)) % TWO_32) then doc == Some(d) && offset == old(offset) + |d|
                               else doc == None && offset == old(offset)
              case other => doc == None && offset == old(offset) && (reachedEof <==> other.Ended?)
    {
      reachedEof := false;
      if offset + 4 < |data| {
        var blen := LengthAt(data, offset);
        if blen < 5 {
          return None, reachedEof;
        }
        if blen > ToSigned32((|data| - offset) % TWO_32) {
          return None, reachedEof;
        }
        InitsFromField(data, offset, blen);
        if !InitStatic(data[offset..offset + blen]) {
          return None, reachedEof;
        }
        doc := Some(data[offset..offset + blen]);
        offset := offset + blen;
        return;
      }
      reachedEof := offset == |data|;
      doc := None;
    }
  }

  /** The source of bytes behind a read callback: it may hand out any number of those asked for, or fail. */
  class Source {
    const all: seq<byte>
    const mayFail: bool
    var taken: nat

    constructor (all: seq<byte>, mayFail: bool)
      ensures this.all == all && this.mayFail == mayFail && taken == 0
    {
      this.all, this.mayFail := all, mayFail;
      taken := 0;
    }

    method Read(count: nat) returns (ret: int, chunk: seq<byte>)
      requires taken <= |all|
      modifies this
      ensures old(taken) <= taken <= |all| && chunk == all[old(taken)..taken]
      ensures ret > 0 ==> ret == |chunk| <= count
      ensures ret <= 0 ==> taken == old(taken)
      ensures ret == 0 <==> count == 0 || old(taken) == |all|
      ensures ret < 0 ==> mayFail
    {
      if count == 0 || taken == |all| {
        return 0, [];
      }
      var fail: bool := *;
      if fail && mayFail {
        return -1, [];
      }
      var n: nat :| 1 <= n <= count && n <= |all| - taken;
      chunk := all[taken..taken + n];
      taken := taken + n;
      ret := n;
    }
  }

  /** `bson_reader_handle_t`. */
  class HandleReader {
    const source: Source
    var done: bool
    var failed: bool
    var end: nat
    var len: nat
    var offset: nat
    var bytesRead: nat
    var data: array<byte>
    ghost var largest: nat

    /** `_bson_reader_handle_tell`. */
    function Tell(): int
      reads this
    {
      bytesRead - end + offset
    }

    /** The buffer holds the stream from `Tell` on, as far as it has been read. */
    ghost predicate Buffered()
      reads this, source, data
    {
      && data.Length == len && offset <= end <= len
      && bytesRead == source.taken <= |source.all| && 0 <= Tell() && (failed ==> done && source.mayFail)
      && data[offset..end] == source.all[Tell()..bytesRead]
    }

    /** ... and is at most twice as large as the largest document it had to hold. */
    ghost predicate Valid()
      reads this, source, data
    {
      Buffered() && 1024 <= len <= (if 2 * largest > 1024 then 2 * largest else 1024) && (done ==> Over())
    }

    /** The callback has given up: with an error, or at the end of a stream that has no complete document left. */
    ghost predicate Over()
      requires Buffered()
      reads this, source, data
    {
      && (bytesRead < |source.all| ==> source.mayFail)
      && (bytesRead == |source.all| ==> DocumentAt(source.all, Tell()).Ended? || DocumentAt(source.all, Tell()).Short?)
    }

    /** The document at `Tell` is not in the buffer yet, or not all of it. */
    ghost predicate Incomplete()
      requires Buffered()
      reads this, source, data
    {
      end - offset < 4 || (LengthAt(source.all, Tell()) >= 5 && LengthAt(source.all, Tell()) > end - offset)
    }

    /** `bson_reader_new_from_handle`. */
    constructor (source: Source)
      requires source.taken == 0
      modifies source
      ensures Valid() && fresh(data) && this.source == source && Tell() == 0
    {
      this.source := source;
      done, failed := false, false;
      data := new byte[1024](_ => 0);
      end, len, offset, bytesRead, largest := 0, 1024, 0, 0, 0;
      new;
      assert data[0..0] == [] && source.all[0..0] == [];
      FillBuffer();
    }

    /** Copies what the callback returned behind the unread bytes. */
    method Store(at: nat, chunk: seq<byte>)
      requires at + |chunk| <= data.Length
      modifies data
      ensures data[..at] == old(data[..at]) && data[at..at + |chunk|] == chunk
    {
      for i := 0 to |chunk|
        invariant data[..at] == old(data[..at]) && data[at..at + i] == chunk[..i]
      {
        data[at + i] := chunk[i];
      }
      assert chunk[..|chunk|] == chunk;
    }

    /** Moves the unread bytes to the front of the buffer. */
    method MoveToHead()
      requires offset <= end <= data.Length
      modifies data, this`end, this`offset
      ensures offset == 0 && end == old(end - offset) && data[..end] == old(data[offset..end])
    {
      ghost var was := data[offset..end];
      var n := end - offset;
      for i := 0 to n
        invariant end == old(end) && offset == old(offset) && |was| == n
        invariant data[..i] == was[..i]
        invariant forall k | offset + i <= k < end :: data[k] == was[k - offset]
      {
        data[i] := data[offset + i];
      }
      end := n;
      offset := 0;
    }

    /** The first read of `_bson_reader_handle_fill_buffer`. */
    method FillFirst()
      requires Buffered() && !done && offset == 0 && end == 0 && len > 0
      modifies this`done, this`end, this`bytesRead, source, data
      ensures Buffered() && Tell() == old(Tell())
      ensures if done then bytesRead == old(bytesRead) && end == 0 && (bytesRead < |source.all| ==> source.mayFail)
              else bytesRead > old(bytesRead)
    {
      var ret, chunk := source.Read(len);
      if ret <= 0 {
        done := true;
        return;
      }
      Store(0, chunk);
      bytesRead := bytesRead + ret;
      end := ret;
    }

    /** ... and the later ones. */
    method FillMore()
      requires Buffered() && !done && end - offset < len
      modifies this`done, this`failed, this`end, this`offset, this`bytesRead, source, data
      ensures Buffered() && Tell() == old(Tell())
      ensures if done then bytesRead == old(bytesRead) && end - offset == old(end - offset) && (bytesRead < |source.all| ==> source.mayFail)
              else bytesRead > old(bytesRead)
    {
      ghost var at := Tell();
      MoveToHead();
      assert data[0..end] == data[..end] == source.all[at..bytesRead];
      var ret, chunk := source.Read(len - end);
      if ret <= 0 {
        done := true;
        failed := ret < 0;
      } else {
        Store(end, chunk);
        JoinSlices(source.all, at, bytesRead, bytesRead + ret);
        assert data[..end + ret] == data[..end] + data[end..end + ret];
        bytesRead := bytesRead + ret;
        end := end + ret;
        assert data[0..end] == data[..end];
      }
    }

    /** `_bson_reader_handle_fill_buffer`: either more of the stream is in the buffer, or the reader is done. */
    method FillBuffer()
      requires Buffered() && !done && end - offset < len && Incomplete()
      modifies this`done, this`failed, this`end, this`offset, this`bytesRead, source, data
      ensures Buffered() && Tell() == old(Tell())
      ensures if done then bytesRead == old(bytesRead) && Over() else bytesRead > old(bytesRead)
    {
      StillShort(source.all, Tell(), bytesRead);
      hide DocumentAt;
      if offset == 0 && end == 0 {
        FillFirst();
      } else {
        FillMore();
      }
    }

    /** `_bson_reader_handle_grow_buffer`. */
    method GrowBuffer()
      requires Buffered()
      modifies this`len, this`data
      ensures Buffered() && len == 2 * old(len) && fresh(data) && Tell() == old(Tell())
    {
      var size := len * 2;
      var grown := new byte[size](_ => 0);
      for i := 0 to len
        invariant data == old(data) && Buffered() && grown != data && grown.Length == size
        invariant grown[..i] == data[..i]
      {
        grown[i] := data[i];
      }
      SamePrefix(grown[..len], data[..len], grown[offset..end], data[offset..end], offset, end);
      data := grown;
      len := size;
    }

    /** The length field the next read will find is one the readers' casts can hold. */
    ghost predicate Sensible()
      requires Buffered()
      reads this, source, data
    {
      Tell() + 4 <= |source.all| ==> LengthAt(source.all, Tell()) < LIMIT
    }

    /** More of the stream, in a larger buffer if the document at `Tell` does not fit. */
    method Obtain(blen: nat)
      requires Valid() && Sensible() && !done && end - offset >= 4 && blen == LengthAt(source.all, Tell()) && blen > end - offset && blen >= 5
      modifies this`done, this`failed, this`end, this`offset, this`bytesRead, this`len, this`data, this`largest, source, data
      ensures Valid() && Tell() == old(Tell()) && (data == old(data) || fresh(data)) && len >= old(len)
      ensures bytesRead >= old(bytesRead) && (done || bytesRead > old(bytesRead))
      ensures largest == old(largest) || largest == blen
    {
      hide DocumentAt, LengthAt;
      if blen > len {
        largest := if blen > largest then blen else largest;
        GrowBuffer();
      }
      FillBuffer();
    }

    /** A complete document in the buffer is handed out if `bson_init_static` accepts it. */
    method Take(blen: nat) returns (doc: Option<seq<byte>>)
      requires Valid() && !done && 5 <= blen <= end - offset && blen == LengthAt(source.all, Tell())
      modifies this`offset
      ensures Valid()
      ensures doc.Some? ==> DocumentAt(source.all, old(Tell())) == Doc(doc.value) && Tell() == old(Tell()) + |doc.value|
      ensures doc.None? ==> DocumentAt(source.all, old(Tell())).Corrupt? && Tell() == old(Tell())
    {
      ghost var at := Tell();
      InitsFromField(source.all, at, blen);
      SameBytes(data[..], offset, end, source.all, at, bytesRead, blen);
      assert data[..][offset..offset + blen] == data[offset..offset + blen] && data[..][offset..end] == data[offset..end];
      if !InitStatic(data[offset..offset + blen]) {
        return None;
      }
      doc := Some(data[offset..offset + blen]);
      Advance(data[..], offset, end, source.all, at, bytesRead, blen);
      offset := offset + blen;
      assert data[..][offset..end] == data[offset..end];
    }

    /**
     `_bson_reader_handle_read`: on a stream that does not fail it returns what the reader over memory
     returns, and stays where that stays; it ends for every way of cutting the stream.
     */
    method Read() returns (doc: Option<seq<byte>>, reachedEof: bool)
      requires Valid() && Sensible()
      modifies this, source, data
      ensures Valid() && (data == old(data) || fresh(data)) && len >= old(len)
      ensures largest == old(largest) || (old(Tell()) + 4 <= |source.all| && largest == LengthAt(source.all, old(Tell())))
      ensures doc.Some? ==> DocumentAt(source.all, old(Tell())) == Doc(doc.value) && Tell() == old(Tell()) + |doc.value| && !reachedEof
      ensures doc.None? ==> Tell() == old(Tell())
      ensures !source.mayFail ==> (doc.Some? <==> DocumentAt(source.all, old(Tell())).Doc?)
      ensures !source.mayFail ==>
                (reachedEof <==> DocumentAt(source.all, old(Tell())).Ended? || DocumentAt(source.all, old(Tell())).Short?)
    {
      hide InitStatic;
      reachedEof := false;
      doc := None;
      while !done
        invariant Valid() && Sensible() && Tell() == old(Tell()) && (data == old(data) || fresh(data)) && len >= old(len)
        invariant largest == old(largest) || (old(Tell()) + 4 <= |source.all| && largest == LengthAt(source.all, old(Tell())))
        decreases |source.all| - bytesRead + if done then 0 else 1
      {
        if end - offset < 4 {
          FillBuffer();
          continue;
        }
        assert data[..][offset..end] == data[offset..end];
        SameField(data[..], offset, end, source.all, Tell(), bytesRead);
        var blen := LengthAt(data[..], offset);
        if blen < 5 {
          return;
        }
        if blen > end - offset {
          Obtain(blen);
          continue;
        }
        doc := Take(blen);
        return;
      }
      reachedEof := done && !failed;
    }
  }

  /** The buffer and the stream agree on the length field. */
  lemma SameField(buffer: seq<byte>, offset: nat, end: nat, s: seq<byte>, at: nat, read: nat)
    requires offset <= end <= |buffer| && at <= read <= |s| && buffer[offset..end] == s[at..read] && end - offset >= 4
    ensures read - at == end - offset && LengthAt(buffer, offset) == LengthAt(s, at)
  {
    var b, t := buffer[offset..end], s[at..read];
    assert |b| == |t|;
    assert forall i | 0 <= i < 4 :: buffer[offset + i] == b[i] && s[at + i] == t[i];
    assert b[0] == t[0] && b[1] == t[1] && b[2] == t[2] && b[3] == t[3];
  }

  lemma SameBytes(buffer: seq<byte>, offset: nat, end: nat, s: seq<byte>, at: nat, read: nat, n: nat)
    requires offset <= end <= |buffer| && at <= read <= |s| && buffer[offset..end] == s[at..read] && n <= end - offset
    ensures read - at == end - offset && buffer[offset..offset + n] == s[at..at + n]
  {
    assert |buffer[offset..end]| == |s[at..read]|;
    assert buffer[offset..end][..n] == buffer[offset..offset + n] && s[at..read][..n] == s[at..at + n];
  }

  lemma Advance(buffer: seq<byte>, offset: nat, end: nat, s: seq<byte>, at: nat, read: nat, n: nat)
    requires offset + n <= end <= |buffer| && at <= read <= |s| && buffer[offset..end] == s[at..read]
    ensures at + n <= read && buffer[offset + n..end] == s[at + n..read]
  {
    assert buffer[offset..end][n..] == buffer[offset + n..end] && s[at..read][n..] == s[at + n..read];
  }

  lemma SamePrefix(a: seq<byte>, b: seq<byte>, c: seq<byte>, d: seq<byte>, from: nat, to: nat)
    requires a == b && from <= to <= |a| && |c| == |d| == to - from
    requires forall i | from <= i < to :: a[i] == c[i - from] && b[i] == d[i - from]
    ensures c == d
  {
    forall i | 0 <= i < |c| ensures c[i] == d[i] {
      assert a[from + i] == c[i] && b[from + i] == d[i];
    }
  }

  lemma JoinSlices(s: seq<byte>, a: nat, b: nat, c: nat)
    requires a <= b <= c <= |s|
    ensures s[a..b] + s[b..c] == s[a..c]
  {}

  /** When the whole stream has been read, an incomplete document will stay that way. */
  lemma StillShort(s: seq<byte>, at: nat, read: nat)
    requires at <= read <= |s|
    requires read - at < 4 || (LengthAt(s, at) >= 5 && LengthAt(s, at) > read - at)
    ensures read == |s| ==> DocumentAt(s, at).Ended? || DocumentAt(s, at).Short?
  {}

  /** Every length field that reading from `at` meets is below the limit. */
  predicate SensibleFrom(s: seq<byte>, at: nat)
    requires at <= |s|
    decreases |s| - at
  {
    (at + 4 <= |s| ==> LengthAt(s, at) < LIMIT)
    && match DocumentAt(s, at)
       case Doc(d) => SensibleFrom(s, at + |d|)
       case _ => true
  }

  function TotalLength(docs: seq<seq<byte>>): nat {
    if docs == [] then 0 else TotalLength(docs[..|docs| - 1]) + |docs[|docs| - 1]|
  }

  /**
   A caller that reads until NULL: however the stream is cut, the handle reader gives it the first documents of
   the stream, in order, and `tell` is then their total length. All of them, if the stream does not fail.
   */
  method ReadAll(source: Source) returns (docs: seq<seq<byte>>, tell: int)
    requires source.taken == 0 && SensibleFrom(source.all, 0)
    modifies source
    ensures docs <= Documents(source.all, 0) && tell == TotalLength(docs)
    ensures !source.mayFail ==> docs == Documents(source.all, 0)
  {
    hide DocumentAt, LengthAt, Documents, TotalLength;
    NoLength();
    var reader := new HandleReader(source);
    docs := [];
    ghost var at := 0;
    assert [] + Documents(source.all, 0) == Documents(source.all, 0);
    while true
      invariant fresh(reader) && fresh(reader.data) && reader.source == source && reader.Valid()
      invariant reader.Tell() == at == TotalLength(docs) && SensibleFrom(source.all, at)
      invariant docs + Documents(source.all, at) == Documents(source.all, 0)
      decreases |source.all| - at
    {
      OneDocument(source.all, at);
      var doc, eof := reader.Read();
      if doc.None? {
        assert !source.mayFail ==> docs + [] == docs;
        return docs, reader.Tell();
      }
      Regroup(docs, doc.value, Documents(source.all, at + |doc.value|));
      TotalAppend(docs, doc.value);
      docs := docs + [doc.value];
      at := at + |doc.value|;
    }
  }

  lemma NoLength()
    ensures TotalLength([]) == 0
  {}

  lemma Regroup(a: seq<seq<byte>>, d: seq<byte>, c: seq<seq<byte>>)
    ensures (a + [d]) + c == a + ([d] + c)
  {}

  lemma TotalAppend(docs: seq<seq<byte>>, d: seq<byte>)
    ensures TotalLength(docs + [d]) == TotalLength(docs) + |d|
  {
    assert (docs + [d])[..|docs|] == docs;
  }

  lemma OneDocument(s: seq<byte>, at: nat)
    requires at <= |s|
    ensures DocumentAt(s, at).Doc? ==>
              var d := DocumentAt(s, at).bytes;
              |d| >= 5 && at + |d| <= |s| && Documents(s, at) == [d] + Documents(s, at + |d|)
              && (SensibleFrom(s, at) ==> SensibleFrom(s, at + |d|))
    ensures !DocumentAt(s, at).Doc? ==> Documents(s, at) == []
    ensures SensibleFrom(s, at) && at + 4 <= |s| ==> LengthAt(s, at) < LIMIT
  {}
}
