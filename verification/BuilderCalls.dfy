/** Runs of calls on real documents that share one buffer, and the bytes they leave in it. */
module BuilderCalls {
  import opened Bytes
  import opened BsonTree
  import opened Builder
  import opened BuilderRuns
  import opened RegexOptions

  /** The bytes the root will have once everything is closed. */
  function ClosedSize(fs: seq<Frame>): nat
    requires fs != []
  {
    |Image(fs)| + |fs| - 1
  }

  lemma ClosedSizeOfPut(fs: seq<Frame>, e: Element)
    requires fs != []
    ensures ClosedSize(PutAll(fs, [e])) == ClosedSize(fs) + |ElementBytes(e)|
  {
    hide Prefix, ElementBytes;
    ImageOfPut(fs, [e]);
    BodyConcat(Top(fs).elems, [e]);
    BodySingle(e);
  }

  lemma ClosedSizeOfBegin(fs: seq<Frame>, key: CString, isArray: bool)
    requires fs != []
    ensures ClosedSize(fs + [Frame(key, isArray, [])]) == ClosedSize(fs) + (1 + |key| + 1 + 5)
  {
    hide Prefix;
    var child := Frame(key, isArray, []);
    PrefixLength(fs, child);
    BodyConcat(Top(fs).elems, [Closed(child)]);
    EmptyChildBytes(child);
  }

  lemma ClosedSizeOfEnd(fs: seq<Frame>)
    requires |fs| > 1
    ensures ClosedSize(PutAll(fs[..|fs| - 1], [Closed(Top(fs))])) == ClosedSize(fs)
  {
    hide Prefix;
    var rest, child := fs[..|fs| - 1], Top(fs);
    assert fs == rest + [child];
    PrefixLength(rest, child);
    ImageOfPut(rest, [Closed(child)]);
  }

  /** No call makes the document smaller. */
  lemma StepGrows(fs: seq<Frame>, op: Op)
    requires fs != [] && Step(fs, op).Open?
    ensures ClosedSize(fs) <= ClosedSize(Step(fs, op).frames)
  {
    match op
    case Put(e) => ClosedSizeOfPut(fs, e);
    case Begin(key, isArray) => ClosedSizeOfBegin(fs, key, isArray);
    case End => ClosedSizeOfEnd(fs);
  }

  lemma {:induction false} RunGrows(fs: seq<Frame>, ops: seq<Op>)
    requires fs != [] && Run(fs, ops).Open?
    ensures ClosedSize(fs) <= ClosedSize(Run(fs, ops).frames)
    decreases |ops|
  {
    hide ClosedSize, Step;
    if ops != [] {
      StepGrows(fs, ops[0]);
      RunGrows(Step(fs, ops[0]).frames, ops[1..]);
    }
  }

  /** Room for a call is room for the document as it will be when closed. */
  lemma RoomIsClosedSize(d: Doc, n: nat)
    requires d.buf.Valid() && d.Innermost()
    ensures d.offset + d.len + n + d.depth == ClosedSize(d.buf.frames) + n
    ensures d.Need(n) == ClosedSize(d.buf.frames) + n && d.len <= d.Need(0)
    ensures ClosedSize(d.buf.frames) + n <= MAX_BUFFER ==> d.Fits(n)
  {
    hide Image, Prefix, LE4;
    d.buf.TopExtent();
  }

  lemma RunOne(fs: seq<Frame>, ops: seq<Op>, i: nat)
    requires fs != [] && i < |ops| && Run(fs, ops[..i]).Open?
    ensures Run(fs, ops[..i + 1]) == Step(Run(fs, ops[..i]).frames, ops[i])
  {
    hide Step;
    assert ops[..i + 1] == ops[..i] + [ops[i]];
    RunConcat(fs, ops[..i], [ops[i]]);
    assert [ops[i]][1..] == [];
  }

  predicate IsRegex(op: Op) { op.Put? && op.e.value.Regex? }

  /** The size, once everything is closed, that a call asks the buffer to have room for; a regex asks one byte short. */
  function Asked(fs: seq<Frame>, op: Op): nat
    requires fs != []
  {
    match op
    case Put(e) => ClosedSize(fs) + |ElementBytes(e)| - (if e.value.Regex? then 1 else 0)
    case Begin(key, _) => ClosedSize(fs) + (1 + |key| + 1 + 5)
    case End => 0
  }

  /**
   Whether a call goes through, in a buffer of `capacity` bytes: it is no misuse, what it asks for is at most
   2^30 bytes, and a regex does not ask for all the bytes the buffer then has.
   */
  predicate Goes(capacity: nat, fs: seq<Frame>, op: Op)
    requires fs != []
  {
    && Step(fs, op).Open? && Asked(fs, op) <= MAX_BUFFER
    && (IsRegex(op) ==> Grown(Asked(fs, op), capacity) > Asked(fs, op))
  }

  /** How long the buffer is after a call that goes through. */
  function Capacity(capacity: nat, fs: seq<Frame>, op: Op): nat
    requires fs != []
  {
    match op
    case Put(_) => Grown(Asked(fs, op), capacity)
    case Begin(_, _) => Grown(Asked(fs, op), Grown(FIRST_HEAP_SIZE, capacity))
    case End => capacity
  }

  /** How many calls of a run go through before the first that does not. */
  function Progress(capacity: nat, fs: seq<Frame>, ops: seq<Op>): (n: nat)
    requires fs != []
    ensures n <= |ops|
    decreases |ops|
  {
    if ops == [] || !Goes(capacity, fs, ops[0]) then 0
    else 1 + Progress(Capacity(capacity, fs, ops[0]), Step(fs, ops[0]).frames, ops[1..])
  }

  /** Where a run stops, and why. */
  lemma {:induction false} ProgressStops(capacity: nat, fs: seq<Frame>, ops: seq<Op>)
    requires fs != []
    ensures var n := Progress(capacity, fs, ops);
            && Run(fs, ops[..n]).Open?
            && (n < |ops| ==>
                  var now := Run(fs, ops[..n]).frames;
                  IsRegex(ops[n]) || Step(now, ops[n]).Misuse? || ClosedSize(Step(now, ops[n]).frames) > MAX_BUFFER)
    decreases |ops|
  {
    hide Step, ClosedSize, Asked, Capacity;
    var n := Progress(capacity, fs, ops);
    if n == 0 {
      NothingDone(fs, ops);
      if ops != [] && Step(fs, ops[0]).Open? {
        AskedIsClosed(fs, ops[0]);
      }
    } else {
      var rest := ops[1..];
      ProgressStops(Capacity(capacity, fs, ops[0]), Step(fs, ops[0]).frames, rest);
      assert ops[..n][0] == ops[0] && ops[..n][1..] == rest[..n - 1];
      assert n < |ops| ==> ops[n] == rest[n - 1];
    }
  }

  lemma AskedIsClosed(fs: seq<Frame>, op: Op)
    requires fs != [] && Step(fs, op).Open?
    ensures op.End? ==> Asked(fs, op) == 0
    ensures !op.End? && !IsRegex(op) ==> Asked(fs, op) == ClosedSize(Step(fs, op).frames)
    ensures IsRegex(op) ==> Asked(fs, op) + 1 == ClosedSize(Step(fs, op).frames)
  {
    hide ClosedSize, ElementBytes;
    match op
    case Put(e) => ClosedSizeOfPut(fs, e);
    case Begin(key, isArray) => ClosedSizeOfBegin(fs, key, isArray);
    case End =>
  }

  /** Without regexes a run gets to its end exactly when it never misuses the builder and its document is not too large. */
  lemma {:induction false} ProgressReaches(capacity: nat, fs: seq<Frame>, ops: seq<Op>)
    requires fs != [] && ClosedSize(fs) <= MAX_BUFFER && forall i | 0 <= i < |ops| :: !IsRegex(ops[i])
    ensures Progress(capacity, fs, ops) == |ops| <==>
              Run(fs, ops).Open? && ClosedSize(Run(fs, ops).frames) <= MAX_BUFFER
    decreases |ops|
  {
    hide Step, ClosedSize, Asked, Capacity;
    if ops != [] && Step(fs, ops[0]).Open? {
      var now := Step(fs, ops[0]).frames;
      AskedIsClosed(fs, ops[0]);
      if ops[0].End? {
        ClosedSizeOfClose(fs);
      }
      if ClosedSize(now) <= MAX_BUFFER {
        ProgressReaches(Capacity(capacity, fs, ops[0]), now, ops[1..]);
      } else if Run(now, ops[1..]).Open? {
        RunGrows(now, ops[1..]);
      }
    }
  }

  lemma ClosedSizeOfClose(fs: seq<Frame>)
    requires fs != [] && Step(fs, End).Open?
    ensures ClosedSize(Step(fs, End).frames) == ClosedSize(fs)
  {
    ClosedSizeOfEnd(fs);
  }

  /** In a new document a regex of 112 bytes under an empty key asks for exactly the 120 bytes there are, and needs 121. */
  lemma RegexOverfills(pattern: CString)
    requires |pattern| == 112
    ensures var op := Put(Element([], Regex(pattern, [])));
            && Asked([ROOT], op) == INLINE_SIZE && ClosedSize(Step([ROOT], op).frames) == INLINE_SIZE + 1
            && !Goes(INLINE_SIZE, [ROOT], op)
  {
    var e := Element([], Regex(pattern, []));
    RegexParts([], pattern, []);
    RootSize();
    hide ClosedSize, ElementBytes;
    ClosedSizeOfPut([ROOT], e);
  }

  lemma RootSize()
    ensures ClosedSize([ROOT]) == 5
  {
    assert Image([ROOT]) == Encode([]);
  }

  /** `bson_append_*` for any element; it holds back a regex that would fill the buffer. */
  method AppendElement(d: Doc, e: Element) returns (ok: bool)
    requires d.buf.Valid() && d.Innermost() && d.buf.data.Length <= MAX_BUFFER
    requires e.value.Regex? ==> SortedOptions(e.value.options, REGEX_OPTIONS) == e.value.options
    modifies d.buf, d.buf.data, d`len, d`inline
    ensures d.buf.Valid() && d.buf.open == old(d.buf.open)
    ensures ok == old(Goes(d.buf.data.Length, d.buf.frames, Put(e)))
    ensures d.buf.frames == if ok then PutAll(old(d.buf.frames), [e]) else old(d.buf.frames)
    ensures d.buf.data == old(d.buf.data) || fresh(d.buf.data)
    ensures d.buf.data.Length == old(if Goes(d.buf.data.Length, d.buf.frames, Put(e))
                                     then Capacity(d.buf.data.Length, d.buf.frames, Put(e)) else d.buf.data.Length)
    ensures d.inline == (old(d.inline) && d.buf.data.Length == old(d.buf.data.Length))
  {
    hide SortedOptions, ElementBytes, Image, Prefix, LE4, Grown, ClosedSize;
    RoomIsClosedSize(d, |ElementBytes(e)|);
    if e.value.Regex? {
      var n := d.RegexDeclares(e.key, e.value.pattern, e.value.options);
      RegexParts(e.key, e.value.pattern, e.value.options);
      if d.Fills(n) {
        return false;
      }
      ok := d.AppendRegex(e.key, e.value.pattern, e.value.options);
    } else {
      ok := d.AppendValue(e);
    }
  }

  /** Callers hand regexes over with their options in order. */
  predicate OptionsSorted(op: Op) {
    IsRegex(op) ==> SortedOptions(op.e.value.options, REGEX_OPTIONS) == op.e.value.options
  }

  /** A document is inline until its buffer has moved to the heap, where it has at least the first heap size. */
  ghost predicate Settled(root: Doc)
    reads root, root.buf
  {
    root.buf.data.Length <= MAX_BUFFER && (root.inline || root.buf.data.Length >= FIRST_HEAP_SIZE)
  }

  /**
   A whole run of calls on a document and the children it opens, up to the first call that fails.  The
   buffer is at every moment what the calls so far have built, and `Progress` says how far the run gets.
   */
  method Execute(root: Doc, ops: seq<Op>) returns (done: nat)
    requires root.buf.Valid() && root.buf.open == [root] && Settled(root)
    requires forall i | 0 <= i < |ops| :: OptionsSorted(ops[i])
    modifies root, root.buf, root.buf.data
    ensures root.buf == old(root.buf) && root.buf.Valid() && root.buf.open[0] == root && done <= |ops|
    ensures Run(old(root.buf.frames), ops[..done]) == Open(root.buf.frames)
    ensures done == Progress(old(root.buf.data.Length), old(root.buf.frames), ops)
    ensures done < |ops| ==>
              var now := Step(root.buf.frames, ops[done]);
              IsRegex(ops[done]) || now.Misuse? || ClosedSize(now.frames) > MAX_BUFFER
  {
    hide Run, Step, ClosedSize, Image, Prefix, SortedOptions, ElementBytes, Encode, Goes, Capacity, Grown;
    ghost var start, length := root.buf.frames, root.buf.data.Length;
    var docs := [root];
    NothingDone(start, ops);
    ProgressStops(length, start, ops);
    assert ops[0..] == ops;
    for i := 0 to |ops|
      invariant root.buf == old(root.buf) && root.buf.Valid() && docs == root.buf.open && docs[0] == root
      invariant root.buf.data == old(root.buf.data) || fresh(root.buf.data)
      invariant forall k | 0 <= k < |docs| :: docs[k] == root || fresh(docs[k])
      invariant Run(start, ops[..i]) == Open(root.buf.frames) && Settled(root)
      invariant Progress(length, start, ops) == i + Progress(root.buf.data.Length, root.buf.frames, ops[i..])
    {
      ghost var fs, capacity := root.buf.frames, root.buf.data.Length;
      RunOne(start, ops, i);
      assert ops[i..][0] == ops[i] && ops[i..][1..] == ops[i + 1..];
      var ok, next := ExecuteOne(root, docs, ops[i]);
      forall k | 0 <= k < |next| ensures next[k] == root || fresh(next[k]) {
        assert next[k] in next;
      }
      docs := next;
      if !ok {
        return i;
      }
    }
    assert ops[..|ops|] == ops;
    return |ops|;
  }

  /** One call, on the innermost of the open documents `docs`. */
  method ExecuteOne(root: Doc, docs: seq<Doc>, op: Op) returns (ok: bool, docs': seq<Doc>)
    requires docs != [] && root.buf.Valid() && docs == root.buf.open && docs[0] == root && Settled(root) && OptionsSorted(op)
    modifies root.buf, root.buf.data, docs
    ensures root.buf == old(root.buf) && root.buf.Valid() && Settled(root)
    ensures docs' != [] && docs' == root.buf.open && docs'[0] == root
    ensures forall d | d in docs' :: d in docs || fresh(d)
    ensures root.buf.data == old(root.buf.data) || fresh(root.buf.data)
    ensures ok == Goes(old(root.buf.data.Length), old(root.buf.frames), op)
    ensures ok ==> Step(old(root.buf.frames), op) == Open(root.buf.frames)
    ensures ok ==> root.buf.data.Length == Capacity(old(root.buf.data.Length), old(root.buf.frames), op)
    ensures !ok ==> root.buf.frames == old(root.buf.frames)
  {
    hide Image, Prefix, SortedOptions, ElementBytes, Encode, ClosedSize, Grown;
    docs' := docs;
    var d := docs[|docs| - 1];
    assert root.buf.Describes(|docs| - 1) && root.buf.Describes(0);
    match op {
      case Put(e) =>
        ok := AppendElement(d, e);
        Grows(old(root.buf.data.Length), old(root.buf.frames), op);
      case Begin(key, isArray) =>
        RoomIsClosedSize(d, 1 + |key| + 1 + 5);
        Grows(root.buf.data.Length, root.buf.frames, op);
        var child;
        ok, child := d.AppendChildBegin(key, isArray);
        if ok {
          docs' := docs + [child];
        }
      case End =>
        ok := |docs| > 1;
        if ok {
          var parent := docs[|docs| - 2];
          assert root.buf.Describes(|docs| - 2);
          parent.AppendChildEnd(d);
          docs' := docs[..|docs| - 1];
        }
    }
  }

  /** A buffer grows to a power of two. */
  lemma Grows(capacity: nat, fs: seq<Frame>, op: Op)
    requires fs != []
    ensures Grown(FIRST_HEAP_SIZE, capacity) >= FIRST_HEAP_SIZE && Grown(FIRST_HEAP_SIZE, capacity) >= capacity
    ensures capacity >= FIRST_HEAP_SIZE ==> Grown(FIRST_HEAP_SIZE, capacity) == capacity
    ensures capacity <= MAX_BUFFER ==> Grown(FIRST_HEAP_SIZE, capacity) <= MAX_BUFFER
    ensures capacity <= MAX_BUFFER && Asked(fs, op) <= MAX_BUFFER ==> Capacity(capacity, fs, op) <= MAX_BUFFER
    ensures Capacity(capacity, fs, op) >= capacity
    ensures op.Begin? ==> Capacity(capacity, fs, op) >= FIRST_HEAP_SIZE
    ensures capacity >= INLINE_SIZE && Capacity(capacity, fs, op) != capacity ==> Capacity(capacity, fs, op) >= FIRST_HEAP_SIZE
  {
    hide Asked, NextPowerOfTwo;
    GrownSizeFits(Asked(fs, op));
    GrownSizeFits(FIRST_HEAP_SIZE);
    if Asked(fs, op) > INLINE_SIZE {
      PastInline(Asked(fs, op));
    }
  }

  lemma PastInline(v: nat)
    requires v > INLINE_SIZE
    ensures NextPowerOfTwo(v) >= FIRST_HEAP_SIZE
  {
    NextPowerOfTwoGrows(v, 128);
    assert NextPowerOfTwo(v, 16) == NextPowerOfTwo(v, 32) == NextPowerOfTwo(v, 64) == NextPowerOfTwo(v, 128);
    assert NextPowerOfTwo(v, 1) == NextPowerOfTwo(v, 2) == NextPowerOfTwo(v, 4) == NextPowerOfTwo(v, 8) == NextPowerOfTwo(v, 16);
  }

  lemma NothingDone(fs: seq<Frame>, ops: seq<Op>)
    requires fs != []
    ensures Run(fs, ops[..0]) == Open(fs)
  {}

  /** With only the root open, the buffer holds the serialisation of what has been built. */
  lemma RootBytes(d: Doc)
    requires d.buf.Valid() && d.buf.open == [d]
    ensures d.len == |Encode(d.buf.frames[0].elems)| <= d.buf.data.Length
    ensures d.buf.data[..d.len] == Encode(d.buf.frames[0].elems)
  {
    hide Encode;
    assert d.buf.Describes(0);
    assert Image(d.buf.frames) == Encode(d.buf.frames[0].elems);
  }

  /**
   A new document and any run of calls on it.  `Progress` says exactly how far the run gets, and a balanced run
   that gets to its end leaves in the buffer the serialisation of the tree that it spells.
   */
  method Build(ops: seq<Op>) returns (d: Doc, done: nat)
    requires forall i | 0 <= i < |ops| :: OptionsSorted(ops[i])
    ensures d.buf.Valid() && done == Progress(INLINE_SIZE, [ROOT], ops)
    ensures Run([ROOT], ops[..done]) == Open(d.buf.frames)
    ensures done == |ops| && |d.buf.frames| == 1 ==>
              var bytes := Encode(d.buf.frames[0].elems); d.len == |bytes| <= d.buf.data.Length && d.buf.data[..d.len] == bytes
  {
    hide Run, Encode, SortedOptions, Progress;
    d := Doc.Init();
    done := Execute(d, ops);
    if |d.buf.frames| == 1 {
      OnlyRootOpen(d);
    }
  }

  /** Without regexes, a balanced run gets to its end exactly when its tree's serialisation has at most 2^30 bytes. */
  lemma BuildReaches(ops: seq<Op>)
    requires forall i | 0 <= i < |ops| :: !IsRegex(ops[i])
    requires Run([ROOT], ops).Open? && |Run([ROOT], ops).frames| == 1
    ensures Progress(INLINE_SIZE, [ROOT], ops) == |ops| <==> |Encode(Run([ROOT], ops).frames[0].elems)| <= MAX_BUFFER
  {
    hide Run, Encode, Progress, ClosedSize;
    RootSize();
    ProgressReaches(INLINE_SIZE, [ROOT], ops);
    OneClosed(Run([ROOT], ops).frames);
  }

  lemma OneClosed(fs: seq<Frame>)
    requires |fs| == 1
    ensures ClosedSize(fs) == |Encode(fs[0].elems)|
  {
    hide Encode;
  }

  lemma OnlyRootOpen(d: Doc)
    requires d.buf.Valid() && d in d.buf.open && |d.buf.frames| == 1
    ensures d.len == |Encode(d.buf.frames[0].elems)| <= d.buf.data.Length
    ensures d.buf.data[..d.len] == Encode(d.buf.frames[0].elems)
  {
    assert d.buf.open == [d];
    RootBytes(d);
  }
}
