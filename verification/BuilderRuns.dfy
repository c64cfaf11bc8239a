/**
 Whole runs of the writer.  `Step` is what the contracts of `Builder.Doc` say each call does to the
 open documents; the lemmas follow any sequence of such calls.
 */
module BuilderRuns {
  import opened Bytes
  import opened BsonTree
  import opened Builder

  datatype Op = Put(e: Element) | Begin(key: CString, isArray: bool) | End

  datatype Outcome = Open(frames: seq<Frame>) | Misuse

  function Step(fs: seq<Frame>, op: Op): (r: Outcome)
    requires fs != []
    ensures r.Open? ==> r.frames != []
  {
    match op
    case Put(e) => Open(PutAll(fs, [e]))
    case Begin(key, isArray) => Open(fs + [Frame(key, isArray, [])])
    case End => if |fs| == 1 then Misuse else Open(PutAll(fs[..|fs| - 1], [Closed(Top(fs))]))
  }

  function Run(fs: seq<Frame>, ops: seq<Op>): (r: Outcome)
    requires fs != []
    ensures r.Open? ==> r.frames != []
    decreases |ops|
  {
    if ops == [] then Open(fs)
    else
      match Step(fs, ops[0])
      case Misuse => Misuse
      case Open(gs) => Run(gs, ops[1..])
  }

  /** The calls that build `es` in place, opening and closing a child for every nested document and array. */
  function Script(es: seq<Element>): seq<Op>
    decreases es, 0
  {
    if es == [] then [] else ElementScript(es[0]) + Script(es[1..])
  }

  function ElementScript(e: Element): seq<Op>
    decreases e
  {
    match e.value
    case Document(fields) => [Begin(e.key, false)] + Script(fields) + [End]
    case Array(items) => [Begin(e.key, true)] + Script(items) + [End]
    case _ => [Put(e)]
  }

  lemma {:induction false} RunConcat(fs: seq<Frame>, xs: seq<Op>, ys: seq<Op>)
    requires fs != []
    ensures Run(fs, xs + ys) == match Run(fs, xs) case Misuse => Misuse case Open(gs) => Run(gs, ys)
    decreases |xs|
  {
    if xs == [] {
      assert xs + ys == ys;
    } else {
      assert (xs + ys)[0] == xs[0] && (xs + ys)[1..] == xs[1..] + ys;
      match Step(fs, xs[0])
      case Misuse =>
      case Open(gs) => RunConcat(gs, xs[1..], ys);
    }
  }

  /** In-place building refines the tree: whatever is open, the script for `es` appends exactly `es`. */
  lemma {:induction false} ScriptBuilds(fs: seq<Frame>, es: seq<Element>)
    requires fs != []
    ensures Run(fs, Script(es)) == Open(PutAll(fs, es))
    decreases es, 0
  {
    if es == [] {
      PutNothing(fs);
    } else {
      ElementScriptBuilds(fs, es[0]);
      RunConcat(fs, ElementScript(es[0]), Script(es[1..]));
      ScriptBuilds(PutAll(fs, [es[0]]), es[1..]);
      assert Top(fs).elems + [es[0]] + es[1..] == Top(fs).elems + es;
    }
  }

  lemma {:induction false} ElementScriptBuilds(fs: seq<Frame>, e: Element)
    requires fs != []
    ensures Run(fs, ElementScript(e)) == Open(PutAll(fs, [e]))
    decreases e
  {
    match e.value {
      case Document(fields) => ChildScriptBuilds(fs, Frame(e.key, false, fields));
      case Array(items) => ChildScriptBuilds(fs, Frame(e.key, true, items));
      case _ => assert Run(PutAll(fs, [e]), []) == Open(PutAll(fs, [e]));
    }
  }

  lemma {:induction false} ChildScriptBuilds(fs: seq<Frame>, child: Frame)
    requires fs != []
    ensures Run(fs, [Begin(child.key, child.isArray)] + Script(child.elems) + [End]) == Open(PutAll(fs, [Closed(child)]))
    decreases child.elems, 1
  {
    var gs := fs + [child.(elems := [])];
    var ops := Script(child.elems);
    ScriptBuilds(gs, child.elems);
    assert [] + child.elems == child.elems;
    assert PutAll(gs, child.elems) == fs + [child];
    RunConcat(gs, ops, [End]);
    EndStep(fs, child);
    assert [Begin(child.key, child.isArray)] + ops + [End] == [Begin(child.key, child.isArray)] + (ops + [End]);
  }

  lemma EndStep(fs: seq<Frame>, child: Frame)
    requires fs != []
    ensures Run(fs + [child], [End]) == Open(PutAll(fs, [Closed(child)]))
  {
    assert (fs + [child])[..|fs|] == fs;
    assert [End][1..] == [];
  }

  /** Calls inside a child never touch the documents around it. */
  lemma {:induction false} RunIsLocal(fs: seq<Frame>, inner: seq<Frame>, ops: seq<Op>)
    requires inner != [] && Run(inner, ops).Open?
    ensures Run(fs + inner, ops) == Open(fs + Run(inner, ops).frames)
    decreases |ops|
  {
    if ops != [] {
      var gs := Step(inner, ops[0]).frames;
      assert Step(fs + inner, ops[0]) == Open(fs + gs) by {
        match ops[0]
        case Put(e) => assert PutAll(fs + inner, [e]) == fs + PutAll(inner, [e]);
        case Begin(key, isArray) => assert (fs + inner) + [Frame(key, isArray, [])] == fs + (inner + [Frame(key, isArray, [])]);
        case End =>
          var kept, e := inner[..|inner| - 1], Closed(Top(inner));
          assert (fs + inner)[..|fs + inner| - 1] == fs + kept;
          assert PutAll(fs + kept, [e]) == fs + PutAll(kept, [e]);
      }
      RunIsLocal(fs, gs, ops[1..]);
    }
  }

  /**
   Building a child in place, by any balanced run of calls, is the same as building it in a document of
   its own and copying that with `bson_append_document` or `bson_append_array`.
   */
  lemma InPlaceEqualsCopy(fs: seq<Frame>, key: CString, isArray: bool, ops: seq<Op>, child: Frame)
    requires fs != [] && Run([Frame(key, isArray, [])], ops) == Open([child])
    ensures Run(fs, [Begin(key, isArray)] + ops + [End]) == Run(fs, [Put(Closed(child))])
  {
    var gs := fs + [Frame(key, isArray, [])];
    RunIsLocal(fs, [Frame(key, isArray, [])], ops);
    RunConcat(gs, ops, [End]);
    EndStep(fs, child);
    assert [Begin(key, isArray)] + ops + [End] == [Begin(key, isArray)] + (ops + [End]);
    assert [Put(Closed(child))][1..] == [];
  }

  /** The documents left after closing everything but the outermost one. */
  function CloseAll(fs: seq<Frame>): seq<Frame>
    requires fs != []
    decreases |fs|
  {
    if |fs| == 1 then fs else CloseAll(PutAll(fs[..|fs| - 1], [Closed(Top(fs))]))
  }

  /**
   Closing every open document adds one byte per document, its parent's NUL.  This is the room that
   `Builder.Buffer.Valid` keeps after the image, so closing never has to grow the buffer.
   */
  lemma {:induction false} ClosingSize(fs: seq<Frame>)
    requires fs != []
    ensures |CloseAll(fs)| == 1 && |Image(CloseAll(fs))| == |Image(fs)| + |fs| - 1
    decreases |fs|
  {
    if |fs| > 1 {
      var rest, child := fs[..|fs| - 1], Top(fs);
      assert fs == rest + [child];
      PrefixLength(rest, child);
      ImageOfPut(rest, [Closed(child)]);
      ClosingSize(PutAll(rest, [Closed(child)]));
    }
  }

  const ROOT: Frame := Frame([], false, [])

  /** Any run that leaves only the root open builds a tree, and does what that tree's own script does. */
  lemma BalancedRunIsScript(ops: seq<Op>, root: Frame)
    requires Run([ROOT], ops) == Open([root])
    ensures Run([ROOT], Script(root.elems)) == Open([root])
  {
    ScriptBuilds([ROOT], root.elems);
    RootKeepsName([ROOT], ops);
    assert [] + root.elems == root.elems;
    assert PutAll([ROOT], root.elems) == [root];
  }

  lemma {:induction false} RootKeepsName(fs: seq<Frame>, ops: seq<Op>)
    requires fs != [] && Run(fs, ops).Open?
    ensures var gs := Run(fs, ops).frames;
            gs != [] && gs[0].key == fs[0].key && gs[0].isArray == fs[0].isArray
    decreases |ops|
  {
    if ops != [] {
      RootKeepsName(Step(fs, ops[0]).frames, ops[1..]);
    }
  }
}
