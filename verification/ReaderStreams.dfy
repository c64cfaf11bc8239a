/** A stream of serialised documents, one behind the other, and what the readers find in it. */
module ReaderStreams {
  import opened Bytes
  import opened BsonTree
  import opened Reader

  function Encodings(docs: seq<seq<Element>>): seq<seq<byte>> {
    if docs == [] then [] else [Encode(docs[0])] + Encodings(docs[1..])
  }

  function Stream(docs: seq<seq<Element>>): seq<byte> {
    if docs == [] then [] else Encode(docs[0]) + Stream(docs[1..])
  }

  predicate AllFit(docs: seq<seq<Element>>) { forall i | 0 <= i < |docs| :: |Encode(docs[i])| <= 0x7fff_ffff }

  /** A document's first bytes are its length and its last one is NUL. */
  lemma FirstOfStream(s: seq<byte>, at: nat, es: seq<Element>)
    requires at + |Encode(es)| <= |s| && s[at..at + |Encode(es)|] == Encode(es) && |Encode(es)| <= 0x7fff_ffff
    ensures DocumentAt(s, at) == Doc(Encode(es))
  {
    hide LE4, Encode, Body, U32At;
    var d := Encode(es);
    EncodeParts(es);
    BodyLength(es);
    assert s[at..at + 4] == d[..4] == LE4(|d|);
    ReadLE4(s, at, |d|);
    assert s[at + |d| - 1] == d[|d| - 1] == 0;
  }

  lemma BodyLength(es: seq<Element>)
    ensures |Encode(es)| == |Body(es)| + 5
  {}

  /** The documents found in a stream of serialised documents are these documents, all of them and in order. */
  lemma {:induction false} StreamHolds(s: seq<byte>, at: nat, docs: seq<seq<Element>>)
    requires at <= |s| && s[at..] == Stream(docs) && AllFit(docs)
    ensures Documents(s, at) == Encodings(docs)
    decreases |docs|
  {
    hide Encode, DocumentAt;
    if docs == [] {
      assert at == |s|;
      NothingLeft(s, at);
    } else {
      var d := Encode(docs[0]);
      BodyLength(docs[0]);
      assert s[at..at + |d|] == d && s[at + |d|..] == Stream(docs[1..]);
      FirstOfStream(s, at, docs[0]);
      StreamHolds(s, at + |d|, docs[1..]);
    }
  }

  lemma NothingLeft(s: seq<byte>, at: nat)
    requires at == |s|
    ensures Documents(s, at) == []
  {}
}
