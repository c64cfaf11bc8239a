/** Whole documents: from a tree to text, and from any text through lexer, reader and builder to a buffer. */
module JsonDocument {
  import opened Bytes
  import opened BsonTree
  import opened BuilderCalls
  import opened JsonChunks
  import opened JsonMachine
  import opened JsonPipeline
  import opened JsonRoundTrip
  import Builder
  import BuilderRuns
  import Dec = DecimalDigits
  import Keywords = JsonKeywords
  import JsonNesting
  import JsonReader
  import JsonText
  import JsonWriter
  import Lexer
  import Step = LexerStep
  import Strings = JsonString
  import Syntax = JsonSyntax
  import Utf8

  /** What a lexer that is never stopped makes of a text. */
  ghost function Lexed(text: seq<byte>): Step.Lex { Lexer.Run(Lexer.Start(STACK_MAX), QUIET, text) }

  ghost function ReaderOf(text: seq<byte>): Reader { Feed(START, Syntax.Calls(text, Lexed(text).trace)) }

  /** A document that holds the encoding of a tree and nothing else. */
  ghost predicate Holds(d: Builder.Doc, es: seq<Element>)
    reads d, d.buf, d.buf.data
  {
    d.len == |Encode(es)| <= d.buf.data.Length && d.buf.data[..d.len] == Encode(es)
  }

  /** The lexer has taken the whole text, or has stopped in front of a brace that opens another document. */
  predicate LexerEnds(lex: Step.Lex, text: seq<byte>) {
    lex.status.Running? || (lex.status == Step.Failed(Step.CantInsert) && lex.pos < |text| && text[lex.pos] == Step.OPEN_OBJECT)
  }

  /** And the reader has seen its document end. */
  ghost predicate Accepts(text: seq<byte>) { LexerEnds(Lexed(text), text) && ReaderOf(text).state == DONE }

  /**
   The model covers the text: the lexer does not read behind a literal, the reader stays where it is modelled, and
   the builder makes all of its calls.
   */
  ghost predicate Covers(text: seq<byte>) {
    var r := ReaderOf(text);
    Lexed(text).status != Step.Failed(Step.PastLiteral) && r.state != UNMODELLED && Progress(Builder.INLINE_SIZE, [BuilderRuns.ROOT], r.ops) == |r.ops|
  }

  /** What an accepted text's builder calls spell. */
  ghost predicate Spells(text: seq<byte>, es: seq<Element>) {
    var all := BuilderRuns.Run([BuilderRuns.ROOT], ReaderOf(text).ops);
    all.Open? && |all.frames| == 1 && all.frames[0].elems == es
  }

  ghost predicate RegexFree(ops: seq<BuilderRuns.Op>) { forall i | 0 <= i < |ops| :: !IsRegex(ops[i]) }

  /** `Uncovered` says nothing of what the source does. */
  datatype Outcome = Parsed(d: Builder.Doc) | Rejected | Uncovered

  const BUFFER_SIZE: nat := 0x4000

  /**
   `bson_new_from_json`, in buffers of 16 KiB.  Of every text that the model covers it says which it is: a document, exactly when lexer and reader accept the text, which then holds the encoding of the one
   tree that the reader's builder calls spell; or nothing.
   */
  method BsonNewFromJson(text: seq<byte>) returns (result: Outcome)
    ensures result.Uncovered? <==> !Covers(text)
    ensures result.Parsed? <==> Covers(text) && Accepts(text)
    ensures result.Parsed? ==> exists es :: Spells(text, es)
    ensures forall es | Spells(text, es) :: result.Parsed? ==> Holds(result.d, es)
  {
    hide Lexer.Run, Syntax.Calls, Feed, BuilderRuns.Run, Encode, OptionsSorted, IsRegex, Progress;
    var lex, events := LexText(text, BUFFER_SIZE);
    var reader := new JsonReader.Callbacks();
    reader.ReadEvents(events);
    JsonNesting.EveryRunNests(events);
    if lex.status == Step.Failed(Step.PastLiteral) || reader.readState == UNMODELLED {
      return Uncovered;
    }
    var d, done := Build(reader.ops);
    if done < |reader.ops| {
      return Uncovered;
    }
    if !LexerEnds(lex, text) || reader.readState != DONE {
      return Rejected;
    }
    assert reader.ops[..done] == reader.ops;
    ghost var es := d.buf.frames[0].elems;
    assert Spells(text, es) && Holds(d, es);
    return Parsed(d);
  }

  /** An accepted text without regexes is covered unless its document is too large. */
  lemma CoversIff(text: seq<byte>, es: seq<Element>)
    requires Accepts(text) && Spells(text, es) && RegexFree(ReaderOf(text).ops)
    ensures Covers(text) <==> |Encode(es)| <= Builder.MAX_BUFFER
  {
    hide Lexer.Run, Syntax.Calls, Feed, BuilderRuns.Run, Encode, IsRegex, Progress;
    BuildReaches(ReaderOf(text).ops);
  }

  /** Escaped text has no NUL, and so neither has any text the writer gives. */
  lemma {:induction false} EscapedHasNoNul(ps: seq<Utf8.Piece>)
    requires Strings.Strict(ps)
    ensures 0 !in Strings.Escaped(ps)
  {
    if ps != [] {
      ScalarHasNoNul(ps[0].c);
      EscapedHasNoNul(ps[1..]);
    }
  }

  lemma ScalarHasNoNul(c: Utf8.scalar)
    ensures 0 !in Strings.EscapeScalar(c)
  {
    if c >= 0x80 {
      Strings.NoBackslash(c);
    }
  }

  lemma QuotedHasNoNul(text: seq<byte>)
    requires Strings.IsStrict(text)
    ensures 0 !in Syntax.Quoted(text)
  {
    var ps :| Strings.Strict(ps) && Utf8.Flatten(ps) == text && Strings.EscapedText(text) == Strings.Escaped(ps);
    EscapedHasNoNul(ps);
  }

  lemma NumberHasNoNul(n: uint32)
    ensures 0 !in Decimal(n)
  {
    Keywords.DigitBytesRead(Dec.Digits(n));
  }

  lemma {:induction false} RenderHasNoNul(j: Syntax.Json)
    requires Syntax.WellFormed(j)
    ensures 0 !in Syntax.Render(j)
    decreases j, 1
  {
    hide Syntax.Quoted, Decimal, Strings.IsStrict;
    match j
    case Text(text) => QuotedHasNoNul(text);
    case Number(n) => NumberHasNoNul(n);
    case Const(_) =>
    case Map(members, _) => MembersHaveNoNul(members);
    case Array(items) => ItemsHaveNoNul(items);
  }

  lemma {:induction false} MembersHaveNoNul(ms: seq<Syntax.Member>)
    requires forall m | m in ms :: Strings.IsStrict(m.key) && Syntax.WellFormed(m.value)
    ensures 0 !in Syntax.RenderMembers(ms)
    decreases ms, 0
  {
    hide Syntax.Quoted, Syntax.Render, Strings.IsStrict, Syntax.WellFormed;
    if ms != [] {
      QuotedHasNoNul(ms[0].key);
      RenderHasNoNul(ms[0].value);
      MembersHaveNoNul(ms[1..]);
    }
  }

  lemma {:induction false} ItemsHaveNoNul(js: seq<Syntax.Json>)
    requires forall j | j in js :: Syntax.WellFormed(j)
    ensures 0 !in Syntax.RenderItems(js)
    decreases js, 0
  {
    hide Syntax.Render, Syntax.WellFormed;
    if js != [] {
      RenderHasNoNul(js[0]);
      ItemsHaveNoNul(js[1..]);
    }
  }

  /** The whole way at the level of the specifications. */
  lemma CanonicalTextIsAccepted(es: seq<Element>)
    requires WritableFields(es) && Syntax.Height(JsonText.Root(es)) < STACK_MAX
    ensures CanWriteAll(es)
    ensures var text := CanonicalText(es); 0 !in text && Accepts(text) && ReaderOf(text).ops == BuilderRuns.Script(es)
  {
    hide Lexer.Run, Syntax.Calls, Feed, BuilderRuns.Run, Syntax.Render, Syntax.WellFormed, CanWriteAll, WritableFields, Syntax.Events,
      JsonText.Members, FieldEvents;
    FieldsAreWritten(es);
    var text := CanonicalText(es);
    JsonText.MembersEvents(es);
    JsonText.MapTree(es);
    RenderHasNoNul(JsonText.Root(es));
    LexDocument(text, QUIET, JsonText.Root(es));
    FieldsShallow(es);
    DocumentRoundTrip(es);
  }

  lemma CanonicalTextSpells(es: seq<Element>)
    requires WritableFields(es) && Syntax.Height(JsonText.Root(es)) < STACK_MAX
    ensures CanWriteAll(es)
    ensures var text := CanonicalText(es);
            0 !in text && Accepts(text) && ReaderOf(text).ops == BuilderRuns.Script(es)
            && forall ds :: Spells(text, ds) <==> ds == es
  {
    hide BuilderRuns.Run, CanonicalText, CanWriteAll, WritableFields, Accepts, ReaderOf;
    CanonicalTextIsAccepted(es);
    BuilderRuns.ScriptBuilds([BuilderRuns.ROOT], es);
    assert [] + es == es;
  }

  lemma FieldsShallow(es: seq<Element>)
    requires Syntax.Height(JsonText.Root(es)) < STACK_MAX
    ensures Tallest(es) < STACK_MAX
  {
    FieldsFit(es);
  }

  /**
   Writing a tree as canonical Extended JSON and reading the text back gives a document with the bytes of the
   tree's own encoding, exactly if the builder makes all of the calls that spell out the tree.
   */
  method ThroughText(es: seq<Element>) returns (result: Outcome)
    requires WritableFields(es) && JsonWriter.HaveTexts(es) && Syntax.Height(JsonText.Root(es)) < STACK_MAX
    ensures !result.Rejected? && (result.Parsed? ==> Holds(result.d, es))
    ensures result.Parsed? <==> Progress(Builder.INLINE_SIZE, [BuilderRuns.ROOT], BuilderRuns.Script(es)) == |BuilderRuns.Script(es)|
  {
    hide Encode, CanWriteAll, WritableFields, Syntax.Render, Lexer.Run, Spells, ReaderOf, Progress, BuilderRuns.Script;
    CanonicalTextSpells(es);
    FieldsShallow(es);
    var written, text := JsonWriter.AsCanonicalExtendedJson(es);
    result := BsonNewFromJson(text);
  }

  /** Without regexes: exactly if the document has at most 2^30 bytes. */
  lemma ThroughReaches(es: seq<Element>)
    requires RegexFree(BuilderRuns.Script(es))
    ensures Progress(Builder.INLINE_SIZE, [BuilderRuns.ROOT], BuilderRuns.Script(es)) == |BuilderRuns.Script(es)| <==>
              |Encode(es)| <= Builder.MAX_BUFFER
  {
    hide Encode, IsRegex, Progress, BuilderRuns.Run, BuilderRuns.Script;
    BuilderRuns.ScriptBuilds([BuilderRuns.ROOT], es);
    assert [] + es == es;
    BuildReaches(BuilderRuns.Script(es));
  }
}
