/** From a tree to its text and back: the writer's text, read by the lexer with the reader as its client. */
module JsonPipeline {
  import opened Bytes
  import opened BsonTree
  import opened JsonMachine
  import opened JsonRoundTrip
  import opened JsonText
  import BuilderRuns
  import Bridge = JsonBridge
  import Client = LexerClient
  import Grammar = JsonGrammar
  import Lexer
  import Lexing = JsonLexing
  import Step = LexerStep
  import Strings = JsonString
  import Syntax = JsonSyntax

  /** `bson_as_canonical_extended_json`. */
  ghost function CanonicalText(es: seq<Element>): seq<byte>
    requires CanWriteAll(es)
  {
    MembersEvents(es);
    MapTree(es);
    Syntax.Render(Root(es))
  }

  predicate Halted(r: Reader) { r.state == ERROR || r.state == UNMODELLED }

  /** The reader as the lexer's client: an error makes it call `jsonsl_stop`. */
  ghost function ReaderClient(text: seq<byte>): Step.Client {
    trace => Halted(Feed(START, Syntax.Calls(text, trace)))
  }

  /** What the reader has done after the lexer's calls on a text. */
  ghost function ReadText(text: seq<byte>): (Step.Lex, Reader) {
    var r := Lexer.Run(Lexer.Start(STACK_MAX), ReaderClient(text), text);
    (r, Feed(START, Syntax.Calls(text, r.trace)))
  }

  lemma {:induction false} FieldsFit(es: seq<Element>)
    ensures Tallest(es) <= Syntax.MembersHeight(Members(es))
    ensures Tallest(es) <= Syntax.ItemsHeight(Items(es))
    decreases es
  {
    hide Tree;
    if es != [] {
      ValueFits(es[0].value);
      FieldsFit(es[1..]);
      assert Members(es)[1..] == Members(es[1..]) && Items(es)[1..] == Items(es[1..]);
    }
  }

  /** A text needs at least one level of the lexer for each document and array. */
  lemma {:induction false} ValueFits(v: Value)
    ensures Height(v) <= Syntax.Height(Tree(v))
    decreases v
  {
    match v
    case Document(fields) => FieldsFit(fields);
    case Array(items) => FieldsFit(items);
    case _ =>
  }

  /** A reader that ends without an error had none before. */
  lemma NeverHalted(text: seq<byte>, trace: seq<Step.Event>)
    requires !Halted(Feed(START, Syntax.Calls(text, trace)))
    ensures Client.Lets(ReaderClient(text), [], trace)
  {
    hide Feed, Syntax.Calls;
    forall i | 0 < i <= |trace| ensures !ReaderClient(text)(trace[..i]) {
      assert trace == trace[..i] + trace[i..];
      Syntax.CallsConcat(text, trace[..i], trace[i..]);
      var q := Feed(START, Syntax.Calls(text, trace[..i]));
      FeedConcat(START, Syntax.Calls(text, trace[..i]), Syntax.Calls(text, trace[i..]));
      if Halted(q) {
        FeedHalted(q, Syntax.Calls(text, trace[i..]));
      }
    }
  }

  lemma Alone(text: seq<byte>)
    ensures [] + text + [] == text && text + [] == text
  {}

  lemma MapIsMap(j: Syntax.Json)
    requires Syntax.WellFormed(j) && j.Map?
    ensures Bridge.NodeOf(j).Map?
  {
    hide Bridge.MembersOf;
  }

  /** The lexer makes the calls that the text's value stands for, and ends where it began. */
  lemma LexDocument(text: seq<byte>, quiet: Step.Client, j: Syntax.Json)
    requires Strings.Quiet(quiet) && Syntax.WellFormed(j) && j.Map? && text == Syntax.Render(j) && Syntax.Height(j) < STACK_MAX
    ensures var r := Lexer.Run(Lexer.Start(STACK_MAX), quiet, text);
            r.status.Running? && r.level == 0 && r.pos == |text| && Syntax.Calls(text, r.trace) == Syntax.Events(j)
  {
    MapIsMap(j);
    hide Lexer.Run, Syntax.Render, Syntax.Events, Syntax.WellFormed, Syntax.Height, Syntax.Calls, Bridge.NodeOf, Grammar.Render,
         Grammar.Valid, Grammar.Events, Grammar.Height;
    Bridge.NodeAgrees(j);
    Lexing.LexText(quiet, STACK_MAX, [], Bridge.NodeOf(j), [], []);
    Alone(text);
  }

  /**
   The round trip through the text: the lexer, with the reader as its client, takes the whole text the
   canonical writer gives for a tree; the reader ends in `DONE` with nothing open, having made exactly the
   builder calls that spell out the tree.
   */
  lemma TextRoundTrip(es: seq<Element>)
    requires WritableFields(es) && Syntax.Height(Root(es)) < STACK_MAX
    ensures CanWriteAll(es)
    ensures var (lex, reader) := ReadText(CanonicalText(es));
            && lex.status.Running? && lex.level == 0 && lex.pos == |CanonicalText(es)|
            && reader.state == DONE && reader.levels == [] && reader.ops == BuilderRuns.Script(es)
  {
    hide Lexer.Run, Feed, Syntax.Calls, Syntax.Render, CanWriteAll, Syntax.WellFormed, Syntax.Events, Members, FieldEvents, WritableFields;
    FieldsAreWritten(es);
    var text, quiet: Step.Client := CanonicalText(es), trace => false;
    var s := Lexer.Start(STACK_MAX);
    MembersEvents(es);
    MapTree(es);
    LexDocument(text, quiet, Root(es));
    FieldsFit(es);
    DocumentRoundTrip(es);
    var r := Lexer.Run(s, quiet, text);
    NeverHalted(text, r.trace);
    Client.RunAgrees(s, quiet, ReaderClient(text), text);
  }
}
