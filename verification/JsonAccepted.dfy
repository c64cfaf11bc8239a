/** Which JSON texts become a document, and which: lexer and reader together come to what the text means. */
module JsonAccepted {
  import opened Bytes
  import opened BsonTree
  import opened JsonMachine
  import opened JsonMeaning
  import opened JsonReading
  import BuilderRuns
  import Chunks = JsonChunks
  import Dec = DecimalDigits
  import Depths = JsonDepth
  import Denotation = JsonDenotation
  import Doc = JsonDocument
  import Escapes = JsonEscapes
  import Grammar = JsonGrammar
  import Lexer
  import Lexing = JsonLexing
  import Places = LexerPlaces
  import Step = LexerStep
  import Strings = JsonString
  import Syntax = JsonSyntax
  import Utf8

  /** A whole text: an object with space around it. */
  function TextOf(before: seq<byte>, n: Grammar.Node, behind: seq<byte>): seq<byte> { before + Grammar.Render(n) + behind }

  ghost predicate IsText(before: seq<byte>, n: Grammar.Node, behind: seq<byte>) {
    Grammar.Valid(n) && n.Map? && Grammar.IsSpace(before) && Grammar.IsSpace(behind)
  }

  /** The fields of the document that the text stands for. */
  ghost function Meant(n: Grammar.Node): Meaning<seq<Element>>
    requires Grammar.Valid(n) && n.Map?
  {
    Fields(MembersOf(n.members), true)
  }

  ghost predicate IsOrderly(n: Grammar.Node)
    requires Grammar.Valid(n) && n.Map?
  {
    OrderlyFields(MembersOf(n.members), true)
  }

  lemma MembersFit(n: Grammar.Node)
    requires Grammar.Valid(n) && n.Map?
    ensures (forall m | m in n.members :: Grammar.ValidMember(m)) && TreeOf(n) == Obj(MembersOf(n.members))
    ensures MembersDepth(MembersOf(n.members)) < Grammar.Height(n) && Denotation.TreeEvents(TreeOf(n)) == Grammar.Events(n)
  {
    TreeAgrees(n);
    hide Denotation.TreeEvents, Grammar.Events;
  }

  /** What lexer and reader make of a text that is shallow enough. */
  lemma ShallowText(before: seq<byte>, n: Grammar.Node, behind: seq<byte>)
    requires IsText(before, n, behind) && IsOrderly(n) && Grammar.Height(n) < STACK_MAX
    ensures var text := TextOf(before, n, behind);
            var r := Doc.ReaderOf(text);
            && Doc.Lexed(text).status.Running?
            && match Meant(n)
               case Is(es) => r.state == DONE && r.ops == BuilderRuns.Script(es)
               case Refused => r.state == ERROR
               case Silent => r.state == UNMODELLED
  {
    hide Lexer.Run, Grammar.Render, Grammar.Events, Grammar.Valid, Grammar.Height, Grammar.IsSpace, Syntax.Calls, Feed, Fields,
         OrderlyFields, MembersDepth, Denotation.TreeEvents;
    Lexing.LexText(Chunks.QUIET, STACK_MAX, before, n, behind, []);
    assert TextOf(before, n, behind) + [] == TextOf(before, n, behind);
    MembersFit(n);
    RootMeans(MembersOf(n.members));
  }

  /** A text that nests too deep. */
  lemma DeepText(before: seq<byte>, n: Grammar.Node, behind: seq<byte>)
    requires IsText(before, n, behind) && Grammar.Height(n) >= STACK_MAX
    ensures !Doc.Accepts(TextOf(before, n, behind))
  {
    hide Lexer.Run, Grammar.Render, Grammar.Valid, Grammar.Height, Grammar.IsSpace, Doc.ReaderOf;
    Depths.AcceptsIffShallow(Chunks.QUIET, STACK_MAX, before, n, behind);
  }

  lemma ScriptSpells(text: seq<byte>, es: seq<Element>)
    requires Doc.ReaderOf(text).ops == BuilderRuns.Script(es)
    ensures forall ds :: Doc.Spells(text, ds) <==> ds == es
  {
    hide Doc.ReaderOf, BuilderRuns.Script, BuilderRuns.Run;
    BuilderRuns.ScriptBuilds([BuilderRuns.ROOT], es);
    assert [] + es == es;
  }

  /**
   A text in the documented forms, however it is spaced and escaped, is accepted exactly if it means a document and
   nests less than one hundred levels deep; and then that document is the only one it spells.
   */
  lemma AcceptedIff(before: seq<byte>, n: Grammar.Node, behind: seq<byte>)
    requires IsText(before, n, behind) && IsOrderly(n)
    ensures var text := TextOf(before, n, behind);
            && (Doc.Accepts(text) <==> Grammar.Height(n) < 100 && Meant(n).Is?)
            && (Doc.Accepts(text) ==> forall es :: Doc.Spells(text, es) <==> es == Meant(n).value)
            && (Grammar.Height(n) < 100 && Meant(n).Silent? ==> !Doc.Covers(text))
  {
    hide TextOf, Grammar.Valid, Grammar.Height, Grammar.IsSpace, Doc.ReaderOf, Doc.Lexed, Meant, Doc.Spells, BuilderRuns.Script;
    if Grammar.Height(n) < STACK_MAX {
      ShallowText(before, n, behind);
      if Meant(n).Is? {
        ScriptSpells(TextOf(before, n, behind), Meant(n).value);
      }
    } else {
      DeepText(before, n, behind);
    }
  }

  /** A brace where nothing more may be inserted, and what follows it is not looked at. */
  lemma StopsAtBrace(r: Step.Lex, client: Step.Client, rest: seq<byte>)
    requires Lexing.Closed(r) && |r.stack| >= 2 && Strings.Quiet(client)
    ensures Lexer.Run(r, client, [0x7b] + rest) == r.(status := Step.Failed(Step.CantInsert))
  {
    Lexer.RunSingle(r, client, 0x7b);
    Places.BehindDocument(r, client, 0x7b);
    hide Lexer.Run, Step.ExtractSpecial, Step.IsWhitespace, Step.Quote, Step.Escape;
    Places.Literals(0x7b);
    Lexer.RunConcat(r, client, [0x7b], rest);
    Depths.RunDead(r.(status := Step.Failed(Step.CantInsert)), client, rest);
  }

  /** Of several documents in a row the first one is read, and the rest not looked at. */
  lemma FirstOfSeveral(before: seq<byte>, n: Grammar.Node, behind: seq<byte>, rest: seq<byte>)
    requires IsText(before, n, behind) && IsOrderly(n) && Grammar.Height(n) < 100
    ensures var text := TextOf(before, n, behind) + ([0x7b] + rest);
            && (Doc.Accepts(text) <==> Meant(n).Is?)
            && (Doc.Accepts(text) ==> forall es :: Doc.Spells(text, es) <==> es == Meant(n).value)
  {
    hide Lexer.Run, Grammar.Render, Grammar.Events, Grammar.Valid, Grammar.Height, Grammar.IsSpace, Syntax.Calls, Feed, Fields,
         OrderlyFields, MembersDepth, Denotation.TreeEvents, Doc.Spells, BuilderRuns.Script;
    var first, more := TextOf(before, n, behind), [0x7b] + rest;
    Lexing.LexText(Chunks.QUIET, STACK_MAX, before, n, behind, more);
    var r := Lexer.Run(Lexer.Start(STACK_MAX), Chunks.QUIET, first);
    StopsAtBrace(r, Chunks.QUIET, rest);
    Lexer.RunConcat(Lexer.Start(STACK_MAX), Chunks.QUIET, first, more);
    MembersFit(n);
    RootMeans(MembersOf(n.members));
    if Meant(n).Is? {
      ScriptSpells(first + more, Meant(n).value);
    }
  }

  /** A document of one number. */
  function OneNumber(lead: seq<byte>, m: Grammar.Member): Grammar.Node { Grammar.Node.Map(lead, [m]) }

  /** What the lexer keeps of the number, which is the number itself only below 2^64. */
  function Kept(negative: bool, whole: seq<Dec.digit>): int {
    if negative then -(Dec.Value(whole) % TWO_64) else Dec.Value(whole) % TWO_64
  }

  /** A document of one number, under a key that C can hold. */
  ghost predicate IsNumber(m: Grammar.Member) {
    Grammar.ValidMember(m) && m.value.Integer? && 0 !in Escapes.Meaning(m.key) && Utf8.Valid(Escapes.Meaning(m.key), true)
  }

  /** The two integer types, by the bounds of the smaller one. */
  function NumberElement(key: CString, z: int): (e: Element)
    requires -0x8000_0000_0000_0000 <= z <= 0x7fff_ffff_ffff_ffff
  {
    Element(key, if -0x8000_0000 <= z <= 0x7fff_ffff then Int32(z) else Int64(z))
  }

  /** A bare number becomes an int32 if it is small enough, else an int64, else an error. */
  lemma BareNumber(before: seq<byte>, lead: seq<byte>, m: Grammar.Member, behind: seq<byte>)
    requires IsNumber(m) && IsText(before, OneNumber(lead, m), behind)
    ensures var z, text := Kept(m.value.negative, m.value.whole), TextOf(before, OneNumber(lead, m), behind);
            if -0x8000_0000_0000_0000 <= z <= 0x7fff_ffff_ffff_ffff
            then Doc.Accepts(text) && forall es :: Doc.Spells(text, es) <==> es == [NumberElement(Escapes.Meaning(m.key), z)]
            else !Doc.Accepts(text)
  {
    hide Doc.Accepts, Doc.Spells, Doc.Covers, Utf8.Valid, Escapes.Meaning, TextOf, Meant, IsOrderly, Grammar.Valid, Grammar.Height,
         NumberElement, Kept;
    var n := OneNumber(lead, m);
    NumberMeant(lead, m);
    AcceptedIff(before, n, behind);
  }

  lemma OneMember(m: Grammar.Member)
    requires Grammar.ValidMember(m)
    ensures (forall x | x in [m] :: Grammar.ValidMember(x)) && MembersOf([m]) == [Member(Escapes.Meaning(m.key), TreeOf(m.value))]
    ensures Grammar.MembersHeight([m]) == Grammar.Height(m.value)
  {
    hide TreeOf, Escapes.Meaning, Grammar.Height;
    assert [m][1..] == [] && [m][0] == m;
    assert MembersOf([]) == [] && Grammar.MembersHeight([]) == 0;
  }

  lemma NumberTree(m: Member)
    requires m.value.Num? && 0 !in m.key && Utf8.Valid(m.key, true)
    ensures OrderlyFields([m], true)
    ensures Fields([m], true) == if Integer(m.value).Is? then Is([Element(m.key, Sized(Integer(m.value).value))]) else Refused
  {
    hide Utf8.Valid;
    assert [m][1..] == [] && [m][0] == m;
    assert Fields([m][1..], true) == Is([]) && OrderlyFields([m][1..], true);
    if Integer(m.value).Is? {
      var e := Element(m.key, Sized(Integer(m.value).value));
      assert [e] + [] == [e];
    }
  }

  lemma NumberMeant(lead: seq<byte>, m: Grammar.Member)
    requires IsNumber(m) && Grammar.Valid(OneNumber(lead, m))
    ensures var z, n := Kept(m.value.negative, m.value.whole), OneNumber(lead, m);
            && IsOrderly(n) && Grammar.Height(n) < STACK_MAX
            && Meant(n) == if -0x8000_0000_0000_0000 <= z <= 0x7fff_ffff_ffff_ffff
                           then Is([NumberElement(Escapes.Meaning(m.key), z)]) else Refused
  {
    hide Utf8.Valid, Escapes.Meaning, Fields, OrderlyFields, Dec.Value, MembersOf;
    OneMember(m);
    NumberTree(Member(Escapes.Meaning(m.key), TreeOf(m.value)));
    ZeroDigit();
  }

  lemma ZeroDigit()
    ensures Dec.Value([0]) == 0
  {}

  /** The number kept is the number written exactly below 2^64. */
  lemma KeptIff(negative: bool, whole: seq<Dec.digit>)
    ensures Kept(negative, whole) == (if negative then -(Dec.Value(whole) as int) else Dec.Value(whole)) <==> Dec.Value(whole) < 0x1_0000_0000_0000_0000
  {
    hide Dec.Value;
  }

  /** A number past that comes out as another one: 2^64 + 5 as 5. */
  lemma NumberWraps(before: seq<byte>, lead: seq<byte>, m: Grammar.Member, behind: seq<byte>)
    requires IsNumber(m) && m.value == Grammar.Integer(false, Dec.Digits(18446744073709551621)) && IsText(before, OneNumber(lead, m), behind)
    ensures var text := TextOf(before, OneNumber(lead, m), behind);
            Doc.Accepts(text) && forall es :: Doc.Spells(text, es) <==> es == [Element(Escapes.Meaning(m.key), Int32(5))]
  {
    hide Doc.Accepts, Doc.Spells, Utf8.Valid, Escapes.Meaning, TextOf, Dec.Digits, Dec.Value, IsText;
    Dec.ValueOfDigits(18446744073709551621);
    BareNumber(before, lead, m, behind);
  }
}
