/** The places in a text, and the bytes with which the lexer goes on at each of them; any other byte is an error there. */
module LexerPlaces {
  import opened Bytes
  import opened LexerStep
  import opened JsonString

  predicate Goes(s: Lex) { s.status.Running? }

  /** Somewhere between tokens, with a level to spare. */
  predicate Between(s: Lex, kind: Kind, expecting: byte, tokLast: byte, canInsert: bool) {
    && s.status.Running? && 0 < s.level && s.level + 1 < |s.stack| && !s.inEscape && Top(s).kind == kind
    && s.expecting == expecting && s.tokLast == tokLast && s.canInsert == canInsert
  }

  predicate IsEven(s: Lex)
    requires s.level < |s.stack|
  {
    Top(s).nelem % 2 == 0
  }

  /** Space between tokens. */
  const SPACES: set<char> := {' ', '\t', '\n', '\r'}

  /** What a number or a word may begin with. */
  const LITERALS: set<char> := {'-', '0', '1', '2', '3', '4', '5', '6', '7', '8', '9', 't', 'f', 'n', 'N', 'i', 'I'}

  const BEGINNINGS: set<char> := LITERALS + {'"', '{', '['}

  lemma Literals(c: byte)
    ensures ExtractSpecial(c) != NO_FLAGS <==> c as char in LITERALS
    ensures IsWhitespace(c) <==> c as char in SPACES
  {}

  /** `{` */
  lemma BehindBrace(s: Lex, client: Client, c: byte)
    requires Between(s, Object, QUOTE, 0, true) && IsEven(s) && Quiet(client)
    ensures Goes(Step(s, client, c)) <==> c as char in SPACES + {'"', '}'}
  {}

  /** `{ "a" : 1 ,` */
  lemma BehindMembersComma(s: Lex, client: Client, c: byte)
    requires Between(s, Object, QUOTE, COMMA, false) && IsEven(s) && Quiet(client)
    ensures Goes(Step(s, client, c)) <==> c as char in SPACES + {'"'}
  {}

  /** `{ "a"` */
  lemma BehindKey(s: Lex, client: Client, c: byte)
    requires Between(s, Object, COLON, 0, false) && !IsEven(s) && Quiet(client)
    ensures Goes(Step(s, client, c)) <==> c as char in SPACES + {':'}
  {}

  /** `{ "a" :` */
  lemma BehindColon(s: Lex, client: Client, c: byte)
    requires Between(s, Object, QUOTE, COLON, true) && !IsEven(s) && Quiet(client)
    ensures Goes(Step(s, client, c)) <==> c as char in SPACES + BEGINNINGS
  {
    hide ExtractSpecial, IsWhitespace, SpecialByte, StringByte;
    Literals(c);
  }

  /** `{ "a" : "b"` */
  lemma BehindMember(s: Lex, client: Client, c: byte)
    requires Between(s, Object, COMMA, 0, false) && IsEven(s) && Quiet(client)
    ensures Goes(Step(s, client, c)) <==> c as char in SPACES + {',', '}'}
  {}

  /** `[` */
  lemma BehindBracket(s: Lex, client: Client, c: byte)
    requires Between(s, List, QUOTE, 0, true) && Quiet(client)
    ensures Goes(Step(s, client, c)) <==> c as char in SPACES + BEGINNINGS + {']'}
  {
    hide ExtractSpecial, IsWhitespace, SpecialByte, StringByte;
    Literals(c);
  }

  /** `[ 1 ,` */
  lemma BehindItemsComma(s: Lex, client: Client, c: byte)
    requires Between(s, List, QUOTE, COMMA, true) && Quiet(client)
    ensures Goes(Step(s, client, c)) <==> c as char in SPACES + BEGINNINGS
  {
    hide ExtractSpecial, IsWhitespace, SpecialByte, StringByte;
    Literals(c);
  }

  /** `[ 1` and then the next string, for which the source wants no comma. */
  lemma BehindItem(s: Lex, client: Client, c: byte)
    requires Between(s, List, COMMA, 0, false) && Quiet(client)
    ensures Goes(Step(s, client, c)) <==> c as char in SPACES + {',', ']', '"'}
  {}

  /** Outside of the document once it is closed: a comma does no harm, and a brace is one too many. */
  lemma BehindDocument(s: Lex, client: Client, c: byte)
    requires s.status.Running? && s.level == 0 && 1 < |s.stack| && !s.inEscape && Top(s).kind == Root && Quiet(client)
    requires s.expecting == COMMA && s.tokLast == 0 && !s.canInsert
    ensures Goes(Step(s, client, c)) <==> c as char in SPACES + {','}
    ensures c as char == '{' ==> Step(s, client, c).status == Failed(CantInsert)
  {}

  predicate InText(s: Lex) { s.status.Running? && 0 < s.level < |s.stack| && IsStringy(Top(s).kind) }

  /** Inside quotes everything goes but the first twenty control characters. */
  lemma InString(s: Lex, client: Client, c: byte)
    requires InText(s) && !s.inEscape && Quiet(client)
    ensures Goes(Step(s, client, c)) <==> c >= 0x14
    ensures Goes(Step(s, client, c)) ==> (Step(s, client, c).level < s.level <==> c as char == '"')
  {}

  lemma BehindBackslash(s: Lex, client: Client, c: byte)
    requires InText(s) && s.inEscape && Quiet(client)
    ensures Goes(Step(s, client, c)) <==> c as char in {'"', '\\', '/', 'b', 'f', 'n', 'r', 't', 'u'}
    ensures Step(s, client, c).level == s.level
  {}

  predicate InLiteral(s: Lex) { s.status.Running? && 0 < s.level < |s.stack| && Top(s).kind == Special }

  const DIGITS: set<char> := {'0', '1', '2', '3', '4', '5', '6', '7', '8', '9'}

  /** What ends a number or a word. */
  const ENDS: set<char> := SPACES + {'"', ',', ':', '[', '\\', ']', '{', '}'}

  /** `-` */
  lemma BehindMinus(s: Lex, client: Client, c: byte)
    requires InLiteral(s) && Top(s).flags == DASH && Quiet(client)
    ensures Goes(Step(s, client, c)) <==> c as char in DIGITS + {'i', 'I'}
  {}

  /** `0`: no second digit. */
  lemma BehindZero(s: Lex, client: Client, c: byte)
    requires InLiteral(s) && Top(s).flags == ZERO_FLAG && s.tokLast == MINUS && c as char !in ENDS && Quiet(client)
    ensures Goes(Step(s, client, c)) <==> c as char in {'.', 'e', 'E'}
  {
    hide SpecialPop, StringByte, Quote, Structural, Escape, SpecialBegin, Word;
  }

  /** `-0`: here the source lets more digits follow, and they count for nothing. */
  lemma BehindMinusZero(s: Lex, client: Client, c: byte)
    requires InLiteral(s) && Top(s).flags == SIGNED_ZERO && c as char in DIGITS && Quiet(client)
    ensures Step(s, client, c) == s.(pos := s.pos + 1, tokLast := ONE)
  {
    hide SpecialPop, StringByte, Quote, Structural, Escape, SpecialBegin, Word;
  }

  /** The digits of a number, and what may follow them. */
  lemma BehindDigits(s: Lex, client: Client, c: byte)
    requires InLiteral(s) && (Top(s).flags == SIGNED || Top(s).flags == UNSIGNED) && s.tokLast != LOWER_E && c as char !in ENDS && Quiet(client)
    ensures Goes(Step(s, client, c)) <==> c as char in DIGITS + {'.', 'e', 'E'}
  {
    hide SpecialPop, StringByte, Quote, Structural, Escape, SpecialBegin;
  }

  predicate IsNumeric(f: Flags) { (f.signed || f.unsigned) && !f.inf && !f.dash && f != ZERO_FLAG && f != SIGNED && f != UNSIGNED }

  /** Behind a point or an exponent mark: no second one, and a sign only directly behind the mark. */
  lemma InFraction(s: Lex, client: Client, c: byte)
    requires InLiteral(s) && IsNumeric(Top(s).flags) && c as char !in ENDS && Quiet(client)
    ensures Goes(Step(s, client, c)) <==>
              || c as char in DIGITS
              || (c as char == '.' && !Top(s).flags.float)
              || (c as char in {'e', 'E'} && !Top(s).flags.exponent)
              || (c as char in {'+', '-'} && s.tokLast == LOWER_E)
  {
    hide SpecialPop, StringByte, Quote, Structural, Escape, SpecialBegin, Word;
  }

  /** A fraction must not end in its point, its mark or its sign. */
  lemma FractionEnds(s: Lex, client: Client, c: byte)
    requires InLiteral(s) && IsNumeric(Top(s).flags) && !Top(s).flags.zero && c as char in ENDS && s.tokLast != ONE && Quiet(client)
    ensures Step(s, client, c).status == Failed(InvalidNumber)
  {
    hide SpecialEnd, StringByte, Quote, Structural, Escape, SpecialBegin, Word;
  }

  function WordOf(f: Flags): string { if f == TRUE then "true" else if f == FALSE then "false" else "null" }

  /** A word, letter by letter. */
  lemma InWord(s: Lex, client: Client, c: byte)
    requires InLiteral(s) && Top(s).flags in {TRUE, FALSE, NULL} && c as char !in ENDS && Quiet(client)
    requires 0 < s.pos - Top(s).posBegin < |WordOf(Top(s).flags)|
    ensures Goes(Step(s, client, c)) <==> c as char == WordOf(Top(s).flags)[s.pos - Top(s).posBegin]
  {
    hide SpecialPop, StringByte, Quote, Structural, Escape, SpecialBegin, Numeric;
  }

  /** Behind an `n`: `null` or `nan`; with any other letter the token has no type any more. */
  lemma BehindN(s: Lex, client: Client, c: byte)
    requires InLiteral(s) && Top(s).flags == NULL_OR_NAN && c as char !in ENDS && Quiet(client)
    ensures var r := Step(s, client, c);
            Goes(r) && r.level == s.level && Top(r).flags == if c as char == 'u' then NULL else if c as char in {'a', 'A'} then NAN else NO_FLAGS
  {
    hide SpecialPop, StringByte, Quote, Structural, Escape, SpecialBegin, Numeric;
  }

  function LongWordOf(f: Flags): (string, string) {
    if f == INF then ("infinity", "INFINITY") else if f == NEG_INF then ("-infinity", "-INFINITY") else ("nan", "NAN")
  }

  /** The words that JSON does not have, in any case. */
  lemma InLongWord(s: Lex, client: Client, c: byte)
    requires InLiteral(s) && Top(s).flags in {INF, NEG_INF, NAN} && c as char !in ENDS && Quiet(client)
    requires 0 < s.pos - Top(s).posBegin < |LongWordOf(Top(s).flags).0|
    ensures var (small, capital) := LongWordOf(Top(s).flags);
            var at := s.pos - Top(s).posBegin;
            Goes(Step(s, client, c)) <==> c as char == small[at] || c as char == capital[at]
  {
    hide SpecialPop, StringByte, Quote, Structural, Escape, SpecialBegin, Numeric;
  }

  /** And no word that breaks off. */
  lemma WordBreaksOff(s: Lex, client: Client, c: byte)
    requires InLiteral(s) && Top(s).flags in {TRUE, FALSE, NULL} && c as char in ENDS && Quiet(client)
    requires Top(s).nescapes != |WordOf(Top(s).flags)|
    ensures Step(s, client, c).status == Failed(SpecialIncomplete)
  {
    hide SpecialEnd, StringByte, Quote, Structural, Escape, SpecialBegin, Numeric;
  }
}
