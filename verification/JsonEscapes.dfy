/**
 What the text of a JSON string may look like and what it stands for (section 7 of RFC 8259), and that
 `jsonsl_util_unescape` takes exactly such texts and gives exactly that meaning.
 */
module JsonEscapes {
  import opened Bytes
  import opened JsonString
  import opened Utf8
  import LexerStep

  const ESCAPE: byte := 0x5c
  const LETTER_U: byte := 0x75

  /** The letters that may follow a backslash, and what each stands for. */
  const LETTERS: map<byte, byte> :=
    map[0x22 := 0x22, 0x5c := 0x5c, 0x2f := 0x2f, 0x62 := 0x08, 0x66 := 0x0c, 0x6e := 0x0a, 0x72 := 0x0d, 0x74 := 0x09]

  /** `0` to `f` and `0` to `F`. */
  const LOWER_HEX: seq<byte> :=
    [0x30, 0x31, 0x32, 0x33, 0x34, 0x35, 0x36, 0x37, 0x38, 0x39, 0x61, 0x62, 0x63, 0x64, 0x65, 0x66]
  const UPPER_HEX: seq<byte> :=
    [0x30, 0x31, 0x32, 0x33, 0x34, 0x35, 0x36, 0x37, 0x38, 0x39, 0x41, 0x42, 0x43, 0x44, 0x45, 0x46]

  predicate IsDigitOf(c: byte, n: int) { 0 <= n < 16 && (c == LOWER_HEX[n] || c == UPPER_HEX[n]) }

  /** Four hexadecimal digits of a number, in either case. */
  predicate Spells16(digits: seq<byte>, v: int) {
    && |digits| == 4 && 0 <= v < 0x10000
    && IsDigitOf(digits[0], v / 4096) && IsDigitOf(digits[1], v / 256 % 16)
    && IsDigitOf(digits[2], v / 16 % 16) && IsDigitOf(digits[3], v % 16)
  }

  /** A byte that stands for itself, or a backslash and a letter. */
  datatype Simple = Byte(b: byte) | Letter(c: byte)

  /**
   A code point written as four digits, or as two surrogates.  RFC 8259 has the second follow at once; the source
   takes it after any simple ones too, and writes the code point behind them.
   */
  datatype Unit =
    | Alone(s: Simple)
    | Code(digits: seq<byte>, v: int)
    | Surrogates(high: seq<byte>, h: int, between: seq<Simple>, low: seq<byte>, l: int)

  predicate ValidSimple(s: Simple) { if s.Byte? then s.b != ESCAPE else s.c in LETTERS }

  predicate AllSimple(ss: seq<Simple>) { forall i | 0 <= i < |ss| :: ValidSimple(ss[i]) }

  predicate ValidUnit(u: Unit) {
    match u
    case Alone(s) => ValidSimple(s)
    case Code(digits, v) => Spells16(digits, v) && !(0xd800 <= v < 0xe000)
    case Surrogates(high, h, between, low, l) =>
      Spells16(high, h) && 0xd800 <= h < 0xdc00 && AllSimple(between) && Spells16(low, l) && 0xdc00 <= l < 0xe000
  }

  predicate AllValid(us: seq<Unit>) { forall i | 0 <= i < |us| :: ValidUnit(us[i]) }

  function SimpleText(s: Simple): seq<byte> { if s.Byte? then [s.b] else [ESCAPE, s.c] }

  function SimpleTexts(ss: seq<Simple>): seq<byte> { if ss == [] then [] else SimpleText(ss[0]) + SimpleTexts(ss[1..]) }

  function UnitText(u: Unit): seq<byte> {
    match u
    case Alone(s) => SimpleText(s)
    case Code(digits, _) => [ESCAPE, LETTER_U] + digits
    case Surrogates(high, _, between, low, _) => [ESCAPE, LETTER_U] + high + SimpleTexts(between) + [ESCAPE, LETTER_U] + low
  }

  function Text(us: seq<Unit>): seq<byte> { if us == [] then [] else UnitText(us[0]) + Text(us[1..]) }

  function SimpleMeaning(s: Simple): seq<byte>
    requires ValidSimple(s)
  {
    if s.Byte? then [s.b] else [LETTERS[s.c]]
  }

  function SimpleMeanings(ss: seq<Simple>): seq<byte>
    requires AllSimple(ss)
  {
    if ss == [] then [] else SimpleMeaning(ss[0]) + SimpleMeanings(ss[1..])
  }

  /** Of two surrogates, ten bits each (section 2.1 of RFC 2781). */
  function PairOf(h: int, l: int): scalar
    requires 0xd800 <= h < 0xdc00 && 0xdc00 <= l < 0xe000
  {
    (h - 0xd800) * 1024 + (l - 0xdc00) + 0x10000
  }

  function UnitMeaning(u: Unit): seq<byte>
    requires ValidUnit(u)
  {
    match u
    case Alone(s) => SimpleMeaning(s)
    case Code(_, v) => EncodeScalar(v)
    case Surrogates(_, h, between, _, l) => SimpleMeanings(between) + EncodeScalar(PairOf(h, l))
  }

  function Meaning(us: seq<Unit>): seq<byte>
    requires AllValid(us)
  {
    if us == [] then [] else UnitMeaning(us[0]) + Meaning(us[1..])
  }

  lemma DigitValue(c: byte, n: int)
    requires IsDigitOf(c, n)
    ensures DigitToInt(c) == n
  {}

  lemma DigitIsOne(c: byte)
    requires DigitToInt(c) != -1
    ensures IsDigitOf(c, DigitToInt(c))
  {}

  lemma FourDigits(a: int, b: int, c: int, d: int)
    requires 0 <= a < 16 && 0 <= b < 16 && 0 <= c < 16 && 0 <= d < 16
    ensures var v := a * 4096 + b * 256 + c * 16 + d;
            0 <= v < 0x10000 && v / 4096 == a && v / 256 % 16 == b && v / 16 % 16 == c && v % 16 == d
  {
    var v := a * 4096 + b * 256 + c * 16 + d;
    ByDigits(v);
    LastDigit(v, a * 256 + b * 16 + c, d);
    LastDigit(a * 256 + b * 16 + c, a * 16 + b, c);
    LastDigit(a * 16 + b, a, b);
  }

  lemma LastDigit(v: int, q: int, r: int)
    requires v == 16 * q + r && 0 <= r < 16
    ensures v / 16 == q && v % 16 == r
  {}

  lemma ByDigits(v: int)
    requires 0 <= v < 0x10000
    ensures v / 256 == v / 16 / 16 && v / 4096 == v / 256 / 16 && 0 <= v / 4096 < 16
    ensures v == v / 4096 * 4096 + v / 256 % 16 * 256 + v / 16 % 16 * 16 + v % 16
  {
    assert v == 16 * (v / 16) + v % 16;
    assert v / 16 == 16 * (v / 256) + v / 16 % 16;
    assert v / 256 == 16 * (v / 4096) + v / 256 % 16;
  }

  lemma DigitsValue(digits: seq<byte>, v: int)
    requires Spells16(digits, v)
    ensures UEscape16(digits) == v
  {
    hide DigitToInt, IsDigitOf;
    DigitValue(digits[0], v / 4096);
    DigitValue(digits[1], v / 256 % 16);
    DigitValue(digits[2], v / 16 % 16);
    DigitValue(digits[3], v % 16);
    ByDigits(v);
  }

  lemma DigitsSpell(digits: seq<byte>)
    requires |digits| == 4 && UEscape16(digits) != -1
    ensures Spells16(digits, UEscape16(digits))
  {
    hide DigitToInt, IsDigitOf;
    DigitIsOne(digits[0]);
    DigitIsOne(digits[1]);
    DigitIsOne(digits[2]);
    DigitIsOne(digits[3]);
    var a, b, c, d := DigitToInt(digits[0]), DigitToInt(digits[1]), DigitToInt(digits[2]), DigitToInt(digits[3]);
    assert 0 <= a < 16 && 0 <= b < 16 && 0 <= c < 16 && 0 <= d < 16 by { InRange(); }
    FourDigits(a, b, c, d);
  }

  lemma InRange()
    ensures forall c, n :: IsDigitOf(c, n) ==> 0 <= n < 16
  {}

  lemma SimpleTaken(s: Simple, rest: seq<byte>, last: int)
    requires ValidSimple(s) && (last == 0 || 0xd800 <= last < 0xdc00)
    ensures UnescapeFrom(SimpleText(s) + rest, last) == Prepend(SimpleMeaning(s), UnescapeFrom(rest, last))
  {
    hide UnescapeFrom, Prepend;
    var t := SimpleText(s) + rest;
    FirstByte(t, last);
    if s.Byte? {
      assert t[1..] == rest;
    } else {
      assert t[2..] == rest;
      LetterTaken(s.c);
    }
  }

  lemma LetterTaken(c: byte)
    requires c in LETTERS
    ensures LexerStep.IsAllowedEscape(c) && c != LETTER_U && EscapeEquiv(c) == LETTERS[c]
  {}

  lemma {:induction false} SimplesTaken(ss: seq<Simple>, rest: seq<byte>, last: int)
    requires AllSimple(ss) && (last == 0 || 0xd800 <= last < 0xdc00)
    ensures UnescapeFrom(SimpleTexts(ss) + rest, last) == Prepend(SimpleMeanings(ss), UnescapeFrom(rest, last))
  {
    hide UnescapeFrom, Prepend, SimpleText, SimpleMeaning, ValidSimple;
    if ss == [] {
      assert SimpleTexts(ss) + rest == rest;
      PrependNothing(UnescapeFrom(rest, last));
    } else {
      assert SimpleTexts(ss) + rest == SimpleText(ss[0]) + (SimpleTexts(ss[1..]) + rest);
      SimpleTaken(ss[0], SimpleTexts(ss[1..]) + rest, last);
      SimplesTaken(ss[1..], rest, last);
      PrependTwice(SimpleMeaning(ss[0]), SimpleMeanings(ss[1..]), UnescapeFrom(rest, last));
    }
  }

  /** One `\\u` escape, by the state the decoder is in. */
  lemma CodeTaken(digits: seq<byte>, v: int, rest: seq<byte>, last: int)
    requires Spells16(digits, v) && (last == 0 || 0xd800 <= last < 0xdc00)
    ensures var s := [ESCAPE, LETTER_U] + digits + rest;
            && (last == 0 && !(0xd800 <= v < 0xe000) ==> UnescapeFrom(s, last) == Prepend(EncodeScalar(v), UnescapeFrom(rest, 0)))
            && (last == 0 && 0xd800 <= v < 0xdc00 ==> UnescapeFrom(s, last) == UnescapeFrom(rest, v))
            && (last != 0 && 0xdc00 <= v < 0xe000 ==>
                  UnescapeFrom(s, last) == Prepend(EncodeScalar(PairOf(last, v)), UnescapeFrom(rest, 0)))
  {
    hide Prepend, EncodeScalar, UEscape16;
    var s := [ESCAPE, LETTER_U] + digits + rest;
    assert s[2..6] == digits && s[6..] == rest && s[0] == ESCAPE && s[1] == LETTER_U;
    DigitsValue(digits, v);
  }

  lemma UnitTaken(u: Unit, rest: seq<byte>)
    requires ValidUnit(u)
    ensures UnescapeFrom(UnitText(u) + rest, 0) == Prepend(UnitMeaning(u), UnescapeFrom(rest, 0))
  {
    hide UnescapeFrom, Prepend, SimpleTexts, SimpleMeanings, EncodeScalar, Spells16;
    match u
    case Alone(s) => SimpleTaken(s, rest, 0);
    case Code(digits, v) => CodeTaken(digits, v, rest, 0);
    case Surrogates(high, h, between, low, l) =>
      var tail := [ESCAPE, LETTER_U] + low + rest;
      assert UnitText(u) + rest == [ESCAPE, LETTER_U] + high + (SimpleTexts(between) + tail);
      CodeTaken(high, h, SimpleTexts(between) + tail, 0);
      SimplesTaken(between, tail, h);
      CodeTaken(low, l, rest, h);
      PrependTwice(SimpleMeanings(between), EncodeScalar(PairOf(h, l)), UnescapeFrom(rest, 0));
  }

  /** Every text of valid units means what its units mean. */
  lemma {:induction false} Understood(us: seq<Unit>)
    requires AllValid(us)
    ensures UnescapeFrom(Text(us), 0) == Ok(Meaning(us))
  {
    hide UnitText, UnitMeaning, ValidUnit;
    if us != [] {
      Understood(us[1..]);
      UnitTaken(us[0], Text(us[1..]));
    }
  }

  /** A text that is taken with no surrogate pending is a text of valid units. */
  lemma {:induction false} OnlyUnits(s: seq<byte>) returns (us: seq<Unit>)
    requires UnescapeFrom(s, 0).Ok?
    ensures AllValid(us) && Text(us) == s
    decreases |s|
  {
    hide EncodeScalar, UEscape16, EscapeEquiv;
    if s == [] {
      us := [];
    } else if s[0] != ESCAPE {
      us := OnlyUnits(s[1..]);
      us := Joined(Alone(Byte(s[0])), us, s);
    } else if s[1] != LETTER_U {
      AllowedIsLetter(s[1]);
      us := OnlyUnits(s[2..]);
      us := Joined(Alone(Letter(s[1])), us, s);
    } else {
      var digits, v := s[2..6], UEscape16(s[2..6]);
      DigitsSpell(digits);
      if 0xd800 <= v < 0xdc00 {
        var between, low, l, rest := OnlyPair(s[6..], v);
        us := OnlyUnits(rest);
        us := JoinedPair(Surrogates(digits, v, between, low, l), us, s, rest);
      } else {
        us := OnlyUnits(s[6..]);
        us := Joined(Code(digits, v), us, s);
      }
    }
  }

  lemma AllowedIsLetter(c: byte)
    requires LexerStep.IsAllowedEscape(c) && c != LETTER_U
    ensures c in LETTERS
  {}

  lemma Joined(u: Unit, us: seq<Unit>, s: seq<byte>) returns (r: seq<Unit>)
    requires ValidUnit(u) && AllValid(us) && !u.Surrogates? && UnitText(u) + Text(us) == s
    ensures AllValid(r) && Text(r) == s
  {
    hide UnitText, ValidUnit;
    r := [u] + us;
    assert r[1..] == us;
  }

  lemma JoinedPair(u: Unit, us: seq<Unit>, s: seq<byte>, rest: seq<byte>) returns (r: seq<Unit>)
    requires ValidUnit(u) && AllValid(us) && u.Surrogates? && Text(us) == rest
    requires |s| >= 6 && s[..6] == [ESCAPE, LETTER_U] + u.high && s[6..] == SimpleTexts(u.between) + [ESCAPE, LETTER_U] + u.low + rest
    ensures AllValid(r) && Text(r) == s
  {
    hide ValidUnit, SimpleTexts, Text;
    assert s == s[..6] + s[6..];
    assert UnitText(u) + rest == s;
    r := PutFirst(u, us);
  }

  lemma PutFirst(u: Unit, us: seq<Unit>) returns (r: seq<Unit>)
    requires ValidUnit(u) && AllValid(us)
    ensures AllValid(r) && Text(r) == UnitText(u) + Text(us)
  {
    hide UnitText, ValidUnit;
    r := [u] + us;
    assert r[1..] == us;
  }

  /** With one pending, it goes on with simple ones and then the low surrogate. */
  lemma {:induction false} OnlyPair(s: seq<byte>, last: int) returns (between: seq<Simple>, low: seq<byte>, l: int, rest: seq<byte>)
    requires 0xd800 <= last < 0xdc00 && UnescapeFrom(s, last).Ok?
    ensures AllSimple(between) && Spells16(low, l) && 0xdc00 <= l < 0xe000
    ensures s == SimpleTexts(between) + [ESCAPE, LETTER_U] + low + rest && UnescapeFrom(rest, 0).Ok? && |rest| < |s|
    decreases |s|
  {
    hide EncodeScalar, UEscape16, EscapeEquiv, Spells16;
    if s[0] != ESCAPE {
      between, low, l, rest := OnlyPair(s[1..], last);
      between := AddSimple(Byte(s[0]), between, s, low, rest);
    } else if s[1] != LETTER_U {
      AllowedIsLetter(s[1]);
      between, low, l, rest := OnlyPair(s[2..], last);
      between := AddSimple(Letter(s[1]), between, s, low, rest);
    } else {
      between, low, l, rest := [], s[2..6], UEscape16(s[2..6]), s[6..];
      DigitsSpell(low);
      assert s == [ESCAPE, LETTER_U] + low + rest;
    }
  }

  lemma AddSimple(x: Simple, between: seq<Simple>, s: seq<byte>, low: seq<byte>, rest: seq<byte>) returns (r: seq<Simple>)
    requires ValidSimple(x) && AllSimple(between)
    requires s == SimpleText(x) + (SimpleTexts(between) + [ESCAPE, LETTER_U] + low + rest)
    ensures AllSimple(r) && s == SimpleTexts(r) + [ESCAPE, LETTER_U] + low + rest
  {
    hide SimpleText, ValidSimple;
    r := [x] + between;
    assert r[1..] == between;
    assert SimpleTexts(r) == SimpleText(x) + SimpleTexts(between);
  }

  /** The texts that can be unescaped are those of valid units, and what comes out is their meaning. */
  lemma UnescapesIff(s: seq<byte>, text: seq<byte>)
    ensures UnescapeFrom(s, 0) == Ok(text) <==> exists us :: AllValid(us) && Text(us) == s && Meaning(us) == text
  {
    hide UnescapeFrom, Text, Meaning, AllValid;
    if UnescapeFrom(s, 0) == Ok(text) {
      var us := OnlyUnits(s);
      Understood(us);
      assert AllValid(us) && Text(us) == s && Meaning(us) == text;
    }
    forall us | AllValid(us) && Text(us) == s && Meaning(us) == text ensures UnescapeFrom(s, 0) == Ok(text) {
      Understood(us);
    }
  }
}
