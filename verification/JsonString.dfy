/** JSON string text: `bson_utf8_escape_for_json`, `jsonsl_util_unescape`, and why the second undoes the first. */
module JsonString {
  import opened Bytes
  import opened Utf8
  import opened LexerStep
  import opened Lexer

  const LOWER_B: byte := 0x62
  const LOWER_F: byte := 0x66
  const LOWER_N: byte := 0x6e
  const LOWER_R: byte := 0x72
  const LOWER_T: byte := 0x74

  /** `%x`. */
  function HexDigit(n: int): byte
    requires 0 <= n < 16
  {
    if n < 10 then 0x30 + n else 0x61 + n - 10
  }

  function EscapeScalar(c: scalar): seq<byte> {
    if c == BACKSLASH || c == QUOTE then [BACKSLASH, c]
    else if c == 0x08 then [BACKSLASH, LOWER_B]
    else if c == 0x0c then [BACKSLASH, LOWER_F]
    else if c == 0x0a then [BACKSLASH, LOWER_N]
    else if c == 0x0d then [BACKSLASH, LOWER_R]
    else if c == 0x09 then [BACKSLASH, LOWER_T]
    else if c < 0x20 then [BACKSLASH, LOWER_U, ZERO, ZERO, HexDigit(c / 16), HexDigit(c % 16)]
    else EncodeScalar(c)
  }

  predicate Strict(ps: seq<Piece>) { forall i | 0 <= i < |ps| :: ps[i].Scalar? }

  /** The text between the quotes. */
  function Escaped(ps: seq<Piece>): seq<byte>
    requires Strict(ps)
  {
    if ps == [] then [] else EscapeScalar(ps[0].c) + Escaped(ps[1..])
  }

  /** Texts that the writer can escape: `bson_utf8_escape_for_json` gives up on the two-byte NUL. */
  ghost predicate IsStrict(text: seq<byte>) { exists ps :: Strict(ps) && Flatten(ps) == text }

  ghost function EscapedText(text: seq<byte>): seq<byte>
    requires IsStrict(text)
  {
    var ps :| Strict(ps) && Flatten(ps) == text;
    Escaped(ps)
  }

  /** The text has only one escaped form. */
  lemma EscapedOnce(ps: seq<Piece>)
    requires Strict(ps)
    ensures IsStrict(Flatten(ps)) && EscapedText(Flatten(ps)) == Escaped(ps)
  {
    var text := Flatten(ps);
    var qs :| Strict(qs) && Flatten(qs) == text && EscapedText(text) == Escaped(qs);
    PiecesAreUnique(ps, qs);
  }

  /**
   `bson_utf8_escape_for_json` on a valid string: it gives up exactly when the string has a two-byte NUL.
   Without a length the string ends before its first NUL.
   */
  method EscapeForJson(utf8: seq<byte>, lengthProvided: bool, ghost ps: seq<Piece>) returns (ok: bool, str: seq<byte>)
    requires Flatten(ps) == utf8 && (lengthProvided || 0 !in utf8)
    ensures ok <==> Strict(ps)
    ensures ok ==> str == Escaped(ps)
  {
    hide EscapeScalar, PieceBytes, FirstPiece, Flatten, Escaped, Valid;
    str := [];
    var at := 0;
    ghost var k := 0;
    assert utf8[0..] == utf8 && ps[0..] == ps;
    assert Strict(ps) ==> [] + Escaped(ps) == Escaped(ps);
    while at < |utf8|
      invariant at <= |utf8| && k <= |ps| && utf8[at..] == Flatten(ps[k..])
      invariant forall i | 0 <= i < k :: ps[i].Scalar?
      invariant Strict(ps) ==> Escaped(ps) == str + Escaped(ps[k..])
      decreases |utf8| - at
    {
      FlattenNext(ps, k);
      PieceFirst(ps[k], Flatten(ps[k + 1..]), true);
      CharOfValid(utf8[at..]);
      var c, num := GetChar(utf8, at);
      assert utf8[at..][num..] == utf8[at + num..];
      NullByte(ps[k], utf8[at..], Flatten(ps[k + 1..]));
      if c == 0 {
        if !(lengthProvided && utf8[at] == 0) {
          ok := false;
          return;
        }
        num := 1;
      }
      var text := EscapeChar(c);
      if Strict(ps) {
        EscapedNext(ps, k, str);
      }
      str := str + text;
      at := at + num;
      k := k + 1;
    }
    FlattenNonempty(ps[k..]);
    assert ps[k..] == [];
    if Strict(ps) {
      EscapedNothing(str);
    }
    return true, str;
  }

  lemma EscapedNothing(str: seq<byte>)
    ensures str + Escaped([]) == str
  {}

  lemma EscapedNext(ps: seq<Piece>, k: nat, str: seq<byte>)
    requires k < |ps| && Strict(ps) && Escaped(ps) == str + Escaped(ps[k..])
    ensures Escaped(ps) == (str + EscapeScalar(ps[k].c)) + Escaped(ps[k + 1..])
  {
    hide EscapeScalar;
    assert ps[k..][0] == ps[k] && ps[k..][1..] == ps[k + 1..];
    assert str + (EscapeScalar(ps[k].c) + Escaped(ps[k + 1..])) == (str + EscapeScalar(ps[k].c)) + Escaped(ps[k + 1..]);
  }

  /** A piece that decodes to zero is the NUL byte or the two-byte NUL. */
  lemma NullByte(p: Piece, s: seq<byte>, rest: seq<byte>)
    requires s == PieceBytes(p) + rest
    ensures p.Scalar? && p.c == 0 ==> s[0] == 0 && |PieceBytes(p)| == 1
    ensures p.LongNull? ==> s[0] != 0
  {}

  method EscapeChar(c: scalar) returns (str: seq<byte>)
    ensures str == EscapeScalar(c)
  {
    if c == BACKSLASH || c == QUOTE {
      str := [BACKSLASH];
      var utf8, len := FromUnichar(c);
      str := str + utf8[..len];
    } else if c == 0x08 {
      str := [BACKSLASH, LOWER_B];
    } else if c == 0x0c {
      str := [BACKSLASH, LOWER_F];
    } else if c == 0x0a {
      str := [BACKSLASH, LOWER_N];
    } else if c == 0x0d {
      str := [BACKSLASH, LOWER_R];
    } else if c == 0x09 {
      str := [BACKSLASH, LOWER_T];
    } else if c < 0x20 {
      str := [BACKSLASH, LOWER_U, ZERO, ZERO, HexDigit(c / 16), HexDigit(c % 16)];
    } else {
      var utf8, len := FromUnichar(c);
      str := utf8[..len];
    }
  }

  datatype UnescapeError = InvalidEscape | UEscapeTooShort | BadHex | InvalidCodepoint

  datatype Unescaped = Ok(text: seq<byte>) | Err(error: UnescapeError)

  function Prepend(a: seq<byte>, r: Unescaped): Unescaped {
    match r
    case Ok(text) => Ok(a + text)
    case Err(_) => r
  }

  /** `jsonsl__digit2int`. */
  function DigitToInt(c: byte): int {
    if ZERO <= c <= 0x39 then c as int - ZERO as int
    else if 0x61 <= c <= 0x66 then c as int - 0x61 + 10
    else if 0x41 <= c <= 0x46 then c as int - 0x41 + 10
    else -1
  }

  /** `jsonsl__get_uescape_16`. */
  function UEscape16(s: seq<byte>): (v: int)
    requires |s| == 4
    ensures -1 <= v < 0x10000
  {
    var a, b, c, d := DigitToInt(s[0]), DigitToInt(s[1]), DigitToInt(s[2]), DigitToInt(s[3]);
    if a == -1 || b == -1 || c == -1 || d == -1 then -1 else a * 4096 + b * 256 + c * 16 + d
  }

  /** `Escape_Equivs`, with the byte itself where the table holds zero. */
  function EscapeEquiv(c: byte): byte {
    if c == LOWER_B then 0x08
    else if c == LOWER_F then 0x0c
    else if c == LOWER_N then 0x0a
    else if c == LOWER_R then 0x0d
    else if c == LOWER_T then 0x09
    else c
  }

  function Pair(high: int, low: int): scalar
    requires 0xd800 <= high < 0xdc00 && 0xdc00 <= low < 0xe000
  {
    0x10000 + high % 0x400 * 0x400 + low % 0x400
  }

  /** What the text means; `last` is a high surrogate still waiting for its partner, or zero. */
  function UnescapeFrom(s: seq<byte>, last: int): Unescaped
    requires last == 0 || 0xd800 <= last < 0xdc00
    decreases |s|
  {
    if s == [] then if last != 0 then Err(InvalidCodepoint) else Ok([])
    else if s[0] != BACKSLASH then Prepend([s[0]], UnescapeFrom(s[1..], last))
    else if |s| < 2 || !IsAllowedEscape(s[1]) then Err(InvalidEscape)
    else if s[1] != LOWER_U then Prepend([EscapeEquiv(s[1])], UnescapeFrom(s[2..], last))
    else if |s| < 6 then Err(UEscapeTooShort)
    else
      var v := UEscape16(s[2..6]);
      if v == -1 then Err(BadHex)
      else if last != 0 then
        if 0xdc00 <= v < 0xe000 then Prepend(EncodeScalar(Pair(last, v)), UnescapeFrom(s[6..], 0)) else Err(InvalidCodepoint)
      else if v < 0xd800 || v >= 0xe000 then Prepend(EncodeScalar(v), UnescapeFrom(s[6..], 0))
      else if v < 0xdc00 then UnescapeFrom(s[6..], v)
      else Err(InvalidCodepoint)
  }

  /** For every input at all, no more bytes come out than went in. */
  lemma {:induction false} NeverLonger(s: seq<byte>, last: int)
    requires last == 0 || 0xd800 <= last < 0xdc00
    ensures UnescapeFrom(s, last).Ok? ==> |UnescapeFrom(s, last).text| <= |s|
    decreases |s|
  {
    hide EncodeScalar, UEscape16, EscapeEquiv;
    if s != [] {
      if s[0] != BACKSLASH {
        NeverLonger(s[1..], last);
      } else if |s| >= 2 {
        NeverLonger(s[2..], last);
        if |s| >= 6 {
          NeverLonger(s[6..], 0);
          var v := UEscape16(s[2..6]);
          if 0xd800 <= v < 0xdc00 {
            NeverLonger(s[6..], v);
          }
        }
      }
    }
  }

  /** Bytes other than a backslash are copied. */
  lemma {:induction false} Copied(a: seq<byte>, b: seq<byte>)
    requires BACKSLASH !in a
    ensures UnescapeFrom(a + b, 0) == Prepend(a, UnescapeFrom(b, 0))
  {
    if a == [] {
      assert a + b == b;
      assert UnescapeFrom(b, 0).Ok? ==> [] + UnescapeFrom(b, 0).text == UnescapeFrom(b, 0).text;
    } else {
      assert (a + b)[0] == a[0] && (a + b)[1..] == a[1..] + b;
      Copied(a[1..], b);
      assert UnescapeFrom(b, 0).Ok? ==> [a[0]] + (a[1..] + UnescapeFrom(b, 0).text) == a + UnescapeFrom(b, 0).text;
    }
  }

  predicate HasShortEscape(c: int) {
    c == BACKSLASH || c == QUOTE || c == 0x08 || c == 0x0c || c == 0x0a || c == 0x0d || c == 0x09
  }

  lemma ShortUnescapes(c: scalar, rest: seq<byte>)
    requires HasShortEscape(c)
    ensures UnescapeFrom(EscapeScalar(c) + rest, 0) == Prepend(EncodeScalar(c), UnescapeFrom(rest, 0))
  {
    hide UnescapeFrom, Prepend;
    var s := EscapeScalar(c) + rest;
    assert s[2..] == rest;
    FirstByte(s, 0);
    assert [EscapeEquiv(s[1])] == EncodeScalar(c);
  }

  lemma ControlUnescapes(c: scalar, rest: seq<byte>)
    requires c < 0x20 && !HasShortEscape(c)
    ensures UnescapeFrom(EscapeScalar(c) + rest, 0) == Prepend(EncodeScalar(c), UnescapeFrom(rest, 0))
  {
    var s := EscapeScalar(c) + rest;
    assert s[6..] == rest && s[2..6] == [ZERO, ZERO, HexDigit(c / 16), HexDigit(c % 16)];
    assert UEscape16(s[2..6]) == c;
  }

  lemma NoBackslash(c: scalar)
    requires c >= 0x20 && c != BACKSLASH && c != QUOTE
    ensures BACKSLASH !in EncodeScalar(c)
    ensures forall i | 0 <= i < |EncodeScalar(c)| :: IsSimple(EncodeScalar(c)[i])
  {
    if c >= 0x80 {
      GatherScalar(c);
      LeadByte(c);
    }
  }

  lemma ScalarUnescapes(c: scalar, rest: seq<byte>)
    ensures UnescapeFrom(EscapeScalar(c) + rest, 0) == Prepend(EncodeScalar(c), UnescapeFrom(rest, 0))
  {
    hide UnescapeFrom, EncodeScalar, Prepend;
    if HasShortEscape(c) {
      ShortUnescapes(c, rest);
    } else if c < 0x20 {
      ControlUnescapes(c, rest);
    } else {
      NoBackslash(c);
      Copied(EncodeScalar(c), rest);
    }
  }

  /** Unescaping undoes escaping, for every strictly valid string, NULs included. */
  lemma {:induction false} EscapeRoundTrip(ps: seq<Piece>)
    requires Strict(ps)
    ensures UnescapeFrom(Escaped(ps), 0) == Ok(Flatten(ps))
  {
    hide EscapeScalar, EncodeScalar;
    if ps != [] {
      EscapeRoundTrip(ps[1..]);
      ScalarUnescapes(ps[0].c, Escaped(ps[1..]));
    }
  }

  /** `jsonsl__writeutf8`. */
  method WriteUtf8(pt: scalar, out: array<byte>, at: nat) returns (next: nat)
    requires at + (if pt < 0x80 then 1 else if pt < 0x800 then 2 else if pt < 0x10000 then 3 else 4) <= out.Length
    modifies out
    ensures next <= out.Length && out[..next] == old(out[..at]) + EncodeScalar(pt)
  {
    next := at;
    if pt < 0x80 {
      out[next] := pt;
      next := next + 1;
    } else if pt < 0x800 {
      out[next] := 0xc0 + pt / 64;
      out[next + 1] := 0x80 + pt % 64;
      next := next + 2;
    } else if pt < 0x10000 {
      out[next] := 0xe0 + pt / 4096;
      out[next + 1] := 0x80 + pt / 64 % 64;
      out[next + 2] := 0x80 + pt % 64;
      next := next + 3;
    } else {
      out[next] := 0xf0 + pt / 262144;
      out[next + 1] := 0x80 + pt / 4096 % 64;
      out[next + 2] := 0x80 + pt / 64 % 64;
      out[next + 3] := 0x80 + pt % 64;
      next := next + 4;
    }
    assert out[..next] == old(out[..at]) + EncodeScalar(pt);
  }

  lemma PrependTwice(a: seq<byte>, b: seq<byte>, r: Unescaped)
    ensures Prepend(a, Prepend(b, r)) == Prepend(a + b, r)
  {
    if r.Ok? {
      assert a + (b + r.text) == (a + b) + r.text;
    }
  }

  /** Writes one byte, `more` being what the rest of the text unescapes to. */
  method PutByte(out: array<byte>, at: nat, b: byte, ghost more: Unescaped)
    requires at < out.Length
    modifies out
    ensures Prepend(out[..at + 1], more) == old(Prepend(out[..at], Prepend([b], more)))
  {
    PrependTwice(out[..at], [b], more);
    out[at] := b;
    assert out[..at + 1] == old(out[..at]) + [b];
  }

  /** One `\\u` escape of six bytes; `next` is where output goes on, `pending` the new high surrogate. */
  method UnescapeU(s: seq<byte>, last: int, out: array<byte>, at: nat)
    returns (failed: bool, error: UnescapeError, next: nat, pending: int)
    requires |s| >= 6 && s[0] == BACKSLASH && s[1] == LOWER_U
    requires last == 0 || 0xd800 <= last < 0xdc00
    requires at + (if last == 0 then 3 else 4) <= out.Length
    modifies out
    ensures failed ==> UnescapeFrom(s, last) == Err(error)
    ensures !failed ==> (pending == 0 || 0xd800 <= pending < 0xdc00)
    ensures !failed ==> at <= next <= out.Length && out[..at] == old(out[..at])
                        && next <= at + (if last != 0 then 4 else if pending != 0 then 0 else 3)
    ensures !failed ==> UnescapeFrom(s, last) == Prepend(out[at..next], UnescapeFrom(s[6..], pending))
  {
    hide EncodeScalar, UEscape16, EscapeEquiv, DigitToInt;
    next, error, failed, pending := at, InvalidCodepoint, false, last;
    var v := UEscape16(s[2..6]);
    if v == -1 {
      return true, BadHex, next, pending;
    }
    if last != 0 {
      if v < 0xdc00 || v > 0xdfff {
        failed := true;
        return;
      }
      EncodedLength(Pair(last, v));
      next := WriteUtf8(last % 0x400 * 0x400 + v % 0x400 + 0x10000, out, at);
      Written(out[..next], old(out[..at]), EncodeScalar(Pair(last, v)));
      pending := 0;
    } else if v < 0xd800 || v > 0xdfff {
      EncodedLength(v);
      next := WriteUtf8(v, out, at);
      Written(out[..next], old(out[..at]), EncodeScalar(v));
    } else if v < 0xdc00 {
      pending := v;
      PrependNothing(UnescapeFrom(s[6..], v));
      assert out[at..next] == [];
    } else {
      failed := true;
    }
    assert out[at..next] == out[..next][at..];
    assert out[..at] == out[..next][..at];
  }

  lemma Written(now: seq<byte>, before: seq<byte>, more: seq<byte>)
    requires now == before + more
    ensures now[..|before|] == before && now[|before|..] == more && |now| == |before| + |more|
  {}

  /** `jsonsl_util_unescape`, into a buffer no longer than the text. */
  method Unescape(input: seq<byte>, out: array<byte>) returns (failed: bool, error: UnescapeError, length: nat)
    requires out.Length >= |input|
    modifies out
    ensures match UnescapeFrom(input, 0)
            case Ok(text) => !failed && length <= out.Length && out[..length] == text
            case Err(e) => failed && error == e && length == 0
  {
    hide EncodeScalar, UEscape16, EscapeEquiv, DigitToInt, Prepend, IsAllowedEscape;
    failed, error, length := false, InvalidEscape, 0;
    var c, o := 0, 0;
    var last := 0;
    assert input[0..] == input && out[..0] == [];
    PrependNothing(UnescapeFrom(input, 0));
    hide UnescapeFrom;
    while c < |input|
      invariant 0 <= o <= c <= |input| && (last != 0 ==> 0xd800 <= last < 0xdc00 && o + 6 <= c)
      invariant UnescapeFrom(input, 0) == Prepend(out[..o], UnescapeFrom(input[c..], last))
    {
      ghost var s, before := input[c..], out[..o];
      FirstByte(s, last);
      if input[c] != BACKSLASH {
        Sliced(input, c, 1);
        PutByte(out, o, input[c], UnescapeFrom(s[1..], last));
        o := o + 1;
        c := c + 1;
        continue;
      }
      if |input| - c < 2 || !IsAllowedEscape(input[c + 1]) {
        PrependErr(before, InvalidEscape);
        return true, InvalidEscape, 0;
      }
      if input[c + 1] != LOWER_U {
        Sliced(input, c, 2);
        PutByte(out, o, EscapeEquiv(input[c + 1]), UnescapeFrom(s[2..], last));
        o := o + 1;
        c := c + 2;
        continue;
      }
      if |input| - c < 6 {
        PrependErr(before, UEscapeTooShort);
        return true, UEscapeTooShort, 0;
      }
      Sliced(input, c, 6);
      var next;
      ghost var was := last;
      failed, error, next, last := UnescapeU(input[c..], last, out, o);
      if failed {
        PrependErr(before, error);
        return;
      }
      PrependTwice(before, out[o..next], UnescapeFrom(s[6..], last));
      assert out[..next] == out[..o] + out[o..next];
      o := next;
      c := c + 6;
    }
    assert input[c..] == [];
    NoBytes(last);
    if last != 0 {
      PrependErr(out[..o], InvalidCodepoint);
      return true, InvalidCodepoint, 0;
    }
    PrependEnd(out[..o]);
    return false, error, o;
  }

  lemma NoBytes(last: int)
    requires last == 0 || 0xd800 <= last < 0xdc00
    ensures UnescapeFrom([], last) == if last != 0 then Err(InvalidCodepoint) else Ok([])
  {}

  lemma FirstByte(s: seq<byte>, last: int)
    requires s != [] && (last == 0 || 0xd800 <= last < 0xdc00)
    ensures s[0] != BACKSLASH ==> UnescapeFrom(s, last) == Prepend([s[0]], UnescapeFrom(s[1..], last))
    ensures s[0] == BACKSLASH && (|s| < 2 || !IsAllowedEscape(s[1])) ==> UnescapeFrom(s, last) == Err(InvalidEscape)
    ensures s[0] == BACKSLASH && |s| >= 2 && IsAllowedEscape(s[1]) && s[1] != LOWER_U ==>
              UnescapeFrom(s, last) == Prepend([EscapeEquiv(s[1])], UnescapeFrom(s[2..], last))
    ensures s[0] == BACKSLASH && 2 <= |s| < 6 && s[1] == LOWER_U ==> UnescapeFrom(s, last) == Err(UEscapeTooShort)
  {
    hide EscapeEquiv;
  }

  lemma PrependErr(a: seq<byte>, e: UnescapeError)
    ensures Prepend(a, Err(e)) == Err(e)
  {}

  lemma PrependEnd(a: seq<byte>)
    ensures Prepend(a, Ok([])) == Ok(a)
  {
    assert a + [] == a;
  }

  lemma EncodedLength(c: scalar)
    ensures |EncodeScalar(c)| == if c < 0x80 then 1 else if c < 0x800 then 2 else if c < 0x10000 then 3 else 4
  {}

  lemma PrependNothing(r: Unescaped)
    ensures Prepend([], r) == r
  {
    if r.Ok? {
      assert [] + r.text == r.text;
    }
  }

  lemma Sliced(input: seq<byte>, c: nat, n: nat)
    requires c + n <= |input|
    ensures input[c..][n..] == input[c + n..]
    ensures forall i | 0 <= i < n :: input[c..][i] == input[c + i]
  {}

  /** A client that never stops the lexer. */
  ghost predicate Quiet(client: Client) { forall t :: !client(t) }

  /** Calls made from within a string. */
  ghost predicate OnlyEscapes(before: seq<Event>, after: seq<Event>) {
    before <= after && forall i | |before| <= i < |after| :: after[i].action == UESCAPE
  }

  /** A slot that differs only in the count of its escapes. */
  ghost predicate SameString(s: Lex, r: Lex, length: nat)
    requires s.level < |s.stack|
  {
    && OnlyEscapes(s.trace, r.trace)
    && r.status.Running? && r.level == s.level && |r.stack| == |s.stack| && r.pos == s.pos + length
    && r.stack == s.stack[s.level := Top(s).(nescapes := Top(r).nescapes)]
    && !r.inEscape && r.expecting == s.expecting && r.tokLast == s.tokLast && r.canInsert == s.canInsert
  }

  ghost predicate InString(s: Lex) { Based(s) && s.status.Running? && IsStringy(Top(s).kind) && !s.inEscape }

  lemma SimpleRun(s: Lex, client: Client, text: seq<byte>)
    requires InString(s) && forall i | 0 <= i < |text| :: IsSimple(text[i])
    ensures SameString(s, Run(s, client, text), |text|)
  {
    hide Quote, Escape;
    if text != [] {
      SimpleRun(s, client, text[..|text| - 1]);
    }
    assert s.stack[s.level := Top(s)] == s.stack;
  }

  lemma SameStringTrans(s: Lex, m: Lex, r: Lex, a: nat, b: nat)
    requires InString(s) && SameString(s, m, a) && SameString(m, r, b)
    ensures InString(m) && SameString(s, r, a + b)
  {}

  /** A backslash and an allowed escape stay inside the string. */
  lemma EscapedPair(s: Lex, client: Client, c: byte)
    requires InString(s) && IsAllowedEscape(c) && Quiet(client)
    ensures SameString(s, Run(s, client, [BACKSLASH, c]), 2)
  {
    var m := Step(s, client, BACKSLASH);
    assert m.inEscape && m.status.Running? && m.level == s.level;
    assert [BACKSLASH, c][..1] == [BACKSLASH] && [BACKSLASH][..0] == [];
    assert Run(s, client, [BACKSLASH]) == m;
    var r := Step(m, client, c);
    assert SameString(s, r, 2);
  }

  lemma ScalarRun(s: Lex, client: Client, c: scalar)
    requires InString(s) && Quiet(client)
    ensures SameString(s, Run(s, client, EscapeScalar(c)), |EscapeScalar(c)|)
  {
    hide Run, EncodeScalar, Step;
    var text := EscapeScalar(c);
    if HasShortEscape(c) {
      EscapedPair(s, client, text[1]);
      assert text == [BACKSLASH, text[1]];
    } else if c < 0x20 {
      EscapedPair(s, client, LOWER_U);
      var m := Run(s, client, [BACKSLASH, LOWER_U]);
      SameStringTrans(s, m, m, 2, 0);
      SimpleRun(m, client, text[2..]);
      RunConcat(s, client, [BACKSLASH, LOWER_U], text[2..]);
      assert text == [BACKSLASH, LOWER_U] + text[2..];
      SameStringTrans(s, m, Run(m, client, text[2..]), 2, 4);
    } else {
      NoBackslash(c);
      SimpleRun(s, client, text);
    }
  }

  /** Escaped text is scanned inside one string token: the lexer neither ends it early nor objects. */
  lemma {:induction false} EscapedIsOneToken(s: Lex, client: Client, ps: seq<Piece>)
    requires InString(s) && Strict(ps) && Quiet(client)
    ensures SameString(s, Run(s, client, Escaped(ps)), |Escaped(ps)|)
    decreases |ps|
  {
    hide Step, EscapeScalar;
    if ps == [] {
      assert s.stack[s.level := Top(s)] == s.stack;
    } else {
      var a, b := EscapeScalar(ps[0].c), Escaped(ps[1..]);
      ScalarRun(s, client, ps[0].c);
      var m := Run(s, client, a);
      hide Run;
      SameStringTrans(s, m, m, |a|, 0);
      EscapedIsOneToken(m, client, ps[1..]);
      RunConcat(s, client, a, b);
      SameStringTrans(s, m, Run(m, client, b), |a|, |b|);
    }
  }

  /** Where a quote opens a string: as the key of a member, or as a value. */
  ghost predicate TakesString(s: Lex) {
    && Based(s) && s.status.Running? && !s.inEscape && s.level + 1 < |s.stack|
    && (Top(s).kind == List || (Top(s).kind == Object && if NeedsKey(Top(s)) then s.expecting == QUOTE else s.tokLast == COLON))
  }

  /** The first call is the push of a string or key, the last one its pop; in between there are only escapes. */
  ghost predicate OnePair(before: seq<Event>, after: seq<Event>, kind: Kind, begin: nat, end: nat) {
    && before <= after && |after| >= |before| + 2
    && after[|before|].action == PUSH && after[|before|].slot.kind == kind
    && after[|after| - 1].action == POP && after[|after| - 1].slot.kind == kind
    && after[|after| - 1].slot.posBegin == begin && after[|after| - 1].slot.posCur == end
    && forall i | |before| < i < |after| - 1 :: after[i].action == UESCAPE
  }

  lemma OpenQuote(s: Lex, client: Client)
    requires TakesString(s) && Quiet(client)
    ensures var kind := if NeedsKey(Top(s)) then HKey else String;
            var m := Run(s, client, [QUOTE]);
            && InString(m) && m.level == s.level + 1 && |m.stack| == |s.stack|
            && m.stack[..s.level] == s.stack[..s.level] && m.stack[s.level] == Counted(Top(s))
            && Top(m).kind == kind && Top(m).posBegin == s.pos && m.pos == s.pos + 1
            && m.expecting == (if kind == HKey then COLON else COMMA) && m.tokLast == 0 && !m.canInsert
            && |m.trace| == |s.trace| + 1 && s.trace <= m.trace
            && m.trace[|s.trace|].action == PUSH && m.trace[|s.trace|].slot.kind == kind
  {
    hide Run, Step;
    RunQuote(s, client);
  }

  lemma RunQuote(s: Lex, client: Client)
    requires Based(s) && s.status.Running? && !s.inEscape && Top(s).kind != Special
    ensures Run(s, client, [QUOTE]) == Quote(s, client)
  {
    RunSingle(s, client, QUOTE);
    QuoteClass();
    hide Run, Quote, SpecialByte, SpecialBegin, Structural, Escape, IsSimple, IsWhitespace, ExtractSpecial, Callback, IsAllowedEscape;
  }

  lemma QuoteClass()
    ensures !IsSimple(QUOTE) && !IsWhitespace(QUOTE) && ExtractSpecial(QUOTE) == NO_FLAGS
  {}

  lemma CloseQuote(m: Lex, client: Client)
    requires InString(m) && Quiet(client) && m.level > 0
    ensures var r := Run(m, client, [QUOTE]);
            && r.status.Running? && r.level == m.level - 1 && |r.stack| == |m.stack| && r.stack[..r.level] == m.stack[..r.level]
            && Top(r) == m.stack[m.level - 1].(posCur := m.pos) && r.pos == m.pos + 1
            && r.expecting == m.expecting && r.tokLast == m.tokLast && !r.canInsert && !r.inEscape
            && |r.trace| == |m.trace| + 1 && m.trace <= r.trace
            && r.trace[|m.trace|] == Event(POP, Top(m).(posCur := m.pos), m.level)
  {
    RunQuote(m, client);
    hide Run, Step;
    assert Quote(m, client) == Next(PopLeaf(m.(canInsert := false), client));
  }

  /** The text never ends the string it stands in. */
  ghost predicate Stays(s: Lex, client: Client, body: seq<byte>)
    requires Based(s)
  {
    SameString(s, Run(s, client, body), |body|)
  }

  /** What never ends the string, between quotes, is one string token, or one key, and leaves the container ready for what follows. */
  lemma BodyIsOneToken(s: Lex, client: Client, body: seq<byte>)
    requires TakesString(s) && Quiet(client)
    requires var m := Run(s, client, [QUOTE]); InString(m) ==> Stays(m, client, body)
    ensures var kind := if NeedsKey(Top(s)) then HKey else String;
            var r := Run(s, client, [QUOTE] + body + [QUOTE]);
            && r.status.Running? && r.level == s.level && |r.stack| == |s.stack| && r.stack[..s.level] == s.stack[..s.level]
            && r.pos == s.pos + |body| + 2 && Top(r) == Counted(Top(s)).(posCur := r.pos - 1)
            && r.expecting == (if kind == HKey then COLON else COMMA) && r.tokLast == 0 && !r.canInsert && !r.inEscape
            && OnePair(s.trace, r.trace, kind, s.pos, r.pos - 1)
  {
    hide Run, Step;
    OpenQuote(s, client);
    var a := [QUOTE];
    var m := Run(s, client, a);
    var q := Run(m, client, body);
    SameStringTrans(m, q, q, |body|, 0);
    CloseQuote(q, client);
    RunConcat(s, client, a, body);
    RunConcat(s, client, a + body, [QUOTE]);
  }

  /** An escaped text between quotes is exactly one string token, or one key. */
  lemma QuotedIsOneToken(s: Lex, client: Client, ps: seq<Piece>)
    requires TakesString(s) && Quiet(client) && Strict(ps)
    ensures var kind := if NeedsKey(Top(s)) then HKey else String;
            var r := Run(s, client, [QUOTE] + Escaped(ps) + [QUOTE]);
            && r.status.Running? && r.level == s.level && |r.stack| == |s.stack|
            && r.pos == s.pos + |Escaped(ps)| + 2 && Top(r) == Counted(Top(s)).(posCur := r.pos - 1)
            && r.expecting == (if kind == HKey then COLON else COMMA) && r.tokLast == 0 && !r.canInsert && !r.inEscape
            && OnePair(s.trace, r.trace, kind, s.pos, r.pos - 1)
  {
    hide Run, Step, EscapeScalar, Escaped, SameString;
    var m := Run(s, client, [QUOTE]);
    if InString(m) {
      EscapedIsOneToken(m, client, ps);
    }
    BodyIsOneToken(s, client, Escaped(ps));
  }
}
