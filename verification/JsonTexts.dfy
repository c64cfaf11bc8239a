/** The loops over C strings that the Extended JSON reader's callbacks rely on. */
module JsonTexts {
  import opened Bytes
  import opened BsonTree
  import opened JsonMachine
  import Dec = DecimalDigits

  /** Equality, as `strcmp` tells it, or `strncmp` once the lengths are equal. */
  method SameText(a: seq<byte>, b: seq<byte>) returns (same: bool)
    ensures same <==> a == b
  {
    if |a| != |b| {
      return false;
    }
    for i := 0 to |a|
      invariant a[..i] == b[..i]
    {
      if a[i] != b[i] {
        return false;
      }
    }
    assert a[..|a|] == a && b[..|b|] == b;
    return true;
  }

  /** A key compared with one literal after the other. */
  method FindKeyword(text: seq<byte>) returns (k: Keyword)
    ensures k == KeywordOf(text)
  {
    hide Literal;
    for i := 0 to |KEYWORDS|
      invariant KeywordFrom(text, i) == KeywordOf(text)
    {
      var same := SameText(text, Literal(KEYWORDS[i]));
      if same {
        return KEYWORDS[i];
      }
    }
    return OTHER;
  }

  /** What C sees of a text that is followed by a NUL. */
  method CutAtNul(text: seq<byte>) returns (s: CString)
    ensures s == UpToNul(text)
  {
    var i := 0;
    assert text[0..] == text;
    while i < |text| && text[i] != 0
      invariant i <= |text| && 0 !in text[..i] && text[..i] + UpToNul(text[i..]) == UpToNul(text)
    {
      CutNext(text, i);
      i := i + 1;
    }
    s := text[..i];
    assert s + [] == s;
  }

  lemma CutNext(text: seq<byte>, i: nat)
    requires i < |text| && text[i] != 0
    ensures text[..i] + UpToNul(text[i..]) == text[..i + 1] + UpToNul(text[i + 1..])
  {
    assert text[i..][1..] == text[i + 1..];
  }

  /** `bson_oid_parse_hex_char` twice for each byte. */
  method ParseOid(text: seq<byte>) returns (oid: Bytes12)
    requires |text| == 24
    ensures oid == OidFromText(text)
  {
    hide OidDigit;
    var bytes: seq<byte> := [];
    var i := 0;
    NoDigits(text);
    while i < 12
      invariant i <= 12 && |bytes| == i && bytes == OidFromText(text[..2 * i])
    {
      OidNext(text, i);
      bytes := bytes + [OidDigit(text[2 * i]) * 16 + OidDigit(text[2 * i + 1])];
      i := i + 1;
    }
    assert text[..24] == text;
    oid := bytes;
  }

  lemma NoDigits(text: seq<byte>)
    ensures OidFromText(text[..0]) == []
  {}

  lemma OidNext(text: seq<byte>, i: nat)
    requires 2 * i + 2 <= |text|
    ensures OidFromText(text[..2 * i + 2]) == OidFromText(text[..2 * i]) + [OidDigit(text[2 * i]) * 16 + OidDigit(text[2 * i + 1])]
  {
    hide OidDigit;
    var t := text[..2 * i + 2];
    assert t[..|t| - 2] == text[..2 * i];
  }

  const CUTOFF: int := 922337203685477580

  predicate IsDigit(c: byte) { 0x30 <= c <= 0x39 }

  predicate DigitsAt(s: seq<byte>, i: nat, j: nat)
    requires i <= j <= |s|
  {
    forall x | i <= x < j :: IsDigit(s[x])
  }

  /** The number that the digits from `i` to `j` write. */
  function DigitsValue(s: seq<byte>, i: nat, j: nat): nat
    requires i <= j <= |s| && DigitsAt(s, i, j)
  {
    Dec.Value(DigitsOf(s[i..j]))
  }

  lemma NextDigit(s: seq<byte>, i: nat, j: nat)
    requires i <= j < |s| && DigitsAt(s, i, j) && IsDigit(s[j])
    ensures DigitsAt(s, i, j + 1) && DigitsValue(s, i, j + 1) == 10 * DigitsValue(s, i, j) + (s[j] - 0x30)
  {
    assert s[i..j + 1] == s[i..j] + [s[j]];
    assert s[i..j + 1][..j - i] == s[i..j];
    assert DigitsOf(s[i..j + 1]) == DigitsOf(s[i..j]) + [s[j] as int - 0x30];
    assert DigitsOf(s[i..j + 1])[..j - i] == DigitsOf(s[i..j]);
  }

  /** More digits make no smaller number. */
  lemma {:induction false} PrefixValue(s: seq<byte>, i: nat, j: nat, k: nat)
    requires i <= j <= k <= |s| && DigitsAt(s, i, k)
    ensures DigitsValue(s, i, j) <= DigitsValue(s, i, k)
    decreases k - j
  {
    hide DigitsValue;
    if j < k {
      PrefixValue(s, i, j, k - 1);
      NextDigit(s, i, k - 1);
    }
  }

  datatype Number = Number(value: int64, end: nat, outOfRange: bool)

  /**
   `bson_ascii_strtoll` in base 10; `end` is zero where no digit is found.  The number is out of range
   exactly when its digits say so, although each step looks only at the digits so far.
   */
  method Strtoll(s: seq<byte>) returns (r: Number)
    ensures var t := |s| - |SkipSpace(s)|;
            var negative := t < |s| && s[t] == 0x2d;
            var i := if t < |s| && (s[t] == 0x2d || s[t] == 0x2b) then t + 1 else t;
            r.end <= |s| && i <= |s| &&
            if r.outOfRange then
              exists j | i < j <= |s| && DigitsAt(s, i, j) :: DigitsValue(s, i, j) > (if negative then TWO_63 else TWO_63 - 1)
            else if r.end == 0 then i == |s| || !IsDigit(s[i])
            else
              && i < r.end && DigitsAt(s, i, r.end) && (r.end < |s| ==> !IsDigit(s[r.end]))
              && r.value == (if negative then -(DigitsValue(s, i, r.end) as int) else DigitsValue(s, i, r.end))
  {
    hide DigitsValue;
    var tok := SkipSpaces(s);
    var negative := false;
    if tok < |s| && s[tok] == 0x2d {
      negative := true;
      tok := tok + 1;
    } else if tok < |s| && s[tok] == 0x2b {
      tok := tok + 1;
    } else if tok == |s| || !IsDigit(s[tok]) {
      return Number(0, 0, false);
    }
    var start := tok;
    var cutlim := if negative then 8 else 7;
    var number: int64 := 0;
    NoValue(s, start);
    while tok < |s| && IsDigit(s[tok])
      invariant start <= tok <= |s| && DigitsAt(s, start, tok)
      invariant number == if negative then -(DigitsValue(s, start, tok) as int) else DigitsValue(s, start, tok)
    {
      var c: int := s[tok] - 0x30;
      NextDigit(s, start, tok);
      if negative {
        if number < -CUTOFF || (number == -CUTOFF && c > cutlim) {
          return Number(-TWO_63, tok, true);
        }
        number := number * 10 - c;
      } else {
        if number > CUTOFF || (number == CUTOFF && c > cutlim) {
          return Number(TWO_63 - 1, tok, true);
        }
        number := number * 10 + c;
      }
      tok := tok + 1;
    }
    return Number(number, if tok > start then tok else 0, false);
  }

  method SkipSpaces(s: seq<byte>) returns (tok: nat)
    ensures tok == |s| - |SkipSpace(s)| <= |s| && s[tok..] == SkipSpace(s)
  {
    tok := 0;
    assert s[0..] == s;
    while tok < |s| && IsSpace(s[tok])
      invariant tok <= |s| && SkipSpace(s[tok..]) == SkipSpace(s)
    {
      assert s[tok..][1..] == s[tok + 1..];
      tok := tok + 1;
    }
  }

  lemma NoValue(s: seq<byte>, i: nat)
    requires i <= |s|
    ensures DigitsValue(s, i, i) == 0
  {}

  /** `_bson_json_read_int64_or_set_error`: nothing but one number in range, up to the end of the text. */
  method ReadInt64(text: seq<byte>) returns (ok: bool, v64: int64)
    ensures ParseInt64(text) == if ok then Some(v64) else None
  {
    hide DigitsValue;
    var r := Strtoll(text);
    ghost var t := |text| - |SkipSpace(text)|;
    IsSuffix(text);
    ghost var i := if t < |text| && (text[t] == 0x2d || text[t] == 0x2b) then t + 1 else t;
    ParseDigits(text, t, i);
    if r.outOfRange {
      ok, v64 := false, 0;
      ghost var j :| i < j <= |text| && DigitsAt(text, i, j) && DigitsValue(text, i, j) > (if text[t] == 0x2d then TWO_63 else TWO_63 - 1);
      if DigitsAt(text, i, |text|) {
        PrefixValue(text, i, j, |text|);
      }
    } else if r.end != |text| || r.end == 0 {
      ok, v64 := false, 0;
    } else {
      ok, v64 := true, r.value;
    }
  }

  lemma {:induction false} IsSuffix(s: seq<byte>)
    ensures |SkipSpace(s)| <= |s| && SkipSpace(s) == s[|s| - |SkipSpace(s)|..]
  {
    if s != [] && IsSpace(s[0]) {
      IsSuffix(s[1..]);
    }
  }

  lemma ParseDigits(text: seq<byte>, t: nat, i: nat)
    requires t <= |text| && SkipSpace(text) == text[t..]
    requires i == if t < |text| && (text[t] == 0x2d || text[t] == 0x2b) then t + 1 else t
    ensures ParseInt64(text) ==
            if i == |text| || !DigitsAt(text, i, |text|) then None
            else
              var n: int := DigitsValue(text, i, |text|);
              if text[t] == 0x2d then if n > TWO_63 then None else Some(-n) else if n >= TWO_63 then None else Some(n)
  {
    hide SkipSpace, FromDigits;
    var s := text[t..];
    assert i > t ==> s[1..] == text[i..];
    FromDigitsValue(text, i, t < |text| && text[t] == 0x2d);
  }

  lemma FromDigitsValue(text: seq<byte>, i: nat, negative: bool)
    requires i <= |text|
    ensures FromDigits(negative, text[i..]) ==
            if i == |text| || !DigitsAt(text, i, |text|) then None
            else
              var n: int := DigitsValue(text, i, |text|);
              if negative then if n > TWO_63 then None else Some(-n) else if n >= TWO_63 then None else Some(n)
  {
    SameDigits(text, i);
    hide Dec.Value, DigitsOf, AllDigits, DigitsAt;
    assert text[i..|text|] == text[i..];
  }

  lemma SameDigits(text: seq<byte>, i: nat)
    requires i <= |text|
    ensures AllDigits(text[i..]) <==> DigitsAt(text, i, |text|)
  {
    if AllDigits(text[i..]) {
      forall x | i <= x < |text| ensures IsDigit(text[x]) {
        assert text[x] == text[i..][x - i];
      }
    }
  }

  /** `sscanf` with `%02x`: blanks, then at most two characters. */
  method ScanSubtype(text: seq<byte>) returns (scan: HexScan)
    ensures scan == ScanHex(text)
  {
    var tok := SkipSpaces(text);
    ghost var s := text[tok..];
    var end := if |text| < tok + 2 then |text| else tok + 2;
    if tok == end {
      return NoHex;
    }
    var sign := text[tok] == 0x2b || text[tok] == 0x2d;
    if end == tok + 2 && text[tok] == 0x30 && (text[tok + 1] == 0x58 || text[tok + 1] == 0x78) {
      return Unclear;
    }
    var i, value := if sign then tok + 1 else tok, 0;
    var start := i;
    while i < end && HexValue(text[i]) >= 0
      invariant start <= i <= end && (i == start ==> value == 0) && 0 <= value < 256
      invariant i > start ==> HexValue(text[start]) >= 0 && value == (if i == start + 1 then HexValue(text[start])
                                                                     else HexValue(text[start]) * 16 + HexValue(text[start + 1]))
      invariant i > start + 1 ==> HexValue(text[start + 1]) >= 0
    {
      value := value * 16 + HexValue(text[i]);
      i := i + 1;
    }
    if i == start {
      return NoHex;
    }
    return Scanned(if text[tok] == 0x2d then (256 - value) % 256 else value);
  }
}
