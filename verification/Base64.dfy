/** `b64_ntop` and `b64_pton`: base64 as section 4 of RFC 4648 has it, with whitespace skipped when reading. */
module Base64 {
  import opened Bytes

  type sextet = d: int | 0 <= d < 64

  const PAD: byte := 0x3d

  /** The alphabet. */
  function Letter(d: sextet): byte {
    if d < 26 then 0x41 + d
    else if d < 52 then 0x61 + d - 26
    else if d < 62 then 0x30 + d - 52
    else if d == 62 then 0x2b
    else 0x2f
  }

  function Quad(a: byte, b: byte, c: byte): (q: seq<sextet>)
    ensures |q| == 4
  {
    [a / 4, a % 4 * 16 + b / 16, b % 16 * 4 + c / 64, c % 64]
  }

  function Letters(ds: seq<sextet>): (s: seq<byte>)
    ensures |s| == |ds|
  {
    if ds == [] then [] else Letters(ds[..|ds| - 1]) + [Letter(ds[|ds| - 1])]
  }

  /** Three bytes at a time; the last group is padded. */
  function Text(x: seq<byte>): seq<byte> {
    if x == [] then []
    else if |x| == 1 then Letters(Quad(x[0], 0, 0)[..2]) + [PAD, PAD]
    else if |x| == 2 then Letters(Quad(x[0], x[1], 0)[..3]) + [PAD]
    else Letters(Quad(x[0], x[1], x[2])) + Text(x[3..])
  }

  lemma {:induction false} TextLength(x: seq<byte>)
    ensures |Text(x)| == (|x| + 2) / 3 * 4
  {
    if |x| >= 3 {
      TextLength(x[3..]);
    }
  }

  lemma TextFits(x: seq<byte>)
    ensures |Text(x)| < (|x| / 3 + 1) * 4 + 1
  {
    TextLength(x);
  }

  lemma FourLetters(ds: seq<sextet>)
    ensures |ds| == 4 ==> Letters(ds) == [Letter(ds[0]), Letter(ds[1]), Letter(ds[2]), Letter(ds[3])]
    ensures |ds| == 3 ==> Letters(ds) == [Letter(ds[0]), Letter(ds[1]), Letter(ds[2])]
    ensures |ds| == 2 ==> Letters(ds) == [Letter(ds[0]), Letter(ds[1])]
  {
    if |ds| == 4 {
      assert ds[..3][..2] == ds[..2] && ds[..2][..1] == ds[..1] && ds[..1][..0] == [];
    } else if |ds| == 3 {
      assert ds[..2][..1] == ds[..1] && ds[..1][..0] == [];
    } else if |ds| == 2 {
      assert ds[..1][..0] == [];
    }
  }

  method PutFour(target: array<byte>, at: nat, a: byte, b: byte, c: byte, d: byte)
    requires at + 4 <= target.Length
    modifies target
    ensures target[..at + 4] == old(target[..at]) + [a, b, c, d]
  {
    target[at] := a;
    target[at + 1] := b;
    target[at + 2] := c;
    target[at + 3] := d;
  }

  /** `b64_ntop`: it succeeds exactly when the text and its NUL fit. */
  method Ntop(src: seq<byte>, target: array<byte>) returns (r: int)
    modifies target
    ensures if |Text(src)| < target.Length then r == |Text(src)| && target[..r] == Text(src) && target[r] == 0 else r == -1
  {
    hide Letter, Letters, Quad, Text;
    var datalength, at := 0, 0;
    assert src[0..] == src && target[..0] + Text(src) == Text(src);
    while 2 < |src| - at
      invariant 0 <= at <= |src| && 0 <= datalength <= target.Length && Text(src) == target[..datalength] + Text(src[at..])
      decreases |src| - at
    {
      var output := Quad(src[at], src[at + 1], src[at + 2]);
      WholeGroup(target[..datalength], src, at);
      if datalength + 4 > target.Length {
        return -1;
      }
      PutFour(target, datalength, Letter(output[0]), Letter(output[1]), Letter(output[2]), Letter(output[3]));
      datalength := datalength + 4;
      at := at + 3;
    }
    if |src| - at != 0 {
      var input := [src[at], if |src| - at == 2 then src[at + 1] else 0];
      var output := Quad(input[0], input[1], 0);
      LastGroup(src, at);
      if datalength + 4 > target.Length {
        return -1;
      }
      PutFour(target, datalength, Letter(output[0]), Letter(output[1]), if |src| - at == 1 then PAD else Letter(output[2]), PAD);
      datalength := datalength + 4;
    } else {
      assert src[at..] == [];
      NoGroup(target[..datalength]);
    }
    if datalength >= target.Length {
      return -1;
    }
    target[datalength] := 0;
    return datalength;
  }

  lemma WholeGroup(done: seq<byte>, src: seq<byte>, at: nat)
    requires at + 3 <= |src|
    ensures var q := Quad(src[at], src[at + 1], src[at + 2]);
            done + Text(src[at..]) == (done + [Letter(q[0]), Letter(q[1]), Letter(q[2]), Letter(q[3])]) + Text(src[at + 3..])
  {
    var q := Quad(src[at], src[at + 1], src[at + 2]);
    FourLetters(q);
    assert src[at..][3..] == src[at + 3..];
    hide Letters, Letter, Quad;
    assert Text(src[at..]) == Letters(q) + Text(src[at + 3..]);
    assert done + (Letters(q) + Text(src[at + 3..])) == (done + Letters(q)) + Text(src[at + 3..]);
  }

  lemma LastGroup(src: seq<byte>, at: nat)
    requires |src| - 2 <= at < |src|
    ensures var q := Quad(src[at], if |src| - at == 2 then src[at + 1] else 0, 0);
            Text(src[at..]) == [Letter(q[0]), Letter(q[1]), if |src| - at == 1 then PAD else Letter(q[2]), PAD]
  {
    var q := Quad(src[at], if |src| - at == 2 then src[at + 1] else 0, 0);
    FourLetters(q[..3]);
    FourLetters(q[..2]);
  }

  lemma NoGroup(done: seq<byte>)
    ensures done + Text([]) == done
  {}

  /** The reverse map: a sextet, or one of three classes of other characters. */
  datatype Class = Value(d: sextet) | End | Space | Invalid

  function ClassOf(c: byte): Class {
    if 0x41 <= c <= 0x5a then Value(c - 0x41)
    else if 0x61 <= c <= 0x7a then Value(c - 0x61 + 26)
    else if 0x30 <= c <= 0x39 then Value(c - 0x30 + 52)
    else if c == 0x2b then Value(62)
    else if c == 0x2f then Value(63)
    else if c == PAD || c == 0 then End
    else if c == 0x20 || 0x09 <= c <= 0x0d then Space
    else Invalid
  }

  lemma LetterClass(d: sextet)
    ensures ClassOf(Letter(d)) == Value(d)
  {}

  /** The alphabet of table 1 of RFC 4648, sixteen letters at a time. */
  const ALPHABET: seq<string> := ["ABCDEFGHIJKLMNOP", "QRSTUVWXYZabcdef", "ghijklmnopqrstuv", "wxyz0123456789+/"]

  lemma LetterIs(d: sextet)
    ensures Letter(d) == ALPHABET[d / 16][d % 16] as int && PAD == '=' as int
  {
    if d < 16 {
      assert Letter(d) == "ABCDEFGHIJKLMNOP"[d % 16] as int;
    } else if d < 32 {
      assert Letter(d) == "QRSTUVWXYZabcdef"[d % 16] as int;
    } else if d < 48 {
      assert Letter(d) == "ghijklmnopqrstuv"[d % 16] as int;
    } else {
      assert Letter(d) == "wxyz0123456789+/"[d % 16] as int;
    }
  }

  /** Three bytes and their four digits are the same number. */
  lemma QuadIsNumber(a: byte, b: byte, c: byte)
    ensures var q := Quad(a, b, c);
            q[0] as int * 0x40000 + q[1] as int * 0x1000 + q[2] as int * 0x40 + q[3] as int == a as int * 0x10000 + b as int * 0x100 + c as int
  {}

  /** The other characters: the padding and the end of the text, blanks, and all the rest. */
  lemma ClassIs(c: byte)
    ensures forall d :: ClassOf(c) == Value(d) <==> c == Letter(d)
    ensures ClassOf(c) == End <==> c as char == '=' || c == 0
    ensures ClassOf(c) == Space <==> c as int in {0x20, 0x09, 0x0a, 0x0b, 0x0c, 0x0d}
  {
    forall d ensures ClassOf(c) == Value(d) <==> c == Letter(d) {
      LetterClass(d);
      ClassLetter(c);
    }
  }

  /** One byte left over, and two. */
  lemma LastTexts(a: byte, b: byte)
    ensures Text([a]) == [Letter(a / 4), Letter(a % 4 * 16), PAD, PAD]
    ensures Text([a, b]) == [Letter(a / 4), Letter(a % 4 * 16 + b / 16), Letter(b % 16 * 4), PAD]
  {
    hide Text, Letter;
    assert [a][0..] == [a] && [a, b][0..] == [a, b];
    LastGroup([a], 0);
    LastGroup([a, b], 0);
  }

  /** The test vectors of section 10 of RFC 4648. */
  lemma TestVectors()
    ensures Text([0x66]) == [0x5a, 0x67, 0x3d, 0x3d]
    ensures Text([0x66, 0x6f]) == [0x5a, 0x6d, 0x38, 0x3d]
    ensures Text([0x66, 0x6f, 0x6f, 0x62, 0x61, 0x72]) == [0x5a, 0x6d, 0x39, 0x76, 0x59, 0x6d, 0x46, 0x79]
  {
    hide Text;
    LastTexts(0x66, 0x6f);
    LongVector([0x66, 0x6f, 0x6f, 0x62, 0x61, 0x72]);
  }

  lemma LongVector(x: seq<byte>)
    requires x == [0x66, 0x6f, 0x6f, 0x62, 0x61, 0x72]
    ensures Text(x) == [0x5a, 0x6d, 0x39, 0x76, 0x59, 0x6d, 0x46, 0x79]
  {
    hide Letters, Text;
    var first := [0x5a, 0x6d, 0x39, 0x76];
    assert x[0..] == x && [] + Text(x) == Text(x) && [] + first == first;
    WholeGroup([], x, 0);
    assert Text(x) == first + Text(x[3..]);
    WholeGroup(first, x, 3);
    assert x[6..] == [];
    NoGroup(first + [0x59, 0x6d, 0x46, 0x79]);
  }

  /** What has been decoded from some digits: whole bytes, and the bits of the next one. */
  datatype Decoded = Decoded(bytes: seq<byte>, slop: byte)

  function Decode(ds: seq<sextet>): Decoded {
    if ds == [] then Decoded([], 0) else Add(Decode(ds[..|ds| - 1]), (|ds| - 1) % 4, ds[|ds| - 1])
  }

  /** One more digit, after `state` digits of its group. */
  function Add(before: Decoded, state: int, d: sextet): Decoded {
    var n: int := d;
    if state == 0 then Decoded(before.bytes, n * 4)
    else if state == 1 then Decoded(before.bytes + [(before.slop + n / 16) % 256], n % 16 * 16)
    else if state == 2 then Decoded(before.bytes + [(before.slop + n / 4) % 256], n % 4 * 64)
    else Decoded(before.bytes + [(before.slop + n) % 256], 0)
  }

  /** The bits left over fill a byte from the top, so the next digit only fills in zeros. */
  predicate Shaped(r: Decoded, n: nat) {
    && |r.bytes| == n * 3 / 4
    && (n % 4 == 0 ==> r.slop == 0) && (n % 4 == 1 ==> r.slop % 4 == 0)
    && (n % 4 == 2 ==> r.slop % 16 == 0) && (n % 4 == 3 ==> r.slop % 64 == 0)
  }

  lemma AddShape(r: Decoded, n: nat, d: sextet)
    requires Shaped(r, n)
    ensures Shaped(Add(r, n % 4, d), n + 1)
  {
    NextCount(n);
    var m: int := d;
    assert m * 4 % 4 == 0 && m % 16 * 16 % 16 == 0 && m % 4 * 64 % 64 == 0;
  }

  lemma NextCount(n: nat)
    ensures (n + 1) * 3 / 4 == n * 3 / 4 + if n % 4 == 0 then 0 else 1
    ensures (n + 1) % 4 == if n % 4 == 3 then 0 else n % 4 + 1
  {}

  lemma {:induction false} DecodeShape(ds: seq<sextet>)
    ensures Shaped(Decode(ds), |ds|)
  {
    if ds != [] {
      DecodeShape(ds[..|ds| - 1]);
      hide Shaped, Add;
      AddShape(Decode(ds[..|ds| - 1]), |ds| - 1, ds[|ds| - 1]);
    }
  }

  lemma {:induction false} WholeGroups(a: seq<sextet>, b: seq<sextet>)
    requires |a| % 4 == 0
    ensures Decode(a + b) == Decoded(Decode(a).bytes + Decode(b).bytes, Decode(b).slop)
  {
    hide Add;
    if b == [] {
      assert a + b == a;
      DecodeShape(a);
    } else {
      var init := b[..|b| - 1];
      assert (a + b)[..|a + b| - 1] == a + init;
      WholeGroups(a, init);
      SameState(|a|, |init|);
      AddAfter(Decode(a).bytes, Decode(init), |init| % 4, b[|b| - 1]);
    }
  }

  lemma SameState(a: nat, b: nat)
    requires a % 4 == 0
    ensures (a + b) % 4 == b % 4
  {}

  lemma AddAfter(head: seq<byte>, before: Decoded, state: int, d: sextet)
    ensures var r := Add(before, state, d);
            Add(Decoded(head + before.bytes, before.slop), state, d) == Decoded(head + r.bytes, r.slop)
  {}

  /** The digits of a text. */
  function Digits(x: seq<byte>): seq<sextet> {
    if x == [] then []
    else if |x| == 1 then Quad(x[0], 0, 0)[..2]
    else if |x| == 2 then Quad(x[0], x[1], 0)[..3]
    else Quad(x[0], x[1], x[2]) + Digits(x[3..])
  }

  lemma DecodeFour(q: seq<sextet>)
    requires |q| == 4
    ensures Decode(q[..2]) == Add(Add(Decoded([], 0), 0, q[0]), 1, q[1])
    ensures Decode(q[..3]) == Add(Decode(q[..2]), 2, q[2])
    ensures Decode(q) == Add(Decode(q[..3]), 3, q[3])
  {
    hide Add;
    assert q[..1][..0] == [] && q[..2][..1] == q[..1] && q[..3][..2] == q[..2];
    assert Decode(q[..1]) == Add(Decode([]), 0, q[0]);
  }

  lemma DecodeQuad(a: byte, b: byte, c: byte)
    ensures Decode(Quad(a, b, c)[..2]) == Decoded([a], b / 16 * 16)
    ensures Decode(Quad(a, b, c)[..3]) == Decoded([a, b], c / 64 * 64)
    ensures Decode(Quad(a, b, c)) == Decoded([a, b, c], 0)
  {
    var q := Quad(a, b, c);
    DecodeFour(q);
    hide Decode;
    FirstPair(a, b);
    SecondPair(b, c);
    assert [] + [a] == [a] && [a] + [b] == [a, b] && [a, b] + [c] == [a, b, c];
    Low(c);
  }

  lemma FirstPair(a: byte, b: byte)
    ensures var n := a % 4 * 16 + b / 16;
            (a / 4 * 4 + n / 16) % 256 == a && n % 16 * 16 == b / 16 * 16
  {
    assert (a % 4 * 16 + b / 16) / 16 == a % 4;
  }

  lemma SecondPair(b: byte, c: byte)
    ensures var n := b % 16 * 4 + c / 64;
            (b / 16 * 16 + n / 4) % 256 == b && n % 4 * 64 == c / 64 * 64
  {
    assert (b % 16 * 4 + c / 64) / 4 == b % 16;
  }

  lemma Low(c: byte)
    ensures (c / 64 * 64 + c % 64) % 256 == c
  {}

  /** Decoding the digits of a byte string gives it back and leaves no bits over. */
  lemma {:induction false} DigitsDecode(x: seq<byte>)
    ensures Decode(Digits(x)) == Decoded(x, 0)
  {
    hide Decode, Quad;
    if x == [] {
      NothingDecoded();
    } else if |x| == 1 {
      DecodeQuad(x[0], 0, 0);
    } else if |x| == 2 {
      DecodeQuad(x[0], x[1], 0);
    } else {
      DecodeQuad(x[0], x[1], x[2]);
      DigitsDecode(x[3..]);
      WholeGroups(Quad(x[0], x[1], x[2]), Digits(x[3..]));
      assert [x[0], x[1], x[2]] + x[3..] == x;
    }
  }

  lemma NothingDecoded()
    ensures Decode([]) == Decoded([], 0)
  {}

  /** The digits before the first padding or the end, and what is left then; `Bad` at any other character. */
  datatype Scan = Bad | Scanned(digits: seq<sextet>, rest: seq<byte>)

  function ScanDigits(s: seq<byte>, ds: seq<sextet>): Scan {
    if s == [] then Scanned(ds, [])
    else
      match ClassOf(s[0])
      case Value(d) => ScanDigits(s[1..], ds + [d])
      case Space => ScanDigits(s[1..], ds)
      case End => Scanned(ds, s)
      case Invalid => Bad
  }

  predicate OnlySpace(s: seq<byte>) { forall i | 0 <= i < |s| :: ClassOf(s[i]).Space? }

  function SkipSpace(s: seq<byte>): seq<byte> {
    if s != [] && ClassOf(s[0]).Space? then SkipSpace(s[1..]) else s
  }

  /** The padding, given how many digits are over after whole groups of four. */
  predicate GoodTail(over: nat, rest: seq<byte>) {
    if rest == [] then over == 0
    else if over == 2 then
      var more := SkipSpace(rest[1..]);
      more != [] && more[0] == PAD && OnlySpace(more[1..])
    else over == 3 && OnlySpace(rest[1..])
  }

  /** `b64_pton` without a target: how many bytes the text stands for, or -1. */
  function Length(s: seq<byte>): int {
    match ScanDigits(s, [])
    case Bad => -1
    case Scanned(ds, rest) => if GoodTail(|ds| % 4, rest) then |ds| * 3 / 4 else -1
  }

  lemma {:induction false} ScanLetters(ds: seq<sextet>, rest: seq<byte>, before: seq<sextet>)
    ensures ScanDigits(Letters(ds) + rest, before) == ScanDigits(rest, before + ds)
    decreases |ds|
  {
    hide Letter;
    if ds == [] {
      assert Letters(ds) + rest == rest && before + ds == before;
    } else {
      var init, last := ds[..|ds| - 1], ds[|ds| - 1];
      assert Letters(ds) + rest == Letters(init) + ([Letter(last)] + rest);
      ScanLetters(init, [Letter(last)] + rest, before);
      LetterClass(last);
      assert ([Letter(last)] + rest)[1..] == rest;
      assert (before + init) + [last] == before + ds;
    }
  }

  /** How a text ends. */
  function Padding(x: seq<byte>): seq<byte> {
    if |x| % 3 == 0 then [] else if |x| % 3 == 1 then [PAD, PAD] else [PAD]
  }

  lemma {:induction false} ScanText(x: seq<byte>, before: seq<sextet>)
    ensures ScanDigits(Text(x), before) == Scanned(before + Digits(x), Padding(x))
    decreases |x|
  {
    hide Letters, Quad;
    if x == [] {
      assert before + Digits(x) == before;
    } else if |x| == 1 {
      ScanLetters(Quad(x[0], 0, 0)[..2], [PAD, PAD], before);
    } else if |x| == 2 {
      ScanLetters(Quad(x[0], x[1], 0)[..3], [PAD], before);
    } else {
      var q := Quad(x[0], x[1], x[2]);
      ScanLetters(q, Text(x[3..]), before);
      ScanText(x[3..], before + q);
      assert before + (q + Digits(x[3..])) == (before + q) + Digits(x[3..]);
    }
  }

  lemma {:induction false} DigitCount(x: seq<byte>)
    ensures |Digits(x)| % 4 == (if |x| % 3 == 0 then 0 else |x| % 3 + 1) && |Digits(x)| * 3 / 4 == |x|
  {
    if |x| >= 3 {
      DigitCount(x[3..]);
      AnotherGroup(|Digits(x[3..])|, |x[3..]|);
    }
  }

  lemma AnotherGroup(digits: nat, bytes: nat)
    ensures (digits + 4) * 3 / 4 == digits * 3 / 4 + 3 && (digits + 4) % 4 == digits % 4 && (bytes + 3) % 3 == bytes % 3
  {}

  /** The text of a byte string scans to its digits, with the right padding and the right length. */
  lemma TextScans(x: seq<byte>)
    ensures ScanDigits(Text(x), []) == Scanned(Digits(x), Padding(x))
    ensures GoodTail(|Digits(x)| % 4, Padding(x)) && Length(Text(x)) == |x|
  {
    ScanText(x, []);
    assert [] + Digits(x) == Digits(x);
    DigitCount(x);
    hide ScanDigits, Digits, Text;
    if |x| % 3 == 1 {
      assert [PAD, PAD][1..] == [PAD] && [PAD][1..] == [];
      assert SkipSpace([PAD]) == [PAD];
    } else if |x| % 3 == 2 {
      assert [PAD][1..] == [];
    }
  }

  const SPECIAL: byte := 0xf0
  const END_CODE: byte := 0xfd
  const SPACE_CODE: byte := 0xfe
  const INVALID_CODE: byte := 0xff

  function Code(k: Class): byte {
    match k
    case Value(d) => d
    case End => END_CODE
    case Space => SPACE_CODE
    case Invalid => INVALID_CODE
  }

  ghost predicate IsMap(rmap: array<byte>)
    reads rmap
  {
    rmap.Length == 256 && forall c | 0 <= c < 256 :: rmap[c] == Code(ClassOf(c))
  }

  /** `b64_initialize_rmap`. */
  method InitializeRmap() returns (rmap: array<byte>)
    ensures fresh(rmap) && IsMap(rmap)
  {
    rmap := new byte[256](_ => INVALID_CODE);
    rmap[0] := END_CODE;
    for i := 1 to 256
      invariant rmap[0] == END_CODE
      invariant forall c | 1 <= c < i :: rmap[c] == (if ClassOf(c).Value? then INVALID_CODE else Code(ClassOf(c)))
    {
      if i == 0x20 || 0x09 <= i <= 0x0d {
        rmap[i] := SPACE_CODE;
      } else if i == PAD as int {
        rmap[i] := END_CODE;
      } else {
        rmap[i] := INVALID_CODE;
      }
    }
    for i := 0 to 64
      invariant forall c | 0 <= c < 256 ::
                  rmap[c] == (if ClassOf(c).Value? && ClassOf(c).d >= i then INVALID_CODE else Code(ClassOf(c)))
    {
      LetterClass(i);
      ClassLetter(Letter(i));
      forall c | 0 <= c < 256 && ClassOf(c) == Value(i) ensures c == Letter(i) {
        ClassLetter(c);
      }
      rmap[Letter(i)] := i;
    }
  }

  lemma ClassLetter(c: byte)
    ensures ClassOf(c).Value? ==> c == Letter(ClassOf(c).d)
  {}

  predicate Ascii(s: seq<byte>) { forall i | 0 <= i < |s| :: 0 < s[i] < 128 }

  function At(s: seq<byte>, i: nat): byte { if i < |s| then s[i] else 0 }

  /** The check of what follows the digits, which both decoders make. */
  method CheckTail(src: seq<byte>, at: nat, state: nat, rmap: array<byte>) returns (good: bool)
    requires Ascii(src) && IsMap(rmap) && at <= |src| && state < 4 && (at < |src| ==> src[at] == PAD)
    ensures good <==> GoodTail(state, src[at..])
  {
    hide SkipSpace, ClassOf;
    if At(src, at) != PAD {
      assert src[at..] == [];
      return state == 0;
    }
    ghost var rest := src[at..];
    assert rest[1..] == src[at + 1..];
    if state == 0 || state == 1 {
      return false;
    }
    var i := at + 1;
    if state == 2 {
      while At(src, i) != 0 && rmap[At(src, i)] == SPACE_CODE
        invariant at + 1 <= i <= |src| && SkipSpace(src[at + 1..]) == SkipSpace(src[i..])
        decreases |src| - i
      {
        SpaceCode(At(src, i));
        SkipOne(src, i);
        i := i + 1;
      }
      SpaceCode(At(src, i));
      SkipDone(src, i);
      if At(src, i) != PAD {
        return false;
      }
      i := i + 1;
    }
    ghost var from := i;
    while At(src, i) != 0
      invariant from <= i <= |src| && forall k | from <= k < i :: ClassOf(src[k]).Space?
      decreases |src| - i
    {
      SpaceCode(src[i]);
      if rmap[At(src, i)] != SPACE_CODE {
        assert src[from..][i - from] == src[i];
        return false;
      }
      i := i + 1;
    }
    assert OnlySpace(src[from..]);
    assert state == 2 ==> src[from - 1..][1..] == src[from..];
    return true;
  }

  lemma SpaceCode(c: byte)
    ensures Code(ClassOf(c)) == SPACE_CODE <==> ClassOf(c).Space?
    ensures Code(ClassOf(c)) < SPECIAL <==> ClassOf(c).Value?
    ensures Code(ClassOf(c)) == END_CODE <==> ClassOf(c).End?
    ensures ClassOf(c).End? <==> c == 0 || c == PAD
  {}

  lemma SkipOne(src: seq<byte>, i: nat)
    requires i < |src| && ClassOf(src[i]).Space?
    ensures SkipSpace(src[i..]) == SkipSpace(src[i + 1..])
  {
    assert src[i..][1..] == src[i + 1..];
  }

  lemma SkipDone(src: seq<byte>, i: nat)
    requires i <= |src| && (i < |src| ==> !ClassOf(src[i]).Space?)
    ensures SkipSpace(src[i..]) == src[i..]
  {}

  lemma ScanOne(src: seq<byte>, i: nat, ds: seq<sextet>)
    requires i < |src|
    ensures match ClassOf(src[i])
            case Value(d) => ScanDigits(src[i..], ds) == ScanDigits(src[i + 1..], ds + [d])
            case Space => ScanDigits(src[i..], ds) == ScanDigits(src[i + 1..], ds)
            case End => ScanDigits(src[i..], ds) == Scanned(ds, src[i..])
            case Invalid => ScanDigits(src[i..], ds) == Bad
  {
    assert src[i..][1..] == src[i + 1..];
  }

  /** `b64_pton_len`. */
  method PtonLen(src: seq<byte>, rmap: array<byte>) returns (r: int)
    requires Ascii(src) && IsMap(rmap)
    ensures r == Length(src)
  {
    hide ScanDigits, ClassOf, GoodTail;
    var i, tarindex, state := 0, 0, 0;
    ghost var ds: seq<sextet> := [];
    assert src[0..] == src;
    while true
      invariant 0 <= i <= |src| && ScanDigits(src, []) == ScanDigits(src[i..], ds)
      invariant state == |ds| % 4 && tarindex == |ds| * 3 / 4
      decreases |src| - i
    {
      var ofs := rmap[At(src, i)];
      SpaceCode(At(src, i));
      if i < |src| {
        ScanOne(src, i, ds);
      } else {
        assert src[i..] == [];
        ScanNothing(ds);
      }
      if ofs >= SPECIAL {
        if ofs == SPACE_CODE {
          i := i + 1;
          continue;
        }
        if ofs == END_CODE {
          break;
        }
        return -1;
      }
      NextCount(|ds|);
      if state == 0 {
        state := 1;
      } else {
        tarindex := tarindex + 1;
        state := if state == 3 then 0 else state + 1;
      }
      i := i + 1;
      ds := ds + [ofs];
    }
    var good := CheckTail(src, i, state, rmap);
    return if good then tarindex else -1;
  }

  lemma ScanNothing(ds: seq<sextet>)
    ensures ScanDigits([], ds) == Scanned(ds, [])
  {}

  /** `b64_pton_do`'s switch: one digit goes into the target. */
  method StoreDigit(target: array<byte>, tarindex: nat, state: nat, ofs: sextet, ghost before: Decoded)
    returns (ok: bool, next: nat)
    requires state < 4 && tarindex <= target.Length && target[..tarindex] == before.bytes
    requires state != 0 ==> tarindex < target.Length && target[tarindex] == before.slop
    requires (state == 1 ==> before.slop % 4 == 0) && (state == 2 ==> before.slop % 16 == 0) && (state == 3 ==> before.slop % 64 == 0)
    modifies target
    ensures ok <==> if state == 0 || state == 3 then tarindex < target.Length else tarindex + 1 < target.Length
    ensures ok ==> next == (if state == 0 then tarindex else tarindex + 1) <= target.Length
                   && target[..next] == Add(before, state, ofs).bytes
                   && (state != 3 ==> next < target.Length && target[next] == Add(before, state, ofs).slop)
  {
    next := tarindex;
    NoCarry(before.slop, ofs);
    var n: int := ofs;
    assert Add(before, 0, ofs) == Decoded(before.bytes, n * 4);
    hide Add;
    if state == 0 {
      if tarindex >= target.Length {
        return false, next;
      }
      PutByte(target, tarindex, n * 4);
    } else if state == 1 {
      if tarindex + 1 >= target.Length {
        return false, next;
      }
      Added(before, 1, ofs, before.slop + n / 16);
      PutByte(target, tarindex, target[tarindex] + n / 16);
      PutByte(target, tarindex + 1, n % 16 * 16);
      next := next + 1;
    } else if state == 2 {
      if tarindex + 1 >= target.Length {
        return false, next;
      }
      Added(before, 2, ofs, before.slop + n / 4);
      PutByte(target, tarindex, target[tarindex] + n / 4);
      PutByte(target, tarindex + 1, n % 4 * 64);
      next := next + 1;
    } else {
      if tarindex >= target.Length {
        return false, next;
      }
      Added(before, 3, ofs, before.slop + n);
      PutByte(target, tarindex, target[tarindex] + n);
      next := next + 1;
    }
    return true, next;
  }

  method PutByte(target: array<byte>, at: nat, b: byte)
    requires at < target.Length
    modifies target
    ensures target[..at] == old(target[..at]) && target[at] == b && target[..at + 1] == old(target[..at]) + [b]
  {
    target[at] := b;
  }

  lemma Added(before: Decoded, state: int, d: sextet, sum: int)
    requires 1 <= state <= 3 && 0 <= sum < 256
    requires sum == before.slop + (if state == 1 then d / 16 else if state == 2 then d / 4 else d)
    ensures Add(before, state, d).bytes == before.bytes + [sum]
    ensures var n: int := d;
            Add(before, state, d).slop == if state == 1 then n % 16 * 16 else if state == 2 then n % 4 * 64 else 0
  {
    assert sum % 256 == sum;
  }

  /** The bits a digit adds never meet bits that are already there. */
  lemma NoCarry(slop: byte, d: sextet)
    ensures slop % 4 == 0 ==> slop + d / 16 < 256
    ensures slop % 16 == 0 ==> slop + d / 4 < 256
    ensures slop % 64 == 0 ==> slop + d < 256
  {}

  lemma DecodeNext(ds: seq<sextet>, d: sextet)
    ensures Decode(ds + [d]) == Add(Decode(ds), |ds| % 4, d)
  {
    assert (ds + [d])[..|ds|] == ds;
  }

  lemma {:induction false} ScanGrows(s: seq<byte>, ds: seq<sextet>)
    ensures ScanDigits(s, ds).Scanned? ==> |ds| <= |ScanDigits(s, ds).digits|
    decreases |s|
  {
    if s != [] {
      match ClassOf(s[0])
      case Value(d) => ScanGrows(s[1..], ds + [d]);
      case Space => ScanGrows(s[1..], ds);
      case End =>
      case Invalid =>
    }
  }

  /**
   `b64_pton_do`: with room for one byte more than `b64_pton_len` promises it stores exactly that many,
   unless bits are left over that are not zero; it never accepts anything else.
   */
  method PtonDo(src: seq<byte>, target: array<byte>, rmap: array<byte>) returns (r: int)
    requires Ascii(src) && IsMap(rmap) && target != rmap
    modifies target
    ensures r >= 0 ==> r == Length(src) <= target.Length && target[..r] == Decode(ScanDigits(src, []).digits).bytes
    ensures 0 <= Length(src) < target.Length ==> target[..Length(src)] == Decode(ScanDigits(src, []).digits).bytes
    ensures 0 <= Length(src) < target.Length ==>
              r == if Decode(ScanDigits(src, []).digits).slop == 0 then Length(src) else -1
  {
    hide ScanDigits, ClassOf, GoodTail, Decode, Add;
    var i, tarindex, state := 0, 0, 0;
    ghost var ds: seq<sextet> := [];
    assert src[0..] == src;
    NothingDecoded();
    while true
      invariant 0 <= i <= |src| && ScanDigits(src, []) == ScanDigits(src[i..], ds) && IsMap(rmap)
      invariant 0 <= state == |ds| % 4 && 0 <= tarindex == |ds| * 3 / 4 <= target.Length
      invariant target[..tarindex] == Decode(ds).bytes
      invariant state != 0 ==> tarindex < target.Length && target[tarindex] == Decode(ds).slop
      decreases |src| - i
    {
      var ofs := rmap[At(src, i)];
      SpaceCode(At(src, i));
      if i < |src| {
        ScanOne(src, i, ds);
      } else {
        assert src[i..] == [];
        ScanNothing(ds);
      }
      if ofs >= SPECIAL {
        if ofs == SPACE_CODE {
          i := i + 1;
          continue;
        }
        if ofs == END_CODE {
          break;
        }
        return -1;
      }
      DecodeShape(ds);
      DecodeNext(ds, ofs);
      ScanGrows(src[i + 1..], ds + [ofs]);
      NextCount(|ds|);
      var ok, next := StoreDigit(target, tarindex, state, ofs, Decode(ds));
      if !ok {
        return -1;
      }
      tarindex := next;
      state := if state == 3 then 0 else state + 1;
      i := i + 1;
      ds := ds + [ofs];
    }
    DecodeShape(ds);
    var good := CheckTail(src, i, state, rmap);
    TailStates(state, src[i..]);
    if !good || (At(src, i) == PAD && target[tarindex] != 0) {
      return -1;
    }
    return tarindex;
  }

  lemma TailStates(over: nat, rest: seq<byte>)
    ensures GoodTail(over, rest) && rest != [] ==> over == 2 || over == 3
    ensures GoodTail(over, rest) && rest == [] ==> over == 0
  {}

  /** Every byte string comes back from its text. */
  lemma RoundTrip(x: seq<byte>)
    ensures Length(Text(x)) == |x| && Decode(ScanDigits(Text(x), []).digits) == Decoded(x, 0) && Ascii(Text(x))
  {
    TextScans(x);
    DigitsDecode(x);
    TextIsAscii(x);
  }

  /** The text can stand between quotes as it is. */
  predicate NeedsNoEscape(s: seq<byte>) { forall i | 0 <= i < |s| :: 0x20 <= s[i] < 0x7f && s[i] != 0x22 && s[i] != 0x5c }

  lemma {:induction false} LettersAreAscii(ds: seq<sextet>)
    ensures Ascii(Letters(ds)) && NeedsNoEscape(Letters(ds))
  {
    if ds != [] {
      LettersAreAscii(ds[..|ds| - 1]);
    }
  }

  lemma {:induction false} TextIsAscii(x: seq<byte>)
    ensures Ascii(Text(x)) && NeedsNoEscape(Text(x))
  {
    hide Letters, Quad;
    if |x| == 1 {
      LettersAreAscii(Quad(x[0], 0, 0)[..2]);
    } else if |x| == 2 {
      LettersAreAscii(Quad(x[0], x[1], 0)[..3]);
    } else if |x| >= 3 {
      LettersAreAscii(Quad(x[0], x[1], x[2]));
      TextIsAscii(x[3..]);
    }
  }
}
