/** `bson-utf8.c`: validation, decoding and encoding, against the encoding of RFC 3629. */
module Utf8 {
  import opened Bytes

  /** A Unicode scalar value. */
  type scalar = c: int | 0 <= c <= 0x10ffff && !(0xd800 <= c < 0xe000)

  /** Section 3 of RFC 3629. */
  function EncodeScalar(c: scalar): (s: seq<byte>)
    ensures 1 <= |s| <= 4
  {
    if c < 0x80 then [c]
    else if c < 0x800 then [0xc0 + c / 64, 0x80 + c % 64]
    else if c < 0x10000 then [0xe0 + c / 4096, 0x80 + c / 64 % 64, 0x80 + c % 64]
    else [0xf0 + c / 262144, 0x80 + c / 4096 % 64, 0x80 + c / 64 % 64, 0x80 + c % 64]
  }

  /** What a valid string is made of; the two-byte NUL is not in RFC 3629. */
  datatype Piece = Scalar(c: scalar) | LongNull

  function PieceBytes(p: Piece): (s: seq<byte>)
    ensures 1 <= |s| <= 4
  {
    match p
    case Scalar(c) => EncodeScalar(c)
    case LongNull => [0xc0, 0x80]
  }

  function Flatten(ps: seq<Piece>): seq<byte> {
    if ps == [] then [] else PieceBytes(ps[0]) + Flatten(ps[1..])
  }

  predicate Allowed(p: Piece, allowNull: bool) { allowNull || (p.Scalar? && p.c != 0) }

  predicate AllAllowed(ps: seq<Piece>, allowNull: bool) { forall i | 0 <= i < |ps| :: Allowed(ps[i], allowNull) }

  /** A string is valid when it is some sequence of allowed pieces. */
  ghost predicate Valid(s: seq<byte>, allowNull: bool) {
    exists ps :: AllAllowed(ps, allowNull) && Flatten(ps) == s
  }

  datatype Option<T> = None | Some(value: T)

  predicate IsContinuation(b: byte) { 0x80 <= b < 0xc0 }

  /** The code point a lead byte's payload and continuation bytes add up to. */
  function Gather(payload: int, rest: seq<byte>): int {
    if rest == [] then payload else Gather(payload, rest[..|rest| - 1]) * 64 + rest[|rest| - 1] % 64
  }

  predicate Continues(s: seq<byte>, n: nat) { |s| >= n && forall i | 1 <= i < n :: IsContinuation(s[i]) }

  function Scalars(c: int, least: int): Option<Piece> {
    if least <= c <= 0x10ffff && !(0xd800 <= c < 0xe000) && c >= 0 then Some(Scalar(c)) else None
  }

  /** The one piece a string can start with. */
  function FirstPiece(s: seq<byte>, allowNull: bool): Option<Piece>
    requires s != []
  {
    var b: int := s[0];
    if b < 0x80 then if b == 0 && !allowNull then None else Some(Scalar(b))
    else if b < 0xc0 then None
    else if b < 0xe0 then
      if !Continues(s, 2) then None
      else if s[0] == 0xc0 && s[1] == 0x80 && allowNull then Some(LongNull)
      else Scalars(Gather(b - 0xc0, s[1..2]), 0x80)
    else if b < 0xf0 then if Continues(s, 3) then Scalars(Gather(b - 0xe0, s[1..3]), 0x800) else None
    else if b < 0xf8 then if Continues(s, 4) then Scalars(Gather(b - 0xf0, s[1..4]), 0x10000) else None
    else None
  }

  lemma Gathered(payload: int, rest: seq<byte>)
    requires 1 <= |rest| <= 3
    ensures |rest| == 1 ==> Gather(payload, rest) == payload * 64 + rest[0] % 64
    ensures |rest| == 2 ==> Gather(payload, rest) == (payload * 64 + rest[0] % 64) * 64 + rest[1] % 64
    ensures |rest| == 3 ==>
              Gather(payload, rest) == ((payload * 64 + rest[0] % 64) * 64 + rest[1] % 64) * 64 + rest[2] % 64
  {
    assert rest[..1][..0] == [];
    assert |rest| == 1 ==> rest[..1] == rest;
    assert |rest| >= 2 ==> rest[..2][..1] == rest[..1];
    assert |rest| == 2 ==> rest[..2] == rest;
    assert |rest| == 3 ==> rest[..3] == rest && rest[..3][..2] == rest[..2];
  }

  /** Splitting a scalar into groups of six bits and gathering them again. */
  lemma GatherScalar(c: scalar)
    requires c >= 0x80
    ensures var s, n := EncodeScalar(c), |EncodeScalar(c)|;
            var base := if n == 2 then 0xc0 else if n == 3 then 0xe0 else 0xf0;
            n >= 2 && Gather(s[0] - base, s[1..n]) == c && forall i | 1 <= i < n :: IsContinuation(s[i])
  {
    var s, n := EncodeScalar(c), |EncodeScalar(c)|;
    var base := if n == 2 then 0xc0 else if n == 3 then 0xe0 else 0xf0;
    Gathered(s[0] - base, s[1..n]);
    Regroup(c);
    Unmarked(c);
    Unmarked(c / 64);
    Unmarked(c / 4096);
    hide Gather;
  }

  lemma Regroup(c: nat)
    ensures c == c / 64 * 64 + c % 64
    ensures c == (c / 4096 * 64 + c / 64 % 64) * 64 + c % 64
    ensures c == ((c / 262144 * 64 + c / 4096 % 64) * 64 + c / 64 % 64) * 64 + c % 64
  {
    Halves(c);
    Halves(c / 64);
    Halves(c / 4096);
  }

  lemma Halves(c: nat)
    ensures c == c / 64 * 64 + c % 64 && c / 64 / 64 == c / 4096 && c / 4096 / 64 == c / 262144
  {}

  /** The encoding is a prefix code: a piece is recognised whatever follows it. */
  lemma PieceFirst(p: Piece, rest: seq<byte>, allowNull: bool)
    ensures FirstPiece(PieceBytes(p) + rest, allowNull) == if Allowed(p, allowNull) then Some(p) else None
  {
    var s, n := PieceBytes(p) + rest, |PieceBytes(p)|;
    assert forall i | 0 <= i < n :: s[i] == PieceBytes(p)[i];
    assert s[1..n] == PieceBytes(p)[1..n];
    match p
    case LongNull => assert Gather(0, [0x80]) == 0 by { Gathered(0, [0x80]); }
    case Scalar(c) =>
      if c >= 0x80 {
        GatherScalar(c);
        LeadByte(c);
        hide Gather, EncodeScalar;
      }
  }

  lemma LeadByte(c: scalar)
    requires c >= 0x80
    ensures var s := EncodeScalar(c);
            && (|s| == 2 <==> c < 0x800) && (|s| == 3 <==> 0x800 <= c < 0x10000) && (|s| == 4 <==> c >= 0x10000)
            && (|s| == 2 ==> 0xc2 <= s[0] < 0xe0) && (|s| == 3 ==> 0xe0 <= s[0] < 0xf0) && (|s| == 4 ==> 0xf0 <= s[0] < 0xf8)
  {}

  /** Whatever is recognised is there. */
  lemma FirstBytes(s: seq<byte>, allowNull: bool)
    requires s != [] && FirstPiece(s, allowNull).Some?
    ensures var p := FirstPiece(s, allowNull).value;
            Allowed(p, allowNull) && |PieceBytes(p)| <= |s| && s == PieceBytes(p) + s[|PieceBytes(p)|..]
  {
    var p := FirstPiece(s, allowNull).value;
    var n := |PieceBytes(p)|;
    FirstBytesAt(s, allowNull);
    assert s == s[..n] + s[n..];
  }

  lemma FirstBytesAt(s: seq<byte>, allowNull: bool)
    requires s != [] && FirstPiece(s, allowNull).Some?
    ensures var p := FirstPiece(s, allowNull).value;
            Allowed(p, allowNull) && |PieceBytes(p)| <= |s| && s[..|PieceBytes(p)|] == PieceBytes(p)
  {
    if s[0] >= 0x80 && FirstPiece(s, allowNull).value.Scalar? {
      var n := if s[0] < 0xe0 then 2 else if s[0] < 0xf0 then 3 else 4;
      var c := FirstPiece(s, allowNull).value.c;
      assert s[..n][1..n] == s[1..n];
      GatheredBytes(s[..n], c);
    }
  }

  lemma GatheredBytes(s: seq<byte>, c: scalar)
    requires 2 <= |s| <= 4 && Continues(s, |s|)
    requires c == Gather(s[0] - LeadBase(|s|), s[1..|s|]) && SequenceLength(s[0]) == |s|
    requires if |s| == 2 then c >= 0x80 else if |s| == 3 then c >= 0x800 else c >= 0x10000
    ensures EncodeScalar(c) == s
  {
    Gathered(s[0] - LeadBase(|s|), s[1..|s|]);
    forall i | 1 <= i < |s| ensures s[i] == 0x80 + s[i] % 64 {
      Marked(s[i]);
    }
    var n := |s|;
    assert s[0] < (if n == 2 then 0xe0 else if n == 3 then 0xf0 else 0xf8);
    hide Gather, Continues, SequenceLength, IsContinuation, EncodeScalar;
    if |s| == 2 {
      TwoBytes(s, c, s[0] - LeadBase(2));
    } else if |s| == 3 {
      ThreeBytes(s, c, s[0] - LeadBase(3));
    } else {
      FourBytes(s, c, s[0] - LeadBase(4));
    }
  }

  lemma TwoBytes(s: seq<byte>, c: scalar, lead: int)
    requires |s| == 2 && s[0] == 0xc0 + lead && s[1] == 0x80 + s[1] % 64 && c == lead * 64 + s[1] % 64 && 0x80 <= c && s[0] < 0xe0
    ensures EncodeScalar(c) == s
  {
    Two(lead, s[1] % 64);
  }

  lemma ThreeBytes(s: seq<byte>, c: scalar, lead: int)
    requires |s| == 3 && s[0] == 0xe0 + lead && s[1] == 0x80 + s[1] % 64 && s[2] == 0x80 + s[2] % 64
    requires c == (lead * 64 + s[1] % 64) * 64 + s[2] % 64 && 0x800 <= c && s[0] < 0xf0
    ensures EncodeScalar(c) == s
  {
    Three(lead, s[1] % 64, s[2] % 64);
  }

  lemma FourBytes(s: seq<byte>, c: scalar, lead: int)
    requires |s| == 4 && s[0] == 0xf0 + lead && s[1] == 0x80 + s[1] % 64 && s[2] == 0x80 + s[2] % 64 && s[3] == 0x80 + s[3] % 64
    requires c == ((lead * 64 + s[1] % 64) * 64 + s[2] % 64) * 64 + s[3] % 64 && 0x10000 <= c
    ensures EncodeScalar(c) == s
  {
    Four(lead, s[1] % 64, s[2] % 64, s[3] % 64);
  }

  lemma Marked(b: byte)
    requires IsContinuation(b)
    ensures b == 0x80 + b % 64
  {}

  lemma Unmarked(x: int)
    ensures (0x80 + x % 64) % 64 == x % 64
  {}

  lemma Two(a: int, b: int)
    requires 0 <= b < 64
    ensures (a * 64 + b) / 64 == a && (a * 64 + b) % 64 == b
  {}

  lemma Three(a: int, b: int, c: int)
    requires 0 <= b < 64 && 0 <= c < 64
    ensures var n := (a * 64 + b) * 64 + c;
            n / 4096 == a && n / 64 % 64 == b && n % 64 == c
  {
    Two(a * 64 + b, c);
    Two(a, b);
    assert ((a * 64 + b) * 64 + c) / 4096 == a;
  }

  lemma Four(a: int, b: int, c: int, d: int)
    requires 0 <= b < 64 && 0 <= c < 64 && 0 <= d < 64
    ensures var n := ((a * 64 + b) * 64 + c) * 64 + d;
            n / 262144 == a && n / 4096 % 64 == b && n / 64 % 64 == c && n % 64 == d
  {
    Three(a * 64 + b, c, d);
    Two(a, b);
    assert (((a * 64 + b) * 64 + c) * 64 + d) / 262144 == a;
  }

  lemma {:induction false} Pieces(s: seq<byte>, allowNull: bool)
    requires s != [] && Valid(s, allowNull)
    ensures var first := FirstPiece(s, allowNull);
            first.Some? && |PieceBytes(first.value)| <= |s| && Valid(s[|PieceBytes(first.value)|..], allowNull)
  {
    var ps :| AllAllowed(ps, allowNull) && Flatten(ps) == s;
    PieceFirst(ps[0], Flatten(ps[1..]), allowNull);
    assert s[|PieceBytes(ps[0])|..] == Flatten(ps[1..]);
  }

  lemma ValidPrepend(p: Piece, rest: seq<byte>, allowNull: bool)
    requires Allowed(p, allowNull) && Valid(rest, allowNull)
    ensures Valid(PieceBytes(p) + rest, allowNull)
  {
    var ps :| AllAllowed(ps, allowNull) && Flatten(ps) == rest;
    assert ([p] + ps)[1..] == ps;
    assert Flatten([p] + ps) == PieceBytes(p) + rest;
    assert AllAllowed([p] + ps, allowNull);
  }

  /** A valid string is made of one sequence of pieces only. */
  lemma {:induction false} PiecesAreUnique(ps: seq<Piece>, qs: seq<Piece>)
    requires Flatten(ps) == Flatten(qs)
    ensures ps == qs
  {
    if ps == [] {
      assert qs == [];
    } else {
      assert qs != [];
      PieceFirst(ps[0], Flatten(ps[1..]), true);
      PieceFirst(qs[0], Flatten(qs[1..]), true);
      assert Flatten(ps)[|PieceBytes(ps[0])|..] == Flatten(ps[1..]);
      assert Flatten(qs)[|PieceBytes(qs[0])|..] == Flatten(qs[1..]);
      PiecesAreUnique(ps[1..], qs[1..]);
    }
  }

  /** `_bson_utf8_get_sequence`: the length, and the modulus that masks the first byte. */
  method GetSequence(c: byte) returns (seqLength: nat, firstMask: nat)
    ensures seqLength == SequenceLength(c) && firstMask > 0
    ensures if seqLength > 0 then c % firstMask == c - LeadBase(seqLength) else firstMask == 1
  {
    if c < 0x80 {
      return 1, 128;
    } else if c / 32 == 6 {
      return 2, 32;
    } else if c / 16 == 14 {
      return 3, 16;
    } else if c / 8 == 30 {
      return 4, 8;
    } else if c / 4 == 62 {
      return 5, 4;
    } else if c / 2 == 126 {
      return 6, 2;
    } else {
      return 0, 1;
    }
  }

  /** The marker bits of a first byte. */
  function LeadBase(n: nat): int {
    if n <= 1 then 0 else if n == 2 then 0xc0 else if n == 3 then 0xe0 else if n == 4 then 0xf0 else if n == 5 then 0xf8 else 0xfc
  }

  function SequenceLength(c: byte): nat {
    if c < 0x80 then 1
    else if c < 0xc0 then 0
    else if c < 0xe0 then 2
    else if c < 0xf0 then 3
    else if c < 0xf8 then 4
    else if c < 0xfc then 5
    else if c < 0xfe then 6
    else 0
  }

  /** Shifting in six bits at a time, as the validator and `bson_utf8_get_char` do. */
  lemma GatherStep(payload: int, s: seq<byte>, j: nat)
    requires 1 <= j < |s|
    ensures Gather(payload, s[1..j + 1]) == Gather(payload, s[1..j]) * 64 + s[j] % 64
  {
    assert s[1..j + 1][..j - 1] == s[1..j];
  }

  /** `bson_utf8_validate`: exactly the strings made of allowed pieces pass. */
  method Validate(utf8: seq<byte>, allowNull: bool) returns (valid: bool)
    ensures valid <==> Valid(utf8, allowNull)
  {
    hide Valid, FirstPiece, PieceBytes, Gather;
    var i := 0;
    assert utf8[0..] == utf8;
    while i < |utf8|
      invariant i <= |utf8| && (Valid(utf8, allowNull) <==> Valid(utf8[i..], allowNull))
      decreases |utf8| - i
    {
      ghost var rest := utf8[i..];
      var ok, seqLength := CheckPiece(utf8, i, allowNull);
      if !ok {
        if Valid(rest, allowNull) {
          Pieces(rest, allowNull);
        }
        return false;
      }
      OnePiece(rest, allowNull);
      assert rest[seqLength..] == utf8[i + seqLength..];
      i := i + seqLength;
    }
    assert utf8[i..] == [];
    EmptyIsValid(allowNull);
    return true;
  }

  lemma EmptyIsValid(allowNull: bool)
    ensures Valid([], allowNull)
  {
    assert Flatten([]) == [] && AllAllowed([], allowNull);
  }

  lemma OnePiece(s: seq<byte>, allowNull: bool)
    requires s != [] && FirstPiece(s, allowNull).Some?
    ensures var n := |PieceBytes(FirstPiece(s, allowNull).value)|;
            n <= |s| && (Valid(s, allowNull) <==> Valid(s[n..], allowNull))
  {
    hide FirstPiece, PieceBytes, Valid;
    FirstBytes(s, allowNull);
    var p := FirstPiece(s, allowNull).value;
    if Valid(s[|PieceBytes(p)|..], allowNull) {
      ValidPrepend(p, s[|PieceBytes(p)|..], allowNull);
    }
    if Valid(s, allowNull) {
      Pieces(s, allowNull);
    }
  }

  /** One round of the validator's loop. */
  method CheckPiece(utf8: seq<byte>, i: nat, allowNull: bool) returns (ok: bool, seqLength: nat)
    requires i < |utf8|
    ensures ok <==> FirstPiece(utf8[i..], allowNull).Some?
    ensures ok ==> seqLength == |PieceBytes(FirstPiece(utf8[i..], allowNull).value)| <= |utf8| - i
  {
    hide Gather;
    ghost var s := utf8[i..];
    var firstMask;
    seqLength, firstMask := GetSequence(utf8[i]);
    if seqLength == 0 || |utf8| - i < seqLength {
      return false, seqLength;
    }
    var c: int := utf8[i] % firstMask;
    ghost var payload := c;
    var j := i + 1;
    GatherNone(payload, s);
    while j < i + seqLength
      invariant i + 1 <= j <= i + seqLength && c == Gather(payload, s[1..j - i])
      invariant forall k | 1 <= k < j - i :: IsContinuation(s[k])
    {
      GatherStep(payload, s, j - i);
      c := c * 64 + utf8[j] % 64;
      if utf8[j] / 64 != 2 {
        assert !IsContinuation(s[j - i]);
        return false, seqLength;
      }
      j := j + 1;
    }
    if !allowNull {
      j := 0;
      while j < seqLength
        invariant j <= seqLength && forall k | 0 <= k < j :: s[k] != 0
      {
        if utf8[i + j] == 0 {
          assert s[j] == 0;
          return false, seqLength;
        }
        j := j + 1;
      }
    }
    if c > 0x10ffff || c / 0x800 == 27 {
      NotAScalar(s, allowNull, c);
      return false, seqLength;
    }
    ok := if seqLength == 1 then c <= 0x7f
          else if seqLength == 2 then 0x80 <= c <= 0x7ff || (c == 0 && allowNull)
          else if seqLength == 3 then 0x800 <= c <= 0xffff
          else seqLength == 4 && 0x10000 <= c <= 0x10ffff;
    ShortestForm(s, allowNull, c);
  }

  lemma GatherNone(payload: int, s: seq<byte>)
    requires s != []
    ensures Gather(payload, s[1..1]) == payload
  {}

  lemma NotAScalar(s: seq<byte>, allowNull: bool, c: int)
    requires s != [] && var n := SequenceLength(s[0]); n > 0 && n <= |s| && c == Gather(s[0] - LeadBase(n), s[1..n])
    requires c > 0x10ffff || c / 0x800 == 27
    ensures FirstPiece(s, allowNull).None?
  {}

  lemma ShortestForm(s: seq<byte>, allowNull: bool, c: int)
    requires s != [] && var n := SequenceLength(s[0]); n > 0 && Continues(s, n) && c == Gather(s[0] - LeadBase(n), s[1..n])
    requires c <= 0x10ffff && c / 0x800 != 27 && (!allowNull ==> s[0] != 0)
    ensures var n := SequenceLength(s[0]);
            FirstPiece(s, allowNull).Some? <==>
              if n == 1 then c <= 0x7f
              else if n == 2 then 0x80 <= c <= 0x7ff || (c == 0 && allowNull)
              else if n == 3 then 0x800 <= c <= 0xffff
              else n == 4 && 0x10000 <= c <= 0x10ffff
    ensures FirstPiece(s, allowNull).Some? ==> |PieceBytes(FirstPiece(s, allowNull).value)| == SequenceLength(s[0])
  {
    var n := SequenceLength(s[0]);
    if 2 <= n <= 4 {
      Gathered(s[0] - LeadBase(n), s[1..n]);
    }
    hide Gather;
  }

  /** The code point that the bytes at the start of a string add up to, whether they are well formed or not. */
  function CharAt(s: seq<byte>): int
    requires s != [] && SequenceLength(s[0]) <= |s|
  {
    var n := SequenceLength(s[0]);
    if n == 0 then 0 else Gather(s[0] - LeadBase(n), s[1..n])
  }

  /** `bson_utf8_get_char`, and how far `bson_utf8_next_char` then moves: any string that holds the bytes the first one asks for. */
  method GetChar(utf8: seq<byte>, at: nat) returns (c: int, num: nat)
    requires at < |utf8| && at + SequenceLength(utf8[at]) <= |utf8|
    ensures num == SequenceLength(utf8[at]) && c == CharAt(utf8[at..])
  {
    hide Gather;
    ghost var s := utf8[at..];
    var mask;
    num, mask := GetSequence(utf8[at]);
    c := utf8[at] % mask;
    ghost var payload := c;
    GatherNone(payload, s);
    var i := 1;
    while i < num
      invariant (i == 1 || 1 <= i <= num) && c == Gather(payload, s[1..i])
    {
      GatherStep(payload, s, i);
      c := c * 64 + utf8[at + i] % 64;
      i := i + 1;
    }
  }

  /** At the start of a valid string that is its first character, and what follows it comes next. */
  lemma CharOfValid(s: seq<byte>)
    requires s != [] && Valid(s, true)
    ensures FirstPiece(s, true).Some?
    ensures var p := FirstPiece(s, true).value;
            SequenceLength(s[0]) == |PieceBytes(p)| <= |s| && CharAt(s) == if p.Scalar? then p.c else 0
  {
    Pieces(s, true);
    FirstBytes(s, true);
    FirstLength(s);
    LongNullIsZero();
    hide Gather, Valid;
  }

  lemma LongNullIsZero()
    ensures Gather(0, [0x80]) == 0
  {
    Gathered(0, [0x80]);
  }

  lemma FirstLength(s: seq<byte>)
    requires s != [] && FirstPiece(s, true).Some?
    ensures |PieceBytes(FirstPiece(s, true).value)| == SequenceLength(s[0]) <= |s|
  {
    var p := FirstPiece(s, true).value;
    FirstBytes(s, true);
    if p.Scalar? && p.c >= 0x80 {
      LeadByte(p.c);
    }
    assert s[0] == PieceBytes(p)[0];
  }

  /** The pieces of a string without NULs. */
  function Scalared(cs: seq<scalar>): (ps: seq<Piece>)
    ensures |ps| == |cs| && forall i | 0 <= i < |cs| :: ps[i] == Scalar(cs[i])
  {
    seq(|cs|, i requires 0 <= i < |cs| => Scalar(cs[i]))
  }

  /** Walking a string with `bson_utf8_get_char` and `bson_utf8_next_char`, as their callers do. */
  method Walk(utf8: seq<byte>) returns (cs: seq<scalar>, end: nat)
    requires Valid(utf8, false)
    ensures end == |utf8| && Flatten(Scalared(cs)) == utf8 && 0 !in cs
    ensures forall ps | Flatten(ps) == utf8 :: ps == Scalared(cs)
  {
    hide FirstPiece, PieceBytes, Flatten, Valid;
    ghost var ps := Parts(utf8);
    cs, end := [], 0;
    assert utf8[0..] == utf8 && ps[0..] == ps;
    while end < |utf8|
      invariant end <= |utf8| && |cs| <= |ps| && utf8[end..] == Flatten(ps[|cs|..])
      invariant Scalared(cs) == ps[..|cs|] && 0 !in cs
    {
      ghost var k := |cs|;
      FlattenNext(ps, k);
      PieceFirst(ps[k], Flatten(ps[k + 1..]), true);
      CharOfValid(utf8[end..]);
      var c, num := GetChar(utf8, end);
      assert Allowed(ps[k], false);
      assert utf8[end..][num..] == utf8[end + num..];
      cs := cs + [c];
      end := end + num;
      assert ps[..k + 1] == ps[..k] + [ps[k]];
    }
    FlattenNonempty(ps[|cs|..]);
    assert ps[..|cs|] == ps;
    forall qs | Flatten(qs) == utf8 ensures qs == Scalared(cs) {
      PiecesAreUnique(qs, ps);
    }
  }

  ghost function Parts(s: seq<byte>): (ps: seq<Piece>)
    requires Valid(s, false)
    ensures AllAllowed(ps, false) && Flatten(ps) == s
  {
    var ps :| AllAllowed(ps, false) && Flatten(ps) == s;
    ps
  }

  lemma FlattenNext(ps: seq<Piece>, k: nat)
    requires k <= |ps| && Flatten(ps[k..]) != []
    ensures k < |ps| && Flatten(ps[k..]) == PieceBytes(ps[k]) + Flatten(ps[k + 1..])
    ensures Valid(Flatten(ps[k..]), true)
    ensures Flatten(ps[k..])[|PieceBytes(ps[k])|..] == Flatten(ps[k + 1..])
  {
    FlattenIsValid(ps[k..]);
    assert ps[k..] != [] && ps[k..][0] == ps[k] && ps[k..][1..] == ps[k + 1..];
  }

  lemma FlattenNonempty(ps: seq<Piece>)
    ensures Flatten(ps) == [] ==> ps == []
  {}

  lemma FlattenIsValid(ps: seq<Piece>)
    ensures Valid(Flatten(ps), true)
  {
    assert AllAllowed(ps, true);
  }

  /** How many bytes a code point takes; there is no form for 2^31 and more. */
  function FormLength(u: uint32): nat {
    if u <= 0x7f then 1 else if u <= 0x7ff then 2 else if u <= 0xffff then 3 else if u <= 0x1f_ffff then 4
    else if u <= 0x3ff_ffff then 5 else if u <= 0x7fff_ffff then 6 else 0
  }

  predicate IsScalar(u: uint32) { u <= 0x10ffff && !(0xd800 <= u < 0xe000) }

  /** The bytes are those of a scalar value, and read back as the code point, but in the form of six. */
  predicate Forms(s: seq<byte>, u: uint32) {
    && s != [] && |s| == FormLength(u) == SequenceLength(s[0]) && (IsScalar(u) ==> s == EncodeScalar(u))
    && CharAt(s) == if |s| < 6 then u else u / 128 * 64 + u % 2
  }

  /**
   `bson_utf8_from_unichar`.  What it writes reads back as the code point exactly up to five bytes: in the form of
   six, the shifts are one too many and the last byte keeps a single bit.
   */
  method FromUnichar(unichar: uint32) returns (utf8: array<byte>, len: nat)
    ensures fresh(utf8) && len <= utf8.Length == 6 && len == FormLength(unichar)
    ensures len > 0 ==> Forms(utf8[..len], unichar)
    ensures len > 0 ==> (CharAt(utf8[..len]) == unichar <==> unichar <= 0x3ff_ffff)
  {
    hide CharAt;
    utf8 := new byte[6];
    if unichar <= 0x7f {
      utf8[0] := unichar;
      len := 1;
      Form1(unichar, utf8[..1]);
    } else if unichar <= 0x7ff {
      len := 2;
      utf8[0] := 0xc0 + unichar / 64 % 64;
      utf8[1] := 0x80 + unichar % 64;
      Form2(unichar, utf8[..2]);
    } else if unichar <= 0xffff {
      len := 3;
      utf8[0] := 0xe0 + unichar / 4096 % 16;
      utf8[1] := 0x80 + unichar / 64 % 64;
      utf8[2] := 0x80 + unichar % 64;
      Form3(unichar, utf8[..3]);
    } else if unichar <= 0x1f_ffff {
      len := 4;
      utf8[0] := 0xf0 + unichar / 0x4_0000 % 8;
      utf8[1] := 0x80 + unichar / 4096 % 64;
      utf8[2] := 0x80 + unichar / 64 % 64;
      utf8[3] := 0x80 + unichar % 64;
      Form4(unichar, utf8[..4]);
    } else if unichar <= 0x3ff_ffff {
      len := 5;
      utf8[0] := 0xf8 + unichar / 0x100_0000 % 4;
      utf8[1] := 0x80 + unichar / 0x4_0000 % 64;
      utf8[2] := 0x80 + unichar / 4096 % 64;
      utf8[3] := 0x80 + unichar / 64 % 64;
      utf8[4] := 0x80 + unichar % 64;
      Form5(unichar, utf8[..5]);
    } else if unichar <= 0x7fff_ffff {
      len := 6;
      utf8[0] := 0xfc + unichar / 0x8000_0000 % 2;
      utf8[1] := 0x80 + unichar / 0x200_0000 % 64;
      utf8[2] := 0x80 + unichar / 0x8_0000 % 64;
      utf8[3] := 0x80 + unichar / 8192 % 64;
      utf8[4] := 0x80 + unichar / 128 % 64;
      utf8[5] := 0x80 + unichar % 2;
      Form6(unichar, utf8[..6]);
    } else {
      len := 0;
    }
  }

  lemma Form1(u: uint32, s: seq<byte>)
    requires u <= 0x7f && s == [u]
    ensures Forms(s, u)
  {
    GatherNone(u, s);
  }

  lemma Form2(u: uint32, s: seq<byte>)
    requires 0x7f < u <= 0x7ff && s == [0xc0 + u / 64 % 64, 0x80 + u % 64]
    ensures Forms(s, u)
  {
    hide Gather;
    GatherForm(u / 64, s[1..2], u);
  }

  lemma Form3(u: uint32, s: seq<byte>)
    requires 0x7ff < u <= 0xffff && s == [0xe0 + u / 4096 % 16, 0x80 + u / 64 % 64, 0x80 + u % 64]
    ensures Forms(s, u)
  {
    hide Gather;
    GatherForm(u / 4096, s[1..3], u);
  }

  lemma Form4(u: uint32, s: seq<byte>)
    requires 0xffff < u <= 0x1f_ffff && s == [0xf0 + u / 0x4_0000 % 8, 0x80 + u / 4096 % 64, 0x80 + u / 64 % 64, 0x80 + u % 64]
    ensures Forms(s, u)
  {
    hide Gather;
    GatherForm(u / 0x4_0000, s[1..4], u);
  }

  lemma Form5(u: uint32, s: seq<byte>)
    requires 0x1f_ffff < u <= 0x3ff_ffff
    requires s == [0xf8 + u / 0x100_0000 % 4, 0x80 + u / 0x4_0000 % 64, 0x80 + u / 4096 % 64, 0x80 + u / 64 % 64, 0x80 + u % 64]
    ensures Forms(s, u)
  {
    hide Gather;
    GatherForm(u / 0x100_0000, s[1..5], u);
  }

  lemma Form6(u: uint32, s: seq<byte>)
    requires 0x3ff_ffff < u <= 0x7fff_ffff
    requires s == [0xfc + u / 0x8000_0000 % 2, 0x80 + u / 0x200_0000 % 64, 0x80 + u / 0x8_0000 % 64, 0x80 + u / 8192 % 64,
                   0x80 + u / 128 % 64, 0x80 + u % 2]
    ensures Forms(s, u) && CharAt(s) != u
  {
    hide Gather;
    SixBytes(s, u);
  }

  /** A code point is its lead's payload and groups of six bits. */
  lemma GatherForm(payload: nat, rest: seq<byte>, u: nat)
    requires 1 <= |rest| <= 4
    requires rest[|rest| - 1] % 64 == u % 64
    requires |rest| >= 2 ==> rest[|rest| - 2] % 64 == u / 64 % 64
    requires |rest| >= 3 ==> rest[|rest| - 3] % 64 == u / 4096 % 64
    requires |rest| >= 4 ==> rest[|rest| - 4] % 64 == u / 0x4_0000 % 64
    requires payload == if |rest| == 1 then u / 64 else if |rest| == 2 then u / 4096 else if |rest| == 3 then u / 0x4_0000 else u / 0x100_0000
    ensures Gather(payload, rest) == u
    decreases |rest|
  {
    Halves(u);
    Halves(u / 64);
    if |rest| == 1 {
      Gathered(payload, rest);
    } else {
      Sixths(u);
      GatherForm(payload, rest[..|rest| - 1], u / 64);
    }
  }

  lemma Sixths(u: nat)
    ensures u / 64 / 64 == u / 4096 && u / 64 / 4096 == u / 0x4_0000 && u / 64 / 0x4_0000 == u / 0x100_0000
    ensures u == u / 64 * 64 + u % 64
  {}

  lemma SixBytes(s: seq<byte>, u: uint32)
    requires |s| == 6 && 0x3ff_ffff < u <= 0x7fff_ffff
    requires s[0] == 0xfc && s[1] == 0x80 + u / 0x200_0000 % 64 && s[2] == 0x80 + u / 0x8_0000 % 64 && s[3] == 0x80 + u / 8192 % 64
    requires s[4] == 0x80 + u / 128 % 64 && s[5] == 0x80 + u % 2
    ensures Gather(0, s[1..6]) == u / 128 * 64 + u % 2 != u
  {
    var w := u / 128;
    assert u / 0x200_0000 == w / 0x4_0000 && u / 0x8_0000 == w / 4096 && u / 8192 == w / 64;
    assert w / 0x100_0000 == 0;
    GatherForm(0, s[1..5], w);
    assert s[1..6][..4] == s[1..5];
  }

  /** Encodings shown in section 7 of RFC 3629, and the euro sign. */
  lemma Encodings()
    ensures EncodeScalar(0x41) == [0x41] && EncodeScalar(0x391) == [0xce, 0x91] && EncodeScalar(0x2262) == [0xe2, 0x89, 0xa2]
    ensures EncodeScalar(0x20ac) == [0xe2, 0x82, 0xac] && EncodeScalar(0x233b4) == [0xf0, 0xa3, 0x8e, 0xb4]
  {}
}
