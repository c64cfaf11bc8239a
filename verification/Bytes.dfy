/** Bytes, machine integers and the little-endian encodings the library stores them in. */
module Bytes {

  const INT32_MAX: int := 0x7fff_ffff
  const TWO_32: int := 0x1_0000_0000
  const TWO_63: int := 0x8000_0000_0000_0000
  const TWO_64: int := 0x1_0000_0000_0000_0000

  type byte = b: int | 0 <= b < 256
  type uint32 = n: int | 0 <= n < TWO_32
  type uint64 = n: int | 0 <= n < TWO_64
  type int32 = n: int | -0x8000_0000 <= n < 0x8000_0000
  type int64 = n: int | -TWO_63 <= n < TWO_63

  /** A NUL-free byte string: what `strlen` measures. */
  type CString = s: seq<byte> | 0 !in s

  /** The four bytes a `uint32_t` occupies; a larger number is cut to 32 bits first. */
  function LE4(n: nat): (s: seq<byte>)
    ensures |s| == 4
  {
    var n1 := n / 256;
    var n2 := n1 / 256;
    var n3 := n2 / 256;
    [n % 256, n1 % 256, n2 % 256, n3 % 256]
  }

  function LE8(n: nat): (s: seq<byte>)
    ensures |s| == 8
  {
    LE4(n % TWO_32) + LE4(n / TWO_32)
  }

  function U32(b0: byte, b1: byte, b2: byte, b3: byte): uint32 {
    b0 + 0x100 * b1 + 0x1_0000 * b2 + 0x100_0000 * b3
  }

  /** A `memcpy` of four bytes into a `uint32_t`. */
  function U32At(s: seq<byte>, i: nat): uint32
    requires i + 4 <= |s|
  {
    U32(s[i], s[i + 1], s[i + 2], s[i + 3])
  }

  function U64At(s: seq<byte>, i: nat): uint64
    requires i + 8 <= |s|
  {
    U32At(s, i) + TWO_32 * U32At(s, i + 4)
  }

  /** Two's complement, both ways. */
  function ToUnsigned32(n: int32): uint32 { if n < 0 then n + TWO_32 else n }
  function ToUnsigned64(n: int64): uint64 { if n < 0 then n + TWO_64 else n }
  function ToSigned32(n: uint32): int32 { if n < 0x8000_0000 then n else n - TWO_32 }
  function ToSigned64(n: uint64): int64 { if n < TWO_63 then n else n - TWO_64 }

  lemma LE4Digits(n: nat)
    requires n < TWO_32
    ensures U32(LE4(n)[0], LE4(n)[1], LE4(n)[2], LE4(n)[3]) == n
  {
    var n1 := n / 256;
    var n2 := n1 / 256;
    assert n == 256 * n1 + n % 256 && n1 == 256 * n2 + n1 % 256;
  }

  lemma ReadLE4(s: seq<byte>, i: nat, n: nat)
    requires i + 4 <= |s| && n < TWO_32 && s[i..i + 4] == LE4(n)
    ensures U32At(s, i) == n
  {
    LE4Digits(n);
    assert s[i..i + 4] == [s[i], s[i + 1], s[i + 2], s[i + 3]];
  }

  lemma ReadLE8(s: seq<byte>, i: nat, n: nat)
    requires i + 8 <= |s| && n < TWO_64 && s[i..i + 8] == LE8(n)
    ensures U64At(s, i) == n
  {
    assert s[i..i + 4] == s[i..i + 8][..4] == LE4(n % TWO_32);
    assert s[i + 4..i + 8] == s[i..i + 8][4..] == LE4(n / TWO_32);
    ReadLE4(s, i, n % TWO_32);
    ReadLE4(s, i + 4, n / TWO_32);
  }
}
