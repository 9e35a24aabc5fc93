/** Bytes, 32-bit words and exclusive or, as the C code uses them. */
module Bytes {

  type byte = x: int | 0 <= x < 0x100

  type uint32 = x: int | 0 <= x < 0x1_0000_0000

  datatype Option<+T> = None | Some(value: T)

  /** The little-endian image of a word: what `emberGpdUtilityCopy4Bytes` writes. */
  function Le4(v: uint32): (s: seq<byte>)
    ensures |s| == 4
  {
    [v % 0x100, v / 0x100 % 0x100, v / 0x1_0000 % 0x100, v / 0x100_0000]
  }

  /** A word read through a cast pointer on the little-endian target. */
  function Word(s: seq<byte>): uint32
    requires |s| == 4
  {
    var a: int, b: int, c: int, d: int := s[0], s[1], s[2], s[3];
    a + 0x100 * b + 0x1_0000 * c + 0x100_0000 * d
  }

  lemma WordOfLe4(v: uint32)
    ensures Word(Le4(v)) == v
  {
    var q1, q2, q3 := v / 0x100, v / 0x1_0000, v / 0x100_0000;
    assert q2 == q1 / 0x100 && q3 == q2 / 0x100;
  }

  lemma Le4OfWord(s: seq<byte>)
    requires |s| == 4
    ensures Le4(Word(s)) == s
  {
    var v, b: int, c: int, d: int := Word(s), s[1], s[2], s[3];
    assert v / 0x100 == b + 0x100 * c + 0x1_0000 * d;
    assert v / 0x1_0000 == c + 0x100 * d;
    assert v / 0x100_0000 == d;
  }

  lemma Le4Injective(v: uint32, w: uint32)
    requires Le4(v) == Le4(w)
    ensures v == w
  {
    WordOfLe4(v);
    WordOfLe4(w);
  }

  /** Bit k of a byte. */
  predicate Bit(b: byte, k: nat)
    requires k < 8
  {
    b / [1, 2, 4, 8, 16, 32, 64, 128][k] % 2 == 1
  }

  function Pow2(n: nat): (p: nat)
    ensures p > 0
  {
    if n == 0 then 1 else 2 * Pow2(n - 1)
  }

  /** Bitwise exclusive or of two n-bit numbers. */
  function XorBits(n: nat, a: nat, b: nat): (r: nat)
    requires a < Pow2(n) && b < Pow2(n)
    ensures r < Pow2(n)
  {
    if n == 0 then 0 else (if a % 2 == b % 2 then 0 else 1) + 2 * XorBits(n - 1, a / 2, b / 2)
  }

  lemma Halves(bit: int, rest: int)
    requires 0 <= bit < 2
    ensures (bit + 2 * rest) / 2 == rest && (bit + 2 * rest) % 2 == bit
  {
  }

  lemma {:induction false} XorBitsCancel(n: nat, a: nat, b: nat)
    requires a < Pow2(n) && b < Pow2(n)
    ensures XorBits(n, XorBits(n, a, b), b) == a
  {
    if n > 0 {
      Halves(if a % 2 == b % 2 then 0 else 1, XorBits(n - 1, a / 2, b / 2));
      XorBitsCancel(n - 1, a / 2, b / 2);
    }
  }

  lemma Pow2Of8()
    ensures Pow2(8) == 0x100
  {
    assert Pow2(4) == 16;
  }

  function Xor(a: byte, b: byte): byte
  {
    Pow2Of8();
    XorBits(8, a, b)
  }

  lemma XorCancel(a: byte, b: byte)
    ensures Xor(Xor(a, b), b) == a
  {
    Pow2Of8();
    XorBitsCancel(8, a, b);
  }

  /** A part of a part. */
  lemma SubSlice(s: seq<byte>, k: nat, n: nat, lo: nat, hi: nat)
    requires k + n <= |s| && lo <= hi <= n
    ensures s[k..k + n][lo..hi] == s[k + lo..k + hi]
  {
    var part, p, q := s[k..k + n], s[k..k + n][lo..hi], s[k + lo..k + hi];
    forall i | 0 <= i < |p| ensures p[i] == q[i] {
      assert p[i] == part[lo + i];
    }
  }

  /** Four consecutive parts make the whole. */
  lemma FourParts(s: seq<byte>, i: nat, j: nat, k: nat)
    requires i <= j <= k <= |s|
    ensures s == s[..i] + s[i..j] + s[j..k] + s[k..]
  {
    assert s[i..] == s[i..j] + s[j..];
    assert s[j..] == s[j..k] + s[k..];
  }

  /** s with the bytes from position i on overwritten by t. */
  function Splice(s: seq<byte>, i: nat, t: seq<byte>): (r: seq<byte>)
    requires i + |t| <= |s|
    ensures |r| == |s|
    ensures r[i..i + |t|] == t
    ensures forall j :: 0 <= j < i || i + |t| <= j < |s| ==> r[j] == s[j]
  {
    s[..i] + t + s[i + |t|..]
  }

  /** `emberGpdUtilityCopy4Bytes` on the bytes of an array from position i. */
  method Copy4Bytes(dst: array<byte>, i: nat, value: uint32)
    requires i + 4 <= dst.Length
    modifies dst
    ensures dst[..] == Splice(old(dst[..]), i, Le4(value))
  {
    dst[i] := value % 0x100;
    dst[i + 1] := value / 0x100 % 0x100;
    dst[i + 2] := value / 0x1_0000 % 0x100;
    dst[i + 3] := value / 0x100_0000 % 0x100;
  }

  /** `memcpy` into an array from position i, byte by byte. */
  method CopyBytes(dst: array<byte>, i: nat, src: seq<byte>)
    requires i + |src| <= dst.Length
    modifies dst
    ensures dst[..] == Splice(old(dst[..]), i, src)
  {
    for n := 0 to |src|
      invariant dst[..] == Splice(old(dst[..]), i, src[..n])
    {
      dst[i + n] := src[n];
    }
    assert src[..|src|] == src;
  }
}
