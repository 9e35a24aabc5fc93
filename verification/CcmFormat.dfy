/** CCM byte by byte, as sections 2.2 and 2.3 of RFC 3610 number its blocks, and what keeps its inputs apart. */
module CcmFormat {
  import opened Bytes
  import opened BitOps
  import opened Ccm

  // ------------------------------------------------------------ exclusive or

  lemma {:induction false} XorBitsAt(n: nat, a: nat, b: nat, k: nat)
    requires a < Pow2(n) && b < Pow2(n) && k < n
    ensures BitOf(XorBits(n, a, b), k) == 1 <==> BitOf(a, k) != BitOf(b, k)
  {
    Halves(if a % 2 == b % 2 then 0 else 1, XorBits(n - 1, a / 2, b / 2));
    if k > 0 {
      XorBitsAt(n - 1, a / 2, b / 2, k - 1);
    }
  }

  /** Each bit of the result is set exactly if the two bits differ. */
  lemma XorAt(a: byte, b: byte, k: nat)
    requires k < 8
    ensures BitOf(Xor(a, b), k) == 1 <==> BitOf(a, k) != BitOf(b, k)
  {
    Pow2Of8();
    XorBitsAt(8, a, b, k);
  }

  lemma {:induction false} XorBitsZero(n: nat, b: nat)
    requires b < Pow2(n)
    ensures XorBits(n, 0, b) == b
  {
    if n > 0 {
      XorBitsZero(n - 1, b / 2);
    }
  }

  lemma XorZeros(b: Block)
    ensures XorBlock(Zeros(16), b) == b
  {
    Pow2Of8();
    var x := XorBlock(Zeros(16), b);
    forall i | 0 <= i < 16 ensures x[i] == b[i] {
      XorBitsZero(8, b[i]);
    }
  }

  // ------------------------------------------------------------------ blocks

  function BlockCount(n: nat): nat
  {
    (n + 15) / 16
  }

  /** Byte j of a sequence of blocks. */
  function ByteAt(blocks: seq<Block>, j: nat): byte
    requires j < 16 * |blocks|
  {
    blocks[j / 16][j % 16]
  }

  /** The blocks hold m, and zeros behind it up to the next full block. */
  ghost predicate Hold(blocks: seq<Block>, m: seq<byte>)
  {
    && |blocks| == BlockCount(|m|)
    && forall j :: 0 <= j < 16 * |blocks| ==> ByteAt(blocks, j) == if j < |m| then m[j] else 0
  }

  lemma {:induction false} BlocksHold(m: seq<byte>)
    ensures Hold(Blocks(m), m)
    decreases |m|
  {
    if |m| > 16 {
      var blocks, rest := Blocks(m), Blocks(m[16..]);
      BlocksHold(m[16..]);
      forall j | 0 <= j < 16 * |blocks| ensures ByteAt(blocks, j) == if j < |m| then m[j] else 0 {
        if j >= 16 {
          assert ByteAt(blocks, j) == ByteAt(rest, j - 16);
        }
      }
    }
  }

  lemma HoldUnique(blocks: seq<Block>, m: seq<byte>, blocks': seq<Block>)
    requires Hold(blocks, m) && Hold(blocks', m)
    ensures blocks == blocks'
  {
    forall i | 0 <= i < |blocks| ensures blocks[i] == blocks'[i] {
      forall k | 0 <= k < 16 ensures blocks[i][k] == blocks'[i][k] {
        assert ByteAt(blocks, 16 * i + k) == ByteAt(blocks', 16 * i + k);
      }
    }
  }

  lemma HoldInjective(blocks: seq<Block>, m: seq<byte>, m': seq<byte>)
    requires Hold(blocks, m) && Hold(blocks, m') && |m| == |m'|
    ensures m == m'
  {
    forall j | 0 <= j < |m| ensures m[j] == m'[j] {
      assert ByteAt(blocks, j) == m[j];
    }
  }

  /** The flags of section 2.2 for a tag of 4 and a length field of 2 bytes, the nonce, and the message length. */
  predicate IsFirst(b: Block, nonce: Nonce, authenticated: bool, length: nat)
  {
    && b[0] < 0x80 && (Bit(b[0], 6) <==> authenticated) && b[0] / 8 % 8 == (4 - 2) / 2 && b[0] % 8 == 2 - 1
    && b[1..14] == nonce && 0x100 * (b[14] as int) + b[15] == length
  }

  /** The additional data with its length in front. */
  function Lengthened(aad: seq<byte>): seq<byte>
    requires |aad| < 0xFF00
  {
    if aad == [] then [] else [|aad| / 0x100, |aad| % 0x100] + aad
  }

  /** The blocks B_0, B_1, ... that section 2.2 authenticates. */
  ghost predicate MacInput(B: seq<Block>, nonce: Nonce, aad: seq<byte>, m: seq<byte>)
    requires |aad| < 0xFF00
  {
    var n := BlockCount(|Lengthened(aad)|);
    && |B| > n && IsFirst(B[0], nonce, aad != [], |m|)
    && Hold(B[1..n + 1], Lengthened(aad)) && Hold(B[n + 1..], m)
  }

  /** X_1, X_2, ... of section 2.2. */
  ghost predicate MacChain(E: Cipher, key: Block, B: seq<Block>, X: seq<Block>)
  {
    && |X| == |B| > 0 && X[0] == E(key, B[0])
    && forall i :: 0 < i < |B| ==> X[i] == E(key, XorBlock(X[i - 1], B[i]))
  }

  lemma {:induction false} ChainLast(E: Cipher, key: Block, y: Block, blocks: seq<Block>, b: Block)
    ensures Chain(E, key, y, blocks + [b]) == E(key, XorBlock(Chain(E, key, y, blocks), b))
    decreases |blocks|
  {
    if blocks == [] {
      assert [b][1..] == [];
    } else {
      assert (blocks + [b])[1..] == blocks[1..] + [b];
      ChainLast(E, key, E(key, XorBlock(y, blocks[0])), blocks[1..], b);
    }
  }

  lemma {:induction false} ChainIs(E: Cipher, key: Block, B: seq<Block>, X: seq<Block>)
    requires MacChain(E, key, B, X)
    ensures Chain(E, key, Zeros(16), B) == X[|B| - 1]
    decreases |B|
  {
    var n := |B| - 1;
    ChainLast(E, key, Zeros(16), B[..n], B[n]);
    assert B[..n] + [B[n]] == B;
    if n > 0 {
      ChainIs(E, key, B[..n], X[..n]);
    } else {
      XorZeros(B[0]);
    }
  }

  function MacBlocks(nonce: Nonce, aad: seq<byte>, m: seq<byte>): seq<Block>
    requires |aad| < 0xFF00 && |m| < 0x1_0000
  {
    [FirstBlock(nonce, aad != [], |m|)] + AadBlocks(aad) + Blocks(m)
  }

  lemma MacBlocksParts(nonce: Nonce, aad: seq<byte>, m: seq<byte>)
    requires |aad| < 0xFF00 && |m| < 0x1_0000
    ensures var B, n := MacBlocks(nonce, aad, m), BlockCount(|Lengthened(aad)|);
      && |B| > n && B[0] == FirstBlock(nonce, aad != [], |m|)
      && B[1..n + 1] == Blocks(Lengthened(aad)) && B[n + 1..] == Blocks(m)
  {
    BlocksHold(Lengthened(aad));
    assert AadBlocks(aad) == Blocks(Lengthened(aad));
    Parts(FirstBlock(nonce, aad != [], |m|), AadBlocks(aad), Blocks(m));
  }

  lemma Parts(first: Block, a: seq<Block>, b: seq<Block>)
    ensures var B := [first] + a + b; B[0] == first && B[1..|a| + 1] == a && B[|a| + 1..] == b
  {
  }

  /** The definition authenticates those blocks, and no others satisfy the description. */
  lemma MacInputIff(B: seq<Block>, nonce: Nonce, aad: seq<byte>, m: seq<byte>)
    requires |aad| < 0xFF00 && |m| < 0x1_0000
    ensures MacInput(B, nonce, aad, m) <==> B == MacBlocks(nonce, aad, m)
  {
    hide Hold;
    hide IsFirst;
    hide FirstBlock;
    hide MacBlocks;
    var n, B' := BlockCount(|Lengthened(aad)|), MacBlocks(nonce, aad, m);
    BlocksHold(Lengthened(aad));
    BlocksHold(m);
    MacBlocksParts(nonce, aad, m);
    FirstIs(nonce, aad != [], |m|);
    if MacInput(B, nonce, aad, m) {
      HoldUnique(B[1..n + 1], Lengthened(aad), B'[1..n + 1]);
      HoldUnique(B[n + 1..], m, B'[n + 1..]);
      FirstUnique(B[0], B'[0], nonce, aad != [], |m|);
      assert B == [B[0]] + B[1..n + 1] + B[n + 1..] && B' == [B'[0]] + B'[1..n + 1] + B'[n + 1..];
    }
  }

  lemma FirstIs(nonce: Nonce, authenticated: bool, length: nat)
    requires length < 0x1_0000
    ensures IsFirst(FirstBlock(nonce, authenticated, length), nonce, authenticated, length)
  {
  }

  lemma FirstUnique(b: Block, b': Block, nonce: Nonce, authenticated: bool, length: nat)
    requires IsFirst(b, nonce, authenticated, length) && IsFirst(b', nonce, authenticated, length)
    ensures b == b'
  {
    assert b[0] == b'[0];
    assert b == [b[0]] + b[1..14] + [b[14], b[15]] && b' == [b'[0]] + b'[1..14] + [b'[14], b'[15]];
  }

  /** A_i of section 2.3: the flags of the length field alone, the nonce, and the counter. */
  predicate IsCounter(a: Block, nonce: Nonce, i: nat)
  {
    a[0] == 2 - 1 && a[1..14] == nonce && 0x100 * (a[14] as int) + a[15] == i
  }

  /** Sealing by the numbers of the RFC: byte j of the ciphertext is masked with byte j of S_1, S_2, ..., and the tag
      is the first four bytes of the last X masked with S_0. */
  lemma SealedByNumbers(E: Cipher, key: Block, nonce: Nonce, aad: seq<byte>, m: seq<byte>, B: seq<Block>, X: seq<Block>,
                        A: seq<Block>)
    requires |aad| < 0xFF00 && |m| < 0x1_0000
    requires MacInput(B, nonce, aad, m) && MacChain(E, key, B, X)
    requires |A| == BlockCount(|m|) + 1 && forall i :: 0 <= i < |A| ==> IsCounter(A[i], nonce, i)
    ensures var s := Seal(E, key, nonce, aad, m);
      && |s.cipher| == |m| && (forall j :: 0 <= j < |m| ==> s.cipher[j] == Xor(m[j], E(key, A[1 + j / 16])[j % 16]))
      && forall i :: 0 <= i < 4 ==> s.tag[i] == Xor(X[|X| - 1][i], E(key, A[0])[i])
  {
    MacInputIff(B, nonce, aad, m);
    ChainIs(E, key, B, X);
    forall i | 0 <= i < |A| ensures A[i] == CounterBlock(nonce, i) {
      CounterIs(A[i], nonce, i);
    }
  }

  lemma CounterIs(a: Block, nonce: Nonce, i: nat)
    requires i < 0x1_0000 && IsCounter(a, nonce, i)
    ensures a == CounterBlock(nonce, i)
  {
    assert a == [a[0]] + a[1..14] + [a[14], a[15]];
  }

  // ------------------------------------------------------------ kept apart

  /** The same additional data, if both begin the same blocks. */
  lemma AadDetermined(rest: seq<Block>, aad: seq<byte>, aad': seq<byte>)
    requires 0 < |aad| < 0xFF00 && 0 < |aad'| < 0xFF00
    requires var n, n' := BlockCount(|Lengthened(aad)|), BlockCount(|Lengthened(aad')|);
      n <= |rest| && n' <= |rest| && Hold(rest[..n], Lengthened(aad)) && Hold(rest[..n'], Lengthened(aad'))
    ensures aad == aad'
  {
    var n, n' := BlockCount(|Lengthened(aad)|), BlockCount(|Lengthened(aad')|);
    assert ByteAt(rest[..n], 0) == rest[0][0] == ByteAt(rest[..n'], 0);
    assert ByteAt(rest[..n], 1) == rest[0][1] == ByteAt(rest[..n'], 1);
    assert |aad| == |aad'|;
    HoldInjective(rest[..n], Lengthened(aad), Lengthened(aad'));
    assert Lengthened(aad)[2..] == aad && Lengthened(aad')[2..] == aad';
  }

  /** What is authenticated determines nonce, additional data and message. */
  lemma MacBlocksInjective(nonce: Nonce, aad: seq<byte>, m: seq<byte>, nonce': Nonce, aad': seq<byte>, m': seq<byte>)
    requires |aad| < 0xFF00 && |m| < 0x1_0000 && |aad'| < 0xFF00 && |m'| < 0x1_0000
    requires MacBlocks(nonce, aad, m) == MacBlocks(nonce', aad', m')
    ensures nonce == nonce' && aad == aad' && m == m'
  {
    hide MacBlocks;
    hide Hold;
    hide Lengthened;
    var B, n, n' := MacBlocks(nonce, aad, m), BlockCount(|Lengthened(aad)|), BlockCount(|Lengthened(aad')|);
    MacInputIff(B, nonce, aad, m);
    MacInputIff(B, nonce', aad', m');
    if aad != [] {
      assert B[1..n + 1] == B[1..][..n] && B[1..n' + 1] == B[1..][..n'];
      AadDetermined(B[1..], aad, aad');
    }
    HoldInjective(B[n + 1..], m, m');
  }

  /** The cipher never gets the same block twice under one key in the key streams of different nonces, or twice within
      one, or in a key stream and as the first block of a chain. */
  lemma StreamsApart(nonce: Nonce, i: nat, nonce': Nonce, j: nat, authenticated: bool, length: nat)
    requires i < 0x1_0000 && j < 0x1_0000 && length < 0x1_0000
    ensures CounterBlock(nonce, i) == CounterBlock(nonce', j) ==> nonce == nonce' && i == j
    ensures CounterBlock(nonce, i) != FirstBlock(nonce', authenticated, length)
  {
    var a, a' := CounterBlock(nonce, i), CounterBlock(nonce', j);
    assert a[1..14] == nonce && a'[1..14] == nonce';
    assert a[0] != FirstBlock(nonce', authenticated, length)[0];
  }
}
