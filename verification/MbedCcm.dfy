/** The mbedTLS CCM loop, which authenticates and encrypts block by block in one pass. */
module MbedCcm {
  import opened Bytes
  import opened Ccm

  lemma BlocksStep(m: seq<byte>, n: nat)
    requires 0 < |m| && n == if |m| > 16 then 16 else |m|
    ensures Blocks(m) == [m[..n] + Zeros(16 - n)] + Blocks(m[n..])
  {
    if |m| > 16 {
      assert m[..16] + Zeros(0) == m[..16];
    } else {
      assert m[..n] == m;
    }
  }

  /** `UPDATE_CBC_MAC`: folds block b into y; rest is whatever follows b in the chain. */
  method UpdateCbcMac(E: Cipher, key: Block, y: Block, b: Block, ghost rest: seq<Block>) returns (y': Block)
    ensures Chain(E, key, y', rest) == Chain(E, key, y, [b] + rest)
  {
    y' := E(key, XorBlock(y, b));
    assert ([b] + rest)[1..] == rest;
  }

  /** `CTR_CRYPT`: up to one block of src, exclusive-ored with the encrypted counter. */
  method CtrCrypt(E: Cipher, key: Block, ctr: Block, src: seq<byte>) returns (dst: seq<byte>)
    requires |src| <= 16
    ensures |dst| == |src| && forall i :: 0 <= i < |src| ==> dst[i] == Xor(src[i], E(key, ctr)[i])
  {
    var b := E(key, ctr);
    dst := [];
    for i := 0 to |src|
      invariant |dst| == i && forall k :: 0 <= k < i ==> dst[k] == Xor(src[k], b[k])
    {
      dst := dst + [Xor(src[i], b[i])];
    }
  }

  /** The carry loop over the q = 2 counter bytes. */
  method Increment(ctr: Block, ghost nonce: Nonce, ghost i: nat) returns (next: Block)
    requires i + 1 < 0x1_0000 && ctr == CounterBlock(nonce, i)
    ensures next == CounterBlock(nonce, i + 1)
  {
    var low: int, high: int := ctr[15], ctr[14];
    next := ctr[15 := (low + 1) % 0x100];
    if next[15] == 0 {
      next := next[14 := (high + 1) % 0x100];
    }
    assert next[1..14] == nonce;
  }

  lemma StreamAligned(E: Cipher, key: Block, nonce: Nonce, i: nat, k: nat)
    requires k < 16 && 16 * i + k < 0x1_0000
    ensures StreamByte(E, key, nonce, 16 * i + k) == E(key, CounterBlock(nonce, 1 + i))[k]
  {
  }

  /** Section 2.2's second block onwards: add_len, add and the zero padding. */
  method MacAad(E: Cipher, key: Block, y0: Block, add: seq<byte>, ghost rest: seq<Block>) returns (y: Block)
    requires |add| < 0xFF00
    ensures Chain(E, key, y, rest) == Chain(E, key, y0, AadBlocks(add) + rest)
  {
    y := y0;
    if |add| > 0 {
      ghost var whole := [|add| / 0x100, |add| % 0x100] + add;
      var useLen := if |add| < 14 then |add| else 14;
      var b := [|add| / 0x100, |add| % 0x100] + add[..useLen] + Zeros(14 - useLen);
      var src := add[useLen..];
      BlocksStep(whole, useLen + 2);
      assert whole[..useLen + 2] == [|add| / 0x100, |add| % 0x100] + add[..useLen];
      assert whole[useLen + 2..] == src;
      assert Blocks(whole) + rest == [b] + (Blocks(src) + rest);
      y := UpdateCbcMac(E, key, y0, b, Blocks(src) + rest);
      y := MacRest(E, key, y, src, rest);
    } else {
      assert AadBlocks(add) + rest == rest;
    }
  }

  method MacRest(E: Cipher, key: Block, y0: Block, add: seq<byte>, ghost rest: seq<Block>) returns (y: Block)
    ensures Chain(E, key, y, rest) == Chain(E, key, y0, Blocks(add) + rest)
  {
    y := y0;
    var src := add;
    while |src| > 0
      invariant Chain(E, key, y, Blocks(src) + rest) == Chain(E, key, y0, Blocks(add) + rest)
      decreases |src|
    {
      var n := if |src| > 16 then 16 else |src|;
      var b: Block := src[..n] + Zeros(16 - n);
      BlocksStep(src, n);
      assert Blocks(src) + rest == [b] + (Blocks(src[n..]) + rest);
      y := UpdateCbcMac(E, key, y, b, Blocks(src[n..]) + rest);
      src := src[n..];
    }
    assert Blocks(src) + rest == rest;
  }

  /** The plaintext behind an input: the input itself, or what it decrypts to. */
  ghost function Plain(E: Cipher, key: Block, encrypt: bool, nonce: Nonce, input: seq<byte>): (m: seq<byte>)
    requires |input| < 0x1_0000
    ensures |m| == |input|
  {
    if encrypt then input else Crypt(E, key, nonce, input)
  }

  /** Block i of the input through `CTR_CRYPT`. */
  method CtrRound(E: Cipher, key: Block, nonce: Nonce, ghost input: seq<byte>, ghost i: nat, ctr: Block, src: seq<byte>)
      returns (dst: seq<byte>)
    requires |input| < 0x1_0000 && |src| <= 16 && 16 * i + |src| <= |input|
    requires src == input[16 * i..16 * i + |src|] && ctr == CounterBlock(nonce, 1 + i)
    ensures dst == Crypt(E, key, nonce, input)[16 * i..16 * i + |src|]
  {
    dst := CtrCrypt(E, key, ctr, src);
    forall k | 0 <= k < |src| ensures dst[k] == Crypt(E, key, nonce, input)[16 * i + k] {
      StreamAligned(E, key, nonce, i, k);
    }
  }

  /** The next block of plaintext, text, zero-padded into b and folded into the chain. */
  method MacRound(E: Cipher, key: Block, y: Block, ghost plain: seq<byte>, ghost done: nat, text: seq<byte>)
      returns (y': Block)
    requires done + |text| <= |plain| && text == plain[done..done + |text|] != []
    requires |text| == if |plain| - done > 16 then 16 else |plain| - done
    ensures Chain(E, key, y', Blocks(plain[done + |text|..])) == Chain(E, key, y, Blocks(plain[done..]))
  {
    BlocksStep(plain[done..], |text|);
    assert plain[done..][..|text|] == text && plain[done..][|text|..] == plain[done + |text|..];
    y' := UpdateCbcMac(E, key, y, text + Zeros(16 - |text|), Blocks(plain[done + |text|..]));
  }

  function RoundSize(left: nat): nat
  {
    if left > 16 then 16 else left
  }

  /** One round of the loop, on block i of the input. */
  method Round(E: Cipher, key: Block, encrypt: bool, nonce: Nonce, input: seq<byte>, done: nat, ghost i: nat,
               ctr: Block, y: Block)
      returns (dst: seq<byte>, ctr': Block, y': Block)
    requires done == 16 * i < |input| < 0x1_0000 && ctr == CounterBlock(nonce, 1 + i)
    ensures dst == Crypt(E, key, nonce, input)[done..done + RoundSize(|input| - done)]
    ensures ctr' == CounterBlock(nonce, 2 + i)
    ensures var plain := Plain(E, key, encrypt, nonce, input);
            Chain(E, key, y', Blocks(plain[done + |dst|..])) == Chain(E, key, y, Blocks(plain[done..]))
  {
    var src := input[done..done + RoundSize(|input| - done)];
    dst := CtrRound(E, key, nonce, input, i, ctr, src);
    y' := MacRound(E, key, y, Plain(E, key, encrypt, nonce, input), done, if encrypt then src else dst);
    ctr' := Increment(ctr, nonce, 1 + i);
  }

  /** The loop over the input, from a chain value y0 that covers the first block and the additional data. */
  method Stream(E: Cipher, key: Block, encrypt: bool, nonce: Nonce, y0: Block, input: seq<byte>)
      returns (output: seq<byte>, y: Block)
    requires |input| < 0x1_0000
    ensures output == Crypt(E, key, nonce, input)
    ensures y == Chain(E, key, y0, Blocks(Plain(E, key, encrypt, nonce, input)))
  {
    ghost var plain, all := Plain(E, key, encrypt, nonce, input), Crypt(E, key, nonce, input);
    ghost var i := 0;
    var done := 0;
    y := y0;
    var ctr: Block := [1] + nonce + [0, 1];
    output := [];
    while done < |input|
      invariant done <= |input| && output == all[..done]
      invariant done < |input| ==> done == 16 * i && ctr == CounterBlock(nonce, 1 + i)
      invariant Chain(E, key, y, Blocks(plain[done..])) == Chain(E, key, y0, Blocks(plain))
    {
      var dst;
      dst, ctr, y := Round(E, key, encrypt, nonce, input, done, i, ctr, y);
      output := output + dst;
      i, done := i + 1, done + |dst|;
    }
    assert Blocks(plain[done..]) == [];
  }

  /** `ccm_auth_crypt`: one pass over the input computes exactly what RFC 3610 defines. */
  method AuthCrypt(E: Cipher, key: Block, encrypt: bool, nonce: Nonce, add: seq<byte>, input: seq<byte>)
      returns (output: seq<byte>, tag: Tag)
    requires |add| < 0xFF00 && |input| < 0x1_0000
    ensures output == Crypt(E, key, nonce, input)
    ensures tag == TagOf(E, key, nonce, add, Plain(E, key, encrypt, nonce, input))
  {
    var y := MacStart(E, key, nonce, add, Plain(E, key, encrypt, nonce, input), |input|);
    output, y := Stream(E, key, encrypt, nonce, y, input);
    var mask := CtrCrypt(E, key, [1] + nonce + [0, 0], y);
    tag := mask[..4];
  }

  /** The chain over the first block and the additional data. */
  method MacStart(E: Cipher, key: Block, nonce: Nonce, add: seq<byte>, ghost plain: seq<byte>, length: nat)
      returns (y: Block)
    requires |add| < 0xFF00 && length == |plain| < 0x1_0000
    ensures Chain(E, key, y, Blocks(plain)) == MacBlock(E, key, nonce, add, plain)
  {
    var first := [(if |add| > 0 then 64 else 0) + 8 + 1] + nonce + [length / 0x100, length % 0x100];
    y := UpdateCbcMac(E, key, Zeros(16), first, AadBlocks(add) + Blocks(plain));
    y := MacAad(E, key, y, add, Blocks(plain));
    assert [first] + (AadBlocks(add) + Blocks(plain)) == [first] + AadBlocks(add) + Blocks(plain);
  }

  /** `mbedtls_ccm_encrypt_and_tag` */
  method EncryptAndTag(E: Cipher, key: Block, nonce: Nonce, add: seq<byte>, input: seq<byte>)
      returns (output: seq<byte>, tag: Tag)
    requires |add| < 0xFF00 && |input| < 0x1_0000
    ensures Sealed(output, tag) == Seal(E, key, nonce, add, input)
  {
    output, tag := AuthCrypt(E, key, true, nonce, add, input);
  }

  /** What `mbedtls_ccm_auth_decrypt` leaves in its output buffer: zeros when the tag is wrong. */
  function OpenOrZeros(E: Cipher, key: Block, nonce: Nonce, add: seq<byte>, s: Sealed): (m: seq<byte>)
    requires |add| < 0xFF00 && |s.cipher| < 0x1_0000
    ensures |m| == |s.cipher|
  {
    match Open(E, key, nonce, add, s)
    case Some(m) => m
    case None => Zeros(|s.cipher|)
  }

  /** `mbedtls_ccm_auth_decrypt` */
  method AuthDecrypt(E: Cipher, key: Block, nonce: Nonce, add: seq<byte>, input: seq<byte>, tag: Tag)
      returns (ok: bool, output: seq<byte>)
    requires |add| < 0xFF00 && |input| < 0x1_0000
    ensures ok <==> Open(E, key, nonce, add, Sealed(input, tag)).Some?
    ensures output == OpenOrZeros(E, key, nonce, add, Sealed(input, tag))
  {
    var checkTag: Tag;
    output, checkTag := AuthCrypt(E, key, false, nonce, add, input);
    ok := true;
    for i := 0 to 4
      invariant ok <==> tag[..i] == checkTag[..i]
    {
      assert tag[..i + 1] == tag[..i] + [tag[i]] && checkTag[..i + 1] == checkTag[..i] + [checkTag[i]];
      if tag[i] != checkTag[i] {
        ok := false;
      }
    }
    assert tag[..4] == tag && checkTag[..4] == checkTag;
    if !ok {
      output := Zeros(|input|);
    }
  }
}
