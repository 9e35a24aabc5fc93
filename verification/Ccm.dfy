/** Counter with CBC-MAC, RFC 3610, for M = 4 and L = 2 over an arbitrary block function. */
module Ccm {
  import opened Bytes

  type Block = s: seq<byte> | |s| == 16 witness seq(16, _ => 0)

  type Nonce = s: seq<byte> | |s| == 13 witness seq(13, _ => 0)

  type Tag = s: seq<byte> | |s| == 4 witness [0, 0, 0, 0]

  /** The block cipher: key and block to block.  Nothing is assumed of it. */
  type Cipher = (Block, Block) -> Block

  datatype Sealed = Sealed(cipher: seq<byte>, tag: Tag)

  function Zeros(n: nat): (z: seq<byte>)
    ensures |z| == n && forall i :: 0 <= i < n ==> z[i] == 0
  {
    seq(n, _ => 0)
  }

  function XorBlock(a: Block, b: Block): Block
  {
    seq(16, i requires 0 <= i < 16 => Xor(a[i], b[i]))
  }

  /** m cut into blocks, the last one padded with zeros. */
  function Blocks(m: seq<byte>): seq<Block>
  {
    if |m| == 0 then []
    else if |m| <= 16 then [m + Zeros(16 - |m|)]
    else [m[..16]] + Blocks(m[16..])
  }

  /** The CBC-MAC chain of section 2.2, continued from y. */
  function Chain(E: Cipher, key: Block, y: Block, blocks: seq<Block>): Block
    decreases |blocks|
  {
    if blocks == [] then y
    else Chain(E, key, E(key, XorBlock(y, blocks[0])), blocks[1..])
  }

  /** B_0 of section 2.2: flags, nonce, message length. */
  function FirstBlock(nonce: Nonce, authenticated: bool, length: nat): Block
    requires length < 0x1_0000
  {
    [(if authenticated then 64 else 0) + 8 + 1] + nonce + [length / 0x100, length % 0x100]
  }

  /** The length-prefixed, padded additional data of section 2.2. */
  function AadBlocks(aad: seq<byte>): seq<Block>
    requires |aad| < 0xFF00
  {
    if aad == [] then [] else Blocks([|aad| / 0x100, |aad| % 0x100] + aad)
  }

  /** X_{n+1} of section 2.2, of which T is the first M bytes. */
  function MacBlock(E: Cipher, key: Block, nonce: Nonce, aad: seq<byte>, m: seq<byte>): Block
    requires |aad| < 0xFF00 && |m| < 0x1_0000
  {
    Chain(E, key, Zeros(16), [FirstBlock(nonce, aad != [], |m|)] + AadBlocks(aad) + Blocks(m))
  }

  /** A_i of section 2.3. */
  function CounterBlock(nonce: Nonce, i: nat): Block
    requires i < 0x1_0000
  {
    [1] + nonce + [i / 0x100, i % 0x100]
  }

  /** Byte j of the key stream S_1, S_2, ... of section 2.3. */
  function StreamByte(E: Cipher, key: Block, nonce: Nonce, j: nat): byte
    requires j < 0x1_0000
  {
    E(key, CounterBlock(nonce, 1 + j / 16))[j % 16]
  }

  /** Section 2.3: the message exclusive-ored with the key stream. */
  function Crypt(E: Cipher, key: Block, nonce: Nonce, m: seq<byte>): (c: seq<byte>)
    requires |m| < 0x1_0000
    ensures |c| == |m|
    ensures forall j :: 0 <= j < |m| ==> c[j] == Xor(m[j], StreamByte(E, key, nonce, j))
  {
    seq(|m|, j requires 0 <= j < |m| => Xor(m[j], StreamByte(E, key, nonce, j)))
  }

  /** U of section 2.3: T masked with S_0. */
  function TagOf(E: Cipher, key: Block, nonce: Nonce, aad: seq<byte>, m: seq<byte>): Tag
    requires |aad| < 0xFF00 && |m| < 0x1_0000
  {
    XorBlock(MacBlock(E, key, nonce, aad, m), E(key, CounterBlock(nonce, 0)))[..4]
  }

  /** Section 2.4. */
  function Seal(E: Cipher, key: Block, nonce: Nonce, aad: seq<byte>, m: seq<byte>): (r: Sealed)
    requires |aad| < 0xFF00 && |m| < 0x1_0000
    ensures |r.cipher| == |m|
  {
    Sealed(Crypt(E, key, nonce, m), TagOf(E, key, nonce, aad, m))
  }

  /** Section 2.5: the message, or nothing when the tag is wrong. */
  function Open(E: Cipher, key: Block, nonce: Nonce, aad: seq<byte>, s: Sealed): (r: Option<seq<byte>>)
    requires |aad| < 0xFF00 && |s.cipher| < 0x1_0000
    ensures r.Some? ==> |r.value| == |s.cipher|
  {
    var m := Crypt(E, key, nonce, s.cipher);
    if TagOf(E, key, nonce, aad, m) == s.tag then Some(m) else None
  }

  lemma CryptCancels(E: Cipher, key: Block, nonce: Nonce, m: seq<byte>)
    requires |m| < 0x1_0000
    ensures Crypt(E, key, nonce, Crypt(E, key, nonce, m)) == m
  {
    var c := Crypt(E, key, nonce, m);
    var d := Crypt(E, key, nonce, c);
    forall j | 0 <= j < |m| ensures d[j] == m[j] {
      XorCancel(m[j], StreamByte(E, key, nonce, j));
    }
  }

  /** Opening undoes sealing, and nothing opens to m but what sealing m makes. */
  lemma OpenIffSealed(E: Cipher, key: Block, nonce: Nonce, aad: seq<byte>, m: seq<byte>, s: Sealed)
    requires |aad| < 0xFF00 && |m| < 0x1_0000 && |s.cipher| < 0x1_0000
    ensures Open(E, key, nonce, aad, s) == Some(m) <==> s == Seal(E, key, nonce, aad, m)
  {
    CryptCancels(E, key, nonce, m);
    CryptCancels(E, key, nonce, s.cipher);
  }

  lemma OpenSealed(E: Cipher, key: Block, nonce: Nonce, aad: seq<byte>, m: seq<byte>)
    requires |aad| < 0xFF00 && |m| < 0x1_0000
    ensures Open(E, key, nonce, aad, Seal(E, key, nonce, aad, m)) == Some(m)
  {
    OpenIffSealed(E, key, nonce, aad, m, Seal(E, key, nonce, aad, m));
  }
}
