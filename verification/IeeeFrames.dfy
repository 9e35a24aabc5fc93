/** The data frame of the other address layout, an IEEE address and an endpoint in place of the source id. */
module IeeeFrames {
  import opened Bytes
  import opened Ccm
  import opened Frames
  import Nwk

  const MAX_IEEE_PAYLOAD := 54
  const IEEE_AUTH_START := 16
  const IEEE_AUTH_LENGTH := 7
  const IEEE_APP_ID: byte := 2

  /** The address and what else the frame is built from; source id and address never occur together. */
  datatype IeeeFields = IeeeFields(address: seq<byte>, endpoint: byte, rest: TxFields)

  type Address = f: IeeeFields | |f.address| == 8
    witness IeeeFields(seq(8, _ => 0), 0, TxFields(0, false, false, 0, 0, 0))

  /** Everything in front of the payload, for given control bytes. */
  function IeeeHeaderOf(nwkFc: byte, ext: byte, f: Address, n: nat): (h: seq<byte>)
    requires n <= MAX_IEEE_PAYLOAD
    ensures |h| == 19 + TagSize(f.rest.level)
  {
    [20 + 2 * TagSize(f.rest.level) + n, 0x41, 0xC8, f.rest.counter % 0x100, 0xFF, 0xFF, 0xFF, 0xFF] + f.address
    + [nwkFc, ext, f.endpoint] + if Secured(f.rest.level) then Le4(f.rest.counter) else []
  }

  function IeeeHeader(f: Address, rxAfterTx: bool, n: nat): (h: seq<byte>)
    requires n <= MAX_IEEE_PAYLOAD
    ensures |h| == 19 + TagSize(f.rest.level)
  {
    IeeeHeaderOf(NwkFc(DATA, f.rest.autoCommissioning, true),
                 IEEE_APP_ID + ExtNwkFc(f.rest.(rxAfterTx := rxAfterTx)), f, n)
  }

  function IeeeMpdu(f: Address, payload: seq<byte>): seq<byte>
    requires 1 <= |payload| <= MAX_IEEE_PAYLOAD
  {
    IeeeHeader(f, f.rest.rxAfterTx && payload[0] != CMD_SUCCESS, |payload|) + payload
  }

  lemma ClearIeeeRxAfterTx(f: Address, n: nat)
    requires n <= MAX_IEEE_PAYLOAD
    ensures var h := IeeeHeader(f, f.rest.rxAfterTx, n);
      && |h| > 17 && h[16] == NwkFc(DATA, f.rest.autoCommissioning, true) && (Bit(h[17], 6) <==> f.rest.rxAfterTx)
      && (f.rest.rxAfterTx ==> h[17] >= 0x40 && h[17 := h[17] - 0x40] == IeeeHeader(f, false, n))
  {
  }

  /** In a secured frame the authenticated header ends exactly where the payload starts. */
  lemma IeeePayloadPosition(f: Address, payload: seq<byte>)
    requires 1 <= |payload| <= MAX_IEEE_PAYLOAD && Secured(f.rest.level)
    ensures var m, head := IeeeMpdu(f, payload), IEEE_AUTH_START + IEEE_AUTH_LENGTH;
      |m| == head + |payload| && m[head..] == payload && m[8..16] == f.address && m[19..23] == Le4(f.rest.counter)
  {
    assert IeeeMpdu(f, payload)[8..16] == f.address;
  }

  /** The bytes handed to the radio: the first counts the others and a check sequence, and all fit the buffers. */
  function IeeeFrame(E: Cipher, key: Block, nonce: Nonce, f: Address, payload: seq<byte>): (frame: seq<byte>)
    requires 1 <= |payload| <= MAX_IEEE_PAYLOAD
    ensures 20 <= |frame| <= 81 && frame[0] == |frame| - 1 + 2
  {
    SecureFrom(E, key, nonce, IeeeMpdu(f, payload), IEEE_AUTH_START, IEEE_AUTH_START + IEEE_AUTH_LENGTH, f.rest.level)
  }

  /** A sink that knows the key and the nonce gets the payload back out of a level-3 frame. */
  lemma IeeeFrameOpens(E: Cipher, key: Block, nonce: Nonce, f: Address, payload: seq<byte>)
    requires 1 <= |payload| <= MAX_IEEE_PAYLOAD && f.rest.level == 3
    ensures var p, end := IeeeFrame(E, key, nonce, f, payload), 23 + |payload|;
      |p| == end + 4 && Open(E, key, nonce, p[16..23], Sealed(p[23..end], p[end..])) == Some(payload)
  {
    var m, p, end := IeeeMpdu(f, payload), IeeeFrame(E, key, nonce, f, payload), 23 + |payload|;
    IeeePayloadPosition(f, payload);
    var s := Seal(E, key, nonce, m[16..23], payload);
    assert p == m[..23] + s.cipher + s.tag;
    assert p[16..23] == m[16..23] && p[23..end] == s.cipher && p[end..] == s.tag;
    OpenSealed(E, key, nonce, m[16..23], payload);
  }

  /** At level 2 the frame is its own text and a tag over all of it from the control bytes on. */
  lemma IeeeFrameAuthentic(E: Cipher, key: Block, nonce: Nonce, f: Address, payload: seq<byte>)
    requires 1 <= |payload| <= MAX_IEEE_PAYLOAD && f.rest.level == 2
    ensures var p, end := IeeeFrame(E, key, nonce, f, payload), 23 + |payload|;
      |p| == end + 4 && p[23..end] == payload && p[end..] == TagOf(E, key, nonce, p[16..end], [])
  {
    var m, p := IeeeMpdu(f, payload), IeeeFrame(E, key, nonce, f, payload);
    IeeePayloadPosition(f, payload);
    assert p[..|m|] == m && p[16..|m|] == m[16..];
  }

  /** The bytes and bits of the header, as a sink reads them. */
  lemma IeeeHeaderReads(f: Address, payload: seq<byte>)
    requires 1 <= |payload| <= MAX_IEEE_PAYLOAD
    ensures var m, t := IeeeMpdu(f, payload), f.rest;
      && |m| >= 19 && m[1..3] == [0x41, 0xC8] && m[3] == t.counter % 0x100 && m[4..8] == [0xFF, 0xFF, 0xFF, 0xFF]
      && m[8..16] == f.address && m[18] == f.endpoint
      && m[16] % 4 == 0 && m[16] / 4 % 16 == 3 && (Bit(m[16], 6) <==> t.autoCommissioning) && Bit(m[16], 7)
      && m[17] % 8 == 2 && m[17] / 8 % 4 == t.level && (Bit(m[17], 5) <==> t.level > 0 && Bit(t.keyType, 2))
      && (Bit(m[17], 6) <==> t.rxAfterTx && payload[0] != 0xE2) && !Bit(m[17], 7)
      && (t.level < 2 ==> m[19..] == payload)
  {
    var m := IeeeMpdu(f, payload);
    assert m[8..16] == f.address;
  }

  // ------------------------------------------------------------- in place

  /** Length, MAC header and address, as far as the network frame control. */
  method PutIeeeMacHeader(buffer: array<byte>, f: Address) returns (index: nat)
    requires buffer.Length == 128
    modifies buffer
    ensures index == 16
    ensures buffer[..16] == old(buffer[..1]) + [0x41, 0xC8, f.rest.counter % 0x100, 0xFF, 0xFF, 0xFF, 0xFF] + f.address
  {
    index := Nwk.Put(buffer, 1, 0x41);
    index := Nwk.Put(buffer, index, 0xC8);
    index := Nwk.Put(buffer, index, f.rest.counter % 0x100);
    index := Nwk.Put(buffer, index, 0xFF);
    index := Nwk.Put(buffer, index, 0xFF);
    index := Nwk.Put(buffer, index, 0xFF);
    index := Nwk.Put(buffer, index, 0xFF);
    ghost var before := buffer[..];
    CopyBytes(buffer, index, f.address);
    index := index + 8;
    assert buffer[..16] == buffer[..][..16] == before[..8] + f.address;
  }

  method PutIeeeHeader(buffer: array<byte>, payloadLength: nat, nwkFc: byte, extNwkFc: byte, f: Address)
      returns (index: nat)
    requires buffer.Length == 128 && payloadLength <= MAX_IEEE_PAYLOAD
    modifies buffer
    ensures index <= 23 && buffer[..index] == IeeeHeaderOf(nwkFc, extNwkFc, f, payloadLength)
  {
    hide Le4;
    ghost var first := buffer[..1];
    index := PutIeeeMacHeader(buffer, f);
    ghost var mac := buffer[..16];
    index := Nwk.Put(buffer, index, nwkFc);
    index := Nwk.Put(buffer, index, extNwkFc);
    index := Nwk.Put(buffer, index, f.endpoint);
    assert buffer[..index] == mac + [nwkFc, extNwkFc, f.endpoint];
    var micLength := 0;
    if f.rest.level == 2 || f.rest.level == 3 {
      micLength := TAG_SIZE;
      index := Nwk.Put4Bytes(buffer, index, f.rest.counter);
    }
    ghost var before := buffer[..index];
    buffer[0] := index + 1 + payloadLength + micLength;
    assert buffer[..index] == before[0 := buffer[0]];
  }

  /** `gpdBuildHeader` for this layout: every byte goes inside the buffer, the length byte last. */
  method BuildIeeeHeader(buffer: array<byte>, payloadLength: nat, f: Address) returns (index: nat)
    requires buffer.Length == 128 && payloadLength <= MAX_IEEE_PAYLOAD
    modifies buffer
    ensures index <= 23 && buffer[..index] == IeeeHeader(f, f.rest.rxAfterTx, payloadLength)
  {
    hide IeeeHeaderOf;
    var t := f.rest;
    var nwkFc: byte := DATA + 3 * 4 + (if t.autoCommissioning then 0x40 else 0) + 0x80;
    var extNwkFc: byte := IEEE_APP_ID + 8 * t.level;
    if t.level != 0 {
      extNwkFc := extNwkFc + if Bit(t.keyType, 2) then 0x20 else 0;
    }
    extNwkFc := extNwkFc + if t.rxAfterTx then 0x40 else 0;
    index := PutIeeeHeader(buffer, payloadLength, nwkFc, extNwkFc, f);
  }

  /** `emberGpdBuildMpdu` for this layout. */
  method BuildIeeeMpdu(mpdu: array<byte>, payload: seq<byte>, f: Address) returns (length: nat)
    requires mpdu.Length == 128 && 1 <= |payload| <= MAX_IEEE_PAYLOAD
    modifies mpdu
    ensures length == |IeeeMpdu(f, payload)| && mpdu[..length] == IeeeMpdu(f, payload)
  {
    var hdrLength := BuildIeeeHeader(mpdu, |payload|, f);
    if payload[0] == CMD_SUCCESS {
      ghost var header := mpdu[..hdrLength];
      ClearIeeeRxAfterTx(f, |payload|);
      assert mpdu[16] == header[16] && mpdu[17] == header[17];
      if Bit(mpdu[16], 7) && Bit(mpdu[17], 6) {
        mpdu[17] := mpdu[17] - 0x40;
        assert mpdu[..hdrLength] == header[17 := header[17] - 0x40];
      }
    }
    length := Nwk.PutPayload(mpdu, hdrLength, payload);
  }

  /** The data frame built and secured in place, inside the 128-byte buffer and the 80-byte scratch. */
  method BuildIeeePdu(E: Cipher, key: Block, nonce: Nonce, mpdu: array<byte>, payload: seq<byte>, f: Address)
      returns (length: nat)
    requires mpdu.Length == 128 && 1 <= |payload| <= MAX_IEEE_PAYLOAD
    modifies mpdu
    ensures length <= 81 && mpdu[..length] == IeeeFrame(E, key, nonce, f, payload)
  {
    var mpduLength := BuildIeeeMpdu(mpdu, payload, f);
    length := Nwk.SecureBuffer(E, key, nonce, mpdu, mpduLength, |payload|, IEEE_AUTH_START, IEEE_AUTH_LENGTH,
                               f.rest.level);
  }
}
