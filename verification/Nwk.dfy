/** `gpd-nwk.c`: frames written into and read out of the static buffers. */
module Nwk {
  import opened Bytes
  import opened Ccm
  import opened Frames
  import opened MbedCcm

  /** `buffer[index++] = b` */
  method Put(buffer: array<byte>, index: nat, b: byte) returns (next: nat)
    requires index < buffer.Length
    modifies buffer
    ensures next == index + 1 && buffer[..next] == old(buffer[..index]) + [b]
  {
    buffer[index] := b;
    next := index + 1;
  }

  method Put4Bytes(buffer: array<byte>, index: nat, value: uint32) returns (next: nat)
    requires index + 4 <= buffer.Length
    modifies buffer
    ensures next == index + 4 && buffer[..next] == old(buffer[..index]) + Le4(value)
  {
    Copy4Bytes(buffer, index, value);
    next := index + 4;
    assert buffer[..next] == buffer[..][..next];
  }

  method PutMacHeader(buffer: array<byte>, index: nat, counter: uint32) returns (next: nat)
    requires index + 7 <= buffer.Length
    modifies buffer
    ensures next == index + 7 && buffer[..next] == old(buffer[..index]) + MacHeader(counter)
  {
    next := Put(buffer, index, 0x01);
    next := Put(buffer, next, 0x08);
    next := Put(buffer, next, counter % 0x100);
    next := Put(buffer, next, 0xFF);
    next := Put(buffer, next, 0xFF);
    next := Put(buffer, next, 0xFF);
    next := Put(buffer, next, 0xFF);
  }

  /** The header bytes in order; the length byte is filled in last. */
  method PutHeader(buffer: array<byte>, payloadLength: nat, nwkFc: byte, extNwkFc: byte, t: TxFields)
    returns (index: nat)
    requires buffer.Length == 128 && payloadLength <= MAX_PAYLOAD
    modifies buffer
    ensures index <= 18
    ensures buffer[..index] == Header(nwkFc, if Bit(nwkFc, 7) then [extNwkFc] else [], t.srcId, t.level, t.counter,
                                      payloadLength)
  {
    hide MacHeader;
    hide Le4;
    ghost var first, ext := buffer[0], if Bit(nwkFc, 7) then [extNwkFc] else [];
    index := PutMacHeader(buffer, 1, t.counter);
    index := Put(buffer, index, nwkFc);
    if Bit(nwkFc, 7) {
      index := Put(buffer, index, extNwkFc);
    }
    index := Put4Bytes(buffer, index, t.srcId);
    assert buffer[..index] == [first] + MacHeader(t.counter) + [nwkFc] + ext + Le4(t.srcId);
    var micLength := 0;
    if t.level == 2 || t.level == 3 {
      micLength := TAG_SIZE;
      index := Put4Bytes(buffer, index, t.counter);
    }
    ghost var before := buffer[..index];
    buffer[0] := index + 1 + payloadLength + micLength;
    assert buffer[..index] == before[0 := buffer[0]];
  }

  /** `gpdBuildHeader` */
  method BuildHeader(buffer: array<byte>, payloadLength: nat, t: TxFields) returns (index: nat)
    requires buffer.Length == 128 && payloadLength <= MAX_PAYLOAD
    modifies buffer
    ensures index <= 18 && buffer[..index] == DataHeader(t, t.rxAfterTx, payloadLength)
  {
    var nwkFc: byte := DATA + 3 * 4 + if t.autoCommissioning then 0x40 else 0;
    if t.level > 0 || t.rxAfterTx {
      nwkFc := nwkFc + 0x80;
    }
    var extNwkFc: byte := 8 * t.level;
    if t.level != 0 {
      extNwkFc := extNwkFc + if Bit(t.keyType, 2) then 0x20 else 0;
    }
    extNwkFc := extNwkFc + if t.rxAfterTx then 0x40 else 0;
    index := PutHeader(buffer, payloadLength, nwkFc, extNwkFc, t);
  }

  lemma HeaderControl(t: TxFields, rxAfterTx: bool, n: nat)
    requires n <= MAX_PAYLOAD
    ensures var h := DataHeader(t, rxAfterTx, n);
            && h[8] == NwkFc(DATA, t.autoCommissioning, Extended(t)) && (Bit(h[8], 7) <==> Extended(t))
            && (Extended(t) ==> h[9] == ExtNwkFc(t.(rxAfterTx := rxAfterTx)) && (Bit(h[9], 6) <==> rxAfterTx))
  {
  }

  lemma ClearRxAfterTx(t: TxFields, n: nat)
    requires n <= MAX_PAYLOAD && Extended(t) && t.rxAfterTx
    ensures var h := DataHeader(t, true, n);
            h[9] >= 0x40 && h[9 := h[9] - 0x40] == DataHeader(t, false, n)
  {
    HeaderControl(t, true, n);
  }

  /** The payload loop shared by the data and the maintenance builder. */
  method PutPayload(mpdu: array<byte>, hdrLength: nat, payload: seq<byte>) returns (length: nat)
    requires hdrLength + |payload| <= mpdu.Length
    modifies mpdu
    ensures length == hdrLength + |payload| && mpdu[..length] == old(mpdu[..hdrLength]) + payload
  {
    for n := 0 to |payload|
      invariant mpdu[..hdrLength + n] == old(mpdu[..hdrLength]) + payload[..n]
    {
      mpdu[hdrLength + n] := payload[n];
    }
    length := hdrLength + |payload|;
    assert payload[..|payload|] == payload;
  }

  /** `emberGpdBuildMpdu` */
  method BuildMpdu(mpdu: array<byte>, payload: seq<byte>, t: TxFields) returns (length: nat)
    requires mpdu.Length == 128 && 1 <= |payload| <= MAX_PAYLOAD
    modifies mpdu
    ensures length == |DataMpdu(t, payload)| && mpdu[..length] == DataMpdu(t, payload)
  {
    var hdrLength := BuildHeader(mpdu, |payload|, t);
    if payload[0] == CMD_SUCCESS {
      SuppressRxAfterTx(mpdu, hdrLength, t, |payload|);
    }
    length := PutPayload(mpdu, hdrLength, payload);
  }

  /** `mpdu[posNwkHdr + 1] &= ~EMBER_GPD_EXT_NWK_FC_RX_AFTER_TX_MASK`, when that byte is there. */
  method SuppressRxAfterTx(mpdu: array<byte>, hdrLength: nat, t: TxFields, n: nat)
    requires mpdu.Length == 128 && n <= MAX_PAYLOAD && hdrLength <= 128
    requires mpdu[..hdrLength] == DataHeader(t, t.rxAfterTx, n)
    modifies mpdu
    ensures mpdu[..hdrLength] == DataHeader(t, false, n)
  {
    ghost var header := mpdu[..hdrLength];
    HeaderControl(t, t.rxAfterTx, n);
    assert mpdu[8] == header[8];
    if Bit(mpdu[8], 7) {
      assert mpdu[9] == header[9];
      if Bit(mpdu[9], 6) {
        ClearRxAfterTx(t, n);
        mpdu[9] := mpdu[9] - 0x40;
        assert mpdu[..hdrLength] == header[9 := header[9] - 0x40];
      }
    }
  }

  /** `emberTagTxBuff` */
  method TagTxBuff(E: Cipher, key: Block, nonce: Nonce, data: array<byte>, length: nat, authStart: nat, authLength: nat)
    requires authStart + authLength == length && length + 4 <= data.Length <= 128
    modifies data
    ensures data[..length + 4] == old(data[..length]) + Seal(E, key, nonce, old(data[authStart..length]), []).tag
  {
    hide Seal;
    var none, mic := EncryptAndTag(E, key, nonce, data[authStart..authStart + authLength], []);
    ghost var before := data[..];
    CopyBytes(data, length, mic);
    assert data[..length + 4] == data[..][..length + 4] == before[..length] + mic;
  }

  /** `emberEncryptAndTagTxBuff`: the ciphertext goes through an 80-byte scratch buffer. */
  method EncryptAndTagTxBuff(E: Cipher, key: Block, nonce: Nonce, data: array<byte>, length: nat, payloadLength: nat,
                             authStart: nat, authLength: nat)
    requires authStart + authLength + payloadLength == length && length + 4 <= data.Length <= 128
    requires payloadLength <= 80
    modifies data
    ensures var s, p := Seal(E, key, nonce, old(data[authStart..authStart + authLength]),
                             old(data[authStart + authLength..length])), authStart + authLength;
            data[..length + 4] == old(data[..p]) + s.cipher + s.tag
  {
    var p := authStart + authLength;
    var tempDataOut, mic := EncryptAndTag(E, key, nonce, data[authStart..p], data[p..length]);
    ghost var before := data[..];
    CopyBytes(data, length, mic);
    ghost var between := data[..];
    CopyBytes(data, p, tempDataOut);
    ghost var after := data[..];
    assert after[..p] == before[..p] && after[p..length] == tempDataOut;
    assert after[length..length + 4] == between[length..length + 4] == mic;
    assert data[..length + 4] == after[..p] + after[p..length] + after[length..length + 4];
  }

  /** The three levels of `emberGpdSecureOutgoingMPdu`, for one address layout's start and fixed length. */
  method SecureBuffer(E: Cipher, key: Block, nonce: Nonce, mpdu: array<byte>, mpduLength: nat, payloadLength: nat,
                      authStart: nat, authLength: nat, level: Level) returns (length: nat)
    requires mpdu.Length == 128 && 9 <= mpduLength <= 77 && payloadLength <= MAX_PAYLOAD && authLength > 0
    requires Secured(level) ==> mpduLength == authStart + authLength + payloadLength
    modifies mpdu
    ensures length == mpduLength + TagSize(level)
    ensures mpdu[..length]
      == SecureFrom(E, key, nonce, old(mpdu[..mpduLength]), authStart, authStart + authLength, level)
  {
    hide Seal;
    length := mpduLength;
    ghost var whole, m, head := mpdu[..], mpdu[..mpduLength], authStart + authLength;
    if level == 2 {
      SubSlice(whole, 0, mpduLength, authStart, mpduLength);
      TagTxBuff(E, key, nonce, mpdu, mpduLength, authStart, authLength + payloadLength);
      length := mpduLength + TAG_SIZE;
    } else if level == 3 {
      SubSlice(whole, 0, mpduLength, 0, head);
      SubSlice(whole, 0, mpduLength, authStart, head);
      SubSlice(whole, 0, mpduLength, head, mpduLength);
      EncryptAndTagTxBuff(E, key, nonce, mpdu, mpduLength, payloadLength, authStart, authLength);
      length := mpduLength + TAG_SIZE;
    }
  }

  /** `emberGpdSecureOutgoingMPdu` */
  method SecureOutgoingMpdu(E: Cipher, key: Block, nonce: Nonce, mpdu: array<byte>, mpduLength: nat, payloadLength: nat,
                            level: Level) returns (length: nat)
    requires mpdu.Length == 128 && 9 <= mpduLength <= 77 && payloadLength <= MAX_PAYLOAD
    requires Secured(level) ==> mpduLength == AUTH_START + AUTH_LENGTH + payloadLength
    modifies mpdu
    ensures length == mpduLength + TagSize(level)
    ensures mpdu[..length] == Secure(E, key, nonce, old(mpdu[..mpduLength]), payloadLength, level)
  {
    length := SecureBuffer(E, key, nonce, mpdu, mpduLength, payloadLength, AUTH_START, AUTH_LENGTH, level);
  }

  /** `emberBuildMaintMpdu` with its header builder. */
  method BuildMaintMpdu(mpdu: array<byte>, t: TxFields, payload: seq<byte>) returns (length: nat)
    requires mpdu.Length == 128 && |payload| <= MAX_PAYLOAD
    modifies mpdu
    ensures length <= 68 && mpdu[..length] == MaintMpdu(t, payload)
  {
    var index := 1;
    ghost var first := mpdu[0];
    assert mpdu[..1] == [first];
    index := PutMacHeader(mpdu, index, t.counter);
    index := Put(mpdu, index, MAINTENANCE + 3 * 4 + if t.autoCommissioning then 0x40 else 0);
    mpdu[0] := index + 1 + |payload|;
    assert mpdu[..index] == [10 + |payload|] + MacHeader(t.counter) + [NwkFc(MAINTENANCE, t.autoCommissioning, false)];
    length := PutPayload(mpdu, index, payload);
  }

  /** `emberBuildOutGoingPdu`: the buffer holds the frame, and its first byte counts it with the check sequence. */
  method BuildOutgoingPdu(E: Cipher, key: Block, nonce: Nonce, frameType: byte, mpdu: array<byte>, payload: seq<byte>,
                          t: TxFields) returns (length: nat)
    requires mpdu.Length == 128 && 1 <= |payload| <= MAX_PAYLOAD
    modifies mpdu
    ensures length <= 128 && mpdu[..length] == Frame(E, key, nonce, t, frameType, payload)
  {
    length := 0;
    if frameType == DATA {
      var mpduLength := BuildMpdu(mpdu, payload, t);
      length := SecureOutgoingMpdu(E, key, nonce, mpdu, mpduLength, |payload|, t.level);
    } else if frameType == MAINTENANCE {
      var mpduLength := BuildMaintMpdu(mpdu, t, payload);
      length := SecureOutgoingMpdu(E, key, nonce, mpdu, mpduLength, |payload|, 0);
    }
  }

  datatype Parsed = Dropped | Parsed(finger: nat, level: Level, decrypt: bool, payloadLength: nat)

  /** The first half of `emberGpdIncomingMessageHandler`: the finger walks over the header, or the frame is dropped. */
  method WalkHeader(buffer: array<byte>, srcId: uint32) returns (r: Parsed)
    requires buffer.Length == 128 && InBounds(buffer[..])
    ensures r.Dropped? <==> !Accepts(buffer[..], srcId)
    ensures r.Parsed? ==> var b := buffer[..];
      && r.finger == HeaderEnd(b) && r.level == LevelOf(b) && r.decrypt == Decrypts(b)
      && r.payloadLength == AppPayloadSize(b)
      && r.finger + r.payloadLength + TagSize(r.level) + 2 == 1 + b[0]
  {
    hide Word;
    ghost var b := buffer[..];
    var total: int := buffer[0];
    var nwkPayloadLength := total - 2;
    if nwkPayloadLength < 8 {
      return Dropped;
    }
    var low: int, high: int := buffer[1], buffer[2];
    var mFc := 0x100 * high + low;
    var nwkFcOffset := 0;
    if mFc == 0x0C01 {
      nwkFcOffset := 14;
    } else if mFc == 0x0801 {
      nwkFcOffset := 8;
    }
    if nwkFcOffset == 0 {
      return Dropped;
    }
    var currentFinger := nwkFcOffset;
    var nwkFc := buffer[currentFinger];
    currentFinger := currentFinger + 1;
    if nwkFc / 4 % 8 != 3 || nwkFc % 4 > MAINTENANCE {
      return Dropped;
    }
    var autoCommissioning := Bit(nwkFc, 6);
    var nwkFcExtn: byte, present := 0, false;
    if Bit(nwkFc, 7) {
      nwkFcExtn := buffer[currentFinger];
      currentFinger := currentFinger + 1;
      present := true;
    }
    if present && !Bit(nwkFcExtn, 7) {
      return Dropped;
    }
    if present && Bit(nwkFcExtn, 6) && autoCommissioning {
      return Dropped;
    }
    var level: Level, appId := nwkFcExtn / 8 % 4, nwkFcExtn % 8;
    var source: uint32 := 0;
    if present && appId == 0 {
      if nwkFc % 4 == DATA {
        source := Word(buffer[currentFinger..currentFinger + 4]);
        currentFinger := currentFinger + 4;
      }
    }
    if nwkFc % 4 == DATA && source != srcId {
      return Dropped;
    }
    var micLength := 0;
    if level == 2 || level == 3 {
      currentFinger := currentFinger + 4;
      micLength := TAG_SIZE;
    }
    var payloadLength := 0;
    if nwkPayloadLength > currentFinger + micLength - 1 {
      payloadLength := nwkPayloadLength - (currentFinger + micLength - 1);
    }
    return Parsed(currentFinger, level, appId == 0 && nwkFc % 4 == DATA && level == 3, payloadLength);
  }

  /** `emberDecryptRxBuffer` for level 3: the payload is opened in place through an 80-byte scratch buffer. */
  method DecryptRxBuffer(E: Cipher, key: Block, nonce: Nonce, rxMpdu: array<byte>, authStart: nat, encrLength: nat,
                         authLength: nat) returns (ok: bool)
    requires rxMpdu.Length == 128 && encrLength <= 80 && authStart + authLength + encrLength + 4 <= 128
    modifies rxMpdu
    ensures var b, p := old(rxMpdu[..]), authStart + authLength;
            var s := Sealed(b[p..p + encrLength], b[p + encrLength..p + encrLength + 4]);
            && (ok <==> Open(E, key, nonce, b[authStart..p], s).Some?)
            && rxMpdu[..] == b[..p] + OpenOrZeros(E, key, nonce, b[authStart..p], s) + b[p + encrLength..]
  {
    var p := authStart + authLength;
    ghost var b := rxMpdu[..];
    assert rxMpdu[authStart..p] == b[authStart..p] && rxMpdu[p..p + encrLength] == b[p..p + encrLength];
    assert rxMpdu[p + encrLength..p + encrLength + 4] == b[p + encrLength..p + encrLength + 4];
    var tempDataOut;
    ok, tempDataOut := AuthDecrypt(E, key, nonce, rxMpdu[authStart..p], rxMpdu[p..p + encrLength],
                                   rxMpdu[p + encrLength..p + encrLength + 4]);
    CopyBytes(rxMpdu, p, tempDataOut);
  }
}
