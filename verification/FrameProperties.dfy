/** How built frames and received frames fit together. */
module FrameProperties {
  import opened Bytes
  import opened Ccm
  import opened Frames
  import opened MbedCcm

  /** In a secured frame the authenticated header ends exactly where the payload starts. */
  lemma PayloadPosition(t: TxFields, payload: seq<byte>)
    requires 1 <= |payload| <= MAX_PAYLOAD && Secured(t.level)
    ensures var m := DataMpdu(t, payload);
            m[AUTH_START + AUTH_LENGTH..] == payload && m[14..18] == Le4(t.counter) && m[10..14] == Le4(t.srcId)
  {
  }

  // ------------------------------------------------------------- reflection

  /** The device's own data frame, heard back with any check sequence, is dropped. */
  lemma OwnDataFrameDropped(E: Cipher, key: Block, nonce: Nonce, t: TxFields, payload: seq<byte>, fcs: seq<byte>,
                            b: Buffer)
    requires 1 <= |payload| <= MAX_PAYLOAD && |fcs| == 2 && t.srcId != 0
    ensures var p := Frame(E, key, nonce, t, DATA, payload) + fcs;
            WellFormed(p) && !Accepts(Received(b, p), t.srcId)
  {
    var m, f := DataMpdu(t, payload), Frame(E, key, nonce, t, DATA, payload);
    var shown := t.(rxAfterTx := t.rxAfterTx && payload[0] != CMD_SUCCESS);
    var ext := if Extended(t) then [ExtNwkFc(shown)] else [];
    MpduLayout(NwkFc(DATA, t.autoCommissioning, Extended(t)), ext, t.srcId, t.level, t.counter, payload);
    assert f[..10] == m[..10];
    OwnDataHeader(f + fcs, Extended(t), b, t.srcId);
  }

  lemma OwnDataHeader(p: seq<byte>, extended: bool, b: Buffer, srcId: uint32)
    requires 15 <= |p| <= 83 && p[0] == |p| - 1 && p[1] == 1 && p[2] == 8 && srcId != 0
    requires exists ac :: p[8] == NwkFc(DATA, ac, extended)
    requires extended ==> p[9] < 0x80
    requires extended ==> |p| >= 16 + 2 * TagSize(p[9] / 8 % 4)
    ensures WellFormed(p) && !Accepts(Received(b, p), srcId)
  {
    StaleBytesIrrelevant(b, p);
  }

  /** A maintenance frame heard back is accepted and hands on its payload unchanged. */
  lemma OwnMaintenanceFrameAccepted(t: TxFields, payload: seq<byte>, fcs: seq<byte>, b: Buffer, srcId: uint32)
    requires 1 <= |payload| <= MAX_PAYLOAD && |fcs| == 2
    ensures var p := MaintMpdu(t, payload) + fcs;
            && WellFormed(p)
            && var r := Received(b, p);
               && Accepts(r, srcId) && !Decrypts(r)
               && HeaderEnd(r) == 9 && AppPayloadSize(r) == |payload| && r[9..9 + |payload|] == payload
  {
    var m := MaintMpdu(t, payload);
    var p := m + fcs;
    var z := p + Zeros(128 - |p|);
    assert m[1] == 1 && m[2] == 8 && m[8] == NwkFc(MAINTENANCE, t.autoCommissioning, false);
    assert z[1] == 1 && z[2] == 8 && z[8] == m[8];
    StaleBytesIrrelevant(b, p);
    assert Received(b, p)[9..9 + |payload|] == payload;
  }

  // --------------------------------------------------------------- downlink

  /** A network frame control pair for a level-3 data frame to a source-id device. */
  predicate DownlinkControl(nwkFc: byte, ext: byte)
  {
    && nwkFc % 4 == DATA && nwkFc / 4 % 8 == 3 && Bit(nwkFc, 7)
    && ext % 8 == 0 && ext / 8 % 4 == 3 && Bit(ext, 7)
    && !(Bit(nwkFc, 6) && Bit(ext, 6))
  }

  /** A downlink frame in the builder's own layout, followed by its check sequence. */
  function Downlink(E: Cipher, key: Block, nonce: Nonce, nwkFc: byte, ext: byte, srcId: uint32, counter: uint32,
                    payload: seq<byte>, fcs: seq<byte>): seq<byte>
    requires 1 <= |payload| <= MAX_PAYLOAD && |fcs| == 2
  {
    Secure(E, key, nonce, Mpdu(nwkFc, [ext], srcId, 3, counter, payload), |payload|, 3) + fcs
  }

  lemma MpduLayout(nwkFc: byte, ext: seq<byte>, srcId: uint32, level: Level, counter: uint32, payload: seq<byte>)
    requires |ext| <= 1 && |payload| <= MAX_PAYLOAD
    ensures var m := Mpdu(nwkFc, ext, srcId, level, counter, payload);
            && m[1] == 1 && m[2] == 8 && m[8] == nwkFc && m[9..9 + |ext|] == ext
            && m[9 + |ext|..13 + |ext|] == Le4(srcId) && m[13 + |ext| + TagSize(level)..] == payload
  {
  }

  lemma FullySecured(E: Cipher, key: Block, nonce: Nonce, m: seq<byte>, n: nat)
    requires |m| == 18 + n && n <= MAX_PAYLOAD
    ensures var f := Secure(E, key, nonce, m, n, 3);
            f[..18] == m[..18] && Sealed(f[18..18 + n], f[18 + n..]) == Seal(E, key, nonce, m[8..18], m[18..])
  {
  }

  lemma DownlinkLayout(E: Cipher, key: Block, nonce: Nonce, nwkFc: byte, ext: byte, srcId: uint32, counter: uint32,
                       payload: seq<byte>, fcs: seq<byte>)
    requires 1 <= |payload| <= MAX_PAYLOAD && |fcs| == 2
    ensures var p, m, n := Downlink(E, key, nonce, nwkFc, ext, srcId, counter, payload, fcs),
                           Mpdu(nwkFc, [ext], srcId, 3, counter, payload), |payload|;
            && |p| == 24 + n && p[0] == |p| - 1 && p[1] == 1 && p[2] == 8 && p[8] == nwkFc && p[9] == ext
            && p[10..14] == Le4(srcId)
            && Sealed(p[18..18 + n], p[18 + n..22 + n]) == Seal(E, key, nonce, p[8..18], payload)
  {
    var m, n := Mpdu(nwkFc, [ext], srcId, 3, counter, payload), |payload|;
    var f := Secure(E, key, nonce, m, n, 3);
    MpduLayout(nwkFc, [ext], srcId, 3, counter, payload);
    FullySecured(E, key, nonce, m, n);
    DropCheckSequence(f, fcs, m, n);
  }

  lemma DropCheckSequence(f: seq<byte>, fcs: seq<byte>, m: seq<byte>, n: nat)
    requires |f| == 22 + n && |m| >= 18 && f[..18] == m[..18]
    ensures forall i :: 0 <= i < 18 ==> (f + fcs)[i] == m[i]
    ensures (f + fcs)[8..18] == m[8..18] && (f + fcs)[10..14] == m[10..14]
    ensures (f + fcs)[18..18 + n] == f[18..18 + n] && (f + fcs)[18 + n..22 + n] == f[18 + n..]
  {
    forall i | 0 <= i < 18 ensures (f + fcs)[i] == m[i] {
      assert f[i] == f[..18][i] && m[i] == m[..18][i];
    }
  }

  lemma DownlinkHeader(p: seq<byte>, n: nat, nwkFc: byte, ext: byte, srcId: uint32, b: Buffer)
    requires 1 <= n <= MAX_PAYLOAD && DownlinkControl(nwkFc, ext)
    requires |p| == 24 + n && p[0] == |p| - 1 && p[1] == 1 && p[2] == 8 && p[8] == nwkFc && p[9] == ext
    requires p[10..14] == Le4(srcId)
    ensures WellFormed(p)
    ensures var r := Received(b, p);
            Accepts(r, srcId) && Decrypts(r) && HeaderEnd(r) == 18 && AppPayloadSize(r) == n && NwkEnd(r) == 21 + n
  {
    var z := p + Zeros(128 - |p|);
    assert z[10..14] == p[10..14];
    WordOfLe4(srcId);
    StaleBytesIrrelevant(b, p);
  }

  /** Every downlink frame sealed under the receive nonce is accepted, and opening it gives back its payload. */
  lemma DownlinkOpens(E: Cipher, key: Block, nonce: Nonce, nwkFc: byte, ext: byte, srcId: uint32, counter: uint32,
                      payload: seq<byte>, fcs: seq<byte>, b: Buffer)
    requires 1 <= |payload| <= MAX_PAYLOAD && |fcs| == 2 && DownlinkControl(nwkFc, ext)
    ensures var p, n := Downlink(E, key, nonce, nwkFc, ext, srcId, counter, payload, fcs), |payload|;
            && WellFormed(p)
            && var r := Received(b, p);
               && Accepts(r, srcId) && Decrypts(r) && HeaderEnd(r) == 18 && AppPayloadSize(r) == n
               && NwkEnd(r) == 21 + n
               && OpenOrZeros(E, key, nonce, r[8..18], Sealed(r[18..18 + n], r[18 + n..22 + n])) == payload
  {
    var p, n := Downlink(E, key, nonce, nwkFc, ext, srcId, counter, payload, fcs), |payload|;
    DownlinkLayout(E, key, nonce, nwkFc, ext, srcId, counter, payload, fcs);
    DownlinkHeader(p, n, nwkFc, ext, srcId, b);
    var r := Received(b, p);
    assert r[8..18] == p[8..18] && r[18..18 + n] == p[18..18 + n] && r[18 + n..22 + n] == p[18 + n..22 + n];
    OpenSealed(E, key, nonce, p[8..18], payload);
  }
}
