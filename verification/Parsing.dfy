/** The parser against the raw bytes of a frame: what is dropped, and what of the rest is handed over. */
module Parsing {
  import opened Bytes
  import opened Ccm
  import opened Frames
  import opened MbedCcm
  import opened Gpd
  import opened Delivery

  /** Byte k of a frame, 0 behind its end. */
  function At(p: seq<byte>, k: nat): int
  {
    if k < |p| then p[k] else 0
  }

  /** Where the network frame control stands: behind the short addresses or the long source address. */
  function Start(p: seq<byte>): nat
  {
    if At(p, 2) == 0x08 then 8 else 14
  }

  /** Everything a frame is dropped for, by its bytes: fewer than eight in front of the check sequence, another MAC
      frame control than 0x0801 and 0x0C01, another version than 3, another type than data and maintenance, an extended
      field without the direction bit, auto-commissioning together with receive-after-transmit, and a data frame that
      is not for this source id: with another one, or, if this one is not 0, with none. */
  predicate Dropped(p: seq<byte>, srcId: uint32)
  {
    var at := Start(p);
    var fc, ext := At(p, at), At(p, at + 1);
    || |p| < 11
    || At(p, 1) != 0x01 || (At(p, 2) != 0x08 && At(p, 2) != 0x0C)
    || fc / 4 % 8 != 3
    || fc % 4 >= 2
    || (fc >= 128 && ext < 128)
    || (fc >= 128 && ext / 64 % 2 == 1 && fc / 64 % 2 == 1)
    || (fc % 4 == 0 && srcId != if fc >= 128 && ext % 8 == 0 then SourceAt(p, at + 2) else 0)
  }

  function SourceAt(p: seq<byte>, k: nat): int
  {
    At(p, k) + 0x100 * At(p, k + 1) + 0x1_0000 * At(p, k + 2) + 0x100_0000 * At(p, k + 3)
  }

  /** Level 2 or 3, by the extended field. */
  predicate Carries(p: seq<byte>)
  {
    At(p, Start(p)) >= 128 && At(p, Start(p) + 1) / 16 % 2 == 1
  }

  /** The payload's place: behind the control bytes, the source id of a data frame and the counter, in front of the tag
      and the two bytes of check sequence. */
  function From(p: seq<byte>): nat
  {
    var at := Start(p);
    var fc, ext := At(p, at), At(p, at + 1);
    at + (if fc >= 128 then 2 else 1) + (if fc >= 128 && fc % 4 == 0 && ext % 8 == 0 then 4 else 0)
    + if Carries(p) then 4 else 0
  }

  function To(p: seq<byte>): int
  {
    |p| - 2 - if Carries(p) then 4 else 0
  }

  /** A data frame for a source id at level 3. */
  predicate Encrypted(p: seq<byte>)
  {
    var fc, ext := At(p, Start(p)), At(p, Start(p) + 1);
    fc >= 128 && fc % 4 == 0 && ext % 8 == 0 && ext / 8 % 4 == 3
  }

  lemma SameBytes(b: Buffer, p: Packet)
    ensures var r := Received(b, p); |p| >= 3 && r[0] == |p| - 1 && forall k :: 0 <= k < |p| ==> r[k] == At(p, k)
  {
  }

  /** A frame is dropped by a check exactly if its bytes are as said, whatever was received before. */
  lemma DroppedIff(b: Buffer, p: Packet, srcId: uint32)
    ensures Dropped(p, srcId) <==> !Accepts(Received(b, p), srcId)
  {
    SameBytes(b, p);
    StaleBytesIrrelevant(b, p);
  }

  /** The payload of an encrypted frame starts at 18, or behind a long address at 24. */
  lemma EncryptedFrom(p: seq<byte>)
    requires Encrypted(p)
    ensures From(p) == Start(p) + 10 && To(p) == |p| - 6
  {
    assert At(p, Start(p) + 1) / 16 % 2 == At(p, Start(p) + 1) / 8 % 4 / 2;
  }

  /** The frame's bytes from 18 on opened under the key and nonce held, its bytes 8 to 17 being authenticated with
      them; zeros if the tag is wrong. */
  function OpenedFrom18(c: Setup, s: Device, p: Packet): seq<byte>
    requires 24 <= |p|
  {
    OpenOrZeros(c.E, s.ccmKey, s.nonceRx, p[8..18], Sealed(p[18..|p| - 6], p[|p| - 6..|p| - 2]))
  }

  /** What the bytes of a frame say is handed over: nothing if it is dropped, and otherwise what stands between header
      and tag, opened first if it is a level-3 data frame for a source id. */
  function HandedOver(c: Setup, s: Device, p: Packet): seq<byte>
  {
    if Dropped(p, s.gpd.srcId) || To(p) <= From(p) then []
    else if !Encrypted(p) then p[From(p)..To(p)]
    else
      EncryptedFrom(p);
      OpenedFrom18(c, s, p)[From(p) - 18..]
  }

  lemma HeaderBytes(b: Buffer, p: Packet, srcId: uint32)
    requires !Dropped(p, srcId)
    ensures var r := Received(b, p);
      Accepts(r, srcId) && HeaderEnd(r) == From(p) && (Decrypts(r) <==> Encrypted(p))
      && AppPayloadSize(r) == if From(p) < To(p) then To(p) - From(p) else 0
  {
    SameBytes(b, p);
    StaleBytesIrrelevant(b, p);
  }

  /** And that is what the command handler gets, whatever was received before. */
  lemma PayloadDelivered(c: Setup, s: Device, p: Packet)
    ensures DeliveredPayload(c, s, p) == HandedOver(c, s, p)
  {
    hide Dropped;
    hide From;
    hide Encrypted;
    hide Decrypts;
    hide HeaderEnd;
    hide AppPayloadSize;
    hide Accepts;
    hide OpenedFrom18;
    hide DecryptRx;
    StaleBytesIrrelevant(s.rx, p);
    DroppedIff(s.rx, p, s.gpd.srcId);
    if !Dropped(p, s.gpd.srcId) {
      HeaderBytes(s.rx, p, s.gpd.srcId);
      var r := Received(s.rx, p);
      if From(p) < To(p) {
        if Encrypted(p) {
          OpenedPart(c, s, p);
        } else {
          ReceivedPart(s.rx, p, From(p), To(p));
        }
      }
    }
  }

  lemma ReceivedPart(b: Buffer, p: Packet, i: nat, j: nat)
    requires i <= j <= |p|
    ensures Received(b, p)[i..j] == p[i..j]
  {
  }

  lemma OpenedPart(c: Setup, s: Device, p: Packet)
    requires var r := Received(s.rx, p); Accepts(r, s.gpd.srcId) && Decrypts(r)
    requires Encrypted(p) && From(p) < To(p)
    ensures 18 <= From(p) && To(p) <= 128
    ensures Opened(c, s, p)[From(p)..To(p)] == OpenedFrom18(c, s, p)[From(p) - 18..]
  {
    hide OpenedFrom18;
    hide Accepts;
    hide Decrypts;
    EncryptedFrom(p);
    OpenedInPlace(c, s, p);
    var b, n, k := Opened(c, s, p), |p| - 24, From(p) - 18;
    SubSlice(b, 18, n, k, n);
    assert b[18..18 + n] == OpenedFrom18(c, s, p);
  }

  lemma OpenedInPlace(c: Setup, s: Device, p: Packet)
    requires var r := Received(s.rx, p); Accepts(r, s.gpd.srcId) && Decrypts(r)
    ensures 24 <= |p| <= 104 && Opened(c, s, p)[18..|p| - 6] == OpenedFrom18(c, s, p)
  {
    hide DecryptRx;
    hide OpenOrZeros;
    StaleBytesIrrelevant(s.rx, p);
    var r, n := Received(s.rx, p), |p| - 24;
    assert NwkEnd(r) == 21 + n;
    assert r[8..18] == p[8..18] && r[18..18 + n] == p[18..18 + n] && r[18 + n..22 + n] == p[18 + n..22 + n];
    DecryptedInPlace(c, s.(rx := r), n);
  }

  /** So by its bytes alone: a frame changes more than the receive buffer exactly if it hands over a payload with one of
      the two commands obeyed. */
  lemma FrameChangesIff(c: Setup, s: Device, p: Packet)
    ensures var payload := HandedOver(c, s, p);
      SameButRx(s, Deliver(c, s, p)) <==> payload == [] || (payload[0] != 0xF3 && payload[0] != 0xF0)
  {
    hide Deliver;
    hide HandedOver;
    PayloadDelivered(c, s, p);
    ChangesIff(c, s, p);
  }
}
