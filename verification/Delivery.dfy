/** Frames delivered to the device: its own come to nothing, downlink frames hand over exactly their payload. */
module Delivery {
  import opened Bytes
  import opened Ccm
  import opened Frames
  import opened FrameProperties
  import opened MbedCcm
  import opened Gpd
  import opened Effects
  import opened Counters

  /** The device but for its receive buffer. */
  predicate SameButRx(s: Device, r: Device)
  {
    r == s.(rx := r.rx)
  }

  // ------------------------------------------------ what changes the device

  /** The two commands that the device obeys. */
  predicate Obeyed(command: byte)
  {
    command == CMD_CHANNEL_CONFIG || command == CMD_COMMISSIONING_REPLY
  }

  /** The receive buffer as the command handler sees it. */
  function Opened(c: Setup, s: Device, p: Packet): Buffer
  {
    StaleBytesIrrelevant(s.rx, p);
    var r := s.(rx := Received(s.rx, p));
    if Accepts(r.rx, s.gpd.srcId) && Decrypts(r.rx) then DecryptRx(c, r).rx else r.rx
  }

  /** The payload that a frame hands over, opened, or nothing if the frame is dropped. */
  function DeliveredPayload(c: Setup, s: Device, p: Packet): seq<byte>
  {
    StaleBytesIrrelevant(s.rx, p);
    var r := Received(s.rx, p);
    if Accepts(r, s.gpd.srcId) then Opened(c, s, p)[HeaderEnd(r)..HeaderEnd(r) + AppPayloadSize(r)] else []
  }

  /** A delivered frame changes nothing but the receive buffer exactly if it hands over no payload, or one whose
      command the device does not obey. */
  lemma ChangesIff(c: Setup, s: Device, p: Packet)
    ensures var payload := DeliveredPayload(c, s, p);
      SameButRx(s, Deliver(c, s, p)) <==> payload == [] || !Obeyed(payload[0])
  {
    StaleBytesIrrelevant(s.rx, p);
    var r := Received(s.rx, p);
    if Accepts(r, s.gpd.srcId) && AppPayloadSize(r) > 0 {
      var i, b := HeaderEnd(r), Opened(c, s, p);
      assert Deliver(c, s, p) == Command(c, s.(rx := b), i) && DeliveredPayload(c, s, p)[0] == b[i];
      if b[i] == CMD_COMMISSIONING_REPLY {
        ReplyUndisturbed(c, s.(rx := b), i + 1);
      }
    }
  }

  // -------------------------------------------------------------- reflection

  /** A data frame of a device with this source id changes nothing in it, whatever frame it is. */
  lemma OwnDataFrameIgnored(c: Setup, s: Device, key: Block, nonce: Nonce, t: TxFields, payload: seq<byte>,
                            fcs: seq<byte>)
    requires 1 <= |payload| <= MAX_PAYLOAD && |fcs| == 2 && t.srcId == s.gpd.srcId != 0
    ensures var p := Frame(c.E, key, nonce, t, DATA, payload) + fcs;
      WellFormed(p) && SameButRx(s, Deliver(c, s, p))
  {
    OwnDataFrameDropped(c.E, key, nonce, t, payload, fcs, s.rx);
  }

  /** A maintenance frame changes nothing exactly when it carries neither of the two commands obeyed; of those the
      Channel Configuration is obeyed by any device that hears it. */
  lemma MaintenanceFrameObeyed(c: Setup, s: Device, t: TxFields, payload: seq<byte>, fcs: seq<byte>)
    requires 1 <= |payload| <= MAX_PAYLOAD && |fcs| == 2
    ensures var p := MaintMpdu(t, payload) + fcs;
      && WellFormed(p)
      && (SameButRx(s, Deliver(c, s, p)) <==> !Obeyed(payload[0]))
      && (payload[0] == CMD_CHANNEL_CONFIG && |payload| > 1 ==>
            Deliver(c, s, p) == Configure(s.(rx := Received(s.rx, p)), payload[1] % 16 + 11))
  {
    OwnMaintenanceFrameAccepted(t, payload, fcs, s.rx, s.gpd.srcId);
    var p := MaintMpdu(t, payload) + fcs;
    var r := Received(s.rx, p);
    ChangesIff(c, s, p);
    assert DeliveredPayload(c, s, p) == payload;
    assert r[9] == r[9..9 + |payload|][0];
    if |payload| > 1 {
      assert r[10] == r[9..9 + |payload|][1];
    }
  }

  /** Reflection: a frame built for this device's non-zero source id, heard back by it, changes nothing exactly
      unless it is a maintenance frame with an obeyed command. */
  lemma ReflectionIff(c: Setup, s: Device, key: Block, nonce: Nonce, t: TxFields, frameType: byte, payload: seq<byte>,
                      fcs: seq<byte>)
    requires 1 <= |payload| <= MAX_PAYLOAD && |fcs| == 2 && t.srcId == s.gpd.srcId != 0 && frameType <= MAINTENANCE
    ensures var p := Frame(c.E, key, nonce, t, frameType, payload) + fcs;
      && WellFormed(p)
      && (SameButRx(s, Deliver(c, s, p)) <==> !(frameType == MAINTENANCE && Obeyed(payload[0])))
  {
    if frameType == DATA {
      OwnDataFrameIgnored(c, s, key, nonce, t, payload, fcs);
    } else {
      MaintenanceFrameObeyed(c, s, t, payload, fcs);
    }
  }

  // ---------------------------------------------------------------- downlink

  lemma DecryptedInPlace(c: Setup, s: Device, n: nat)
    requires InBounds(s.rx) && NwkEnd(s.rx) == 21 + n && n <= 80
    ensures DecryptRx(c, s).rx[18..18 + n]
      == OpenOrZeros(c.E, s.ccmKey, s.nonceRx, s.rx[8..18], Sealed(s.rx[18..18 + n], s.rx[18 + n..22 + n]))
  {
  }

  /** A level-3 downlink frame, laid out as the builder does it and sealed under the key and receive nonce the
      device holds, is delivered as exactly its payload: the command handler runs on that, where it stands. */
  lemma DownlinkDelivered(c: Setup, s: Device, nwkFc: byte, ext: byte, counter: uint32, payload: seq<byte>,
                          fcs: seq<byte>)
    requires 1 <= |payload| <= MAX_PAYLOAD && |fcs| == 2 && DownlinkControl(nwkFc, ext)
    ensures var p := Downlink(c.E, s.ccmKey, s.nonceRx, nwkFc, ext, s.gpd.srcId, counter, payload, fcs);
      && WellFormed(p)
      && exists rx: Buffer :: rx[18..18 + |payload|] == payload && Deliver(c, s, p) == Command(c, s.(rx := rx), 18)
  {
    hide Downlink;
    hide Command;
    var p, n := Downlink(c.E, s.ccmKey, s.nonceRx, nwkFc, ext, s.gpd.srcId, counter, payload, fcs), |payload|;
    DownlinkOpens(c.E, s.ccmKey, s.nonceRx, nwkFc, ext, s.gpd.srcId, counter, payload, fcs, s.rx);
    StaleBytesIrrelevant(s.rx, p);
    var s1 := s.(rx := Received(s.rx, p));
    DecryptedInPlace(c, s1, n);
    var rx := DecryptRx(c, s1).rx;
    assert Deliver(c, s, p) == Command(c, s.(rx := rx), 18);
  }

  // --------------------------------------------------------------- wrong tags

  /** Whether the frame in the receive buffer, a level-3 data frame, opens under the key and nonce held. */
  predicate Authentic(c: Setup, s: Device)
  {
    var b, n := s.rx, NwkEnd(s.rx) - 21;
    0 <= n <= 80 && Open(c.E, s.ccmKey, s.nonceRx, b[8..18], Sealed(b[18..18 + n], b[18 + n..22 + n])).Some?
  }

  /** At level 3 a wrong tag turns the payload into zeros, which are no command. */
  lemma WrongTagIsZeros(c: Setup, s: Device, p: Packet)
    requires var r := Received(s.rx, p);
      Accepts(r, s.gpd.srcId) && Decrypts(r) && !Authentic(c, s.(rx := r)) && AppPayloadSize(r) > 0
    ensures var payload := DeliveredPayload(c, s, p); payload != [] && payload[0] == 0
  {
    StaleBytesIrrelevant(s.rx, p);
    var r := Received(s.rx, p);
    assert HeaderEnd(r) == 18 || HeaderEnd(r) == 24;
    assert Opened(c, s, p)[HeaderEnd(r)] == 0;
  }

  /** The handler ignores the decryption status.  So a secured data frame, not authentic if it is at level 3, changes
      nothing exactly if it is at level 3, or hands over no payload, or no command that the device obeys; at level 2,
      where authenticity is never looked at, that leaves every obeyed command. */
  lemma WrongTagIff(c: Setup, s: Device, p: Packet)
    requires var r := Received(s.rx, p);
      && Accepts(r, s.gpd.srcId) && HasSource(r) && Secured(LevelOf(r))
      && (LevelOf(r) == 3 ==> !Authentic(c, s.(rx := r)))
    ensures var r := Received(s.rx, p);
      SameButRx(s, Deliver(c, s, p))
      <==> LevelOf(r) == 3 || AppPayloadSize(r) == 0 || !Obeyed(r[HeaderEnd(r)])
  {
    hide Deliver;
    ChangesIff(c, s, p);
    StaleBytesIrrelevant(s.rx, p);
    var r := Received(s.rx, p);
    if AppPayloadSize(r) > 0 {
      if LevelOf(r) == 3 {
        WrongTagIsZeros(c, s, p);
      } else {
        assert DeliveredPayload(c, s, p)[0] == r[HeaderEnd(r)];
      }
    }
  }

  /** In particular a level-3 frame with a wrong tag changes nothing, at a short address or a long one. */
  lemma WrongTagComesToNothing(c: Setup, s: Device, p: Packet)
    requires var r := Received(s.rx, p);
      Accepts(r, s.gpd.srcId) && Decrypts(r) && !Authentic(c, s.(rx := r))
    ensures SameButRx(s, Deliver(c, s, p))
  {
    WrongTagIff(c, s, p);
  }

  // ------------------------------------------------------------ key transport

  /** Key wrapping uses one nonce only, and seals the same each time: whenever two requests are built, in whatever
      states, the wrapped key and its tag are the same 20 bytes. */
  lemma WrapIsConstant(c: Setup, s: Device, r: Device)
    requires Kept(c, s) && Kept(c, r)
    ensures CommissioningCommand(c, WrapKey(s))[4..24] == CommissioningCommand(c, WrapKey(r))[4..24]
  {
    WrapNonce(c, s);
    WrapNonce(c, r);
  }

  lemma WrapNonce(c: Setup, s: Device)
    requires Kept(c, s)
    ensures var w := Seal(c.E, LINK_KEY, TxNonce(c.srcId, c.srcId), Le4(c.srcId), c.key);
      CommissioningCommand(c, WrapKey(s))[4..24] == w.cipher + w.tag
  {
    assert WrapKey(s).nonceTx == TxNonce(c.srcId, c.srcId);
  }

  /** The key part of a commissioning reply: absent, in the clear, or wrapped under a counter of the sink's. */
  datatype ReplyKey = NoKey | ClearKey(key: Block) | WrappedKey(key: Block, counter: uint32)

  datatype ReplyFields = ReplyFields(panId: Option<(byte, byte)>, key: ReplyKey, level: Level, keyType: byte)

  /** The reply the Green Power specification lays out, behind its command id. */
  function EncodeReply(c: Setup, srcId: uint32, f: ReplyFields): seq<byte>
    requires f.keyType < 8
  {
    [(if f.panId.Some? then 1 else 0) + (if f.key.NoKey? then 0 else 2) + (if f.key.WrappedKey? then 4 else 0)
     + 8 * f.level + 32 * f.keyType]
    + (match f.panId case None => [] case Some(id) => [id.0, id.1])
    + EncodeKey(c, srcId, f.key)
  }

  function EncodeKey(c: Setup, srcId: uint32, k: ReplyKey): seq<byte>
  {
    match k
    case NoKey => []
    case ClearKey(key) => key
    case WrappedKey(key, counter) =>
      var w := Seal(c.E, LINK_KEY, RxNonce(srcId, counter), Le4(srcId), key);
      w.cipher + w.tag + Le4(counter)
  }

  lemma LowBits(a: nat, b: nat, d: nat, h: nat)
    requires a < 2 && b < 2 && d < 2 && h < 32
    ensures var o := a + 2 * b + 4 * d + 8 * h;
      o < 0x100 && (Bit(o, 0) <==> a == 1) && (Bit(o, 1) <==> b == 1) && (Bit(o, 2) <==> d == 1) && o / 8 == h
  {
    var o := a + 2 * b + 4 * d + 8 * h;
    assert o / 2 == b + 2 * (d + 2 * h);
    assert o / 4 == d + 2 * h;
  }

  /** The five fields of the options byte, read back by the handler's masks and shifts. */
  lemma OptionBits(b0: bool, b1: bool, b2: bool, level: Level, keyType: byte)
    requires keyType < 8
    ensures var o := (if b0 then 1 else 0) + (if b1 then 2 else 0) + (if b2 then 4 else 0) + 8 * level + 32 * keyType;
      o < 0x100 && (Bit(o, 0) <==> b0) && (Bit(o, 1) <==> b1) && (Bit(o, 2) <==> b2)
      && o / 8 % 4 == level && o / 32 == keyType
  {
    hide Bit;
    LowBits(if b0 then 1 else 0, if b1 then 1 else 0, if b2 then 1 else 0, level + 4 * keyType);
  }

  /** Where the fields of an encoded reply stand. */
  lemma ReplyLayout(c: Setup, s: Device, i: nat, f: ReplyFields)
    requires f.keyType < 8 && i < 100 && EncodeReply(c, s.gpd.srcId, f) <= s.rx[i..]
    ensures var o, k, body := s.rx[i], KeyPosition(s, i), EncodeKey(c, s.gpd.srcId, f.key);
      && (Bit(o, 1) <==> !f.key.NoKey?) && (Bit(o, 2) <==> f.key.WrappedKey?)
      && o / 8 % 4 == f.level && o / 32 == f.keyType
      && k + |body| <= 128 && s.rx[k..k + |body|] == body
  {
    var e := EncodeReply(c, s.gpd.srcId, f);
    OptionBits(f.panId.Some?, !f.key.NoKey?, f.key.WrappedKey?, f.level, f.keyType);
    assert s.rx[i] == e[0];
    hide Bit;
    var k, body := KeyPosition(s, i), EncodeKey(c, s.gpd.srcId, f.key);
    assert e[k - i..] == body;
    TakeAt(s.rx, i, e, k - i);
  }

  /** Every encoded reply is processed to exactly what it encodes: key, type and level, and the key is loaded. */
  lemma ReplyDecoded(c: Setup, s: Device, i: nat, f: ReplyFields)
    requires f.keyType < 8 && i < 100
    requires s.nonceRx[..8] == [0, 0, 0, 0] + Le4(s.gpd.srcId) && s.nonceRx[12..] == [0x05]
    requires EncodeReply(c, s.gpd.srcId, f) <= s.rx[i..]
    ensures var r, key := ProcessReply(c, s, i), if f.key.NoKey? then s.gpd.key else f.key.key;
      && !ReplyFails(c, s, i)
      && r.gpd == s.gpd.(key := key, level := f.level, keyType := f.keyType) && r.ccmKey == key
  {
    hide EncodeReply;
    hide Bit;
    hide KeyPosition;
    ReplyLayout(c, s, i, f);
    var k := KeyPosition(s, i);
    if f.key.WrappedKey? {
      WrappedReply(c, s, k, f.key.key, f.key.counter);
      UnwrapLeaves(c, s, k);
      hide Unwrap;
      hide Unwraps;
    }
  }

  lemma UnwrapLeaves(c: Setup, s: Device, k: nat)
    requires k + 24 <= 128
    ensures var u := Unwrap(c, s, k); u.gpd == s.gpd.(key := u.gpd.key)
  {
  }

  lemma {:induction false} ReplySize(c: Setup, srcId: uint32, f: ReplyFields)
    requires f.keyType < 8
    ensures 1 <= |EncodeReply(c, srcId, f)| <= 27
  {
  }

  /** From the air to the record: an encoded reply in a maintenance frame leaves the device with exactly the key,
      type and level it encodes, that key loaded, and the reply noted. */
  lemma ReplyDelivered(c: Setup, s: Device, t: TxFields, f: ReplyFields, fcs: seq<byte>)
    requires f.keyType < 8 && |fcs| == 2 && Kept(c, s)
    ensures var payload := [CMD_COMMISSIONING_REPLY] + EncodeReply(c, s.gpd.srcId, f);
      |payload| <= MAX_PAYLOAD && WellFormed(MaintMpdu(t, payload) + fcs) &&
      var r, key := Deliver(c, s, MaintMpdu(t, payload) + fcs), if f.key.NoKey? then s.gpd.key else f.key.key;
      r.gpd == s.gpd.(key := key, level := f.level, keyType := f.keyType, state := REPLY_RECEIVED) && r.ccmKey == key
  {
    hide EncodeReply;
    hide ProcessReply;
    var e := EncodeReply(c, s.gpd.srcId, f);
    ReplySize(c, s.gpd.srcId, f);
    var payload := [CMD_COMMISSIONING_REPLY] + e;
    var p := MaintMpdu(t, payload) + fcs;
    OwnMaintenanceFrameAccepted(t, payload, fcs, s.rx, s.gpd.srcId);
    var s1 := s.(rx := Received(s.rx, p));
    assert s1.rx[9] == s1.rx[9..9 + |payload|][0] == CMD_COMMISSIONING_REPLY;
    assert Deliver(c, s, p) == Reply(c, s1, 10);
    SubSlice(s1.rx, 9, |payload|, 1, |payload|);
    assert payload[1..] == e;
    assert s1.rx[10..][..|e|] == s1.rx[10..10 + |e|];
    ReplyDecoded(c, s1, 10, f);
  }

  lemma TakeAt(rx: Buffer, i: nat, e: seq<byte>, j: nat)
    requires i < 128 && e <= rx[i..] && j <= |e|
    ensures i + |e| <= 128 && rx[i + j..i + |e|] == e[j..]
  {
    assert rx[i..][..|e|] == e;
    assert rx[i + j..i + |e|] == rx[i..][..|e|][j..];
  }

  lemma WrappedReply(c: Setup, s: Device, k: nat, key: Block, counter: uint32)
    requires k + 24 <= 128
    requires s.nonceRx[..8] == [0, 0, 0, 0] + Le4(s.gpd.srcId) && s.nonceRx[12..] == [0x05]
    requires s.rx[k..k + 24] == EncodeKey(c, s.gpd.srcId, WrappedKey(key, counter))
    ensures Unwraps(c, s, k) && Unwrap(c, s, k).gpd.key == key
  {
    var srcId := s.gpd.srcId;
    var body := s.rx[k..k + 24];
    var w := Seal(c.E, LINK_KEY, RxNonce(srcId, counter), Le4(srcId), key);
    SubSlice(s.rx, k, 24, 0, 16);
    SubSlice(s.rx, k, 24, 16, 20);
    SubSlice(s.rx, k, 24, 20, 24);
    assert body[0..16] == w.cipher && body[16..20] == w.tag && body[20..24] == Le4(counter);
    assert s.nonceRx[..8] + s.rx[k + 20..k + 24] + s.nonceRx[12..] == RxNonce(srcId, counter);
    OpenSealed(c.E, LINK_KEY, RxNonce(srcId, counter), Le4(srcId), key);
  }
}
