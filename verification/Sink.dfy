/** What a sink reads off the frames and commands of the device, by their own bits. */
module Sink {
  import opened Bytes
  import opened Ccm
  import opened Frames
  import opened Gpd
  import opened Effects
  import opened Runs
  import opened Counters
  import opened CounterTheorems

  /** A frame read back; a data frame of level 0 or 1 carries no counter but its low byte. */
  datatype Reading =
    | Data(auto: bool, rxAfterTx: bool, individual: bool, level: Level, srcId: uint32, counter: Option<uint32>,
           sequence: byte, payload: seq<byte>)
    | Maintenance(auto: bool, sequence: byte, payload: seq<byte>)

  /** MAC frame control of a short broadcast without source, protocol version 3, and a length byte that counts the rest
      and a check sequence. */
  predicate Envelope(f: seq<byte>)
  {
    |f| >= 9 && f[0] == |f| + 1 && f[1..3] == [0x01, 0x08] && f[4..8] == [0xFF, 0xFF, 0xFF, 0xFF]
    && f[8] / 4 % 16 == 3
  }

  /** The sink's reading of a frame, under the key it has for the device: control bits first, then source id and
      counter, of which it makes the nonce, and then the payload, authenticated or opened. */
  function Read(E: Cipher, key: Block, f: seq<byte>): Option<Reading>
  {
    if !Envelope(f) || |f| > 124 then None
    else if f[8] % 4 == 1 && !Bit(f[8], 7) then Some(Maintenance(Bit(f[8], 6), f[3], f[9..]))
    else if f[8] % 4 != 0 then None
    else if !Bit(f[8], 7) then
      if |f| < 13 then None
      else Some(Data(Bit(f[8], 6), false, false, 0, Word(f[9..13]), None, f[3], f[13..]))
    else if |f| < 14 || f[9] % 8 != 0 || Bit(f[9], 7) then None
    else ReadExtended(E, key, f)
  }

  function ReadExtended(E: Cipher, key: Block, f: seq<byte>): Option<Reading>
    requires 14 <= |f| <= 124
  {
    var auto, rxAfterTx, individual, level := Bit(f[8], 6), Bit(f[9], 6), Bit(f[9], 5), f[9] / 8 % 4;
    var srcId := Word(f[10..14]);
    if level < 2 then Some(Data(auto, rxAfterTx, individual, level, srcId, None, f[3], f[14..]))
    else if |f| < 22 then None
    else
      var counter, end := Word(f[14..18]), |f| - 4;
      var nonce := Le4(srcId) + Le4(srcId) + Le4(counter) + [0x05];
      var payload := if level == 2 then
                       if TagOf(E, key, nonce, f[8..end], []) == f[end..] then Some(f[18..end]) else None
                     else Open(E, key, nonce, f[8..18], Sealed(f[18..end], f[end..]));
      if payload.None? then None
      else Some(Data(auto, rxAfterTx, individual, level, srcId, Some(counter), f[3], payload.value))
  }

  /** What the device meant by a frame. */
  function Meant(t: TxFields, frameType: byte, payload: seq<byte>): Reading
    requires 1 <= |payload|
  {
    if frameType == MAINTENANCE then Maintenance(t.autoCommissioning, t.counter % 0x100, payload)
    else Data(t.autoCommissioning, t.rxAfterTx && payload[0] != 0xE2, t.level > 0 && Bit(t.keyType, 2), t.level,
              t.srcId, if t.level >= 2 then Some(t.counter) else None, t.counter % 0x100, payload)
  }

  lemma MaintenanceRead(E: Cipher, key: Block, t: TxFields, payload: seq<byte>)
    requires 1 <= |payload| <= MAX_PAYLOAD
    ensures Read(E, key, MaintMpdu(t, payload)) == Some(Meant(t, MAINTENANCE, payload))
  {
    var f := MaintMpdu(t, payload);
    assert f[8] == NwkFc(MAINTENANCE, t.autoCommissioning, false) && f[9..] == payload;
    assert f[1..3] == [0x01, 0x08] && f[4..8] == [0xFF, 0xFF, 0xFF, 0xFF];
  }

  /** The bytes of a data frame in front of its payload. */
  lemma DataBytes(t: TxFields, payload: seq<byte>)
    requires 1 <= |payload| <= MAX_PAYLOAD
    ensures var m, x := DataMpdu(t, payload), if Extended(t) then 1 else 0;
      && |m| == 13 + x + TagSize(t.level) + |payload| && m[0] == |m| + 1 + TagSize(t.level)
      && m[1..3] == [0x01, 0x08] && m[3] == t.counter % 0x100 && m[4..8] == [0xFF, 0xFF, 0xFF, 0xFF]
      && m[8] == NwkFc(DATA, t.autoCommissioning, Extended(t))
      && (Extended(t) ==> m[9] == ExtNwkFc(t.(rxAfterTx := t.rxAfterTx && payload[0] != CMD_SUCCESS)))
      && m[9 + x..13 + x] == Le4(t.srcId) && (Secured(t.level) ==> m[14..18] == Le4(t.counter))
      && m[13 + x + TagSize(t.level)..] == payload
  {
  }

  /** The bits of the two control bytes. */
  lemma ControlBits(t: TxFields, extended: bool)
    ensures var fc, ext := NwkFc(DATA, t.autoCommissioning, extended), ExtNwkFc(t);
      && fc % 4 == 0 && fc / 4 % 16 == 3 && (Bit(fc, 6) <==> t.autoCommissioning) && (Bit(fc, 7) <==> extended)
      && ext % 8 == 0 && ext / 8 % 4 == t.level && !Bit(ext, 7) && (Bit(ext, 6) <==> t.rxAfterTx)
      && (Bit(ext, 5) <==> t.level > 0 && Bit(t.keyType, 2))
  {
  }

  /** The frame in the order in which it is read. */
  lemma FrameBytes(E: Cipher, key: Block, nonce: Nonce, t: TxFields, payload: seq<byte>)
    requires 1 <= |payload| <= MAX_PAYLOAD
    ensures var f, m := Frame(E, key, nonce, t, DATA, payload), DataMpdu(t, payload);
      && |f| == |m| + TagSize(t.level) && (t.level < 2 ==> f == m) && (t.level >= 2 ==> f[..18] == m[..18])
      && (t.level == 2 ==> f[18..|m|] == payload && f[|m|..] == TagOf(E, key, nonce, f[8..|m|], []))
      && (t.level == 3 ==> Sealed(f[18..|m|], f[|m|..]) == Seal(E, key, nonce, f[8..18], payload))
  {
    var f, m := Frame(E, key, nonce, t, DATA, payload), DataMpdu(t, payload);
    DataBytes(t, payload);
    if t.level == 2 {
      assert f[..|m|] == m;
      assert f[8..|m|] == m[8..] && f[18..|m|] == m[18..];
    } else if t.level == 3 {
      var s := Seal(E, key, nonce, m[8..18], payload);
      assert f == m[..18] + s.cipher + s.tag;
      assert f[8..18] == m[8..18] && f[18..|m|] == s.cipher && f[|m|..] == s.tag;
    }
  }

  lemma DataReadSecured(E: Cipher, key: Block, t: TxFields, payload: seq<byte>)
    requires 1 <= |payload| <= MAX_PAYLOAD && Secured(t.level)
    ensures Read(E, key, Frame(E, key, TxNonce(t.srcId, t.counter), t, DATA, payload))
      == Some(Meant(t, DATA, payload))
  {
    hide TagOf;
    hide Seal;
    hide Open;
    var shown := t.(rxAfterTx := t.rxAfterTx && payload[0] != CMD_SUCCESS);
    var nonce := TxNonce(t.srcId, t.counter);
    var f, m := Frame(E, key, nonce, t, DATA, payload), DataMpdu(t, payload);
    DataBytes(t, payload);
    FrameBytes(E, key, nonce, t, payload);
    SameFront(f, m);
    ControlBits(shown, true);
    WordOfLe4(t.srcId);
    WordOfLe4(t.counter);
    OpenSealed(E, key, nonce, f[8..18], payload);
  }

  lemma SameFront(f: seq<byte>, m: seq<byte>)
    requires |f| >= 18 && |m| >= 18 && f[..18] == m[..18]
    ensures f[1..3] == m[1..3] && f[4..8] == m[4..8] && f[10..14] == m[10..14] && f[14..18] == m[14..18]
    ensures f[0] == m[0] && f[3] == m[3] && f[8] == m[8] && f[9] == m[9]
  {
    assert forall i :: 0 <= i < 18 ==> f[i] == f[..18][i] && m[i] == m[..18][i];
  }

  lemma DataReadPlain(E: Cipher, key: Block, t: TxFields, payload: seq<byte>)
    requires 1 <= |payload| <= MAX_PAYLOAD && !Secured(t.level)
    ensures Read(E, key, DataMpdu(t, payload)) == Some(Meant(t, DATA, payload))
  {
    var shown := t.(rxAfterTx := t.rxAfterTx && payload[0] != CMD_SUCCESS);
    DataBytes(t, payload);
    ControlBits(shown, Extended(t));
    WordOfLe4(t.srcId);
  }

  /** Every frame that the device builds reads back, at a sink with its key, as what it meant by it: at every level, for
      every payload and record, with the counter and source id of the frame itself making the nonce. */
  lemma FrameReads(E: Cipher, key: Block, t: TxFields, frameType: byte, payload: seq<byte>)
    requires 1 <= |payload| <= MAX_PAYLOAD && frameType <= MAINTENANCE
    ensures Read(E, key, Frame(E, key, TxNonce(t.srcId, t.counter), t, frameType, payload))
      == Some(Meant(t, frameType, payload))
  {
    if frameType == MAINTENANCE {
      MaintenanceRead(E, key, t, payload);
    } else if Secured(t.level) {
      DataReadSecured(E, key, t, payload);
    } else {
      DataReadPlain(E, key, t, payload);
    }
  }

  /** Over every run, power losses included: each frame on the air reads back, at a sink with the key recorded for it,
      as the payload and the counter sent; the unbuilt frames of unknown types are empty. */
  lemma EveryRunReads(c: Setup, air: seq<Window>, steps: seq<Step>)
    ensures var log := Run(c, Factory(c, air), steps).log;
      forall i :: 0 <= i < |log| && log[i].Sent? ==>
        && LastBuilt(log[..i]).Some? && LastBuilt(log[..i]).value.Built?
        && ReadsAs(Read(c.E, LastBuilt(log[..i]).value.key, log[i].frame), c.srcId, log[i])
  {
    hide Run;
    hide Boot;
    hide Read;
    hide IsFrameOf;
    var log := Run(c, Factory(c, air), steps).log;
    KeepFactory(c, air);
    KeepRun(c, Factory(c, air), steps);
    forall i | 0 <= i < |log| && log[i].Sent?
      ensures LastBuilt(log[..i]).Some? && LastBuilt(log[..i]).value.Built?
              && ReadsAs(Read(c.E, LastBuilt(log[..i]).value.key, log[i].frame), c.srcId, log[i])
    {
      OrderedAt(c, log, i);
      SentReads(c, LastBuilt(log[..i]).value, log[i]);
    }
  }

  /** The reading of a frame sent: its payload, and of a data frame the source id and what it shows of the counter. */
  predicate ReadsAs(r: Option<Reading>, srcId: uint32, e: Event)
    requires e.Sent?
  {
    match r
    case None => e.frame == []
    case Some(Maintenance(_, sequence, payload)) => payload == e.payload && sequence == e.counter % 0x100
    case Some(Data(_, _, _, level, source, counter, sequence, payload)) =>
      payload == e.payload && source == srcId && sequence == e.counter % 0x100
      && counter == if level >= 2 then Some(e.counter) else None
  }

  lemma SentReads(c: Setup, b: Event, e: Event)
    requires e.Sent? && IsFrameOf(c, b, e.counter, e.payload, e.frame)
    ensures b.Built? && ReadsAs(Read(c.E, b.key, e.frame), c.srcId, e)
  {
    hide Read;
    hide Frame;
    var t: TxFields, frameType: byte :| FramedAs(c, b, e.counter, e.frame, t, frameType);
    if frameType <= MAINTENANCE {
      FrameReads(c.E, b.key, t, frameType, e.payload);
    } else {
      NoFrame(c.E, b.key, b.nonce, t, frameType, e.payload);
    }
  }

  lemma NoFrame(E: Cipher, key: Block, nonce: Nonce, t: TxFields, frameType: byte, payload: seq<byte>)
    requires 1 <= |payload| <= MAX_PAYLOAD && frameType > MAINTENANCE
    ensures Frame(E, key, nonce, t, frameType, payload) == [] && Read(E, key, []) == None
  {
  }

  /** A send puts nothing on the air but its payload of at most 59 bytes, as often as asked, as a frame that reads back
      with the record's settings and the next counter. */
  lemma SendReads(c: Setup, s: Device, frameType: byte, payload: seq<byte>, repeats: nat)
    requires Kept(c, s) && 1 <= |payload| && frameType <= MAINTENANCE
    ensures var r := Send(c, s, frameType, payload, repeats);
      var carried := if |payload| <= 59 then payload else payload[..59];
      forall i :: |s.log| <= i < |r.log| && r.log[i].Sent? ==>
        && r.log[i].payload == carried
        && Read(c.E, s.ccmKey, r.log[i].frame)
           == Some(Meant(s.gpd.Tx().(counter := (s.gpd.counter + 1) % 0x1_0000_0000), frameType, carried))
  {
    hide Send;
    hide Read;
    var s1, carried := Prepare(s, frameType, payload), Capped(payload);
    SendTransmits(c, s, frameType, payload, repeats);
    KeepAdvance(c, s);
    assert FrameFor(c, s1, frameType, payload)
        == Frame(c.E, s.ccmKey, TxNonce(s1.gpd.srcId, s1.gpd.counter), s1.gpd.Tx(), frameType, carried);
    FrameReads(c.E, s.ccmKey, s1.gpd.Tx(), frameType, carried);
  }

  // --------------------------------------------------------------- commands

  /** A Commissioning command read back; the wrapped key and the counter are there if the bits say so. */
  datatype Request = Request(
    deviceId: byte, sequenceCapable: bool, rxCapable: bool, appInfo: bool, panIdRequest: bool, keyRequest: bool,
    fixedLocation: bool, level: Level, keyType: byte, key: Option<Sealed>, counter: Option<uint32>)

  /** The sink's reading of it, by its own option bits: all of the command, or nothing. */
  function ReadRequest(cmd: seq<byte>): Option<Request>
  {
    if |cmd| < 4 || cmd[0] != 0xE0 || !Bit(cmd[2], 7) then None
    else
      var o, e := cmd[2], cmd[3];
      var keyEnd := if Bit(e, 5) then 24 else 4;
      var end := keyEnd + if Bit(e, 7) then 4 else 0;
      if |cmd| != end || (Bit(e, 5) && !Bit(e, 6)) then None
      else
        Some(Request(cmd[1], Bit(o, 0), Bit(o, 1), Bit(o, 2), Bit(o, 4), Bit(o, 5), Bit(o, 6), e % 4, e / 4 % 8,
                     if Bit(e, 5) then Some(Sealed(cmd[4..20], cmd[20..24])) else None,
                     if Bit(e, 7) then Some(Word(cmd[keyEnd..end])) else None))
  }

  lemma RequestBits(keyPresent: bool, keyType: byte)
    requires keyType < 8
    ensures var o := if 1 <= keyType <= 3 then 0xC3 else 0xE3;
      && Bit(o, 0) && Bit(o, 1) && !Bit(o, 2) && !Bit(o, 4) && (Bit(o, 5) <==> !(1 <= keyType <= 3)) && Bit(o, 6)
      && Bit(o, 7)
    ensures var e := 0xC3 + 4 * keyType + if keyPresent then 0x20 else 0;
      && e < 0x100 && e % 4 == 3 && e / 4 % 8 == keyType && (Bit(e, 5) <==> keyPresent) && Bit(e, 6) && Bit(e, 7)
  {
  }

  /** The command announces what it carries, for any key, key type and counter, with a key or without: a sink that
      goes by its bits finds the wrapped key and the counter, and a request for the shared key unless the type of an
      already shared one is given. */
  lemma RequestReads(c: Setup, s: Device, keyPresent: bool, keyType: byte, key: Block, counter: uint32)
    requires keyType < 8
    ensures ReadRequest(BuildCommand(c, s, keyPresent, keyType, key, counter))
      == Some(Request(2, true, true, false, false, !(1 <= keyType <= 3), true, 3, keyType,
                      if keyPresent then Some(Seal(c.E, s.ccmKey, s.nonceTx, Le4(s.gpd.srcId), key)) else None,
                      Some(counter)))
  {
    hide Bit;
    hide Word;
    var w := Seal(c.E, s.ccmKey, s.nonceTx, Le4(s.gpd.srcId), key);
    var cmd := BuildCommand(c, s, keyPresent, keyType, key, counter);
    RequestBits(keyPresent, keyType);
    WordOfLe4(counter);
    if keyPresent {
      assert cmd[4..20] == w.cipher && cmd[20..24] == w.tag && cmd[24..28] == Le4(counter);
    } else {
      assert cmd[4..8] == Le4(counter);
    }
  }

  /** What the request wraps, a sink that knows the link key unwraps: it goes by the option bits, and finds the
      configured key and the counter. */
  lemma SinkLearnsKey(c: Setup, s: Device)
    requires s.nonceTx[..8] == Le4(s.gpd.srcId) + Le4(s.gpd.srcId) && s.nonceTx[12..] == [0x05]
    ensures var request := ReadRequest(CommissioningCommand(c, WrapKey(s)));
      && request.Some? && request.value.key.Some? && request.value.level == 3 && request.value.keyType == 4
      && Open(c.E, LINK_KEY, Le4(s.gpd.srcId) + Le4(s.gpd.srcId) + Le4(s.gpd.srcId) + [0x05], Le4(s.gpd.srcId),
              request.value.key.value) == Some(c.key)
      && request.value.counter == Some(s.gpd.counter)
  {
    hide Seal;
    hide Open;
    var s1 := WrapKey(s);
    RequestReads(c, s1, true, KEY_TYPE_OOB, c.key, s.gpd.counter);
    assert s1.nonceTx == TxNonce(s.gpd.srcId, s.gpd.srcId);
    OpenSealed(c.E, LINK_KEY, s1.nonceTx, Le4(s.gpd.srcId), c.key);
  }

  /** A Commissioning Request on the air, in full: each frame that sends it reads back as an unsecured data frame whose
      command gives a sink that knows the link key the configured key and the counter before the send. */
  lemma RequestOnAir(c: Setup, s: Device)
    requires Kept(c, s)
    ensures var r, n := SendRequest(c, s), |s.log| + 1;
      n <= |r.log| && forall i :: n <= i < |r.log| && r.log[i].Sent? ==>
        var reading, request := Read(c.E, LINK_KEY, r.log[i].frame), ReadRequest(r.log[i].payload);
        && reading.Some? && reading.value.Data? && reading.value.level == 0 && reading.value.srcId == c.srcId
        && reading.value.payload == r.log[i].payload
        && request.Some? && request.value.key.Some? && request.value.counter == Some(s.gpd.counter)
        && Open(c.E, LINK_KEY, Le4(c.srcId) + Le4(c.srcId) + Le4(c.srcId) + [0x05], Le4(c.srcId),
                request.value.key.value) == Some(c.key)
  {
    hide Send;
    hide Read;
    hide ReadRequest;
    hide CommissioningCommand;
    hide Open;
    var s0 := s.(gpd := s.gpd.(level := 0));
    var s1 := WrapKey(s0);
    KeepWrap(c, s);
    SinkLearnsKey(c, s0);
    var cmd := CommissioningCommand(c, s1);
    SendReads(c, s1, DATA, cmd, 1);
    SendTransmits(c, s1, DATA, cmd, 1);
  }

  /** A channel request names the next two channels in four bits each, for any two of the sixteen. */
  lemma ChannelsRead(next: byte, secondNext: byte)
    requires 11 <= next <= 26 && 11 <= secondNext <= 26
    ensures var p := ChannelRequestPayload(next, secondNext);
      |p| == 2 && p[0] == 0xE3 && p[1] % 16 + 11 == next && p[1] / 16 + 11 == secondNext
  {
  }
}
