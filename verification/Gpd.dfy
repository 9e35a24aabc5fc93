/** The Green Power Device as a value, and each of its operations as a function on that value. */
module Gpd {
  import opened Bytes
  import opened Ccm
  import opened Frames
  import opened MbedCcm

  // ------------------------------------------------------------------ state

  const NOT_COMMISSIONED: byte := 0
  const CHANNEL_REQUEST: byte := 1
  const CHANNEL_RECEIVED: byte := 2
  const REPLY_RECEIVED: byte := 4
  const SUCCESS_REQUEST: byte := 5
  const OPERATIONAL: byte := 6
  const COMMAND_REQUEST: byte := 7
  const INVALID: byte := 9

  const KEY_TYPE_NONE: byte := 0
  const KEY_TYPE_OOB: byte := 4

  const RX_CHANNEL: byte := 11
  const DEVICE_ID: byte := 2

  /** The pre-configured link key, "ZigBeeAlliance09". */
  const LINK_KEY: Block := [
    0x5a, 0x69, 0x67, 0x42, 0x65, 0x65, 0x41, 0x6c, 0x6c, 0x69, 0x61, 0x6e, 0x63, 0x65, 0x30, 0x39]

  /** The block cipher and the compile-time configuration: identity, key, channels, and how often to ask. */
  datatype Configuration = Configuration(
    E: Cipher, srcId: uint32, key: Block, channels: seq<byte>, sweepRounds: nat, rxRequests: nat, maxRequests: byte)

  type Setup = c: Configuration | c.channels != []
    witness Configuration((key, b) => b, 1, Zeros(16), [11], 4, 4, 4)

  /** The configuration the repository ships. */
  function Shipped(E: Cipher): Setup
  {
    Configuration(E, 305419896,
      [0x00, 0x11, 0x22, 0x33, 0x44, 0x55, 0x66, 0x77, 0x88, 0x99, 0xaa, 0xbb, 0xcc, 0xdd, 0xee, 0xff],
      [11, 15, 20, 24, 25, 12, 13, 14, 16, 17, 18, 19, 21, 22, 23, 26], 4, 4, 4)
  }

  datatype Record = Record(
    srcId: uint32, autoCommissioning: bool, rxAfterTx: bool, currentCommReq: byte, level: Level, keyType: byte,
    key: Block, counter: uint32, channel: byte, state: byte)
  {
    function Tx(): TxFields
    {
      TxFields(srcId, autoCommissioning, rxAfterTx, level, keyType, counter)
    }
  }

  /** The 32 bytes kept in flash: counter, key, level, key type, channel, state, reserved. */
  type Image = s: seq<byte> | |s| == 32 && s[20] < 4 witness seq(32, _ => 0)

  /** What happens to the device or by it that its fields do not remember. */
  datatype Event =
    | Saved(image: Image, forCounter: bool)
    | Wrapped(key: Block, nonce: Nonce)
    | Built(key: Block, nonce: Nonce, level: Level, counter: uint32, payload: seq<byte>)
    | Sent(channel: byte, counter: uint32, payload: seq<byte>, frame: seq<byte>)
    | Listened(channel: byte)
    | Configured(channel: byte)
    | Replied(ok: bool, state: byte, key: Block)
    | Booted(key: Block)
    | Defaulted(key: Block)

  /** The frames that arrive in one receive window. */
  type Window = seq<Packet>

  /** air holds what the coming windows will deliver; log is the history, oldest event first. */
  datatype Device = Device(
    gpd: Record, nv: Image, flash: Option<Image>, nonceTx: Nonce, nonceRx: Nonce, ccmKey: Block,
    onRxChannel: bool, rx: Buffer, air: seq<Window>, log: seq<Event>)

  function Emit(s: Device, e: Event): Device
  {
    s.(log := s.log + [e])
  }

  function SetState(s: Device, state: byte): Device
  {
    s.(gpd := s.gpd.(state := state))
  }

  // ------------------------------------------------------------ non-volatile

  function ImageCounter(i: Image): uint32
  {
    Word(i[..4])
  }

  /** `emberGpdCopyToShadow` */
  function Shadow(g: Record, nv: Image): Image
  {
    Le4(g.counter) + g.key + [g.level, g.keyType, g.channel, g.state] + nv[24..]
  }

  function Save(s: Device, forCounter: bool): Device
  {
    Emit(s.(flash := Some(s.nv)), Saved(s.nv, forCounter))
  }

  /** `emberGpdSaveGpdFrameCounterToNV` */
  function SaveCounter(s: Device): Device
  {
    Save(s.(nv := Le4(s.gpd.counter) + s.nv[4..]), true)
  }

  /** `emberGpdStoreSecDataToNV` */
  function Store(s: Device): Device
  {
    Save(s.(nv := Shadow(s.gpd, s.nv)), false)
  }

  /** The six persisted fields out of the shadow. */
  function Unpack(g: Record, nv: Image): Record
  {
    g.(counter := ImageCounter(nv), key := nv[4..20], level := nv[20], keyType := nv[21], channel := nv[22],
       state := nv[23])
  }

  /** `emberGpdLoadSecDataFromNV` */
  function Load(s: Device): Device
  {
    var loaded := match s.flash
                  case None => Save(s.(nv := Shadow(s.gpd, s.nv)), false)
                  case Some(image) => s.(nv := image);
    loaded.(gpd := Unpack(s.gpd, loaded.nv))
  }

  // -------------------------------------------------------------- power-up

  /** `emberGpdLoadGpdDefaultConfiguration`; the frame counter is left alone. */
  function Defaults(c: Setup, g: Record): Record
  {
    g.(srcId := c.srcId, channel := c.channels[0], rxAfterTx := true, key := c.key, keyType := KEY_TYPE_OOB,
       level := 3, state := NOT_COMMISSIONED)
  }

  function TxNonce(srcId: uint32, counter: uint32): Nonce
  {
    Le4(srcId) + Le4(srcId) + Le4(counter) + [0x05]
  }

  function RxNonce(srcId: uint32, counter: uint32): Nonce
  {
    [0, 0, 0, 0] + Le4(srcId) + Le4(counter) + [0x05]
  }

  /** `emberGpdSecurityInit` */
  function SecurityInit(s: Device): Device
  {
    s.(nonceTx := TxNonce(s.gpd.srcId, s.gpd.counter), nonceRx := RxNonce(s.gpd.srcId, s.gpd.counter),
       ccmKey := s.gpd.key)
  }

  /** RAM as the C runtime leaves it before `main`. */
  function Cold(flash: Option<Image>, air: seq<Window>, log: seq<Event>): Device
  {
    Device(Record(0, false, false, 0, 0, 0, Zeros(16), 0, 0, 0), Zeros(32), flash, Zeros(13), Zeros(13), Zeros(16),
           false, Zeros(128), air, log)
  }

  /** `emberGpdInit` */
  function Init(c: Setup, s: Device): Device
  {
    var r := SecurityInit(Load(s.(gpd := Defaults(c, s.gpd))));
    Emit(r, Booted(r.gpd.key))
  }

  function Boot(c: Setup, flash: Option<Image>, air: seq<Window>, log: seq<Event>): Device
  {
    Init(c, Cold(flash, air, log))
  }

  // -------------------------------------------------------------- receiving

  /** `emberGpdAfPluginCommissioningChannelConfigCallback` */
  function Configure(s: Device, channel: byte): Device
  {
    Emit(s.(gpd := s.gpd.(channel := channel, state := CHANNEL_RECEIVED)), Configured(channel))
  }

  /** `emberGpdSecurityDecryptKey` on the 24 bytes from i: encrypted key, tag, counter.
      The link key stays loaded, and a wrong tag leaves a key of zeros. */
  function Unwrap(c: Setup, s: Device, i: nat): Device
    requires i + 24 <= 128
  {
    var nonce := s.nonceRx[..8] + s.rx[i + 20..i + 24] + s.nonceRx[12..];
    var wrapped := Sealed(s.rx[i..i + 16], s.rx[i + 16..i + 20]);
    s.(nonceRx := nonce, ccmKey := LINK_KEY,
       gpd := s.gpd.(key := OpenOrZeros(c.E, LINK_KEY, nonce, Le4(s.gpd.srcId), wrapped)))
  }

  predicate Unwraps(c: Setup, s: Device, i: nat)
    requires i + 24 <= 128
  {
    var nonce := s.nonceRx[..8] + s.rx[i + 20..i + 24] + s.nonceRx[12..];
    Open(c.E, LINK_KEY, nonce, Le4(s.gpd.srcId), Sealed(s.rx[i..i + 16], s.rx[i + 16..i + 20])).Some?
  }

  function Accept(s: Device, key: Block, options: byte): Device
  {
    s.(gpd := s.gpd.(key := key, keyType := options / 32, level := options / 8 % 4), ccmKey := key)
  }

  /** Where the key starts in a commissioning reply at i: behind the options and, if present, the PAN id. */
  function KeyPosition(s: Device, i: nat): nat
    requires i < 100
  {
    i + if Bit(s.rx[i], 0) then 3 else 1
  }

  /** Whether the reply at i carries a wrapped key that does not unwrap. */
  predicate ReplyFails(c: Setup, s: Device, i: nat)
    requires i < 100
  {
    Bit(s.rx[i], 1) && Bit(s.rx[i], 2) && !Unwraps(c, s, KeyPosition(s, i))
  }

  /** `emberGpdProcessCommissioningReply` on the reply at i of the receive buffer. */
  function ProcessReply(c: Setup, s: Device, i: nat): Device
    requires i < 100
  {
    var options, k := s.rx[i], KeyPosition(s, i);
    if !Bit(options, 1) then
      Accept(s, s.gpd.key, options)
    else if Bit(options, 2) then
      var u := Unwrap(c, s, k);
      if Unwraps(c, s, k) then Accept(u, u.gpd.key, options) else u
    else
      Accept(s, s.rx[k..k + 16], options)
  }

  /** `emberGpdAfPluginCommissioningReplyCallback` */
  function Reply(c: Setup, s: Device, i: nat): Device
    requires i < 100
  {
    var ok := !ReplyFails(c, s, i);
    var s1 := ProcessReply(c, s, i);
    Emit(if ok then SetState(s1, REPLY_RECEIVED) else s1, Replied(ok, s.gpd.state, s1.gpd.key))
  }

  /** `emberGpdIncomingCommandHandler` on the command at i of the receive buffer. */
  function Command(c: Setup, s: Device, i: nat): Device
    requires i < 99
  {
    if s.rx[i] == CMD_CHANNEL_CONFIG then Configure(s, s.rx[i + 1] % 16 + 11)
    else if s.rx[i] == CMD_COMMISSIONING_REPLY then Reply(c, s, i + 1)
    else s
  }

  /** `emberDecryptRxBuffer` on a level-3 frame: the payload is opened in place, or zeroed. */
  function DecryptRx(c: Setup, s: Device): Device
    requires InBounds(s.rx) && NwkEnd(s.rx) >= 21 && NwkEnd(s.rx) - 21 <= 80
  {
    var b, n := s.rx, NwkEnd(s.rx) - 21;
    s.(rx := b[..18] + OpenOrZeros(c.E, s.ccmKey, s.nonceRx, b[8..18], Sealed(b[18..18 + n], b[18 + n..22 + n]))
             + b[18 + n..])
  }

  /** `emberGpdIncomingMessageHandler` on the receive buffer. */
  function Incoming(c: Setup, s: Device): Device
    requires InBounds(s.rx)
  {
    if !Accepts(s.rx, s.gpd.srcId) then s
    else
      var i, n := HeaderEnd(s.rx), AppPayloadSize(s.rx);
      var s1 := if Decrypts(s.rx) then DecryptRx(c, s) else s;
      if n > 0 then Command(c, s1, i) else s1
  }

  function Deliver(c: Setup, s: Device, p: Packet): Device
  {
    StaleBytesIrrelevant(s.rx, p);
    Incoming(c, s.(rx := Received(s.rx, p)))
  }

  function DeliverAll(c: Setup, s: Device, w: Window): Device
    decreases |w|
  {
    if w == [] then s else DeliverAll(c, Deliver(c, s, w[0]), w[1..])
  }

  /** `emberAfGpdScheduledReceive`: a window on the current channel takes the next frames out of the air. */
  function Listen(c: Setup, s: Device): Device
  {
    var s1 := Emit(s, Listened(s.gpd.channel));
    if s.air == [] then s1 else DeliverAll(c, s1.(air := s.air[1..]), s.air[0])
  }

  // ---------------------------------------------------------------- sending

  function Transmit(c: Setup, s: Device, payload: seq<byte>, frame: seq<byte>): Device
  {
    var s1 := Emit(s, Sent(s.gpd.channel, s.gpd.counter, payload, frame));
    if s.gpd.rxAfterTx then Listen(c, s1) else s1
  }

  function Repeat(c: Setup, s: Device, payload: seq<byte>, frame: seq<byte>, n: nat): Device
    decreases n
  {
    if n == 0 then s else Repeat(c, Transmit(c, s, payload, frame), payload, frame, n - 1)
  }

  /** The counter step of a send: count, save, and put the counter into both nonces. */
  function Advance(s: Device): Device
  {
    var counter := (s.gpd.counter + 1) % 0x1_0000_0000;
    var s1 := SaveCounter(s.(gpd := s.gpd.(counter := counter)));
    s1.(nonceTx := s.nonceTx[..8] + Le4(counter) + s.nonceTx[12..],
        nonceRx := s.nonceRx[..8] + Le4(counter) + s.nonceRx[12..])
  }

  function Capped(payload: seq<byte>): seq<byte>
  {
    if |payload| <= MAX_PAYLOAD then payload else payload[..MAX_PAYLOAD]
  }

  /** A send up to its first transmission: the counter step, and the frame built. */
  function Prepare(s: Device, frameType: byte, payload: seq<byte>): Device
  {
    var s1 := Advance(s);
    var level := if frameType == DATA then s1.gpd.level else 0;
    Emit(s1, Built(s1.ccmKey, s1.nonceTx, level, s1.gpd.counter, Capped(payload)))
  }

  /** The frame of a prepared send. */
  function FrameFor(c: Setup, s: Device, frameType: byte, payload: seq<byte>): seq<byte>
    requires 1 <= |payload|
  {
    Frame(c.E, s.ccmKey, s.nonceTx, s.gpd.Tx(), frameType, Capped(payload))
  }

  /** `emberAfGpdfSend` */
  function Send(c: Setup, s: Device, frameType: byte, payload: seq<byte>, repeats: nat): Device
    requires 1 <= |payload|
  {
    var s1 := Prepare(s, frameType, payload);
    Repeat(c, s1, Capped(payload), FrameFor(c, s1, frameType, payload), if repeats == 0 then 1 else repeats)
  }

  // ----------------------------------------------------------- commissioning

  /** `emberGpdSecurityEncryptKey`: leaves the link key loaded and the source id in the Tx nonce. */
  function WrapKey(s: Device): Device
  {
    var nonce := s.nonceTx[..8] + Le4(s.gpd.srcId) + s.nonceTx[12..];
    Emit(s.(nonceTx := nonce, ccmKey := LINK_KEY), Wrapped(LINK_KEY, nonce))
  }

  /** `gpdBuildCommissioningCommand` with the options of the shipped configuration: s has its key and nonce set for
      the wrap, if there is one. */
  function BuildCommand(c: Setup, s: Device, keyPresent: bool, keyType: byte, key: Block, counter: uint32)
    : (cmd: seq<byte>)
    requires keyType < 8
    ensures |cmd| == if keyPresent then 28 else 8
  {
    var w := Seal(c.E, s.ccmKey, s.nonceTx, Le4(s.gpd.srcId), key);
    [CMD_COMMISSIONING, DEVICE_ID, if 1 <= keyType <= 3 then 0xC3 else 0xE3,
     0xC3 + 4 * keyType + if keyPresent then 0x20 else 0]
    + (if keyPresent then w.cipher + w.tag else []) + Le4(counter)
  }

  /** The command a Commissioning Request carries. */
  function CommissioningCommand(c: Setup, s: Device): (cmd: seq<byte>)
    ensures |cmd| == 28
  {
    BuildCommand(c, s, true, KEY_TYPE_OOB, c.key, s.gpd.counter)
  }

  /** `sendCommissioningRequest` */
  function SendRequest(c: Setup, s: Device): Device
  {
    var s1 := WrapKey(s.(gpd := s.gpd.(level := 0)));
    Send(c, s1, DATA, CommissioningCommand(c, s1), 1)
  }

  /** A channel request names the two channels the device listens on next, in four bits each. */
  function ChannelRequestPayload(next: byte, secondNext: byte): seq<byte>
  {
    var n: int, m: int := next, secondNext;
    [CMD_CHANNEL_REQUEST, ((n - 11) + 16 * (m - 11)) % 0x100]
  }

  const CHANNEL_REQUEST_PAYLOAD: seq<byte> := ChannelRequestPayload(RX_CHANNEL, RX_CHANNEL)

  /** A channel change, then `sendChannelRequest` as the request state machine calls it. */
  function SendChannelRequest(c: Setup, s: Device, channel: byte): Device
  {
    Send(c, s.(gpd := s.gpd.(channel := channel)), MAINTENANCE, CHANNEL_REQUEST_PAYLOAD, 1)
  }

  function SweepOnce(c: Setup, s: Device, channels: seq<byte>): Device
    decreases |channels|
  {
    if channels == [] then s else SweepOnce(c, SendChannelRequest(c, s, channels[0]), channels[1..])
  }

  function Sweep(c: Setup, s: Device, channels: seq<byte>, rounds: nat): Device
    decreases rounds
  {
    if rounds == 0 then s else Sweep(c, SweepOnce(c, s, channels), channels, rounds - 1)
  }

  /** `gpdCommissioningChannelRequestStateOnAllChannel` */
  function RequestOnAllChannels(c: Setup, s: Device, channels: seq<byte>, rounds: nat): Device
  {
    Sweep(c, s.(gpd := s.gpd.(rxAfterTx := false, autoCommissioning := true)), channels, rounds)
  }

  /** The loop of the rx-channel phase with n requests left. */
  function RxRequests(c: Setup, s: Device, n: nat): Device
    decreases n
  {
    if n == 0 then SetState(s, CHANNEL_REQUEST)
    else if s.gpd.state == CHANNEL_RECEIVED then s
    else RxRequests(c, SendChannelRequest(c, s, RX_CHANNEL), n - 1)
  }

  /** `gpdCommissioningChannelRequestOnRxChannel` */
  function RequestOnRxChannel(c: Setup, s: Device, n: nat): Device
  {
    RxRequests(c, s.(gpd := s.gpd.(rxAfterTx := true, autoCommissioning := false)), n)
  }

  /** `gpdCommissioningChannelRequestStateMachine` */
  function ChannelRequestStep(c: Setup, s: Device): Device
  {
    var s1 := s.(gpd := s.gpd.(level := 0, keyType := KEY_TYPE_NONE));
    if !s.onRxChannel then RequestOnAllChannels(c, s1, c.channels, c.sweepRounds).(onRxChannel := true)
    else RequestOnRxChannel(c, s1, c.rxRequests).(onRxChannel := false)
  }

  /** `gpdBidirCommissioningStateMachine` */
  function RequestStep(c: Setup, s: Device): Device
  {
    if s.gpd.currentCommReq >= c.maxRequests then SetState(s, NOT_COMMISSIONED)
    else if s.gpd.state == REPLY_RECEIVED then s.(gpd := s.gpd.(currentCommReq := 0))
    else
      var s1 := SendRequest(c, s);
      s1.(gpd := s1.gpd.(currentCommReq := (s1.gpd.currentCommReq as int + 1) % 0x100))
  }

  /** `emberGpdAfPluginCommission` */
  function Commission(c: Setup, s: Device): Device
  {
    if s.gpd.state == CHANNEL_REQUEST then ChannelRequestStep(c, s)
    else if s.gpd.state == CHANNEL_RECEIVED then RequestStep(c, s)
    else if s.gpd.state == REPLY_RECEIVED then Send(c, SetState(s, SUCCESS_REQUEST), DATA, [CMD_SUCCESS], 1)
    else s
  }

  /** `emberGpdAfPluginDeCommission` */
  function Decommission(c: Setup, s: Device): Device
  {
    var s1 := Send(c, s, DATA, [CMD_DECOMMISSIONING], 1);
    Store(Emit(s1.(gpd := Defaults(c, s1.gpd)), Defaulted(c.key)))
  }

  // --------------------------------------------------------------- main loop

  /** The state switch of `GpdTask`. */
  function Update(c: Setup, s: Device): Device
  {
    var state := s.gpd.state;
    if CHANNEL_REQUEST <= state <= REPLY_RECEIVED then Commission(c, s)
    else if state == SUCCESS_REQUEST then SetState(s, OPERATIONAL)
    else if state == COMMAND_REQUEST then SetState(Send(c, s, DATA, [CMD_TOGGLE], 1), OPERATIONAL)
    else if state == INVALID then Decommission(c, s)
    else s
  }

  /** One pass of `GpdTask` over the stack, which always ends by storing. */
  function Tick(c: Setup, s: Device): Device
  {
    Store(Update(c, s))
  }
}
