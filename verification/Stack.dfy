/** The device as the C code keeps it: one record, static buffers, flash, and methods that change them in place. */
module Stack {
  import opened Bytes
  import opened Ccm
  import opened Frames
  import opened MbedCcm
  import G = Gpd
  import Nwk

  class Node {
    const c: G.Setup

    // EmberGpd_t
    var srcId: uint32
    var autoCommissioning: bool
    var rxAfterTx: bool
    var currentCommReq: byte
    var securityLevel: Level
    var securityKeyType: byte
    const securityKey: array<byte>
    var frameCounter: uint32
    var channel: byte
    var gpdState: byte

    // the other statics
    const gpdNvData: array<byte>
    const nonceTx: array<byte>
    const nonceRx: array<byte>
    const txMpdu: array<byte>
    const rxMpdu: array<byte>
    var ccmKey: Block
    var chReqOnRxChannel: bool

    // what lies outside: flash, the air, and the history
    var flash: Option<G.Image>
    var air: seq<G.Window>
    ghost var log: seq<G.Event>

    ghost function Repr(): set<object>
    {
      {this, securityKey, gpdNvData, nonceTx, nonceRx, txMpdu, rxMpdu}
    }

    ghost predicate Valid()
      reads Repr()
    {
      && securityKey.Length == 16 && gpdNvData.Length == 32 && gpdNvData[20] < 4
      && nonceTx.Length == 13 && nonceRx.Length == 13 && txMpdu.Length == 128 && rxMpdu.Length == 128
      && nonceTx != nonceRx && txMpdu != rxMpdu
    }

    ghost function Record(): G.Record
      reads Repr()
      requires Valid()
    {
      G.Record(srcId, autoCommissioning, rxAfterTx, currentCommReq, securityLevel, securityKeyType, securityKey[..],
               frameCounter, channel, gpdState)
    }

    /** The device value this object stands for.  txMpdu is scratch: every send rewrites what it uses of it. */
    ghost function View(): G.Device
      reads Repr()
      requires Valid()
    {
      G.Device(Record(), gpdNvData[..], flash, nonceTx[..], nonceRx[..], ccmKey, chReqOnRxChannel, rxMpdu[..], air, log)
    }

    /** Power-up: RAM cleared, flash as it was left. */
    constructor (c: G.Setup, flash: Option<G.Image>, air: seq<G.Window>, ghost log: seq<G.Event>)
      ensures Valid() && fresh(Repr()) && this.c == c
      ensures View() == G.Cold(flash, air, log)
    {
      this.c, this.flash, this.air, this.log := c, flash, air, log;
      srcId, autoCommissioning, rxAfterTx, currentCommReq := 0, false, false, 0;
      securityLevel, securityKeyType, frameCounter, channel, gpdState := 0, 0, 0, 0, 0;
      ccmKey, chReqOnRxChannel := Zeros(16), false;
      securityKey := new byte[16](_ => 0);
      gpdNvData := new byte[32](_ => 0);
      nonceTx := new byte[13](_ => 0);
      nonceRx := new byte[13](_ => 0);
      txMpdu := new byte[128](_ => 0);
      rxMpdu := new byte[128](_ => 0);
      new;
      assert securityKey[..] == Zeros(16) && gpdNvData[..] == Zeros(32) && nonceTx[..] == Zeros(13);
      assert nonceRx[..] == Zeros(13) && rxMpdu[..] == Zeros(128);
    }

    // ------------------------------------------------- gpd-nv.c, gpd-callbacks.c

    /** `emberGpdAfPluginNvSaveAndLoadCallback`, store: the save succeeds or the device halts. */
    method NvStore(ghost forCounter: bool)
      requires Valid()
      modifies this`flash, this`log
      ensures Valid() && View() == G.Save(old(View()), forCounter)
    {
      flash := Some(gpdNvData[..]);
      log := log + [G.Saved(gpdNvData[..], forCounter)];
    }

    method SaveFrameCounterToNV()
      requires Valid()
      modifies gpdNvData, this`flash, this`log
      ensures Valid() && View() == G.SaveCounter(old(View()))
    {
      ghost var nv := gpdNvData[..];
      CopyBytes(gpdNvData, 0, Le4(frameCounter));
      assert gpdNvData[..] == Le4(frameCounter) + nv[4..];
      assert gpdNvData[20] == gpdNvData[..][20] == nv[20];
      NvStore(true);
    }

    method CopyToShadow()
      requires Valid()
      modifies gpdNvData
      ensures Valid() && View() == old(View()).(nv := G.Shadow(old(View()).gpd, old(View()).nv))
    {
      hide Le4;
      ghost var nv := gpdNvData[..];
      Copy4Bytes(gpdNvData, 0, frameCounter);
      CopyBytes(gpdNvData, 4, securityKey[..]);
      ghost var head := Le4(frameCounter) + securityKey[..];
      assert gpdNvData[..] == head + nv[20..];
      gpdNvData[20] := securityLevel;
      gpdNvData[21] := securityKeyType;
      gpdNvData[22] := channel;
      gpdNvData[23] := gpdState;
      FourBytes(head, nv[20..], securityLevel, securityKeyType, channel, gpdState);
      assert gpdNvData[..] == head + [securityLevel, securityKeyType, channel, gpdState] + nv[24..];
    }

    static lemma FourBytes(head: seq<byte>, tail: seq<byte>, a: byte, b: byte, d: byte, e: byte)
      requires |head| == 20 && |tail| >= 4
      ensures (head + tail)[20 := a][21 := b][22 := d][23 := e] == head + [a, b, d, e] + tail[4..]
    {
    }

    method StoreSecDataToNV()
      requires Valid()
      modifies gpdNvData, this`flash, this`log
      ensures Valid() && View() == G.Store(old(View()))
    {
      CopyToShadow();
      NvStore(false);
    }

    /** `emberGpdAfPluginNvSaveAndLoadCallback`, load: a fresh chip is written with the shadow of the defaults. */
    method NvLoad()
      requires Valid()
      modifies gpdNvData, this`flash, this`log
      ensures Valid()
      ensures var s := old(View());
              View() == if s.flash.None? then G.Save(s.(nv := G.Shadow(s.gpd, s.nv)), false)
                        else s.(nv := s.flash.value)
    {
      match flash
      case None =>
        CopyToShadow();
        NvStore(false);
      case Some(image) =>
        CopyBytes(gpdNvData, 0, image);
        assert gpdNvData[..] == image;
        assert gpdNvData[20] == gpdNvData[..][20];
    }

    method LoadSecDataFromNV()
      requires Valid()
      modifies gpdNvData, securityKey, this`flash, this`log, this`frameCounter, this`securityLevel,
        this`securityKeyType, this`channel, this`gpdState
      ensures Valid() && View() == G.Load(old(View()))
    {
      NvLoad();
      frameCounter := Word(gpdNvData[..4]);
      CopyBytes(securityKey, 0, gpdNvData[4..20]);
      assert securityKey[..] == gpdNvData[4..20];
      securityLevel := gpdNvData[20];
      securityKeyType := gpdNvData[21];
      channel := gpdNvData[22];
      gpdState := gpdNvData[23];
    }

    // ---------------------------------------------------------- gpd-apps-node.c

    /** `memcpy(gpd->securityKey, ...)` */
    method SetKey(key: Block)
      requires Valid()
      modifies securityKey
      ensures Valid() && View() == old(View()).(gpd := old(View()).gpd.(key := key))
    {
      CopyBytes(securityKey, 0, key);
      assert securityKey[..] == key;
    }

    method LoadGpdDefaultConfiguration()
      requires Valid()
      modifies this, securityKey
      ensures Valid()
      ensures var s := old(View()); View() == s.(gpd := G.Defaults(c, s.gpd))
    {
      LoadDefaultRadio();
      LoadDefaultSecurity();
    }

    method LoadDefaultRadio()
      requires Valid()
      modifies this`srcId, this`channel, this`rxAfterTx
      ensures Valid()
      ensures var s := old(View());
              View() == s.(gpd := s.gpd.(srcId := c.srcId, channel := c.channels[0], rxAfterTx := true))
    {
      srcId := c.srcId;
      channel := c.channels[0];
      rxAfterTx := true;
    }

    method LoadDefaultSecurity()
      requires Valid()
      modifies securityKey, this`securityKeyType, this`securityLevel, this`gpdState
      ensures Valid()
      ensures var s := old(View());
              View() == s.(gpd := s.gpd.(key := c.key, keyType := G.KEY_TYPE_OOB, level := 3,
                                         state := G.NOT_COMMISSIONED))
    {
      SetKey(c.key);
      securityKeyType := G.KEY_TYPE_OOB;
      securityLevel := 3;
      gpdState := G.NOT_COMMISSIONED;
    }

    method Init()
      requires Valid()
      modifies Repr()
      ensures Valid() && View() == G.Init(c, old(View()))
    {
      LoadGpdDefaultConfiguration();
      LoadSecDataFromNV();
      SecurityInit();
      log := log + [G.Booted(securityKey[..])];
    }

    // ------------------------------------------------------------ gpd-security.c

    method SetFcIntoTxNonce(value: uint32)
      requires Valid()
      modifies nonceTx
      ensures Valid()
      ensures var s := old(View()); View() == s.(nonceTx := s.nonceTx[..8] + Le4(value) + s.nonceTx[12..])
    {
      Copy4Bytes(nonceTx, 8, value);
    }

    method SetFcIntoRxNonce(value: uint32)
      requires Valid()
      modifies nonceRx
      ensures Valid()
      ensures var s := old(View()); View() == s.(nonceRx := s.nonceRx[..8] + Le4(value) + s.nonceRx[12..])
    {
      Copy4Bytes(nonceRx, 8, value);
    }

    method SecurityInit()
      requires Valid()
      modifies nonceTx, nonceRx, this`ccmKey
      ensures Valid() && View() == G.SecurityInit(old(View()))
    {
      SetUpNonce(nonceTx, srcId, srcId, frameCounter);
      SetUpNonce(nonceRx, 0, srcId, frameCounter);
      ccmKey := securityKey[..];
    }

    /** One nonce from zeros: source and destination words, counter, security control. */
    static method SetUpNonce(nonce: array<byte>, source: uint32, destination: uint32, counter: uint32)
      requires nonce.Length == 13
      modifies nonce
      ensures nonce[..] == Le4(source) + Le4(destination) + Le4(counter) + [0x05]
    {
      for i := 0 to 13
        invariant nonce[..i] == Zeros(i)
      {
        nonce[i] := 0;
      }
      Copy4Bytes(nonce, 0, source);
      Copy4Bytes(nonce, 4, destination);
      nonce[12] := 0x05;
      Copy4Bytes(nonce, 8, counter);
    }

    method SecurityEncryptKey(oobKey: Block) returns (secured: seq<byte>, mic: Tag)
      requires Valid()
      modifies nonceTx, this`ccmKey, this`log
      ensures Valid() && View() == G.WrapKey(old(View()))
      ensures Sealed(secured, mic) == Seal(c.E, ccmKey, nonceTx[..], Le4(srcId), oobKey)
    {
      var data := Le4(srcId) + oobKey;
      SetFcIntoTxNonce(srcId);
      ccmKey := G.LINK_KEY;
      assert data[..4] == Le4(srcId) && data[4..] == oobKey;
      secured, mic := EncryptAndTag(c.E, ccmKey, nonceTx[..], data[..4], data[4..]);
      log := log + [G.Wrapped(G.LINK_KEY, nonceTx[..])];
    }

    /** Unwraps the 24 bytes at i of the receive buffer straight into the device's key. */
    method SecurityDecryptKey(i: nat) returns (ok: bool)
      requires Valid() && i + 24 <= 128
      modifies nonceRx, securityKey, this`ccmKey
      ensures Valid() && View() == G.Unwrap(c, old(View()), i)
      ensures ok <==> G.Unwraps(c, old(View()), i)
    {
      hide Word;
      hide Le4;
      hide Open;
      hide OpenOrZeros;
      ghost var s := View();
      Le4OfWord(rxMpdu[i + 20..i + 24]);
      SetFcIntoRxNonce(Word(rxMpdu[i + 20..i + 24]));
      ccmKey := G.LINK_KEY;
      var key;
      ok, key := AuthDecrypt(c.E, ccmKey, nonceRx[..], Le4(srcId), rxMpdu[i..i + 16], rxMpdu[i + 16..i + 20]);
      CopyBytes(securityKey, 0, key);
      assert securityKey[..] == key;
      assert s.rx[i..i + 16] == rxMpdu[i..i + 16] && s.rx[i + 16..i + 20] == rxMpdu[i + 16..i + 20];
      assert s.rx[i + 20..i + 24] == rxMpdu[i + 20..i + 24];
    }

    // -------------------------------------------------------- receiving a frame

    method SetState(state: byte)
      requires Valid()
      modifies this`gpdState
      ensures Valid() && View() == G.SetState(old(View()), state)
    {
      gpdState := state;
    }

    method ChannelConfigCallback(channel: byte)
      requires Valid()
      modifies this`channel, this`gpdState, this`log
      ensures Valid() && View() == G.Configure(old(View()), channel)
    {
      this.channel := channel;
      SetState(G.CHANNEL_RECEIVED);
      log := log + [G.Configured(channel)];
    }

    /** `emberGpdProcessCommissioningReply` on the reply at i of the receive buffer. */
    method ProcessCommissioningReply(i: nat) returns (ok: bool)
      requires Valid() && i < 100
      modifies securityKey, nonceRx, this`ccmKey, this`securityKeyType, this`securityLevel
      ensures Valid() && View() == G.ProcessReply(c, old(View()), i)
      ensures ok <==> !G.ReplyFails(c, old(View()), i)
    {
      var index := i;
      var options := rxMpdu[index];
      index := index + 1;
      if Bit(options, 0) {
        index := index + 2;
      }
      if Bit(options, 1) {
        if Bit(options, 2) {
          var unwrapped := SecurityDecryptKey(index);
          if !unwrapped {
            return false;
          }
        } else {
          CopyNewKey(index);
        }
      }
      TakeSecurity(options);
      return true;
    }

    /** The copy loop over a key that arrives in the clear. */
    method CopyNewKey(index: nat)
      requires Valid() && index + 16 <= 128
      modifies securityKey
      ensures Valid()
      ensures var s := old(View()); View() == s.(gpd := s.gpd.(key := s.rx[index..index + 16]))
    {
      for k := 0 to 16
        invariant securityKey[..k] == rxMpdu[index..index + k]
      {
        securityKey[k] := rxMpdu[index + k];
      }
      assert securityKey[..] == rxMpdu[index..index + 16] == rxMpdu[..][index..index + 16];
    }

    /** The tail of reply processing: type and level from the options, and the key into CCM. */
    method TakeSecurity(options: byte)
      requires Valid()
      modifies this`ccmKey, this`securityKeyType, this`securityLevel
      ensures Valid() && View() == G.Accept(old(View()), old(securityKey[..]), options)
    {
      securityKeyType := options / 32;
      securityLevel := options / 8 % 4;
      ccmKey := securityKey[..];
    }

    method CommissioningReplyCallback(i: nat)
      requires Valid() && i < 100
      modifies securityKey, nonceRx, this`ccmKey, this`securityKeyType, this`securityLevel, this`gpdState, this`log
      ensures Valid() && View() == G.Reply(c, old(View()), i)
    {
      ghost var state := gpdState;
      var ok := ProcessCommissioningReply(i);
      if ok {
        SetState(G.REPLY_RECEIVED);
      }
      log := log + [G.Replied(ok, state, securityKey[..])];
    }

    /** `emberGpdIncomingCommandHandler` on the command at i of the receive buffer. */
    method IncomingCommandHandler(i: nat)
      requires Valid() && i < 99
      modifies securityKey, nonceRx, this`ccmKey, this`securityKeyType, this`securityLevel, this`channel, this`gpdState,
        this`log
      ensures Valid() && View() == G.Command(c, old(View()), i)
    {
      var gpdCommand := rxMpdu[i];
      if gpdCommand == CMD_CHANNEL_CONFIG {
        ChannelConfigCallback(rxMpdu[i + 1] % 16 + 11);
      } else if gpdCommand == CMD_COMMISSIONING_REPLY {
        CommissioningReplyCallback(i + 1);
      }
    }

    /** `emberDecryptRxBuffer` on the receive buffer, under the key and nonce held. */
    method DecryptRxBuffer()
      requires Valid() && InBounds(rxMpdu[..]) && 0 <= NwkEnd(rxMpdu[..]) - 21 <= 80
      modifies rxMpdu
      ensures Valid() && View() == G.DecryptRx(c, old(View()))
    {
      var total: int := rxMpdu[0];
      var ok := Nwk.DecryptRxBuffer(c.E, ccmKey, nonceRx[..], rxMpdu, AUTH_START, total - 2 - 21, AUTH_LENGTH);
    }

    method IncomingMessageHandler()
      requires Valid() && InBounds(rxMpdu[..])
      modifies rxMpdu, securityKey, nonceRx, this`ccmKey, this`securityKeyType, this`securityLevel, this`channel,
        this`gpdState, this`log
      ensures Valid() && View() == G.Incoming(c, old(View()))
    {
      hide G.Command;
      hide G.DecryptRx;
      var r := Nwk.WalkHeader(rxMpdu, srcId);
      if r.Parsed? {
        if r.decrypt {
          DecryptRxBuffer();
        }
        if r.payloadLength > 0 {
          IncomingCommandHandler(r.finger);
        }
      }
    }

    /** The radio callback: the frame is read into the static buffer and handled. */
    method PacketReceived(p: Packet)
      requires Valid()
      modifies rxMpdu, securityKey, nonceRx, this`ccmKey, this`securityKeyType, this`securityLevel, this`channel,
        this`gpdState, this`log
      ensures Valid() && View() == G.Deliver(c, old(View()), p)
    {
      ghost var b := rxMpdu[..];
      StaleBytesIrrelevant(b, p);
      CopyBytes(rxMpdu, 0, p);
      assert rxMpdu[..] == Received(b, p);
      IncomingMessageHandler();
    }

    /** `emberAfGpdScheduledReceive`: whatever the air holds for this window is received on the current channel. */
    method ScheduledReceive()
      requires Valid()
      modifies rxMpdu, securityKey, nonceRx, this`ccmKey, this`securityKeyType, this`securityLevel, this`channel,
        this`gpdState, this`log, this`air
      ensures Valid() && View() == G.Listen(c, old(View()))
    {
      log := log + [G.Listened(channel)];
      if air != [] {
        var w := air[0];
        air := air[1..];
        ghost var start := View();
        for k := 0 to |w|
          invariant Valid() && G.DeliverAll(c, View(), w[k..]) == G.DeliverAll(c, start, w)
        {
          assert w[k..][1..] == w[k + 1..];
          PacketReceived(w[k]);
        }
      }
    }

    // --------------------------------------------------------- sending a frame

    /** The repeat loop of a send: transmit, then listen if the device is to receive after it. */
    method TransmitLoop(payload: seq<byte>, length: nat, repeatNumber: nat)
      requires Valid() && length <= 128
      modifies rxMpdu, securityKey, nonceRx, this`ccmKey, this`securityKeyType, this`securityLevel, this`channel,
        this`gpdState, this`log, this`air
      ensures Valid()
      ensures View() == G.Repeat(c, old(View()), payload, txMpdu[..length],
                                 if repeatNumber == 0 then 1 else repeatNumber)
    {
      ghost var start := View();
      ghost var n := if repeatNumber == 0 then 1 else repeatNumber;
      ghost var frame := txMpdu[..length];
      var repeat := 0;
      while true
        invariant Valid() && repeat < n && txMpdu[..length] == frame
        invariant G.Repeat(c, View(), payload, frame, n - repeat) == G.Repeat(c, start, payload, frame, n)
        decreases n - repeat
      {
        TransmitOnce(payload, length);
        repeat := repeat + 1;
        if !(repeat < repeatNumber) {
          break;
        }
      }
    }

    method TransmitOnce(ghost payload: seq<byte>, length: nat)
      requires Valid() && length <= 128
      modifies rxMpdu, securityKey, nonceRx, this`ccmKey, this`securityKeyType, this`securityLevel, this`channel,
        this`gpdState, this`log, this`air
      ensures Valid() && View() == G.Transmit(c, old(View()), payload, txMpdu[..length])
    {
      log := log + [G.Sent(channel, frameCounter, payload, txMpdu[..length])];
      if rxAfterTx {
        ScheduledReceive();
      }
    }

    method AdvanceCounter()
      requires Valid()
      modifies gpdNvData, nonceTx, nonceRx, this`frameCounter, this`flash, this`log
      ensures Valid() && View() == G.Advance(old(View()))
    {
      frameCounter := (frameCounter + 1) % 0x1_0000_0000;
      SaveFrameCounterToNV();
      SetFcIntoTxNonce(frameCounter);
      SetFcIntoRxNonce(frameCounter);
    }

    /** `emberAfGpdfSend` */
    method GpdfSend(frameType: byte, payload: seq<byte>, repeatNumber: nat)
      requires Valid() && 1 <= |payload|
      modifies Repr()
      ensures Valid() && View() == G.Send(c, old(View()), frameType, payload, repeatNumber)
    {
      var capped := if |payload| < MAX_PAYLOAD then payload else payload[..MAX_PAYLOAD];
      assert capped == G.Capped(payload);
      AdvanceCounter();
      var t := TxFields(srcId, autoCommissioning, rxAfterTx, securityLevel, securityKeyType, frameCounter);
      var length := Nwk.BuildOutgoingPdu(c.E, ccmKey, nonceTx[..], frameType, txMpdu, capped, t);
      log := log + [G.Built(ccmKey, nonceTx[..], if frameType == DATA then securityLevel else 0, frameCounter, capped)];
      TransmitLoop(capped, length, repeatNumber);
    }

    // ---------------------------------------------------- gpd-apps-commission.c

    /** The command, the device id and the two option bytes. */
    static method PutOptions(cmd: array<byte>, keyPresent: bool, keyType: byte) returns (index: nat)
      requires cmd.Length == 40 && keyType < 8
      modifies cmd
      ensures index == 4
      ensures cmd[..index] == [CMD_COMMISSIONING, G.DEVICE_ID, if 1 <= keyType <= 3 then 0xC3 else 0xE3,
                               0xC3 + 4 * keyType + if keyPresent then 0x20 else 0]
    {
      index := Nwk.Put(cmd, 0, CMD_COMMISSIONING);
      index := Nwk.Put(cmd, index, G.DEVICE_ID);
      // MAC sequence number, reception, fixed location, extended options, and the key request unless shared
      var options: byte := 0x01 + 0x02 + 0x40 + 0x80;
      if keyType == 1 || keyType == 2 || keyType == 3 {
      } else {
        options := options + 0x20;
      }
      index := Nwk.Put(cmd, index, options);
      // security level and key type; key present, key encrypted, counter present
      var extended: byte := 3 + keyType * 4 + (if keyPresent then 0x20 else 0) + 0x40 + 0x80;
      index := Nwk.Put(cmd, index, extended);
    }

    static method PutKey(cmd: array<byte>, index: nat, secured: Block, mic: Tag) returns (next: nat)
      requires cmd.Length == 40 && index == 4
      modifies cmd
      ensures next == 24 && cmd[..next] == old(cmd[..index]) + secured + mic
    {
      ghost var before := cmd[..];
      CopyBytes(cmd, index, secured + mic);
      next := 24;
      assert cmd[..24] == cmd[..][..24] == before[..4] + (secured + mic);
    }

    /** `gpdBuildCommissioningCommand`: a key that is present is wrapped on the way. */
    method BuildCommissioningCommand(keyPresent: bool, keyType: byte, key: Block, counter: uint32, cmd: array<byte>)
        returns (length: nat)
      requires Valid() && cmd.Length == 40 && cmd !in Repr() && keyType < 8
      modifies nonceTx, this`ccmKey, this`log, cmd
      ensures Valid() && View() == if keyPresent then G.WrapKey(old(View())) else old(View())
      ensures length <= 40 && cmd[..length] == G.BuildCommand(c, View(), keyPresent, keyType, key, counter)
    {
      hide Le4;
      hide Seal;
      hide G.WrapKey;
      var index := PutOptions(cmd, keyPresent, keyType);
      if keyPresent {
        var protectedKey, mic := SecurityEncryptKey(key);
        index := PutKey(cmd, index, protectedKey, mic);
      }
      length := Nwk.Put4Bytes(cmd, index, counter);
    }

    method CommissioningCommand() returns (command: seq<byte>)
      requires Valid()
      modifies nonceTx, this`ccmKey, this`log
      ensures Valid() && View() == G.WrapKey(old(View()))
      ensures command == G.CommissioningCommand(c, View())
    {
      var cmd := new byte[40];
      var commandLength := BuildCommissioningCommand(true, G.KEY_TYPE_OOB, c.key, frameCounter, cmd);
      command := cmd[..commandLength];
    }

    method SetLevel(level: Level)
      requires Valid()
      modifies this`securityLevel
      ensures Valid()
      ensures var s := old(View()); View() == s.(gpd := s.gpd.(level := level))
    {
      securityLevel := level;
    }

    method SendCommissioningRequest()
      requires Valid()
      modifies Repr()
      ensures Valid() && View() == G.SendRequest(c, old(View()))
    {
      SetLevel(0);
      var command := CommissioningCommand();
      GpdfSend(DATA, command, 1);
    }

    method SendSuccess()
      requires Valid()
      modifies Repr()
      ensures Valid() && View() == G.Send(c, old(View()), DATA, [CMD_SUCCESS], 1)
    {
      GpdfSend(DATA, [CMD_SUCCESS], 1);
    }

    /** A channel change, then `sendChannelRequest` with any two next channels. */
    method SendChannelRequest(channel: byte, nextChannel: byte, secondNextChannel: byte)
      requires Valid()
      modifies Repr()
      ensures Valid()
      ensures var s := old(View());
        View() == G.Send(c, s.(gpd := s.gpd.(channel := channel)), MAINTENANCE,
                         G.ChannelRequestPayload(nextChannel, secondNextChannel), 1)
    {
      this.channel := channel;
      var next: int, secondNext: int := nextChannel, secondNextChannel;
      var command: seq<byte> := [CMD_CHANNEL_REQUEST, ((next - 11) + 16 * (secondNext - 11)) % 0x100];
      GpdfSend(MAINTENANCE, command, 1);
    }

    /** `gpdCommissioningChannelRequestStateOnAllChannel`, over a channel array and a number of rounds. */
    method ChannelRequestOnAllChannels(channels: seq<byte>, rounds: nat)
      requires Valid()
      modifies Repr()
      ensures Valid() && View() == G.RequestOnAllChannels(c, old(View()), channels, rounds)
    {
      hide G.Send;
      SetRxMode(false, true);
      ghost var start := View();
      for j := 0 to rounds
        invariant Valid()
        invariant G.Sweep(c, View(), channels, rounds - j) == G.Sweep(c, start, channels, rounds)
      {
        ghost var round := View();
        for i := 0 to |channels|
          invariant Valid()
          invariant G.SweepOnce(c, View(), channels[i..]) == G.SweepOnce(c, round, channels)
        {
          assert channels[i..][1..] == channels[i + 1..];
          SendChannelRequest(channels[i], G.RX_CHANNEL, G.RX_CHANNEL);
        }
      }
    }

    /** `gpdCommissioningChannelRequestOnRxChannel`, for n requests. */
    method ChannelRequestOnRxChannel(n: nat)
      requires Valid()
      modifies Repr()
      ensures Valid() && View() == G.RequestOnRxChannel(c, old(View()), n)
    {
      hide G.Send;
      SetRxMode(true, false);
      ghost var start := View();
      for i := 0 to n
        invariant Valid() && G.RxRequests(c, View(), n - i) == G.RxRequests(c, start, n)
      {
        if gpdState == G.CHANNEL_RECEIVED {
          return;
        }
        SendChannelRequest(G.RX_CHANNEL, G.RX_CHANNEL, G.RX_CHANNEL);
      }
      SetState(G.CHANNEL_REQUEST);
    }

    method SetRxMode(receive: bool, auto: bool)
      requires Valid()
      modifies this`rxAfterTx, this`autoCommissioning
      ensures Valid()
      ensures var s := old(View()); View() == s.(gpd := s.gpd.(rxAfterTx := receive, autoCommissioning := auto))
    {
      rxAfterTx := receive;
      autoCommissioning := auto;
    }

    method ClearSecurity()
      requires Valid()
      modifies this`securityLevel, this`securityKeyType
      ensures Valid()
      ensures var s := old(View()); View() == s.(gpd := s.gpd.(level := 0, keyType := G.KEY_TYPE_NONE))
    {
      securityLevel := 0;
      securityKeyType := G.KEY_TYPE_NONE;
    }

    method SetPhase(onRxChannel: bool)
      requires Valid()
      modifies this`chReqOnRxChannel
      ensures Valid() && View() == old(View()).(onRxChannel := onRxChannel)
    {
      chReqOnRxChannel := onRxChannel;
    }

    method ChannelRequestStateMachine()
      requires Valid()
      modifies Repr()
      ensures Valid() && View() == G.ChannelRequestStep(c, old(View()))
    {
      ClearSecurity();
      if !chReqOnRxChannel {
        ChannelRequestOnAllChannels(c.channels, c.sweepRounds);
        SetPhase(true);
      } else {
        ChannelRequestOnRxChannel(c.rxRequests);
        SetPhase(false);
      }
    }

    method BidirCommissioningStateMachine()
      requires Valid()
      modifies Repr()
      ensures Valid() && View() == G.RequestStep(c, old(View()))
    {
      hide G.SendRequest;
      if currentCommReq < c.maxRequests {
        if gpdState == G.REPLY_RECEIVED {
          currentCommReq := 0;
          return;
        }
        SendCommissioningRequest();
        currentCommReq := (currentCommReq as int + 1) % 0x100;
        return;
      }
      gpdState := G.NOT_COMMISSIONED;
    }

    method Commission()
      requires Valid()
      modifies Repr()
      ensures Valid() && View() == G.Commission(c, old(View()))
    {
      if gpdState == G.CHANNEL_REQUEST {
        ChannelRequestStateMachine();
      } else if gpdState == G.CHANNEL_RECEIVED {
        BidirCommissioningStateMachine();
      } else if gpdState == G.REPLY_RECEIVED {
        SetState(G.SUCCESS_REQUEST);
        SendSuccess();
      }
    }

    method DeCommission()
      requires Valid()
      modifies Repr()
      ensures Valid() && View() == G.Decommission(c, old(View()))
    {
      GpdfSend(DATA, [CMD_DECOMMISSIONING], 1);
      LoadGpdDefaultConfiguration();
      log := log + [G.Defaulted(c.key)];
      StoreSecDataToNV();
    }

    // ------------------------------------------------------------- rtos_gpd.c

    /** The state switch of `GpdTask`, then the store that ends every pass. */
    method TaskPass()
      requires Valid()
      modifies Repr()
      ensures Valid() && View() == G.Tick(c, old(View()))
    {
      if G.CHANNEL_REQUEST <= gpdState <= G.REPLY_RECEIVED {
        Commission();
      } else if gpdState == G.SUCCESS_REQUEST {
        SetState(G.OPERATIONAL);
      } else if gpdState == G.COMMAND_REQUEST {
        GpdfSend(DATA, [CMD_TOGGLE], 1);
        SetState(G.OPERATIONAL);
      } else if gpdState == G.INVALID {
        DeCommission();
      }
      StoreSecDataToNV();
    }
  }
}
