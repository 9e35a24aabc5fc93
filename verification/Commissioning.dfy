/** Passes of the task: what each sends, what it leaves in flash, and how they commission the device. */
module Commissioning {
  import opened Bytes
  import opened Frames
  import opened Gpd
  import opened Effects
  import opened Runs
  import opened Session
  import opened Counters
  import opened Delivery
  import opened Persistence
  import opened ReceiveWindows
  import Retries

  // --------------------------------------------------- what a pass persists

  /** After a pass from any state a restart, at any time before the next operation, changes none of the six persisted
      fields, and loads the key. */
  lemma PassPersists(c: Setup, s: Device, later: seq<Window>)
    ensures var t := Tick(c, s);
      var r := Boot(c, t.flash, later, t.log);
      && r.gpd.counter == t.gpd.counter && r.gpd.key == r.ccmKey == t.gpd.key && r.gpd.level == t.gpd.level
      && r.gpd.keyType == t.gpd.keyType && r.gpd.channel == t.gpd.channel && r.gpd.state == t.gpd.state
  {
    hide Update;
    var u, cold := Update(c, s), Cold(Tick(c, s).flash, later, Tick(c, s).log);
    UnpackShadow(u.gpd, Defaults(c, cold.gpd), u.nv);
  }

  /** What power-up leaves besides: the configured identity, listening on, a fresh request count and phase, and the
      nonces of the source id and the counter loaded. */
  lemma PowerUp(c: Setup, flash: Option<Image>, air: seq<Window>, log: seq<Event>)
    ensures var r := Boot(c, flash, air, log);
      && r.gpd.srcId == c.srcId && r.gpd.rxAfterTx && !r.gpd.autoCommissioning && r.gpd.currentCommReq == 0
      && !r.onRxChannel && r.air == air
      && r.nonceTx == Le4(c.srcId) + Le4(c.srcId) + Le4(r.gpd.counter) + [0x05]
      && r.nonceRx == [0, 0, 0, 0] + Le4(c.srcId) + Le4(r.gpd.counter) + [0x05]
  {
  }

  // ------------------------------------------------------ what a pass sends

  function SentPayloads(log: seq<Event>): seq<seq<byte>>
  {
    if log == [] then []
    else SentPayloads(log[..|log| - 1]) + if log[|log| - 1].Sent? then [log[|log| - 1].payload] else []
  }

  lemma PayloadAppend(log: seq<Event>, e: Event)
    ensures SentPayloads(log + [e]) == SentPayloads(log) + if e.Sent? then [e.payload] else []
  {
    assert (log + [e])[..|log|] == log;
  }

  lemma {:induction false} UnsentPayloads(log: seq<Event>, n: nat)
    requires n <= |log| && forall i :: n <= i < |log| ==> !log[i].Sent?
    ensures SentPayloads(log) == SentPayloads(log[..n])
    decreases |log|
  {
    if n == |log| {
      assert log[..n] == log;
    } else {
      assert log[..|log| - 1][..n] == log[..n];
      UnsentPayloads(log[..|log| - 1], n);
    }
  }

  lemma SendsOne(c: Setup, s: Device, frameType: byte, payload: seq<byte>)
    requires 1 <= |payload|
    ensures SentPayloads(Send(c, s, frameType, payload, 1).log) == SentPayloads(s.log) + [Capped(payload)]
  {
    hide Prepare;
    hide FrameFor;
    hide Listen;
    SendOnce(c, s, frameType, payload);
    PrepareStill(s, frameType, payload);
    var s1, r := Prepare(s, frameType, payload), Send(c, s, frameType, payload, 1);
    var e := Sent(s1.gpd.channel, s1.gpd.counter, Capped(payload), FrameFor(c, s1, frameType, payload));
    UnsentPayloads(s1.log, |s.log|);
    assert s1.log[..|s.log|] == s.log;
    PayloadAppend(s1.log, e);
    ListenUndisturbed(c, Emit(s1, e));
    UnsentPayloads(r.log, |s1.log| + 1);
    assert r.log[..|s1.log| + 1] == s1.log + [e];
  }

  /** What a pass that does not ask for a channel sends: a Commissioning Request while the count allows one, a Success
      frame for a reply, a toggle on command, a Decommissioning in the invalid state, and otherwise nothing. */
  function Says(c: Setup, s: Device): seq<seq<byte>>
    requires s.gpd.state != CHANNEL_REQUEST
  {
    match s.gpd.state
    case 2 => if s.gpd.currentCommReq < c.maxRequests then [CommissioningCommand(c, WrapKey(s))] else []
    case 4 => [[0xE2]]
    case 7 => [[0x22]]
    case 9 => [[0xE1]]
    case _ => []
  }

  lemma CommandOfRequest(c: Setup, s: Device)
    ensures CommissioningCommand(c, WrapKey(s.(gpd := s.gpd.(level := 0)))) == CommissioningCommand(c, WrapKey(s))
  {
  }

  lemma RequestSays(c: Setup, s: Device)
    requires s.gpd.state == CHANNEL_RECEIVED && s.gpd.currentCommReq < c.maxRequests
    ensures SentPayloads(RequestStep(c, s).log) == SentPayloads(s.log) + [CommissioningCommand(c, WrapKey(s))]
  {
    hide Send;
    hide CommissioningCommand;
    var s0 := s.(gpd := s.gpd.(level := 0));
    var s1 := WrapKey(s0);
    CommandOfRequest(c, s);
    PayloadAppend(s.log, Wrapped(LINK_KEY, s1.nonceTx));
    SendsOne(c, s1, DATA, CommissioningCommand(c, s1));
    assert s1.log == s.log + [Wrapped(LINK_KEY, s1.nonceTx)];
  }

  lemma StoreSays(s: Device)
    ensures SentPayloads(Store(s).log) == SentPayloads(s.log)
  {
    PayloadAppend(s.log, Saved(Store(s).nv, false));
  }

  lemma PassSays(c: Setup, s: Device)
    requires s.gpd.state != CHANNEL_REQUEST
    ensures SentPayloads(Tick(c, s).log) == SentPayloads(s.log) + Says(c, s)
  {
    hide Send;
    hide CommissioningCommand;
    hide RequestStep;
    StoreSays(Update(c, s));
    match s.gpd.state
    case 2 =>
      if s.gpd.currentCommReq < c.maxRequests {
        RequestSays(c, s);
      } else {
        assert RequestStep(c, s) == SetState(s, NOT_COMMISSIONED) by { GivesUp(c, s); }
      }
    case 4 => SendsOne(c, SetState(s, SUCCESS_REQUEST), DATA, [CMD_SUCCESS]);
    case 7 => SendsOne(c, s, DATA, [CMD_TOGGLE]);
    case 9 =>
      SendsOne(c, s, DATA, [CMD_DECOMMISSIONING]);
      var s1 := Send(c, s, DATA, [CMD_DECOMMISSIONING], 1);
      PayloadAppend(s1.log, Defaulted(c.key));
      StoreSays(Emit(s1.(gpd := Defaults(c, s1.gpd)), Defaulted(c.key)));
    case _ =>
  }

  lemma GivesUp(c: Setup, s: Device)
    requires s.gpd.currentCommReq >= c.maxRequests
    ensures RequestStep(c, s) == SetState(s, NOT_COMMISSIONED)
  {
  }

  /** And where it leads.  A request and a Success frame leave the device where the last decisive frame of the window
      puts it, if there is one; a toggle goes on into operation regardless, and a Decommissioning to the defaults; the
      passes that send nothing change no field of the record but the state. */
  lemma PassLeads(c: Setup, s: Device)
    ensures var r := Tick(c, s);
      var heard := ChannelRequests.Heard(r.log, |s.log|, (if s.gpd.state == 4 then 5 else s.gpd.state, s.gpd.channel));
      match s.gpd.state
      case 1 => r.gpd.state == 1 || (s.onRxChannel && r.gpd.state == 2)
      case 2 => if s.gpd.currentCommReq < c.maxRequests then (r.gpd.state, r.gpd.channel) == heard
                else r.gpd == s.gpd.(state := 0)
      case 4 => (r.gpd.state, r.gpd.channel) == heard
      case 5 => r.gpd == s.gpd.(state := 6) && r.ccmKey == s.ccmKey
      case 7 => r.gpd.state == 6
      case 9 => r.gpd == s.gpd.(srcId := c.srcId, channel := c.channels[0], rxAfterTx := true, key := c.key, keyType := 4,
                                level := 3, state := 0, counter := (s.gpd.counter + 1) % 0x1_0000_0000)
      case _ => r.gpd == s.gpd && r.ccmKey == s.ccmKey
  {
    hide Send;
    hide CommissioningCommand;
    hide WrapKey;
    var u, state := Update(c, s), s.gpd.state;
    StoreKeeps(u);
    match state
    case 1 => ChannelStepLeads(c, s);
    case 2 =>
      if s.gpd.currentCommReq < c.maxRequests {
        var s1 := WrapKey(s.(gpd := s.gpd.(level := 0)));
        RequestUpdate(c, s);
        WrapHears(s, (state, s.gpd.channel));
        ChannelRequests.HeardSend(c, s1, DATA, CommissioningCommand(c, s1), |s.log|, (state, s.gpd.channel));
        ChannelRequests.HeardAppend(u, Saved(Store(u).nv, false), |s.log|, (state, s.gpd.channel));
      } else {
        GivesUp(c, s);
      }
    case 9 => SendSettings(c, s, DATA, [CMD_DECOMMISSIONING], 1);
    case 4 =>
      NothingHeard(s, (SUCCESS_REQUEST, s.gpd.channel));
      var start := (SUCCESS_REQUEST, s.gpd.channel);
      ChannelRequests.HeardSend(c, SetState(s, SUCCESS_REQUEST), DATA, [CMD_SUCCESS], |s.log|, start);
      ChannelRequests.HeardAppend(u, Saved(Store(u).nv, false), |s.log|, (SUCCESS_REQUEST, s.gpd.channel));
    case _ =>
  }

  /** A request turns security off, until a reply is processed. */
  lemma RequestUnsecures(c: Setup, s: Device)
    requires s.gpd.state == CHANNEL_RECEIVED && s.gpd.currentCommReq < c.maxRequests
    ensures var r := Tick(c, s);
      (forall i :: |s.log| <= i < |r.log| ==> !Processed(r.log[i])) ==>
        r.gpd.level == 0 && r.gpd.keyType == s.gpd.keyType
  {
    hide Send;
    hide CommissioningCommand;
    hide Update;
    var s1, u := WrapKey(s.(gpd := s.gpd.(level := 0))), Update(c, s);
    RequestUpdate(c, s);
    SendSettles(c, s1, DATA, CommissioningCommand(c, s1));
    StoreKeeps(u);
    assert forall i :: 0 <= i < |u.log| ==> Tick(c, s).log[i] == u.log[i];
  }

  lemma NothingHeard(s: Device, start: (byte, byte))
    ensures ChannelRequests.Heard(s.log, |s.log|, start) == start
  {
  }

  lemma WrapHears(s: Device, start: (byte, byte))
    ensures var s1 := WrapKey(s.(gpd := s.gpd.(level := 0)));
      |s1.log| == |s.log| + 1 && s1.gpd.state == s.gpd.state && s1.gpd.channel == s.gpd.channel
      && ChannelRequests.Heard(s1.log, |s.log|, start) == start && !s1.log[|s.log|].Configured?
  {
    var s1 := WrapKey(s.(gpd := s.gpd.(level := 0)));
    ChannelRequests.HeardAppend(s, Wrapped(LINK_KEY, s1.nonceTx), |s.log|, start);
  }

  /** The phases alternate; only the one on the rx channel can leave the request state. */
  lemma ChannelStepLeads(c: Setup, s: Device)
    requires s.gpd.state == CHANNEL_REQUEST
    ensures var r := ChannelRequestStep(c, s);
      && r.onRxChannel == !s.onRxChannel
      && (r.gpd.state == CHANNEL_REQUEST || (s.onRxChannel && r.gpd.state == CHANNEL_RECEIVED))
  {
    var s1 := s.(gpd := s.gpd.(level := 0, keyType := KEY_TYPE_NONE));
    if !s.onRxChannel {
      ChannelRequests.AllChannelsPhase(c, s1, c.channels, c.sweepRounds);
    } else {
      var s2 := s1.(gpd := s1.gpd.(rxAfterTx := true, autoCommissioning := false));
      var k := ChannelRequests.RxPhaseEnds(c, s2, c.rxRequests);
    }
  }

  // ------------------------------------------------------ channel requests

  /** Every frame sent since n is a channel request that names channel 11 for both next windows, in a maintenance frame
      with the auto-commissioning bit as given. */
  ghost predicate Asking(log: seq<Event>, n: nat, auto: bool)
  {
    forall i :: n <= i < |log| && log[i].Sent? ==>
      && log[i].payload == [0xE3, 0x00] && |log[i].frame| == 11 && log[i].frame[9..] == log[i].payload
      && log[i].frame[8] == if auto then 0x4D else 0x0D
  }

  /** And it was sent on this channel. */
  ghost predicate AskingOnRx(log: seq<Event>, n: nat)
  {
    forall i :: n <= i < |log| && log[i].Sent? ==> log[i].channel == 11
  }

  lemma AskingFrame(c: Setup, s: Device, channel: byte)
    ensures var r := SendChannelRequest(c, s, channel);
      && s.log <= r.log && Asking(r.log, |s.log|, s.gpd.autoCommissioning)
      && r.gpd.autoCommissioning == s.gpd.autoCommissioning && (channel == 11 ==> AskingOnRx(r.log, |s.log|))
  {
    hide Send;
    hide Prepare;
    hide Listen;
    hide FrameFor;
    var s0 := s.(gpd := s.gpd.(channel := channel));
    SendSettings(c, s0, MAINTENANCE, CHANNEL_REQUEST_PAYLOAD, 1);
    PrepareStill(s0, MAINTENANCE, CHANNEL_REQUEST_PAYLOAD);
    var s1 := Prepare(s0, MAINTENANCE, CHANNEL_REQUEST_PAYLOAD);
    var frame := FrameFor(c, s1, MAINTENANCE, CHANNEL_REQUEST_PAYLOAD);
    MaintenanceFrame(c, s1);
    SendOnce(c, s0, MAINTENANCE, CHANNEL_REQUEST_PAYLOAD);
    ListenUndisturbed(c, Emit(s1, Sent(channel, s1.gpd.counter, CHANNEL_REQUEST_PAYLOAD, frame)));
  }

  lemma MaintenanceFrame(c: Setup, s: Device)
    ensures var frame := FrameFor(c, s, MAINTENANCE, CHANNEL_REQUEST_PAYLOAD);
      |frame| == 11 && frame[9..] == [0xE3, 0x00] && frame[8] == if s.gpd.autoCommissioning then 0x4D else 0x0D
  {
    assert FrameFor(c, s, MAINTENANCE, CHANNEL_REQUEST_PAYLOAD) == MaintMpdu(s.gpd.Tx(), CHANNEL_REQUEST_PAYLOAD);
  }

  lemma {:induction false} SweepOnceAsks(c: Setup, s: Device, channels: seq<byte>)
    ensures var r := SweepOnce(c, s, channels);
      && s.log <= r.log && Asking(r.log, |s.log|, s.gpd.autoCommissioning)
      && r.gpd.autoCommissioning == s.gpd.autoCommissioning
    decreases |channels|
  {
    hide SendChannelRequest;
    if channels != [] {
      var s1 := SendChannelRequest(c, s, channels[0]);
      AskingFrame(c, s, channels[0]);
      SweepOnceAsks(c, s1, channels[1..]);
      AskingOn(s1.log, SweepOnce(c, s1, channels[1..]).log, |s.log|, s.gpd.autoCommissioning);
    }
  }

  lemma AskingOn(past: seq<Event>, log: seq<Event>, n: nat, auto: bool)
    requires n <= |past| && past <= log && Asking(past, n, auto) && Asking(log, |past|, auto)
    ensures Asking(log, n, auto)
    ensures AskingOnRx(past, n) && AskingOnRx(log, |past|) ==> AskingOnRx(log, n)
  {
    forall i | n <= i < |past| ensures log[i] == past[i] {}
  }

  lemma AskingQuiet(log: seq<Event>, n: nat, auto: bool, e: Event)
    requires Asking(log, n, auto) && !e.Sent?
    ensures Asking(log + [e], n, auto)
  {
  }

  lemma {:induction false} SweepAsks(c: Setup, s: Device, channels: seq<byte>, rounds: nat)
    ensures var r := Sweep(c, s, channels, rounds);
      && s.log <= r.log && Asking(r.log, |s.log|, s.gpd.autoCommissioning)
      && r.gpd.autoCommissioning == s.gpd.autoCommissioning
    decreases rounds
  {
    if rounds > 0 {
      var s1 := SweepOnce(c, s, channels);
      SweepOnceAsks(c, s, channels);
      SweepAsks(c, s1, channels, rounds - 1);
      AskingOn(s1.log, Sweep(c, s1, channels, rounds - 1).log, |s.log|, s.gpd.autoCommissioning);
    }
  }

  lemma {:induction false} RxRequestsAsk(c: Setup, s: Device, n: nat)
    ensures var r := RxRequests(c, s, n);
      && s.log <= r.log && Asking(r.log, |s.log|, s.gpd.autoCommissioning) && AskingOnRx(r.log, |s.log|)
      && Settled(s, r) && r.gpd.rxAfterTx == s.gpd.rxAfterTx && r.gpd.autoCommissioning == s.gpd.autoCommissioning
    decreases n
  {
    hide SendChannelRequest;
    if n > 0 && s.gpd.state != CHANNEL_RECEIVED {
      var s1 := SendChannelRequest(c, s, RX_CHANNEL);
      var r := RxRequests(c, s1, n - 1);
      AskingFrame(c, s, RX_CHANNEL);
      RequestSettles(c, s);
      RxRequestsAsk(c, s1, n - 1);
      AskingOn(s1.log, r.log, |s.log|, s.gpd.autoCommissioning);
      SettledThen(s, s1, r);
    }
  }

  lemma RequestSettles(c: Setup, s: Device)
    ensures var r := SendChannelRequest(c, s, RX_CHANNEL);
      Settled(s, r) && r.gpd.rxAfterTx == s.gpd.rxAfterTx
  {
    hide Send;
    SendSettings(c, s.(gpd := s.gpd.(channel := RX_CHANNEL)), MAINTENANCE, CHANNEL_REQUEST_PAYLOAD, 1);
    SendSettles(c, s.(gpd := s.gpd.(channel := RX_CHANNEL)), MAINTENANCE, CHANNEL_REQUEST_PAYLOAD);
  }

  lemma StoreKeeps(s: Device)
    ensures var r := Store(s);
      && r.gpd == s.gpd && r.air == s.air && r.onRxChannel == s.onRxChannel && r.ccmKey == s.ccmKey
      && r.log == s.log + [Saved(r.nv, false)]
      && ChannelRequests.SentChannels(r.log) == ChannelRequests.SentChannels(s.log)
      && ChannelRequests.Windows(r.log) == ChannelRequests.Windows(s.log)
  {
    ChannelRequests.Append(s.log, Saved(Store(s).nv, false));
  }

  /** A pass in the sweep phase sends the configured channels round after round, as requests that announce
      auto-commissioning, hears nothing, and hands over to the rx-channel phase. */
  lemma SweepPass(c: Setup, s: Device)
    requires s.gpd.state == CHANNEL_REQUEST && !s.onRxChannel
    ensures var r := Tick(c, s);
      && ChannelRequests.SentChannels(r.log)
         == ChannelRequests.SentChannels(s.log) + ChannelRequests.Times(c.channels, c.sweepRounds)
      && ChannelRequests.Windows(r.log) == ChannelRequests.Windows(s.log) && r.air == s.air
      && s.log <= r.log && Asking(r.log, |s.log|, true)
      && r.gpd.state == CHANNEL_REQUEST && r.onRxChannel && r.gpd.currentCommReq == s.gpd.currentCommReq
      && r.gpd.level == 0 && r.gpd.keyType == 0 && !r.gpd.rxAfterTx && r.gpd.autoCommissioning
  {
    hide Sweep;
    var s1 := s.(gpd := s.gpd.(level := 0, keyType := KEY_TYPE_NONE));
    var s2, u := s1.(gpd := s1.gpd.(rxAfterTx := false, autoCommissioning := true)), Update(c, s);
    ChannelRequests.AllChannelsPhase(c, s1, c.channels, c.sweepRounds);
    SweepAsks(c, s2, c.channels, c.sweepRounds);
    Retries.UnaskedChannelRequestStep(c, s);
    StoreKeeps(u);
    assert u == Sweep(c, s2, c.channels, c.sweepRounds).(onRxChannel := true);
    AskingQuiet(u.log, |s.log|, true, Saved(Tick(c, s).nv, false));
  }

  /** A pass in the other phase asks on channel 11 without that bit, and ends with a channel received exactly if a
      window but the last brought a configuration; unless one brought a reply too, security is off after it. */
  lemma RxPass(c: Setup, s: Device)
    requires s.gpd.state == CHANNEL_REQUEST && s.onRxChannel && c.rxRequests > 0
    ensures var r, s1 := Tick(c, s), s.(gpd := s.gpd.(level := 0, keyType := KEY_TYPE_NONE));
      && s.log <= r.log && Asking(r.log, |s.log|, false) && AskingOnRx(r.log, |s.log|) && !r.onRxChannel
      && r.gpd.rxAfterTx && !r.gpd.autoCommissioning
      && ((forall i :: |s.log| <= i < |r.log| ==> !Processed(r.log[i])) ==> r.gpd.level == 0 && r.gpd.keyType == 0)
      && (r.gpd.state == CHANNEL_RECEIVED <==>
            exists k, channel: byte :: 0 < k < c.rxRequests && ChannelRequests.WindowConfigures(c, s1, k, channel))
      && (r.gpd.state == CHANNEL_RECEIVED ==>
            ChannelRequests.FirstToConfigure(c, s1, c.rxRequests, r.gpd.channel))
  {
    hide RxRequests;
    hide ChannelRequests.WindowConfigures;
    hide ChannelRequests.FirstToConfigure;
    hide Asking;
    var s1 := s.(gpd := s.gpd.(level := 0, keyType := KEY_TYPE_NONE));
    var s2, u := s1.(gpd := s1.gpd.(rxAfterTx := true, autoCommissioning := false)), Update(c, s);
    ChannelRequests.RxPhaseExact(c, s1, c.rxRequests);
    RxRequestsAsk(c, s2, c.rxRequests);
    StoreKeeps(u);
    assert u == RequestOnRxChannel(c, s1, c.rxRequests).(onRxChannel := false);
    AskingQuiet(u.log, |s.log|, false, Saved(Tick(c, s).nv, false));
    assert forall i :: 0 <= i < |u.log| ==> Tick(c, s).log[i] == u.log[i];
  }

  // ------------------------------------------------------- from end to end

  lemma KeptSettings(c: Setup, s: Device, s1: Device)
    requires Kept(c, s) && s1 == s.(gpd := s1.gpd) && s1.gpd.srcId == s.gpd.srcId
    requires s1.gpd.counter == s.gpd.counter && s1.gpd.key == s.gpd.key
    ensures Kept(c, s1)
  {
  }

  /** The rx-channel phase whose first window ends with a Channel Configuration stops there. */
  lemma FirstWindowConfigures(c: Setup, s: Device, t: TxFields, channel: byte, fcs: seq<byte>)
    requires Kept(c, s) && s.gpd.state == CHANNEL_REQUEST && s.onRxChannel && c.rxRequests >= 2
    requires 11 <= channel <= 26 && |fcs| == 2 && EndsWith(s, MaintMpdu(t, [CMD_CHANNEL_CONFIG, channel - 11]) + fcs)
    ensures var r := Tick(c, s);
      && Kept(c, r) && r.gpd.state == CHANNEL_RECEIVED && r.gpd.channel == channel && r.air == s.air[1..]
      && r.gpd.rxAfterTx && !r.onRxChannel && r.gpd.currentCommReq == s.gpd.currentCommReq
  {
    hide Send;
    hide MaintMpdu;
    hide EndsWith;
    hide Kept;
    var g := s.gpd.(level := 0, keyType := KEY_TYPE_NONE, rxAfterTx := true, autoCommissioning := false);
    var s1 := s.(gpd := g.(channel := RX_CHANNEL));
    var u := SendChannelRequest(c, s.(gpd := g), RX_CHANNEL);
    KeepTick(c, s);
    KeptSettings(c, s, s1);
    SameAir(s, s1, MaintMpdu(t, [CMD_CHANNEL_CONFIG, channel - 11]) + fcs);
    ConfigurationHeard(c, s1, MAINTENANCE, CHANNEL_REQUEST_PAYLOAD, t, channel, fcs);
    SendOpens(c, s1, MAINTENANCE, CHANNEL_REQUEST_PAYLOAD, 1);
    SendSettings(c, s1, MAINTENANCE, CHANNEL_REQUEST_PAYLOAD, 1);
    assert RxRequests(c, s.(gpd := g), c.rxRequests) == RxRequests(c, u, c.rxRequests - 1) == u;
    assert Update(c, s) == u.(onRxChannel := false);
    StoreKeeps(Update(c, s));
  }

  /** A Commissioning Request whose window ends with an encoded reply leaves the device with that reply. */
  lemma RequestAnswered(c: Setup, s: Device, t: TxFields, f: ReplyFields, fcs: seq<byte>)
    requires Kept(c, s) && s.gpd.state == CHANNEL_RECEIVED && s.gpd.currentCommReq < c.maxRequests && s.gpd.rxAfterTx
    requires f.keyType < 8 && |fcs| == 2 && |EncodeReply(c, c.srcId, f)| < MAX_PAYLOAD
    requires EndsWith(s, MaintMpdu(t, [CMD_COMMISSIONING_REPLY] + EncodeReply(c, c.srcId, f)) + fcs)
    ensures var r := Tick(c, s);
      && Kept(c, r) && r.gpd.state == REPLY_RECEIVED && r.gpd.level == f.level && r.gpd.keyType == f.keyType
      && r.ccmKey == r.gpd.key && (!f.key.NoKey? ==> r.gpd.key == f.key.key)
      && (|s.air[0]| == 1 ==> r.gpd.channel == s.gpd.channel && (f.key.NoKey? ==> r.gpd.key == s.gpd.key))
      && r.air == s.air[1..] && r.gpd.rxAfterTx
  {
    hide Send;
    hide EncodeReply;
    hide MaintMpdu;
    hide EndsWith;
    hide Kept;
    hide Update;
    var s1 := WrapKey(s.(gpd := s.gpd.(level := 0)));
    var sent := Send(c, s1, DATA, CommissioningCommand(c, s1), 1);
    KeepTick(c, s);
    KeepWrap(c, s);
    SameAir(s, s1, MaintMpdu(t, [CMD_COMMISSIONING_REPLY] + EncodeReply(c, c.srcId, f)) + fcs);
    ReplyHeard(c, s1, DATA, CommissioningCommand(c, s1), t, f, fcs);
    SendOpens(c, s1, DATA, CommissioningCommand(c, s1), 1);
    RequestUpdate(c, s);
    StoreKeeps(Update(c, s));
  }

  lemma SameAir(s: Device, s1: Device, p: seq<byte>)
    requires s1.air == s.air
    ensures EndsWith(s1, p) <==> EndsWith(s, p)
    ensures EndsWith(s, p) ==> s.air != []
  {
  }

  /** A pass that asks is the send of a request, counted. */
  lemma RequestUpdate(c: Setup, s: Device)
    requires s.gpd.state == CHANNEL_RECEIVED && s.gpd.currentCommReq < c.maxRequests
    ensures var s1 := WrapKey(s.(gpd := s.gpd.(level := 0)));
      var sent, u := Send(c, s1, DATA, CommissioningCommand(c, s1), 1), Update(c, s);
      u == sent.(gpd := sent.gpd.(currentCommReq := u.gpd.currentCommReq))
  {
    hide Send;
    hide CommissioningCommand;
  }

  /** With nothing in its window a send changes the counter of the record and no other field of it. */
  lemma UnheardSend(c: Setup, s: Device, frameType: byte, payload: seq<byte>)
    requires 1 <= |payload| && (s.air == [] || s.air[0] == [])
    ensures var r := Send(c, s, frameType, payload, 1);
      r.gpd == s.gpd.(counter := (s.gpd.counter + 1) % 0x1_0000_0000) && r.ccmKey == s.ccmKey
  {
    hide FrameFor;
    SendOnce(c, s, frameType, payload);
  }

  lemma SuccessPass(c: Setup, s: Device)
    requires s.gpd.state == REPLY_RECEIVED && (s.air == [] || s.air[0] == [])
    ensures var r := Tick(c, s);
      && r.gpd == s.gpd.(state := SUCCESS_REQUEST, counter := (s.gpd.counter + 1) % 0x1_0000_0000)
      && r.ccmKey == s.ccmKey
  {
    hide Send;
    UnheardSend(c, SetState(s, SUCCESS_REQUEST), DATA, [CMD_SUCCESS]);
    StoreKeeps(Update(c, s));
  }

  /** A send command is obeyed in every state: the next pass sends one toggle, and ends in operation. */
  lemma SendCommandToggles(c: Setup, s: Device)
    ensures var r := Play(c, s, [CommandSend, Pass]);
      SentPayloads(r.log) == SentPayloads(s.log) + [[0x22]] && r.gpd.state == OPERATIONAL
  {
    hide Tick;
    var s0 := Apply(c, s, CommandSend);
    assert [CommandSend, Pass][1..] == [Pass] && [Pass][1..] == [];
    assert Play(c, s, [CommandSend, Pass]) == Play(c, s0, [Pass]) == Tick(c, s0);
    PassSays(c, s0);
    PassLeads(c, s0);
  }

  /** The passes that commission a device: the sweep, the rx-channel phase, the request, the Success frame, and the
      step into operation. */
  const COMMISSION: seq<Op> := [CommandCommission, Pass, Pass, Pass, Pass, Pass]

  /** Commissioning works: whatever a device of any run was doing, if its first rx-channel window ends with a Channel
      Configuration, its request is answered by an encoded reply, and nothing comes in the window of its Success frame,
      then it ends in operation, on that channel, with the key, type and level of the reply, that key loaded, and all
      of it in flash, so that a restart brings it up the same. */
  lemma CommissioningSucceeds(c: Setup, s: Device, t: TxFields, channel: byte, t': TxFields, f: ReplyFields,
                              fcs: seq<byte>, fcs': seq<byte>, later: seq<Window>)
    requires Kept(c, s) && !s.onRxChannel && s.gpd.currentCommReq < c.maxRequests && c.rxRequests >= 2
    requires 11 <= channel <= 26 && |fcs| == |fcs'| == 2 && f.keyType < 8 && |EncodeReply(c, c.srcId, f)| < MAX_PAYLOAD
    requires |s.air| >= 2 && (|s.air| > 2 ==> s.air[2] == [])
    requires EndsWith(s, MaintMpdu(t, [CMD_CHANNEL_CONFIG, channel - 11]) + fcs)
    requires s.air[1] == [MaintMpdu(t', [CMD_COMMISSIONING_REPLY] + EncodeReply(c, c.srcId, f)) + fcs']
    ensures var r := Play(c, s, COMMISSION);
      && r.gpd.state == OPERATIONAL && r.gpd.channel == channel && r.gpd.level == f.level && r.gpd.keyType == f.keyType
      && r.ccmKey == r.gpd.key && (!f.key.NoKey? ==> r.gpd.key == f.key.key)
    ensures var r := Play(c, s, COMMISSION);
      var b := Boot(c, r.flash, later, r.log);
      && b.gpd.state == OPERATIONAL && b.gpd.channel == channel && b.gpd.level == f.level && b.gpd.keyType == f.keyType
      && b.gpd.key == b.ccmKey == r.gpd.key
  {
    hide Tick;
    hide Boot;
    hide EncodeReply;
    var s0 := SetState(s, CHANNEL_REQUEST);
    var s1 := Tick(c, s0);
    SweepPass(c, s0);
    KeepTick(c, s0);
    FirstWindowConfigures(c, s1, t, channel, fcs);
    var s2 := Tick(c, s1);
    RequestAnswered(c, s2, t', f, fcs');
    var s3 := Tick(c, s2);
    SuccessPass(c, s3);
    var s4 := Tick(c, s3);
    OperationalPass(c, s4);
    var s5 := Tick(c, s4);
    PassPersists(c, s4, later);
    PlayCommission(c, s);
  }

  lemma OperationalPass(c: Setup, s: Device)
    requires s.gpd.state == SUCCESS_REQUEST
    ensures Tick(c, s).gpd == s.gpd.(state := OPERATIONAL) && Tick(c, s).ccmKey == s.ccmKey
  {
  }

  lemma PlayCommission(c: Setup, s: Device)
    ensures Play(c, s, COMMISSION) == Tick(c, Tick(c, Tick(c, Tick(c, Tick(c, SetState(s, CHANNEL_REQUEST))))))
  {
    hide Tick;
    PlayPasses(c, SetState(s, CHANNEL_REQUEST));
    assert COMMISSION[1..] == [Pass, Pass, Pass, Pass, Pass];
  }

  lemma PlayPasses(c: Setup, s: Device)
    ensures Play(c, s, [Pass, Pass, Pass, Pass, Pass]) == Tick(c, Tick(c, Tick(c, Tick(c, Tick(c, s)))))
  {
    hide Tick;
    var s2, s3 := Tick(c, Tick(c, s)), Tick(c, Tick(c, Tick(c, s)));
    assert Play(c, s, [Pass, Pass, Pass, Pass, Pass]) == Play(c, Tick(c, s), [Pass, Pass, Pass, Pass])
        == Play(c, s2, [Pass, Pass, Pass]) == Play(c, s3, [Pass, Pass]) == Play(c, Tick(c, s3), [Pass]);
  }
}
