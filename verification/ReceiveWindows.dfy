/** The receive windows of a send: when they open, what they take out of the air, and what they bring. */
module ReceiveWindows {
  import opened Bytes
  import opened Frames
  import opened Gpd
  import opened Effects
  import opened Counters
  import opened Delivery
  import ChannelRequests

  // ------------------------------------------------------ when a window opens

  /** A frame sent is followed directly by a window on its own channel if the device listens, and not if it does
      not; and a window directly follows a frame sent at n or later. */
  predicate PairedAt(log: seq<Event>, n: nat, i: nat, listens: bool)
    requires i < |log|
  {
    && (log[i].Sent? ==> (listens <==> i + 1 < |log| && log[i + 1] == Listened(log[i].channel)))
    && (log[i].Listened? ==> n < i && log[i - 1].Sent?)
  }

  ghost predicate Paired(log: seq<Event>, n: nat, listens: bool)
  {
    forall i :: n <= i < |log| ==> PairedAt(log, n, i, listens)
  }

  lemma PairedThen(log: seq<Event>, n: nat, k: nat, listens: bool)
    requires n <= k <= |log| && Paired(log[..k], n, listens) && Paired(log, k, listens)
    ensures Paired(log, n, listens)
  {
    forall i | n <= i < |log| ensures PairedAt(log, n, i, listens) {
      assert i < k ==> PairedAt(log[..k], n, i, listens);
      assert k < |log| ==> PairedAt(log, k, k, listens);
      assert i >= k ==> PairedAt(log, k, i, listens);
    }
  }

  /** Whether or not something still comes before it, and after it, one frame with its window is paired. */
  lemma PairedOnce(log: seq<Event>, n: nat, listens: bool)
    requires n < |log| && log[n].Sent? && forall i :: n + (if listens then 1 else 0) < i < |log| ==> Still(log[i])
    requires listens ==> n + 1 < |log| && log[n + 1] == Listened(log[n].channel)
    ensures Paired(log, n, listens)
  {
  }

  lemma PairedLater(log: seq<Event>, n: nat, k: nat, listens: bool)
    requires n <= k <= |log| && Paired(log, k, listens) && forall i :: n <= i < k ==> Still(log[i])
    ensures Paired(log, n, listens)
  {
    forall i | n <= i < |log| ensures PairedAt(log, n, i, listens) {
      assert i >= k ==> PairedAt(log, k, i, listens);
    }
  }

  function FramesSent(log: seq<Event>): nat
  {
    |ChannelRequests.SentChannels(log)|
  }

  /** An event that neither sends nor opens a window. */
  predicate Still(e: Event)
  {
    !e.Sent? && !e.Listened?
  }

  lemma {:induction false} StillCounts(log: seq<Event>, n: nat)
    requires n <= |log| && forall i :: n <= i < |log| ==> Still(log[i])
    ensures FramesSent(log) == FramesSent(log[..n]) && ChannelRequests.Windows(log) == ChannelRequests.Windows(log[..n])
    decreases |log|
  {
    if n == |log| {
      assert log[..n] == log;
    } else {
      assert log[..|log| - 1][..n] == log[..n];
      StillCounts(log[..|log| - 1], n);
    }
  }

  /** What is left of the air once n windows have been open. */
  function AirAfter(air: seq<Window>, n: nat): seq<Window>
  {
    if n <= |air| then air[n..] else []
  }

  /** r is s after n transmissions, with their windows if the device listens. */
  ghost predicate Transmitted(s: Device, r: Device, n: nat)
  {
    && s.log <= r.log && Paired(r.log, |s.log|, s.gpd.rxAfterTx)
    && FramesSent(r.log) == FramesSent(s.log) + n
    && ChannelRequests.Windows(r.log) == ChannelRequests.Windows(s.log) + (if s.gpd.rxAfterTx then n else 0)
    && r.air == (if s.gpd.rxAfterTx then AirAfter(s.air, n) else s.air)
    && r.gpd.rxAfterTx == s.gpd.rxAfterTx
  }

  lemma {:induction false} WindowStill(c: Setup, s: Device, w: Window)
    ensures var r := DeliverAll(c, s, w);
      s.log <= r.log && (forall i :: |s.log| <= i < |r.log| ==> Still(r.log[i])) && r.air == s.air
      && r.gpd.rxAfterTx == s.gpd.rxAfterTx
    decreases |w|
  {
    hide Deliver;
    hide Configure;
    hide Reply;
    if w != [] {
      DeliverUndisturbed(c, s, w[0]);
      var rx, o := DeliverShape(c, s, w[0]);
      StillFrame(c, s, w[0], rx, o);
      WindowStill(c, Deliver(c, s, w[0]), w[1..]);
    }
  }

  lemma StillFrame(c: Setup, s: Device, p: Packet, rx: Buffer, o: Outcome)
    requires var r := s.(rx := rx);
      match o
      case Ignored => Deliver(c, s, p) == r
      case Config(channel) => 11 <= channel <= 26 && Deliver(c, s, p) == Configure(r, channel)
      case CommReply(at) => at < 100 && Deliver(c, s, p) == Reply(c, r, at)
    ensures var r := Deliver(c, s, p); forall i :: |s.log| <= i < |r.log| ==> Still(r.log[i])
  {
    hide Deliver;
    hide Reply;
    if o.CommReply? {
      ReplyUndisturbed(c, s.(rx := rx), o.at);
    }
  }

  lemma ListenOpens(c: Setup, s: Device)
    ensures var r := Listen(c, s);
      && s.log + [Listened(s.gpd.channel)] <= r.log
      && (forall i :: |s.log| < i < |r.log| ==> Still(r.log[i]))
      && ChannelRequests.Windows(r.log) == ChannelRequests.Windows(s.log) + 1 && FramesSent(r.log) == FramesSent(s.log)
      && r.air == AirAfter(s.air, 1) && r.gpd.rxAfterTx == s.gpd.rxAfterTx
  {
    hide DeliverAll;
    var s1, r := Emit(s, Listened(s.gpd.channel)), Listen(c, s);
    ChannelRequests.Append(s.log, Listened(s.gpd.channel));
    if s.air != [] {
      WindowStill(c, s1.(air := s.air[1..]), s.air[0]);
    }
    StillCounts(r.log, |s1.log|);
    assert r.log[..|s1.log|] == s1.log;
  }

  lemma TransmitOpens(c: Setup, s: Device, payload: seq<byte>, frame: seq<byte>)
    ensures Transmitted(s, Transmit(c, s, payload, frame), 1)
  {
    hide Listen;
    hide PairedAt;
    hide Paired;
    var sent := Sent(s.gpd.channel, s.gpd.counter, payload, frame);
    ChannelRequests.Append(s.log, sent);
    if s.gpd.rxAfterTx {
      ListenOpens(c, Emit(s, sent));
      OneWindow(s.log, sent, Listen(c, Emit(s, sent)).log);
    } else {
      PairedOnce(s.log + [sent], |s.log|, false);
    }
  }

  lemma OneWindow(past: seq<Event>, sent: Event, log: seq<Event>)
    requires sent.Sent? && past + [sent] + [Listened(sent.channel)] <= log
    requires forall i :: |past| + 1 < i < |log| ==> Still(log[i])
    ensures Paired(log, |past|, true) && past <= log
  {
    PairedOnce(log, |past|, true);
  }

  lemma TransmittedThen(s: Device, s1: Device, r: Device, m: nat, n: nat)
    requires Transmitted(s, s1, m) && Transmitted(s1, r, n)
    ensures Transmitted(s, r, m + n)
  {
    hide PairedAt;
    assert AirAfter(AirAfter(s.air, m), n) == AirAfter(s.air, m + n);
    assert r.log[..|s1.log|] == s1.log;
    PairedThen(r.log, |s.log|, |s1.log|, s.gpd.rxAfterTx);
  }

  lemma {:induction false} RepeatOpens(c: Setup, s: Device, payload: seq<byte>, frame: seq<byte>, n: nat)
    ensures Transmitted(s, Repeat(c, s, payload, frame, n), n)
    decreases n
  {
    hide Transmit;
    hide Transmitted;
    if n > 0 {
      var s1 := Transmit(c, s, payload, frame);
      TransmitOpens(c, s, payload, frame);
      RepeatOpens(c, s1, payload, frame, n - 1);
      TransmittedThen(s, s1, Repeat(c, s1, payload, frame, n - 1), 1, n - 1);
    } else {
      NothingTransmitted(s);
    }
  }

  lemma NothingTransmitted(s: Device)
    ensures Transmitted(s, s, 0)
  {
  }

  lemma PrepareStill(s: Device, frameType: byte, payload: seq<byte>)
    ensures var r := Prepare(s, frameType, payload);
      && s.log <= r.log && |r.log| == |s.log| + 2 && Still(r.log[|s.log|]) && Still(r.log[|s.log| + 1])
      && FramesSent(r.log) == FramesSent(s.log) && ChannelRequests.Windows(r.log) == ChannelRequests.Windows(s.log)
      && r.air == s.air && r.gpd == s.gpd.(counter := (s.gpd.counter + 1) % 0x1_0000_0000)
  {
    var r := Prepare(s, frameType, payload);
    StillCounts(r.log, |s.log|);
    assert r.log[..|s.log|] == s.log;
  }

  /** A send transmits as often as asked, at least once; after each transmission, and only then, a window opens on the
      channel of that transmission, exactly if the device is to receive after transmitting; and each window takes the
      next part of the air. */
  lemma SendOpens(c: Setup, s: Device, frameType: byte, payload: seq<byte>, repeats: nat)
    requires 1 <= |payload|
    ensures Transmitted(s, Send(c, s, frameType, payload, repeats), if repeats == 0 then 1 else repeats)
  {
    hide Prepare;
    hide FrameFor;
    hide Repeat;
    var s1 := Prepare(s, frameType, payload);
    PrepareStill(s, frameType, payload);
    hide PairedAt;
    RepeatOpens(c, s1, Capped(payload), FrameFor(c, s1, frameType, payload), if repeats == 0 then 1 else repeats);
    PairedLater(Send(c, s, frameType, payload, repeats).log, |s.log|, |s1.log|, s.gpd.rxAfterTx);
  }

  // ---------------------------------------------------------- what it brings

  /** A window hands over its frames in order: the last one meets the device that the others leave. */
  lemma {:induction false} LastFrame(c: Setup, s: Device, w: Window, p: Packet)
    ensures DeliverAll(c, s, w + [p]) == Deliver(c, DeliverAll(c, s, w), p)
    decreases |w|
  {
    hide Deliver;
    if w != [] {
      assert (w + [p])[1..] == w[1..] + [p];
      LastFrame(c, Deliver(c, s, w[0]), w[1..], p);
    } else {
      assert [p][1..] == [];
    }
  }

  /** The next window of the air ends with this frame, whatever comes before it. */
  predicate EndsWith(s: Device, p: seq<byte>)
  {
    s.air != [] && s.air[0] != [] && s.air[0][|s.air[0]| - 1] == p
  }

  /** A listening device that sends once has its window's last frame delivered to it in the end, after whatever else
      the window holds. */
  lemma LastHeard(c: Setup, s: Device, frameType: byte, payload: seq<byte>, p: Packet) returns (before: Device)
    requires 1 <= |payload| && s.gpd.rxAfterTx && EndsWith(s, p) && Kept(c, s)
    ensures Kept(c, before) && Send(c, s, frameType, payload, 1) == Deliver(c, before, p)
    ensures |s.air[0]| == 1 ==> before.gpd == s.gpd.(counter := (s.gpd.counter + 1) % 0x1_0000_0000)
  {
    hide Deliver;
    hide Prepare;
    hide FrameFor;
    SendOnce(c, s, frameType, payload);
    KeepPrepare(c, s, frameType, payload);
    PrepareStill(s, frameType, payload);
    var s1 := Prepare(s, frameType, payload);
    var e := Sent(s1.gpd.channel, s1.gpd.counter, Capped(payload), FrameFor(c, s1, frameType, payload));
    Append(c, s1.log, e);
    KeepQuiet(c, Emit(s1, e), Listened(s1.gpd.channel));
    var s2 := Emit(Emit(s1, e), Listened(s1.gpd.channel)).(air := s.air[1..]);
    var w := s.air[0][..|s.air[0]| - 1];
    assert s.air[0] == w + [p];
    KeepDeliverAll(c, s2, w);
    LastFrame(c, s2, w, p);
    before := DeliverAll(c, s2, w);
  }

  /** Any send whose window ends with an encoded reply in a maintenance frame ends in its processing: state, type, level
      and key are as the reply says, and that key is loaded. */
  lemma ReplyHeard(c: Setup, s: Device, frameType: byte, payload: seq<byte>, t: TxFields, f: ReplyFields,
                   fcs: seq<byte>)
    requires 1 <= |payload| && s.gpd.rxAfterTx && Kept(c, s) && f.keyType < 8 && |fcs| == 2
    requires |EncodeReply(c, c.srcId, f)| < MAX_PAYLOAD
    requires EndsWith(s, MaintMpdu(t, [CMD_COMMISSIONING_REPLY] + EncodeReply(c, c.srcId, f)) + fcs)
    ensures var r := Send(c, s, frameType, payload, 1);
      && r.gpd.state == REPLY_RECEIVED && r.gpd.level == f.level && r.gpd.keyType == f.keyType
      && r.ccmKey == r.gpd.key && (!f.key.NoKey? ==> r.gpd.key == f.key.key)
      && (|s.air[0]| == 1 ==> r.gpd.channel == s.gpd.channel && (f.key.NoKey? ==> r.gpd.key == s.gpd.key))
  {
    hide Deliver;
    hide Send;
    hide EncodeReply;
    var p := MaintMpdu(t, [CMD_COMMISSIONING_REPLY] + EncodeReply(c, c.srcId, f)) + fcs;
    var before := LastHeard(c, s, frameType, payload, p);
    ReplyDelivered(c, before, t, f, fcs);
  }

  /** Any send whose window ends with a Channel Configuration ends with that channel received. */
  lemma ConfigurationHeard(c: Setup, s: Device, frameType: byte, payload: seq<byte>, t: TxFields, channel: byte,
                           fcs: seq<byte>)
    requires 1 <= |payload| && s.gpd.rxAfterTx && Kept(c, s) && 11 <= channel <= 26 && |fcs| == 2
    requires EndsWith(s, MaintMpdu(t, [CMD_CHANNEL_CONFIG, channel - 11]) + fcs)
    ensures var r := Send(c, s, frameType, payload, 1); r.gpd.state == CHANNEL_RECEIVED && r.gpd.channel == channel
  {
    hide Deliver;
    hide Send;
    var p := MaintMpdu(t, [CMD_CHANNEL_CONFIG, channel - 11]) + fcs;
    var before := LastHeard(c, s, frameType, payload, p);
    MaintenanceFrameObeyed(c, before, t, [CMD_CHANNEL_CONFIG, channel - 11], fcs);
  }

  // --------------------------------------------------------- what it leaves

  /** Level and key type change only with a processed reply. */
  ghost predicate Settled(s: Device, r: Device)
  {
    && s.log <= r.log
    && ((forall i :: |s.log| <= i < |r.log| ==> !Processed(r.log[i])) ==>
          r.gpd.level == s.gpd.level && r.gpd.keyType == s.gpd.keyType)
  }

  predicate Processed(e: Event)
  {
    e.Replied? && e.ok
  }

  lemma SettledThen(s: Device, s1: Device, r: Device)
    requires Settled(s, s1) && Settled(s1, r)
    ensures Settled(s, r)
  {
    assert forall i :: 0 <= i < |s1.log| ==> s1.log[i] == r.log[i];
  }

  lemma DeliverSettles(c: Setup, s: Device, p: Packet)
    ensures Settled(s, Deliver(c, s, p))
  {
    var rx, o := DeliverShape(c, s, p);
    hide Deliver;
    hide Reply;
    if o.CommReply? {
      ReplyUndisturbed(c, s.(rx := rx), o.at);
      assert !ReplyFails(c, s.(rx := rx), o.at) ==> Processed(Deliver(c, s, p).log[|s.log|]);
    }
  }

  lemma {:induction false} WindowSettles(c: Setup, s: Device, w: Window)
    ensures Settled(s, DeliverAll(c, s, w))
    decreases |w|
  {
    hide Deliver;
    if w != [] {
      var s1 := Deliver(c, s, w[0]);
      DeliverSettles(c, s, w[0]);
      WindowSettles(c, s1, w[1..]);
      SettledThen(s, s1, DeliverAll(c, s1, w[1..]));
    }
  }

  /** A single send leaves them to the replies of its window. */
  lemma SendSettles(c: Setup, s: Device, frameType: byte, payload: seq<byte>)
    requires 1 <= |payload|
    ensures Settled(s, Send(c, s, frameType, payload, 1))
  {
    hide Prepare;
    hide FrameFor;
    hide DeliverAll;
    SendOnce(c, s, frameType, payload);
    PrepareStill(s, frameType, payload);
    var s1, r := Prepare(s, frameType, payload), Send(c, s, frameType, payload, 1);
    var s2 := Emit(s1, Sent(s1.gpd.channel, s1.gpd.counter, Capped(payload), FrameFor(c, s1, frameType, payload)));
    if s.gpd.rxAfterTx && s.air != [] {
      var s3 := Emit(s2, Listened(s2.gpd.channel)).(air := s.air[1..]);
      WindowSettles(c, s3, s.air[0]);
      SettledThen(s, s3, r);
    }
  }

  // ---------------------------------------------------------------- downlink

  lemma RxNonceAdvances(s: Device)
    requires s.nonceRx[..8] == [0, 0, 0, 0] + Le4(s.gpd.srcId) && s.nonceRx[12..] == [0x05]
    ensures Advance(s).nonceRx == RxNonce(s.gpd.srcId, (s.gpd.counter + 1) % 0x1_0000_0000)
  {
  }

  /** A sink that answers any send with one level-3 downlink frame, sealed under the key loaded and the counter that the
      device has just sent, is understood: exactly its payload reaches the command handler. */
  lemma DownlinkAnswered(c: Setup, s: Device, frameType: byte, payload: seq<byte>, nwkFc: byte, ext: byte,
                         counter: uint32, answer: seq<byte>, fcs: seq<byte>)
    requires 1 <= |payload| && s.gpd.rxAfterTx && Kept(c, s) && 1 <= |answer| <= MAX_PAYLOAD && |fcs| == 2
    requires FrameProperties.DownlinkControl(nwkFc, ext) && s.air != []
    requires s.air[0] == [FrameProperties.Downlink(
               c.E, s.ccmKey, [0, 0, 0, 0] + Le4(c.srcId) + Le4((s.gpd.counter + 1) % 0x1_0000_0000) + [0x05], nwkFc,
               ext, c.srcId, counter, answer, fcs)]
    ensures exists before: Device, rx: Buffer ::
      && before.gpd == s.gpd.(counter := (s.gpd.counter + 1) % 0x1_0000_0000) && rx[18..18 + |answer|] == answer
      && Send(c, s, frameType, payload, 1) == Command(c, before.(rx := rx), 18)
  {
    hide Command;
    hide FrameProperties.Downlink;
    hide Kept;
    var p := s.air[0][0];
    KeptNonce(c, s);
    RxNonceAdvances(s);
    var before := OnlyHeard(c, s, frameType, payload, p);
    DownlinkDelivered(c, before, nwkFc, ext, counter, answer, fcs);
    var rx: Buffer :| rx[18..18 + |answer|] == answer && Deliver(c, before, p) == Command(c, before.(rx := rx), 18);
  }

  lemma KeptNonce(c: Setup, s: Device)
    requires Kept(c, s)
    ensures s.gpd.srcId == c.srcId && s.nonceRx[..8] == [0, 0, 0, 0] + Le4(s.gpd.srcId) && s.nonceRx[12..] == [0x05]
  {
  }

  /** What the only frame of a window meets: the device as the counter step left it. */
  lemma OnlyHeard(c: Setup, s: Device, frameType: byte, payload: seq<byte>, p: Packet) returns (before: Device)
    requires 1 <= |payload| && s.gpd.rxAfterTx && s.air != [] && s.air[0] == [p]
    ensures before.gpd == s.gpd.(counter := (s.gpd.counter + 1) % 0x1_0000_0000) && before.ccmKey == s.ccmKey
    ensures before.nonceRx == Advance(s).nonceRx && Send(c, s, frameType, payload, 1) == Deliver(c, before, p)
  {
    hide Deliver;
    hide FrameFor;
    SendOnce(c, s, frameType, payload);
    var s1 := Prepare(s, frameType, payload);
    var e := Sent(s1.gpd.channel, s1.gpd.counter, Capped(payload), FrameFor(c, s1, frameType, payload));
    before := Emit(Emit(s1, e), Listened(s1.gpd.channel)).(air := s.air[1..]);
    assert [p][1..] == [];
    assert DeliverAll(c, before, [p]) == DeliverAll(c, Deliver(c, before, p), []);
  }
}
