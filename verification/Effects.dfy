/** What a delivered frame can do to the device, and what sending leaves alone. */
module Effects {
  import opened Bytes
  import opened Ccm
  import opened Frames
  import opened Gpd

  datatype Outcome = Ignored | Config(channel: byte) | CommReply(at: nat)

  lemma DecryptsInPlace(c: Setup, s: Device)
    requires InBounds(s.rx) && 21 <= NwkEnd(s.rx) <= 101
    ensures DecryptRx(c, s) == s.(rx := DecryptRx(c, s).rx)
  {
  }

  /** A delivered frame rewrites the receive buffer, and then at most hands over a command in it. */
  lemma DeliverHandsOver(c: Setup, s: Device, p: Packet) returns (rx: Buffer, i: nat)
    ensures i < 99 && (Deliver(c, s, p) == s.(rx := rx) || Deliver(c, s, p) == Command(c, s.(rx := rx), i))
  {
    hide Command;
    hide DecryptRx;
    hide Source;
    StaleBytesIrrelevant(s.rx, p);
    var b := Received(s.rx, p);
    rx, i := b, 0;
    if Accepts(b, s.gpd.srcId) {
      if Decrypts(b) {
        DecryptsInPlace(c, s.(rx := b));
        rx := DecryptRx(c, s.(rx := b)).rx;
      }
      if AppPayloadSize(b) > 0 {
        i := HeaderEnd(b);
      }
    }
  }

  /** So it rewrites the receive buffer, and then at most carries one command out. */
  lemma DeliverShape(c: Setup, s: Device, p: Packet) returns (rx: Buffer, o: Outcome)
    ensures var r := s.(rx := rx);
      match o
      case Ignored => Deliver(c, s, p) == r
      case Config(channel) => 11 <= channel <= 26 && Deliver(c, s, p) == Configure(r, channel)
      case CommReply(at) => at < 100 && Deliver(c, s, p) == Reply(c, r, at)
  {
    hide Reply;
    hide Configure;
    hide Deliver;
    var i;
    rx, i := DeliverHandsOver(c, s, p);
    o := Ignored;
    if Deliver(c, s, p) != s.(rx := rx) {
      if rx[i] == CMD_CHANNEL_CONFIG {
        o := Config(rx[i + 1] % 16 + 11);
      } else if rx[i] == CMD_COMMISSIONING_REPLY {
        o := CommReply(i + 1);
      }
    }
  }

  /** Everything a receive window leaves alone: identity, settings, counter, storage, transmit nonce,
      and all of the receive nonce but its counter. */
  predicate Undisturbed(s: Device, r: Device)
  {
    && r.gpd.srcId == s.gpd.srcId && r.gpd.autoCommissioning == s.gpd.autoCommissioning
    && r.gpd.rxAfterTx == s.gpd.rxAfterTx && r.gpd.currentCommReq == s.gpd.currentCommReq
    && r.gpd.counter == s.gpd.counter && r.nv == s.nv && r.flash == s.flash && r.nonceTx == s.nonceTx
    && r.onRxChannel == s.onRxChannel
    && r.nonceRx[..8] == s.nonceRx[..8] && r.nonceRx[12..] == s.nonceRx[12..]
  }

  /** An event of a receive window. */
  predicate FromAir(e: Event)
  {
    e.Listened? || e.Configured? || e.Replied?
  }

  /** What a receive window adds to the history. */
  ghost predicate Hears(s: Device, r: Device)
  {
    s.log <= r.log && forall i :: |s.log| <= i < |r.log| ==> FromAir(r.log[i])
  }

  /** What transmitting a frame, any number of times, adds to it. */
  ghost predicate Transmits(s: Device, r: Device, payload: seq<byte>, frame: seq<byte>)
  {
    s.log <= r.log && forall i :: |s.log| <= i < |r.log| ==>
      FromAir(r.log[i]) || (r.log[i].Sent? && r.log[i].payload == payload && r.log[i].frame == frame)
  }

  lemma ReplyUndisturbed(c: Setup, s: Device, i: nat)
    requires i < 100
    ensures var r := Reply(c, s, i);
      && Undisturbed(s, r) && r.gpd.channel == s.gpd.channel && r.air == s.air && r.rx == s.rx
      && r.log == s.log + [Replied(!ReplyFails(c, s, i), s.gpd.state, r.gpd.key)]
      && r.gpd.state == (if ReplyFails(c, s, i) then s.gpd.state else REPLY_RECEIVED)
      && r.ccmKey == (if ReplyFails(c, s, i) then LINK_KEY else r.gpd.key)
      && (ReplyFails(c, s, i) ==> r.gpd == s.gpd.(key := Zeros(16)))
  {
  }

  lemma DeliverUndisturbed(c: Setup, s: Device, p: Packet)
    ensures var r := Deliver(c, s, p); Undisturbed(s, r) && r.air == s.air && Hears(s, r)
  {
    var rx, o := DeliverShape(c, s, p);
    hide Deliver;
    hide Reply;
    if o.CommReply? {
      ReplyUndisturbed(c, s.(rx := rx), o.at);
    }
  }

  lemma {:induction false} DeliverAllUndisturbed(c: Setup, s: Device, w: Window)
    ensures var r := DeliverAll(c, s, w); Undisturbed(s, r) && r.air == s.air && Hears(s, r)
    decreases |w|
  {
    hide Deliver;
    if w != [] {
      DeliverUndisturbed(c, s, w[0]);
      DeliverAllUndisturbed(c, Deliver(c, s, w[0]), w[1..]);
    }
  }

  lemma ListenUndisturbed(c: Setup, s: Device)
    ensures Undisturbed(s, Listen(c, s)) && Hears(s, Listen(c, s))
  {
    if s.air != [] {
      DeliverAllUndisturbed(c, Emit(s, Listened(s.gpd.channel)).(air := s.air[1..]), s.air[0]);
    }
  }

  lemma {:induction false} RepeatUndisturbed(c: Setup, s: Device, payload: seq<byte>, frame: seq<byte>, n: nat)
    ensures var r := Repeat(c, s, payload, frame, n); Undisturbed(s, r) && Transmits(s, r, payload, frame)
    decreases n
  {
    hide Listen;
    if n > 0 {
      ListenUndisturbed(c, Emit(s, Sent(s.gpd.channel, s.gpd.counter, payload, frame)));
      RepeatUndisturbed(c, Transmit(c, s, payload, frame), payload, frame, n - 1);
    }
  }

  /** A send without repeats transmits once. */
  lemma SendOnce(c: Setup, s: Device, frameType: byte, payload: seq<byte>)
    requires 1 <= |payload|
    ensures var s1 := Prepare(s, frameType, payload);
      Send(c, s, frameType, payload, 1) == Transmit(c, s1, Capped(payload), FrameFor(c, s1, frameType, payload))
  {
    hide Prepare;
    hide FrameFor;
    hide Transmit;
    var s1 := Prepare(s, frameType, payload);
    var p, frame := Capped(payload), FrameFor(c, s1, frameType, payload);
    assert Repeat(c, s1, p, frame, 1) == Repeat(c, Transmit(c, s1, p, frame), p, frame, 0);
  }

  /** A send adds a counter save, the frame built, and then only transmissions of it and what they hear. */
  lemma SendTransmits(c: Setup, s: Device, frameType: byte, payload: seq<byte>, repeats: nat)
    requires 1 <= |payload|
    ensures var s1, r := Prepare(s, frameType, payload), Send(c, s, frameType, payload, repeats);
      Undisturbed(s1, r) && Transmits(s1, r, Capped(payload), FrameFor(c, s1, frameType, payload))
  {
    hide Prepare;
    hide FrameFor;
    var s1 := Prepare(s, frameType, payload);
    RepeatUndisturbed(c, s1, Capped(payload), FrameFor(c, s1, frameType, payload), if repeats == 0 then 1 else repeats);
  }

  /** A send changes the counter by one and its settings not at all. */
  lemma SendSettings(c: Setup, s: Device, frameType: byte, payload: seq<byte>, repeats: nat)
    requires 1 <= |payload|
    ensures var r := Send(c, s, frameType, payload, repeats);
            && r.gpd.srcId == s.gpd.srcId && r.gpd.autoCommissioning == s.gpd.autoCommissioning
            && r.gpd.rxAfterTx == s.gpd.rxAfterTx && r.gpd.currentCommReq == s.gpd.currentCommReq
            && r.onRxChannel == s.onRxChannel
            && r.gpd.counter == (s.gpd.counter + 1) % 0x1_0000_0000
  {
    hide Send;
    SendTransmits(c, s, frameType, payload, repeats);
  }

  // ------------------------------------------------------ channel requests

  /** The same but for what a channel request phase sets outside of its sends. */
  predicate SameButPhase(s: Device, r: Device)
  {
    && r == s.(onRxChannel := r.onRxChannel, gpd := s.gpd.(level := r.gpd.level, keyType := r.gpd.keyType,
         rxAfterTx := r.gpd.rxAfterTx, autoCommissioning := r.gpd.autoCommissioning, state := r.gpd.state))
    && (r.gpd.state == s.gpd.state || r.gpd.state == CHANNEL_REQUEST)
  }

  /** An invariant that the sends of a channel request phase keep, and what it sets between them. */
  ghost predicate KeptByRequests(c: Setup, I: Device -> bool)
  {
    && (forall s, r :: I(s) && SameButPhase(s, r) ==> I(r))
    && (forall s, channel: byte :: I(s) ==> I(SendChannelRequest(c, s, channel)))
  }

  lemma {:induction false} SweepOnceKeeps(c: Setup, s: Device, channels: seq<byte>, I: Device -> bool)
    requires I(s) && KeptByRequests(c, I)
    ensures I(SweepOnce(c, s, channels))
    decreases |channels|
  {
    hide SendChannelRequest;
    if channels != [] {
      SweepOnceKeeps(c, SendChannelRequest(c, s, channels[0]), channels[1..], I);
    }
  }

  lemma {:induction false} SweepKeeps(c: Setup, s: Device, channels: seq<byte>, rounds: nat, I: Device -> bool)
    requires I(s) && KeptByRequests(c, I)
    ensures I(Sweep(c, s, channels, rounds))
    decreases rounds
  {
    if rounds > 0 {
      SweepOnceKeeps(c, s, channels, I);
      SweepKeeps(c, SweepOnce(c, s, channels), channels, rounds - 1, I);
    }
  }

  lemma {:induction false} RxRequestsKeep(c: Setup, s: Device, n: nat, I: Device -> bool)
    requires I(s) && KeptByRequests(c, I)
    ensures I(RxRequests(c, s, n))
    decreases n
  {
    hide SendChannelRequest;
    if n == 0 {
      assert SameButPhase(s, SetState(s, CHANNEL_REQUEST));
    } else if s.gpd.state != CHANNEL_RECEIVED {
      RxRequestsKeep(c, SendChannelRequest(c, s, RX_CHANNEL), n - 1, I);
    }
  }

  /** Whatever each channel request keeps, a step of the channel request state machine keeps. */
  lemma ChannelRequestStepKeeps(c: Setup, s: Device, I: Device -> bool)
    requires I(s) && KeptByRequests(c, I)
    ensures I(ChannelRequestStep(c, s))
  {
    hide Sweep;
    hide RxRequests;
    var g, r := s.gpd.(level := 0, keyType := KEY_TYPE_NONE), ChannelRequestStep(c, s);
    if !s.onRxChannel {
      var s1 := s.(gpd := g.(rxAfterTx := false, autoCommissioning := true));
      assert SameButPhase(s, s1);
      SweepKeeps(c, s1, c.channels, c.sweepRounds, I);
      assert SameButPhase(Sweep(c, s1, c.channels, c.sweepRounds), r);
    } else {
      var s1 := s.(gpd := g.(rxAfterTx := true, autoCommissioning := false));
      assert SameButPhase(s, s1);
      RxRequestsKeep(c, s1, c.rxRequests, I);
      assert SameButPhase(RxRequests(c, s1, c.rxRequests), r);
    }
  }
}
