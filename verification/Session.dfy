/** Commissioning within one boot: which channel frames go out on, and Success frames against replies. */
module Session {
  import opened Bytes
  import opened Frames
  import opened Gpd
  import opened Effects
  import opened Runs

  /** What the main loop and its two commands can do between power-up and power-down. */
  predicate InSession(op: Op)
  {
    op == CommandCommission || op == CommandSend || op == Pass || op == AppDecommission
  }

  function Play(c: Setup, s: Device, ops: seq<Op>): Device
    decreases |ops|
  {
    if ops == [] then s else Play(c, Apply(c, s, ops[0]), ops[1..])
  }

  /** The channel of the latest Channel Configuration heard since the history was n events long. */
  function LatestChannel(log: seq<Event>, n: nat): Option<byte>
  {
    if |log| <= n then None
    else
      var e := log[|log| - 1];
      if e.Configured? then Some(e.channel) else LatestChannel(log[..|log| - 1], n)
  }

  predicate Carries(e: Event, command: byte)
  {
    e.Sent? && |e.payload| > 0 && e.payload[0] == command
  }

  predicate NeedsChannel(e: Event)
  {
    Carries(e, CMD_COMMISSIONING) || Carries(e, CMD_SUCCESS)
  }

  /** Requests and Success frames all go out on the latest configured channel, and none before there is one. */
  ghost predicate ChannelDiscipline(log: seq<Event>, n: nat)
  {
    forall i :: n <= i < |log| && NeedsChannel(log[i]) ==> LatestChannel(log[..i], n) == Some(log[i].channel)
  }

  /** Success frames sent since the history was n events long. */
  function Successes(log: seq<Event>, n: nat): nat
  {
    if |log| <= n then 0
    else Successes(log[..|log| - 1], n) + if Carries(log[|log| - 1], CMD_SUCCESS) then 1 else 0
  }

  /** Replies processed successfully since then. */
  function Replies(log: seq<Event>, n: nat): nat
  {
    if |log| <= n then 0
    else
      var e := log[|log| - 1];
      Replies(log[..|log| - 1], n) + if e.Replied? && e.ok then 1 else 0
  }

  // -------------------------------------------------------------- invariant

  /** Which states vouch for the channel: all of them, a received channel only, or commissioning from there on. */
  datatype Trust = Always | WhenReceived | WhenCommissioning

  predicate Vouches(state: byte, trust: Trust)
  {
    match trust
    case Always => true
    case WhenReceived => state == CHANNEL_RECEIVED
    case WhenCommissioning => state == CHANNEL_RECEIVED || state == REPLY_RECEIVED || state == SUCCESS_REQUEST
  }

  /** Where a session starts: the length of the history then, the channels that the device and its shadow came with,
      and the replies it had not yet answered with a Success frame. */
  datatype Start = Start(n: nat, channel: Option<byte>, stored: Option<byte>, credit: nat)

  /** The channel to be on: the latest configured one, or the one the session started with. */
  function ChannelAt(log: seq<Event>, t: Start): Option<byte>
  {
    match LatestChannel(log, t.n)
    case None => t.channel
    case Some(channel) => Some(channel)
  }

  /** A channel that was heard of in the session, or came with it. */
  ghost predicate NamedSince(log: seq<Event>, t: Start, channel: byte)
  {
    t.channel == Some(channel) || t.stored == Some(channel) ||
    exists i :: t.n <= i < |log| && log[i] == Configured(channel)
  }

  /** An image whose state vouches for its channel has a channel that was heard of. */
  ghost predicate Trusted(log: seq<Event>, t: Start, image: Image)
  {
    Vouches(image[23], WhenCommissioning) ==> NamedSince(log, t, image[22])
  }

  /** What an event of a session owes to the events before it. */
  ghost predicate InOrder(past: seq<Event>, e: Event, t: Start)
  {
    && (NeedsChannel(e) ==> ChannelAt(past, t) == Some(e.channel))
    && (Carries(e, CMD_SUCCESS) ==> Successes(past, t.n) < Replies(past, t.n) + t.credit)
    && (e.Saved? ==> Trusted(past, t, e.image))
  }

  ghost predicate Sound(log: seq<Event>, t: Start)
  {
    t.n <= |log| && forall i :: t.n <= i < |log| ==> InOrder(log[..i], log[i], t)
  }

  /** Every reply processed pays for one Success frame, and owed counts the replies not yet spent. */
  ghost predicate Balanced(s: Device, t: Start, owed: nat)
  {
    Successes(s.log, t.n) + owed + (if s.gpd.state == REPLY_RECEIVED then 1 else 0) <= Replies(s.log, t.n) + t.credit
  }

  ghost predicate Good(s: Device, t: Start, trust: Trust, owed: nat)
  {
    && Sound(s.log, t) && Trusted(s.log, t, s.nv)
    && (Vouches(s.gpd.state, trust) ==> ChannelAt(s.log, t) == Some(s.gpd.channel))
    && Balanced(s, t, owed)
  }

  lemma Append(log: seq<Event>, e: Event, t: Start)
    requires Sound(log, t) && InOrder(log, e, t)
    ensures Sound(log + [e], t)
    ensures LatestChannel(log + [e], t.n) == if e.Configured? then Some(e.channel) else LatestChannel(log, t.n)
    ensures Successes(log + [e], t.n) == Successes(log, t.n) + if Carries(e, CMD_SUCCESS) then 1 else 0
    ensures Replies(log + [e], t.n) == Replies(log, t.n) + if e.Replied? && e.ok then 1 else 0
    ensures forall channel: byte :: NamedSince(log, t, channel) ==> NamedSince(log + [e], t, channel)
  {
    hide InOrder;
    var l := log + [e];
    assert l[..|log|] == log;
    forall i | t.n <= i < |l| ensures InOrder(l[..i], l[i], t) {
      if i < |log| {
        assert l[..i] == log[..i] && l[i] == log[i];
      }
    }
    forall channel: byte | NamedSince(log, t, channel) ensures NamedSince(l, t, channel) {
      if t.channel != Some(channel) && t.stored != Some(channel) {
        var i :| t.n <= i < |log| && log[i] == Configured(channel);
        assert l[i] == Configured(channel);
      }
    }
  }

  lemma {:induction false} LatestIsNamed(log: seq<Event>, t: Start, channel: byte)
    requires ChannelAt(log, t) == Some(channel)
    ensures NamedSince(log, t, channel)
    decreases |log|
  {
    if |log| > t.n {
      var past, e := log[..|log| - 1], log[|log| - 1];
      if e.Configured? {
        assert log[|log| - 1] == Configured(channel);
      } else {
        LatestIsNamed(past, t, channel);
        if t.channel != Some(channel) && t.stored != Some(channel) {
          var i :| t.n <= i < |past| && past[i] == Configured(channel);
          assert log[i] == Configured(channel);
        }
      }
    }
  }

  lemma GoodEmit(s: Device, e: Event, t: Start, trust: Trust, owed: nat)
    requires Good(s, t, trust, owed) && !e.Sent? && !e.Configured? && !e.Replied? && !e.Saved?
    ensures Good(Emit(s, e), t, trust, owed)
  {
    Append(s.log, e, t);
  }

  lemma GoodDeliver(c: Setup, s: Device, p: Packet, t: Start, trust: Trust, owed: nat)
    requires Good(s, t, trust, owed) && !trust.WhenCommissioning?
    ensures Good(Deliver(c, s, p), t, trust, owed)
  {
    var rx, o := DeliverShape(c, s, p);
    hide Deliver;
    hide Reply;
    var r := s.(rx := rx);
    match o
    case Ignored =>
    case Config(channel) => Append(s.log, Configured(channel), t);
    case CommReply(at) =>
      ReplyUndisturbed(c, r, at);
      Append(s.log, Replied(!ReplyFails(c, r, at), s.gpd.state, Reply(c, r, at).gpd.key), t);
  }

  lemma {:induction false} GoodDeliverAll(c: Setup, s: Device, w: Window, t: Start, trust: Trust, owed: nat)
    requires Good(s, t, trust, owed) && !trust.WhenCommissioning?
    ensures Good(DeliverAll(c, s, w), t, trust, owed)
    decreases |w|
  {
    if w != [] {
      GoodDeliver(c, s, w[0], t, trust, owed);
      GoodDeliverAll(c, Deliver(c, s, w[0]), w[1..], t, trust, owed);
    }
  }

  lemma GoodListen(c: Setup, s: Device, t: Start, trust: Trust, owed: nat)
    requires Good(s, t, trust, owed) && !trust.WhenCommissioning?
    ensures Good(Listen(c, s), t, trust, owed)
  {
    var e := Listened(s.gpd.channel);
    GoodEmit(s, e, t, trust, owed);
    if s.air != [] {
      GoodDeliverAll(c, Emit(s, e).(air := s.air[1..]), s.air[0], t, trust, owed);
    }
  }

  /** One transmission; a request or a Success frame needs the channel, and Success spends a reply. */
  lemma GoodTransmit(c: Setup, s: Device, payload: seq<byte>, frame: seq<byte>, t: Start, trust: Trust, owed: nat)
    requires Good(s, t, trust, owed) && !trust.WhenCommissioning? && |payload| > 0
    requires payload[0] == CMD_COMMISSIONING || payload[0] == CMD_SUCCESS ==> trust.Always?
    requires payload[0] == CMD_SUCCESS ==> owed > 0
    ensures Good(Transmit(c, s, payload, frame), t, trust, if payload[0] == CMD_SUCCESS then owed - 1 else owed)
  {
    var e := Sent(s.gpd.channel, s.gpd.counter, payload, frame);
    Append(s.log, e, t);
    if s.gpd.rxAfterTx {
      GoodListen(c, Emit(s, e), t, trust, if payload[0] == CMD_SUCCESS then owed - 1 else owed);
    }
  }

  lemma GoodPrepare(s: Device, frameType: byte, payload: seq<byte>, t: Start, trust: Trust, owed: nat)
    requires Good(s, t, trust, owed)
    ensures Good(Prepare(s, frameType, payload), t, trust, owed)
  {
    var s1, r := Advance(s), Prepare(s, frameType, payload);
    Append(s.log, Saved(s1.nv, true), t);
    GoodEmit(s1, r.log[|s1.log|], t, trust, owed);
  }

  lemma GoodSend(c: Setup, s: Device, frameType: byte, payload: seq<byte>, t: Start, trust: Trust, owed: nat)
    requires Good(s, t, trust, owed) && !trust.WhenCommissioning? && |payload| > 0
    requires payload[0] == CMD_COMMISSIONING || payload[0] == CMD_SUCCESS ==> trust.Always?
    requires payload[0] == CMD_SUCCESS ==> owed > 0
    ensures Good(Send(c, s, frameType, payload, 1), t, trust, if payload[0] == CMD_SUCCESS then owed - 1 else owed)
  {
    hide Prepare;
    hide FrameFor;
    hide Transmit;
    SendOnce(c, s, frameType, payload);
    GoodPrepare(s, frameType, payload, t, trust, owed);
    var s1 := Prepare(s, frameType, payload);
    GoodTransmit(c, s1, Capped(payload), FrameFor(c, s1, frameType, payload), t, trust, owed);
  }

  /** A sweep opens no window, so it cannot leave the state that called for it. */
  lemma {:induction false} GoodSweepOnce(c: Setup, s: Device, channels: seq<byte>, t: Start)
    requires Good(s, t, WhenReceived, 0) && s.gpd.state == CHANNEL_REQUEST && !s.gpd.rxAfterTx
    ensures var r := SweepOnce(c, s, channels);
      Good(r, t, WhenReceived, 0) && r.gpd.state == CHANNEL_REQUEST && !r.gpd.rxAfterTx
    decreases |channels|
  {
    if channels != [] {
      var s1 := s.(gpd := s.gpd.(channel := channels[0]));
      GoodSend(c, s1, MAINTENANCE, CHANNEL_REQUEST_PAYLOAD, t, WhenReceived, 0);
      UnheardSend(c, s1, MAINTENANCE, CHANNEL_REQUEST_PAYLOAD);
      GoodSweepOnce(c, SendChannelRequest(c, s, channels[0]), channels[1..], t);
    }
  }

  lemma UnheardSend(c: Setup, s: Device, frameType: byte, payload: seq<byte>)
    requires !s.gpd.rxAfterTx && |payload| > 0
    ensures var r := Send(c, s, frameType, payload, 1); r.gpd.state == s.gpd.state && !r.gpd.rxAfterTx
  {
    hide FrameFor;
    SendOnce(c, s, frameType, payload);
  }

  lemma {:induction false} GoodSweep(c: Setup, s: Device, channels: seq<byte>, rounds: nat, t: Start)
    requires Good(s, t, WhenReceived, 0) && s.gpd.state == CHANNEL_REQUEST && !s.gpd.rxAfterTx
    ensures var r := Sweep(c, s, channels, rounds); Good(r, t, WhenReceived, 0) && r.gpd.state == CHANNEL_REQUEST
    decreases rounds
  {
    if rounds > 0 {
      GoodSweepOnce(c, s, channels, t);
      GoodSweep(c, SweepOnce(c, s, channels), channels, rounds - 1, t);
    }
  }

  /** However the replies fall, the phase ends with a channel received on trust or back in the request state. */
  lemma {:induction false} GoodRxRequests(c: Setup, s: Device, k: nat, t: Start)
    requires Good(s, t, WhenReceived, 0)
    ensures Good(RxRequests(c, s, k), t, WhenCommissioning, 0)
    decreases k
  {
    hide Send;
    if k > 0 && s.gpd.state != CHANNEL_RECEIVED {
      var s1 := s.(gpd := s.gpd.(channel := RX_CHANNEL));
      GoodSend(c, s1, MAINTENANCE, CHANNEL_REQUEST_PAYLOAD, t, WhenReceived, 0);
      GoodRxRequests(c, SendChannelRequest(c, s, RX_CHANNEL), k - 1, t);
    }
  }

  lemma GoodChannelRequestStep(c: Setup, s: Device, t: Start)
    requires Good(s, t, WhenCommissioning, 0) && s.gpd.state == CHANNEL_REQUEST
    ensures Good(ChannelRequestStep(c, s), t, WhenCommissioning, 0)
  {
    var s1 := s.(gpd := s.gpd.(level := 0, keyType := KEY_TYPE_NONE));
    if !s.onRxChannel {
      GoodSweep(c, s1.(gpd := s1.gpd.(rxAfterTx := false, autoCommissioning := true)), c.channels, c.sweepRounds, t);
    } else {
      GoodRxRequests(c, s1.(gpd := s1.gpd.(rxAfterTx := true, autoCommissioning := false)), c.rxRequests, t);
    }
  }

  lemma GoodRequestStep(c: Setup, s: Device, t: Start)
    requires Good(s, t, WhenCommissioning, 0) && s.gpd.state == CHANNEL_RECEIVED
    ensures Good(RequestStep(c, s), t, WhenCommissioning, 0)
  {
    if s.gpd.currentCommReq < c.maxRequests {
      var s1 := WrapKey(s.(gpd := s.gpd.(level := 0)));
      GoodEmit(s, Wrapped(LINK_KEY, s1.nonceTx), t, Always, 0);
      GoodSend(c, s1, DATA, CommissioningCommand(c, s1), t, Always, 0);
    }
  }

  lemma GoodSuccess(c: Setup, s: Device, t: Start)
    requires Good(s, t, WhenCommissioning, 0) && s.gpd.state == REPLY_RECEIVED
    ensures Good(Send(c, SetState(s, SUCCESS_REQUEST), DATA, [CMD_SUCCESS], 1), t, WhenCommissioning, 0)
  {
    GoodSend(c, SetState(s, SUCCESS_REQUEST), DATA, [CMD_SUCCESS], t, Always, 1);
  }

  lemma GoodCommission(c: Setup, s: Device, t: Start)
    requires Good(s, t, WhenCommissioning, 0)
    ensures Good(Commission(c, s), t, WhenCommissioning, 0)
  {
    var state := s.gpd.state;
    if state == CHANNEL_REQUEST {
      GoodChannelRequestStep(c, s, t);
    } else if state == CHANNEL_RECEIVED {
      GoodRequestStep(c, s, t);
    } else if state == REPLY_RECEIVED {
      GoodSuccess(c, s, t);
    }
  }

  lemma GoodStore(s: Device, t: Start)
    requires Good(s, t, WhenCommissioning, 0)
    ensures Good(Store(s), t, WhenCommissioning, 0)
  {
    var nv := Shadow(s.gpd, s.nv);
    assert nv[22] == s.gpd.channel && nv[23] == s.gpd.state;
    if Vouches(s.gpd.state, WhenCommissioning) {
      LatestIsNamed(s.log, t, s.gpd.channel);
    }
    Append(s.log, Saved(nv, false), t);
  }

  lemma GoodToggle(c: Setup, s: Device, t: Start)
    requires Good(s, t, WhenCommissioning, 0)
    ensures Good(SetState(Send(c, s, DATA, [CMD_TOGGLE], 1), OPERATIONAL), t, WhenCommissioning, 0)
  {
    GoodSend(c, s, DATA, [CMD_TOGGLE], t, WhenReceived, 0);
  }

  lemma GoodDecommission(c: Setup, s: Device, t: Start)
    requires Good(s, t, WhenCommissioning, 0)
    ensures Good(Decommission(c, s), t, WhenCommissioning, 0)
  {
    hide Send;
    GoodSend(c, s, DATA, [CMD_DECOMMISSIONING], t, WhenReceived, 0);
    var s1 := Send(c, s, DATA, [CMD_DECOMMISSIONING], 1);
    GoodEmit(s1.(gpd := Defaults(c, s1.gpd)), Defaulted(c.key), t, WhenCommissioning, 0);
    GoodStore(Emit(s1.(gpd := Defaults(c, s1.gpd)), Defaulted(c.key)), t);
  }

  lemma GoodUpdate(c: Setup, s: Device, t: Start)
    requires Good(s, t, WhenCommissioning, 0)
    ensures Good(Update(c, s), t, WhenCommissioning, 0)
  {
    var state := s.gpd.state;
    if CHANNEL_REQUEST <= state <= REPLY_RECEIVED {
      GoodCommission(c, s, t);
    } else if state == COMMAND_REQUEST {
      GoodToggle(c, s, t);
    } else if state == INVALID {
      GoodDecommission(c, s, t);
    }
  }

  lemma GoodApply(c: Setup, s: Device, op: Op, t: Start)
    requires Good(s, t, WhenCommissioning, 0) && InSession(op)
    ensures Good(Apply(c, s, op), t, WhenCommissioning, 0)
  {
    match op
    case Pass =>
      GoodUpdate(c, s, t);
      GoodStore(Update(c, s), t);
    case AppDecommission => GoodDecommission(c, s, t);
    case _ =>
  }

  lemma {:induction false} GoodPlay(c: Setup, s: Device, ops: seq<Op>, t: Start)
    requires Good(s, t, WhenCommissioning, 0) && forall op :: op in ops ==> InSession(op)
    ensures Good(Play(c, s, ops), t, WhenCommissioning, 0)
    decreases |ops|
  {
    if ops != [] {
      GoodApply(c, s, ops[0], t);
      GoodPlay(c, Apply(c, s, ops[0]), ops[1..], t);
    }
  }

  /** In every session that starts uncommissioned: each Commissioning Request and each Success frame goes out on
      the channel of the latest Channel Configuration heard in that session, none goes out before one was heard,
      and Success frames never outnumber the replies processed. */
  lemma SessionDiscipline(c: Setup, s: Device, ops: seq<Op>)
    requires s.gpd.state == NOT_COMMISSIONED && forall op :: op in ops ==> InSession(op)
    ensures var n, log := |s.log|, Play(c, s, ops).log;
      ChannelDiscipline(log, n) && Successes(log, n) <= Replies(log, n)
  {
    hide Play;
    var n, t, log := |s.log|, Start(|s.log|, None, Some(s.nv[22]), 0), Play(c, s, ops).log;
    GoodPlay(c, s, ops, t);
    forall i | n <= i < |log| && NeedsChannel(log[i]) ensures LatestChannel(log[..i], n) == Some(log[i].channel) {
      assert InOrder(log[..i], log[i], t);
    }
  }

  /** Event i is the last Channel Configuration since the history was n events long. */
  ghost predicate LastConfiguration(log: seq<Event>, n: nat, i: nat)
  {
    n <= i < |log| && log[i].Configured? && forall j :: i < j < |log| ==> !log[j].Configured?
  }

  /** LatestChannel is what its name says: it is a channel exactly if the last Channel Configuration, of which there
      is one then, was for that channel. */
  lemma {:induction false} LatestChannelIff(log: seq<Event>, n: nat, channel: byte)
    ensures LatestChannel(log, n) == Some(channel)
      <==> exists i: nat :: LastConfiguration(log, n, i) && log[i].channel == channel
    decreases |log|
  {
    if |log| > n {
      var k := |log| - 1;
      var past := log[..k];
      if log[k].Configured? {
        assert LastConfiguration(log, n, k);
      } else {
        LatestChannelIff(past, n, channel);
        assert forall i: nat :: LastConfiguration(past, n, i) <==> LastConfiguration(log, n, i) by {
          forall i: nat ensures LastConfiguration(past, n, i) <==> LastConfiguration(log, n, i) {
            QuietEnd(past, log[k], n, i);
            assert past + [log[k]] == log;
          }
        }
      }
    }
  }

  lemma QuietEnd(past: seq<Event>, e: Event, n: nat, i: nat)
    requires !e.Configured?
    ensures LastConfiguration(past, n, i) <==> LastConfiguration(past + [e], n, i)
  {
    var log := past + [e];
    assert forall j :: 0 <= j < |past| ==> log[j] == past[j];
  }
}
