/** The two channel-request phases: what the sweep sends, and what ends the phase on the rx channel. */
module ChannelRequests {
  import opened Bytes
  import opened Frames
  import opened Gpd
  import opened Effects

  // ------------------------------------------------------------- the sweep

  /** The channels of the frames sent, in order. */
  function SentChannels(log: seq<Event>): seq<byte>
  {
    if log == [] then []
    else
      var e := log[|log| - 1];
      SentChannels(log[..|log| - 1]) + if e.Sent? then [e.channel] else []
  }

  function Windows(log: seq<Event>): nat
  {
    if log == [] then 0
    else Windows(log[..|log| - 1]) + if log[|log| - 1].Listened? then 1 else 0
  }

  function Times(channels: seq<byte>, rounds: nat): (t: seq<byte>)
    ensures |t| == rounds * |channels|
  {
    if rounds == 0 then [] else channels + Times(channels, rounds - 1)
  }

  function Occurrences(s: seq<byte>, x: byte): nat
  {
    multiset(s)[x]
  }

  lemma OneMore(k: nat, o: nat)
    requires k > 0
    ensures o + (k - 1) * o == k * o
  {
  }

  lemma OccurrencesOfBoth(s: seq<byte>, t: seq<byte>, x: byte)
    ensures Occurrences(s + t, x) == Occurrences(s, x) + Occurrences(t, x)
  {
    assert multiset(s + t) == multiset(s) + multiset(t);
  }

  lemma {:induction false} TimesCounts(channels: seq<byte>, rounds: nat, x: byte)
    ensures Occurrences(Times(channels, rounds), x) == rounds * Occurrences(channels, x)
  {
    hide Occurrences;
    if rounds == 0 {
      assert Occurrences([], x) == 0 by { NoOccurrences(x); }
    } else {
      TimesCounts(channels, rounds - 1, x);
      OccurrencesOfBoth(channels, Times(channels, rounds - 1), x);
      OneMore(rounds, Occurrences(channels, x));
    }
  }

  lemma NoOccurrences(x: byte)
    ensures Occurrences([], x) == 0
  {
  }

  lemma Append(log: seq<Event>, e: Event)
    ensures SentChannels(log + [e]) == SentChannels(log) + if e.Sent? then [e.channel] else []
    ensures Windows(log + [e]) == Windows(log) + if e.Listened? then 1 else 0
  {
    assert (log + [e])[..|log|] == log;
  }

  /** What a number of unheard sends amounts to. */
  ghost predicate Swept(s: Device, r: Device, channels: seq<byte>)
  {
    && SentChannels(r.log) == SentChannels(s.log) + channels
    && Windows(r.log) == Windows(s.log) && r.air == s.air
    && r.gpd.counter == (s.gpd.counter + |channels|) % 0x1_0000_0000
    && r.gpd.state == s.gpd.state && r.gpd.level == s.gpd.level && r.gpd.keyType == s.gpd.keyType && !r.gpd.rxAfterTx
  }

  lemma SweepOne(c: Setup, s: Device, channel: byte)
    requires !s.gpd.rxAfterTx
    ensures Swept(s, SendChannelRequest(c, s, channel), [channel])
  {
    hide FrameFor;
    var s0, p := s.(gpd := s.gpd.(channel := channel)), CHANNEL_REQUEST_PAYLOAD;
    SendOnce(c, s0, MAINTENANCE, p);
    var s1, s2 := Advance(s0), Prepare(s0, MAINTENANCE, p);
    Append(s.log, Saved(s1.nv, true));
    Append(s1.log, s2.log[|s1.log|]);
    Append(s2.log, Sent(channel, s1.gpd.counter, p, FrameFor(c, s2, MAINTENANCE, p)));
  }

  lemma SweptThen(s: Device, s1: Device, r: Device, a: seq<byte>, b: seq<byte>)
    requires Swept(s, s1, a) && Swept(s1, r, b)
    ensures Swept(s, r, a + b)
  {
    assert SentChannels(s.log) + (a + b) == SentChannels(s.log) + a + b;
  }

  lemma {:induction false} SweepOnceSends(c: Setup, s: Device, channels: seq<byte>)
    requires !s.gpd.rxAfterTx
    ensures Swept(s, SweepOnce(c, s, channels), channels)
    decreases |channels|
  {
    if channels != [] {
      var s1 := SendChannelRequest(c, s, channels[0]);
      SweepOne(c, s, channels[0]);
      SweepOnceSends(c, s1, channels[1..]);
      SweptThen(s, s1, SweepOnce(c, s1, channels[1..]), [channels[0]], channels[1..]);
      assert channels == [channels[0]] + channels[1..];
    } else {
      assert SentChannels(s.log) + [] == SentChannels(s.log);
    }
  }

  lemma {:induction false} SweepSends(c: Setup, s: Device, channels: seq<byte>, rounds: nat)
    requires !s.gpd.rxAfterTx
    ensures Swept(s, Sweep(c, s, channels, rounds), Times(channels, rounds))
    decreases rounds
  {
    if rounds > 0 {
      var s1 := SweepOnce(c, s, channels);
      SweepOnceSends(c, s, channels);
      SweepSends(c, s1, channels, rounds - 1);
      SweptThen(s, s1, Sweep(c, s1, channels, rounds - 1), channels, Times(channels, rounds - 1));
    } else {
      assert SentChannels(s.log) + [] == SentChannels(s.log);
    }
  }

  /** For any channel array and round count: the array goes out round after round, the counter steps once per
      frame, and no receive window opens. */
  lemma AllChannelsPhase(c: Setup, s: Device, channels: seq<byte>, rounds: nat)
    ensures Swept(s, RequestOnAllChannels(c, s, channels, rounds), Times(channels, rounds))
    ensures forall x :: Occurrences(Times(channels, rounds), x) == rounds * Occurrences(channels, x)
  {
    SweepSends(c, s.(gpd := s.gpd.(rxAfterTx := false, autoCommissioning := true)), channels, rounds);
    forall x ensures Occurrences(Times(channels, rounds), x) == rounds * Occurrences(channels, x) {
      TimesCounts(channels, rounds, x);
    }
  }

  // ------------------------------------------------------- the rx channel

  function Iterate<T>(f: T -> T, s: T, k: nat): T
  {
    if k == 0 then s else f(Iterate(f, s, k - 1))
  }

  lemma {:induction false} IterateFirst<T>(f: T -> T, s: T, k: nat)
    ensures Iterate(f, f(s), k) == Iterate(f, s, k + 1)
  {
    if k > 0 {
      IterateFirst(f, s, k - 1);
    }
  }

  /** At most n steps of f, none from where stop holds; and whether it was stop that ended them. */
  function Attempts<T>(f: T -> T, stop: T -> bool, s: T, n: nat): (T, bool)
    decreases n
  {
    if n == 0 then (s, false) else if stop(s) then (s, true) else Attempts(f, stop, f(s), n - 1)
  }

  lemma {:induction false} AttemptsEnd<T>(f: T -> T, stop: T -> bool, s: T, n: nat) returns (k: nat)
    ensures k <= n && Attempts(f, stop, s, n).0 == Iterate(f, s, k)
    ensures forall j :: 0 <= j < k ==> !stop(Iterate(f, s, j))
    ensures Attempts(f, stop, s, n).1 ==> k < n && stop(Iterate(f, s, k))
    ensures !Attempts(f, stop, s, n).1 ==> k == n
    decreases n
  {
    if n == 0 || stop(s) {
      k := 0;
    } else {
      var k1 := AttemptsEnd(f, stop, f(s), n - 1);
      k := k1 + 1;
      IterateFirst(f, s, k1);
      forall j | 0 <= j < k ensures !stop(Iterate(f, s, j)) {
        if j > 0 {
          IterateFirst(f, s, j - 1);
        }
      }
    }
  }

  /** One request on the rx channel, with whatever its window brings. */
  function Ask(c: Setup): Device -> Device
  {
    (s: Device) => SendChannelRequest(c, s, RX_CHANNEL)
  }

  function ChannelReceived(): Device -> bool
  {
    (s: Device) => s.gpd.state == CHANNEL_RECEIVED
  }

  lemma {:induction false} RxRequestsAttempt(c: Setup, s: Device, n: nat)
    ensures var (r, received) := Attempts(Ask(c), ChannelReceived(), s, n);
      RxRequests(c, s, n) == if received then r else SetState(r, CHANNEL_REQUEST)
    decreases n
  {
    hide SendChannelRequest;
    if n > 0 && s.gpd.state != CHANNEL_RECEIVED {
      RxRequestsAttempt(c, Ask(c)(s), n - 1);
    }
  }

  /** The phase ends with the first window, short of the n-th, that leaves a channel received;
      without one it ends back in the request state, whatever the n-th window brought. */
  lemma RxPhaseEnds(c: Setup, s: Device, n: nat) returns (k: nat)
    ensures k <= n && forall j :: 0 <= j < k ==> Iterate(Ask(c), s, j).gpd.state != CHANNEL_RECEIVED
    ensures var r := RxRequests(c, s, n);
      if k < n then r == Iterate(Ask(c), s, k) && r.gpd.state == CHANNEL_RECEIVED
      else r == SetState(Iterate(Ask(c), s, n), CHANNEL_REQUEST)
  {
    RxRequestsAttempt(c, s, n);
    k := AttemptsEnd(Ask(c), ChannelReceived(), s, n);
    forall j | 0 <= j < k ensures Iterate(Ask(c), s, j).gpd.state != CHANNEL_RECEIVED {
      assert !ChannelReceived()(Iterate(Ask(c), s, j));
    }
  }

  /** The state and channel that a stretch of history leaves, from those it started with. */
  function Heard(log: seq<Event>, n: nat, start: (byte, byte)): (byte, byte)
  {
    if |log| <= n then start
    else
      var e, before := log[|log| - 1], Heard(log[..|log| - 1], n, start);
      if e.Configured? then (CHANNEL_RECEIVED, e.channel)
      else if e.Replied? && e.ok then (REPLY_RECEIVED, before.1)
      else before
  }

  ghost predicate HeardSo(s: Device, n: nat, start: (byte, byte))
  {
    n <= |s.log| && (s.gpd.state, s.gpd.channel) == Heard(s.log, n, start)
    && forall i :: n <= i < |s.log| && s.log[i].Configured? ==> 11 <= s.log[i].channel <= 26
  }

  lemma HeardAppend(s: Device, e: Event, n: nat, start: (byte, byte))
    requires n <= |s.log|
    ensures Heard(s.log + [e], n, start) ==
      if e.Configured? then (CHANNEL_RECEIVED, e.channel)
      else if e.Replied? && e.ok then (REPLY_RECEIVED, Heard(s.log, n, start).1)
      else Heard(s.log, n, start)
  {
    assert (s.log + [e])[..|s.log|] == s.log;
  }

  lemma HeardDeliver(c: Setup, s: Device, p: Packet, n: nat, start: (byte, byte))
    requires HeardSo(s, n, start)
    ensures HeardSo(Deliver(c, s, p), n, start)
  {
    var rx, o := DeliverShape(c, s, p);
    hide Deliver;
    hide Reply;
    var r := s.(rx := rx);
    match o
    case Ignored =>
    case Config(channel) => HeardAppend(s, Configured(channel), n, start);
    case CommReply(at) =>
      ReplyUndisturbed(c, r, at);
      HeardAppend(s, Replied(!ReplyFails(c, r, at), s.gpd.state, Reply(c, r, at).gpd.key), n, start);
  }

  lemma {:induction false} HeardDeliverAll(c: Setup, s: Device, w: Window, n: nat, start: (byte, byte))
    requires HeardSo(s, n, start)
    ensures HeardSo(DeliverAll(c, s, w), n, start)
    decreases |w|
  {
    if w != [] {
      HeardDeliver(c, s, w[0], n, start);
      HeardDeliverAll(c, Deliver(c, s, w[0]), w[1..], n, start);
    }
  }

  /** After any single send the device is in the state, and on the channel, where the last decisive frame of its
      window put it. */
  lemma HeardSend(c: Setup, s: Device, frameType: byte, payload: seq<byte>, n: nat, start: (byte, byte))
    requires 1 <= |payload| && HeardSo(s, n, start)
    ensures HeardSo(Send(c, s, frameType, payload, 1), n, start)
  {
    hide FrameFor;
    hide DeliverAll;
    SendOnce(c, s, frameType, payload);
    var s1, s2 := Advance(s), Prepare(s, frameType, payload);
    var sent := Sent(s.gpd.channel, s1.gpd.counter, Capped(payload), FrameFor(c, s2, frameType, payload));
    var s3, listened := Emit(s2, sent), Listened(s.gpd.channel);
    HeardAppend(s, Saved(s1.nv, true), n, start);
    HeardAppend(s1, s2.log[|s1.log|], n, start);
    HeardAppend(s2, sent, n, start);
    if s.gpd.rxAfterTx {
      HeardAppend(s3, listened, n, start);
      var s4 := Emit(s3, listened);
      if s.air != [] {
        HeardDeliverAll(c, s4.(air := s.air[1..]), s.air[0], n, start);
      }
    }
  }

  /** After one request on the rx channel the device is where the last decisive frame of its window put it:
      a Channel Configuration, on its channel of 11 to 26, or a Commissioning Reply. */
  lemma WindowDecides(c: Setup, s: Device)
    ensures HeardSo(SendChannelRequest(c, s, RX_CHANNEL), |s.log|, (s.gpd.state, RX_CHANNEL))
  {
    hide Send;
    HeardSend(c, s.(gpd := s.gpd.(channel := RX_CHANNEL)), MAINTENANCE, CHANNEL_REQUEST_PAYLOAD, |s.log|,
              (s.gpd.state, RX_CHANNEL));
  }

  /** Whether the last decisive event since the history was n events long is a configuration of this channel. */
  ghost predicate EndsConfigured(log: seq<Event>, n: nat, channel: byte)
  {
    exists i :: n <= i < |log| && log[i] == Configured(channel)
                && forall j :: i < j < |log| ==> !log[j].Configured? && !(log[j].Replied? && log[j].ok)
  }

  lemma {:induction false} HeardConfiguration(log: seq<Event>, n: nat, start: (byte, byte))
    ensures forall channel: byte :: EndsConfigured(log, n, channel) ==>
      Heard(log, n, start) == (CHANNEL_RECEIVED, channel)
    ensures start.0 != CHANNEL_RECEIVED == Heard(log, n, start).0 ==> EndsConfigured(log, n, Heard(log, n, start).1)
    decreases |log|
  {
    if |log| > n {
      var last := |log| - 1;
      var e, past := log[last], log[..last];
      HeardConfiguration(past, n, start);
      if e.Configured? {
        assert EndsConfigured(log, n, e.channel);
      } else if !(e.Replied? && e.ok) {
        assert forall channel: byte :: EndsConfigured(past, n, channel) <==> EndsConfigured(log, n, channel) by {
          forall channel: byte ensures EndsConfigured(past, n, channel) <==> EndsConfigured(log, n, channel) {
            QuietEvent(past, e, n, channel);
            assert past + [e] == log;
          }
        }
      }
    }
  }

  lemma QuietEvent(past: seq<Event>, e: Event, n: nat, channel: byte)
    requires !e.Configured? && !(e.Replied? && e.ok)
    ensures EndsConfigured(past, n, channel) <==> EndsConfigured(past + [e], n, channel)
  {
    var log := past + [e];
    if EndsConfigured(past, n, channel) {
      var i :| n <= i < |past| && past[i] == Configured(channel)
               && forall j :: i < j < |past| ==> !past[j].Configured? && !(past[j].Replied? && past[j].ok);
      assert log[i] == Configured(channel);
    }
    if EndsConfigured(log, n, channel) {
      var i :| n <= i < |log| && log[i] == Configured(channel)
               && forall j :: i < j < |log| ==> !log[j].Configured? && !(log[j].Replied? && log[j].ok);
      assert past[i] == Configured(channel);
      forall j | i < j < |past| ensures !past[j].Configured? && !(past[j].Replied? && past[j].ok) {
        assert past[j] == log[j];
      }
    }
  }

  /** The device after k requests on the rx channel, in the phase that s enters. */
  function Asked(c: Setup, s: Device, k: nat): Device
  {
    Iterate(Ask(c), s.(gpd := s.gpd.(rxAfterTx := true, autoCommissioning := false)), k)
  }

  /** Whether the last decisive frame of the k-th window, k > 0, is a Channel Configuration for this channel. */
  ghost predicate WindowConfigures(c: Setup, s: Device, k: nat, channel: byte)
  {
    k > 0 && EndsConfigured(Asked(c, s, k).log, |Asked(c, s, k - 1).log|, channel)
  }

  ghost predicate FirstToConfigure(c: Setup, s: Device, n: nat, channel: byte)
  {
    exists k :: 0 < k < n && WindowConfigures(c, s, k, channel) && NoneConfigures(c, s, k)
  }

  ghost predicate NoneConfigures(c: Setup, s: Device, k: nat)
  {
    forall j, channel: byte :: 0 < j < k ==> !WindowConfigures(c, s, j, channel)
  }

  lemma WindowLeaves(c: Setup, s: Device, k: nat)
    requires k > 0
    ensures forall channel: byte :: WindowConfigures(c, s, k, channel) ==>
      Asked(c, s, k).gpd.state == CHANNEL_RECEIVED && Asked(c, s, k).gpd.channel == channel && 11 <= channel <= 26
    ensures Asked(c, s, k - 1).gpd.state != CHANNEL_RECEIVED == Asked(c, s, k).gpd.state ==>
      WindowConfigures(c, s, k, Asked(c, s, k).gpd.channel)
  {
    var before, after := Asked(c, s, k - 1), Asked(c, s, k);
    WindowDecides(c, before);
    HeardConfiguration(after.log, |before.log|, (before.gpd.state, RX_CHANNEL));
  }

  /** The rx-channel phase of n > 0 requests ends with a channel received exactly when the last decisive frame of
      one of its first n-1 windows was a Channel Configuration, and then on the channel of the first such window;
      otherwise, also when only the n-th window brought one, it ends in the request state. */
  lemma RxPhaseExact(c: Setup, s: Device, n: nat)
    requires s.gpd.state == CHANNEL_REQUEST && n > 0
    ensures var r := RequestOnRxChannel(c, s, n);
      && (r.gpd.state == CHANNEL_RECEIVED <==>
            exists k, channel: byte :: 0 < k < n && WindowConfigures(c, s, k, channel))
      && (r.gpd.state == CHANNEL_RECEIVED ==> 11 <= r.gpd.channel <= 26 && FirstToConfigure(c, s, n, r.gpd.channel))
      && (r.gpd.state == CHANNEL_RECEIVED || r.gpd.state == CHANNEL_REQUEST)
  {
    var s0 := s.(gpd := s.gpd.(rxAfterTx := true, autoCommissioning := false));
    var k := RxPhaseEnds(c, s0, n);
    assert Asked(c, s, 0).gpd.state == CHANNEL_REQUEST;
    forall j, channel: byte | 0 < j < k ensures !WindowConfigures(c, s, j, channel) {
      WindowLeaves(c, s, j);
      assert Iterate(Ask(c), s0, j) == Asked(c, s, j);
    }
    if k < n {
      assert Iterate(Ask(c), s0, k) == Asked(c, s, k) && Iterate(Ask(c), s0, k - 1) == Asked(c, s, k - 1);
      WindowLeaves(c, s, k);
      assert WindowConfigures(c, s, k, Asked(c, s, k).gpd.channel) && NoneConfigures(c, s, k);
    }
  }
}
