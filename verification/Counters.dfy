/** Frame counters and nonces over every run, power loss included. */
module Counters {
  import opened Bytes
  import opened Frames
  import opened Gpd
  import opened Effects
  import opened Runs

  /** The counter in flash after a history, 0 before anything was saved. */
  function FlashCounter(log: seq<Event>): uint32
  {
    match FlashOf(log)
    case None => 0
    case Some(image) => ImageCounter(image)
  }

  /** Whether a counter was saved and no frame has been built on it yet. */
  predicate Unspent(log: seq<Event>)
  {
    if log == [] then false
    else
      var e := log[|log| - 1];
      if e.Saved? && e.forCounter then true
      else if e.Built? then false
      else Unspent(log[..|log| - 1])
  }

  /** The frame being transmitted: the last one built. */
  function LastBuilt(log: seq<Event>): Option<Event>
  {
    if log == [] then None
    else
      var e := log[|log| - 1];
      if e.Built? then Some(e) else LastBuilt(log[..|log| - 1])
  }

  /** These bytes are the frame that b records: its payload under its key and the nonce of its own counter, for our
      source id. */
  ghost predicate IsFrameOf(c: Setup, b: Event, counter: uint32, payload: seq<byte>, frame: seq<byte>)
  {
    b.Built? && b.payload == payload && b.counter == counter && b.nonce == TxNonce(c.srcId, counter) &&
    1 <= |payload| <= MAX_PAYLOAD &&
    exists t: TxFields, frameType: byte :: FramedAs(c, b, counter, frame, t, frameType)
  }

  predicate FramedAs(c: Setup, b: Event, counter: uint32, frame: seq<byte>, t: TxFields, frameType: byte)
    requires b.Built? && 1 <= |b.payload| <= MAX_PAYLOAD
  {
    && t.srcId == c.srcId && t.counter == counter && b.level == (if frameType == DATA then t.level else 0)
    && frame == Frame(c.E, b.key, b.nonce, t, frameType, b.payload)
  }

  /** What each event owes to the events before it. */
  ghost predicate Ordered(c: Setup, past: seq<Event>, e: Event)
  {
    match e
    case Saved(image, forCounter) =>
      if forCounter then
        FlashOf(past).Some? && ImageCounter(image) == (FlashCounter(past) + 1) % 0x1_0000_0000
      else
        FlashOf(past).Some? ==> ImageCounter(image) == FlashCounter(past)
    case Wrapped(key, nonce) => key == LINK_KEY && nonce == TxNonce(c.srcId, c.srcId)
    case Built(key, nonce, level, counter, payload) =>
      FlashOf(past).Some? && Unspent(past) && counter == FlashCounter(past) && nonce == TxNonce(c.srcId, counter)
    case Sent(channel, counter, payload, frame) =>
      FlashOf(past).Some? && !Unspent(past) && counter == FlashCounter(past)
      && LastBuilt(past).Some? && IsFrameOf(c, LastBuilt(past).value, counter, payload, frame)
    case _ => true
  }

  ghost predicate Disciplined(c: Setup, log: seq<Event>)
  {
    log == [] ||
    (Disciplined(c, log[..|log| - 1]) && Ordered(c, log[..|log| - 1], log[|log| - 1]))
  }

  /** A counter save that wrote 0: the 32-bit counter has rolled over. */
  predicate Rollover(e: Event)
  {
    e.Saved? && e.forCounter && ImageCounter(e.image) == 0
  }

  predicate RolledOver(log: seq<Event>)
  {
    exists i :: 0 <= i < |log| && Rollover(log[i])
  }

  // ------------------------------------------------ every operation keeps it

  ghost predicate Kept(c: Setup, s: Device)
  {
    && Disciplined(c, s.log)
    && s.flash == FlashOf(s.log) && s.flash.Some? && ImageCounter(s.flash.value) == s.gpd.counter
    && s.gpd.srcId == c.srcId
    && s.nonceTx[..8] == Le4(c.srcId) + Le4(c.srcId) && s.nonceTx[12..] == [0x05]
    && s.nonceRx[..8] == [0, 0, 0, 0] + Le4(c.srcId) && s.nonceRx[12..] == [0x05]
    && s.ccmKey == LoadedKey(s.log) && s.gpd.key == RecordKey(s.log)
  }

  /** s' comes later than s: it keeps the invariant and has only added to the history. */
  ghost predicate Follows(c: Setup, s: Device, s': Device)
  {
    Kept(c, s') && s.log <= s'.log
  }

  lemma Append(c: Setup, log: seq<Event>, e: Event)
    requires Disciplined(c, log) && Ordered(c, log, e)
    ensures Disciplined(c, log + [e])
    ensures FlashOf(log + [e]) == if e.Saved? then Some(e.image) else FlashOf(log)
    ensures Unspent(log + [e]) <==> (e.Saved? && e.forCounter) || (Unspent(log) && !e.Built?)
    ensures LastBuilt(log + [e]) == if e.Built? then Some(e) else LastBuilt(log)
    ensures LoadedKey(log + [e]) == LoadedBy(LoadedKey(log), e)
    ensures RecordKey(log + [e]) == RecordedBy(RecordKey(log), e)
  {
    assert (log + [e])[..|log|] == log;
  }

  /** Nothing was built or saved between the two. */
  predicate SameFrame(s: Device, r: Device)
  {
    (Unspent(r.log) <==> Unspent(s.log)) && LastBuilt(r.log) == LastBuilt(s.log) && r.gpd.counter == s.gpd.counter
  }

  lemma KeepQuiet(c: Setup, s: Device, e: Event)
    requires Kept(c, s) && (e.Listened? || e.Configured?)
    ensures Follows(c, s, Emit(s, e)) && SameFrame(s, Emit(s, e))
  {
    Append(c, s.log, e);
  }

  lemma KeepDeliver(c: Setup, s: Device, p: Packet)
    requires Kept(c, s)
    ensures Follows(c, s, Deliver(c, s, p))
    ensures SameFrame(s, Deliver(c, s, p))
  {
    var rx, o := DeliverShape(c, s, p);
    var r := s.(rx := rx);
    match o
    case Ignored =>
    case Config(channel) => KeepQuiet(c, r, Configured(channel));
    case CommReply(at) =>
      ReplyUndisturbed(c, r, at);
      Append(c, s.log, Replied(!ReplyFails(c, r, at), r.gpd.state, Reply(c, r, at).gpd.key));
  }

  lemma {:induction false} KeepDeliverAll(c: Setup, s: Device, w: Window)
    requires Kept(c, s)
    ensures Follows(c, s, DeliverAll(c, s, w))
    ensures SameFrame(s, DeliverAll(c, s, w))
    decreases |w|
  {
    if w != [] {
      KeepDeliver(c, s, w[0]);
      KeepDeliverAll(c, Deliver(c, s, w[0]), w[1..]);
    }
  }

  lemma KeepListen(c: Setup, s: Device)
    requires Kept(c, s)
    ensures Follows(c, s, Listen(c, s)) && SameFrame(s, Listen(c, s))
  {
    KeepQuiet(c, s, Listened(s.gpd.channel));
    if s.air != [] {
      KeepDeliverAll(c, Emit(s, Listened(s.gpd.channel)).(air := s.air[1..]), s.air[0]);
    }
  }

  lemma {:induction false} KeepRepeat(c: Setup, s: Device, payload: seq<byte>, frame: seq<byte>, n: nat)
    requires Kept(c, s) && !Unspent(s.log) && LastBuilt(s.log).Some?
    requires IsFrameOf(c, LastBuilt(s.log).value, s.gpd.counter, payload, frame)
    ensures Follows(c, s, Repeat(c, s, payload, frame, n))
    decreases n
  {
    if n > 0 {
      var e := Sent(s.gpd.channel, s.gpd.counter, payload, frame);
      Append(c, s.log, e);
      if s.gpd.rxAfterTx {
        KeepListen(c, Emit(s, e));
      }
      KeepRepeat(c, Transmit(c, s, payload, frame), payload, frame, n - 1);
    }
  }

  lemma KeepAdvance(c: Setup, s: Device)
    requires Kept(c, s)
    ensures var r := Advance(s); Follows(c, s, r) && Unspent(r.log) && r.nonceTx == TxNonce(c.srcId, r.gpd.counter)
  {
    var r := Advance(s);
    var counter := (s.gpd.counter + 1) % 0x1_0000_0000;
    WordOfLe4(counter);
    assert r.nv[..4] == Le4(counter);
    Append(c, s.log, Saved(r.nv, true));
    assert r.nonceTx == TxNonce(c.srcId, counter);
  }

  lemma KeepPrepare(c: Setup, s: Device, frameType: byte, payload: seq<byte>)
    requires Kept(c, s) && 1 <= |payload|
    ensures var r := Prepare(s, frameType, payload);
      && Follows(c, s, r) && !Unspent(r.log) && LastBuilt(r.log).Some?
      && IsFrameOf(c, LastBuilt(r.log).value, r.gpd.counter, Capped(payload), FrameFor(c, r, frameType, payload))
  {
    hide Advance;
    KeepAdvance(c, s);
    var s1, r := Advance(s), Prepare(s, frameType, payload);
    var e := r.log[|s1.log|];
    Append(c, s1.log, e);
    assert FramedAs(c, e, r.gpd.counter, FrameFor(c, r, frameType, payload), r.gpd.Tx(), frameType);
  }

  lemma KeepSend(c: Setup, s: Device, frameType: byte, payload: seq<byte>, repeats: nat)
    requires Kept(c, s) && 1 <= |payload|
    ensures Follows(c, s, Send(c, s, frameType, payload, repeats))
  {
    hide Prepare;
    hide FrameFor;
    KeepPrepare(c, s, frameType, payload);
    var s1 := Prepare(s, frameType, payload);
    KeepRepeat(c, s1, Capped(payload), FrameFor(c, s1, frameType, payload), if repeats == 0 then 1 else repeats);
  }

  lemma KeepStore(c: Setup, s: Device)
    requires Kept(c, s)
    ensures Follows(c, s, Store(s))
  {
    WordOfLe4(s.gpd.counter);
    assert Store(s).nv[..4] == Le4(s.gpd.counter);
    Append(c, s.log, Saved(Store(s).nv, false));
  }

  /** The wrap of a Commissioning Request. */
  lemma KeepWrap(c: Setup, s: Device)
    requires Kept(c, s)
    ensures Follows(c, s, WrapKey(s.(gpd := s.gpd.(level := 0))))
  {
    var s1 := WrapKey(s.(gpd := s.gpd.(level := 0)));
    assert s1.nonceTx == TxNonce(c.srcId, c.srcId);
    Append(c, s.log, Wrapped(LINK_KEY, s1.nonceTx));
    assert s1.nonceTx[..8] == s.nonceTx[..8] && s1.nonceTx[12..] == s.nonceTx[12..];
  }

  lemma KeepSendRequest(c: Setup, s: Device)
    requires Kept(c, s)
    ensures Follows(c, s, SendRequest(c, s))
  {
    var s1 := WrapKey(s.(gpd := s.gpd.(level := 0)));
    KeepWrap(c, s);
    KeepSend(c, s1, DATA, CommissioningCommand(c, s1), 1);
  }

  lemma KeepChannelRequest(c: Setup, s: Device, channel: byte)
    requires Kept(c, s)
    ensures Follows(c, s, SendChannelRequest(c, s, channel))
  {
    KeepSend(c, s.(gpd := s.gpd.(channel := channel)), MAINTENANCE, CHANNEL_REQUEST_PAYLOAD, 1);
  }

  lemma KeepChannelRequestStep(c: Setup, s: Device)
    requires Kept(c, s)
    ensures Follows(c, s, ChannelRequestStep(c, s))
  {
    hide SendChannelRequest;
    hide ChannelRequestStep;
    var I := (r: Device) => Follows(c, s, r);
    forall r: Device, channel: byte | I(r) ensures I(SendChannelRequest(c, r, channel)) {
      KeepChannelRequest(c, r, channel);
    }
    ChannelRequestStepKeeps(c, s, I);
  }

  lemma KeepSuccess(c: Setup, s: Device)
    requires Kept(c, s)
    ensures Follows(c, s, Send(c, SetState(s, SUCCESS_REQUEST), DATA, [CMD_SUCCESS], 1))
  {
    KeepSend(c, SetState(s, SUCCESS_REQUEST), DATA, [CMD_SUCCESS], 1);
  }

  lemma KeepCommission(c: Setup, s: Device)
    requires Kept(c, s)
    ensures Follows(c, s, Commission(c, s))
  {
    hide Send;
    var state := s.gpd.state;
    if state == CHANNEL_REQUEST {
      KeepChannelRequestStep(c, s);
    } else if state == CHANNEL_RECEIVED {
      KeepSendRequest(c, s);
    } else if state == REPLY_RECEIVED {
      KeepSuccess(c, s);
    }
  }

  lemma KeepDecommission(c: Setup, s: Device)
    requires Kept(c, s)
    ensures Follows(c, s, Decommission(c, s))
  {
    hide Send;
    KeepSend(c, s, DATA, [CMD_DECOMMISSIONING], 1);
    var s1 := Send(c, s, DATA, [CMD_DECOMMISSIONING], 1);
    Append(c, s1.log, Defaulted(c.key));
    KeepStore(c, Emit(s1.(gpd := Defaults(c, s1.gpd)), Defaulted(c.key)));
  }

  lemma KeepUpdate(c: Setup, s: Device)
    requires Kept(c, s)
    ensures Follows(c, s, Update(c, s))
  {
    var state := s.gpd.state;
    if CHANNEL_REQUEST <= state <= REPLY_RECEIVED {
      KeepCommission(c, s);
    } else if state == COMMAND_REQUEST {
      KeepSend(c, s, DATA, [CMD_TOGGLE], 1);
    } else if state == INVALID {
      KeepDecommission(c, s);
    }
  }

  lemma KeepTick(c: Setup, s: Device)
    requires Kept(c, s)
    ensures Follows(c, s, Tick(c, s))
  {
    KeepUpdate(c, s);
    KeepStore(c, Update(c, s));
  }

  lemma OwnNonce(srcId: uint32, counter: uint32)
    ensures var n := TxNonce(srcId, counter); n[..8] == Le4(srcId) + Le4(srcId) && n[12..] == [0x05]
    ensures var n := RxNonce(srcId, counter); n[..8] == [0, 0, 0, 0] + Le4(srcId) && n[12..] == [0x05]
  {
  }

  /** Loading on power-up agrees with flash, and saves to it if it is empty. */
  lemma KeepLoad(c: Setup, s: Device)
    requires Disciplined(c, s.log) && s.flash == FlashOf(s.log) && s.gpd.counter == 0
    ensures var r := Load(s);
      && Disciplined(c, r.log) && s.log <= r.log && r.gpd.srcId == s.gpd.srcId
      && r.flash == FlashOf(r.log) && r.flash.Some? && ImageCounter(r.flash.value) == r.gpd.counter
  {
    if s.flash.None? {
      var r := Load(s);
      WordOfLe4(0);
      assert r.nv[..4] == Le4(0);
      Append(c, s.log, Saved(r.nv, false));
    }
  }

  lemma KeepBoot(c: Setup, air: seq<Window>, log: seq<Event>)
    requires Disciplined(c, log)
    ensures var r := Boot(c, FlashOf(log), air, log); Kept(c, r) && log <= r.log
  {
    hide TxNonce;
    hide RxNonce;
    hide Load;
    var cold := Cold(FlashOf(log), air, log);
    var s := cold.(gpd := Defaults(c, cold.gpd));
    KeepLoad(c, s);
    var r := Load(s);
    Append(c, r.log, Booted(r.gpd.key));
    OwnNonce(c.srcId, r.gpd.counter);
  }

  lemma KeepApply(c: Setup, s: Device, op: Op)
    requires Kept(c, s)
    ensures Follows(c, s, Apply(c, s, op))
  {
    match op
    case Restart => KeepBoot(c, s.air, s.log);
    case Pass => KeepTick(c, s);
    case AppSend(frameType, payload, repeats) => KeepSend(c, s, frameType, payload, repeats);
    case AppDecommission => KeepDecommission(c, s);
    case _ =>
  }

  lemma {:induction false} DisciplinedPrefix(c: Setup, log: seq<Event>, k: nat)
    requires Disciplined(c, log) && k <= |log|
    ensures Disciplined(c, log[..k])
    decreases |log|
  {
    if k < |log| {
      assert log[..|log| - 1][..k] == log[..k];
      DisciplinedPrefix(c, log[..|log| - 1], k);
    } else {
      assert log[..k] == log;
    }
  }

  lemma KeepSurvivors(c: Setup, before: seq<Event>, after: seq<Event>, cut: nat)
    requires Disciplined(c, after) && before <= after
    ensures var kept := Survives(after, |before|, cut); Disciplined(c, kept) && before <= kept
  {
    if |before| + cut <= |after| {
      DisciplinedPrefix(c, after, |before| + cut);
    }
  }

  lemma KeepRecover(c: Setup, before: seq<Event>, kept: seq<Event>, air: seq<Window>)
    requires Disciplined(c, kept) && before <= kept
    ensures Kept(c, Recover(c, kept, air)) && before <= Recover(c, kept, air).log
  {
    KeepBoot(c, air, kept);
  }

  lemma KeepExec(c: Setup, s: Device, step: Step)
    requires Kept(c, s)
    ensures Follows(c, s, Exec(c, s, step))
  {
    KeepApply(c, s, step.op);
    if step.PowerLoss? {
      var log := Apply(c, s, step.op).log;
      KeepSurvivors(c, s.log, log, step.cut);
      KeepRecover(c, s.log, Survives(log, |s.log|, step.cut), step.air);
    }
  }

  lemma {:induction false} KeepRun(c: Setup, s: Device, steps: seq<Step>)
    requires Kept(c, s)
    ensures Follows(c, s, Run(c, s, steps))
    decreases |steps|
  {
    if steps != [] {
      KeepExec(c, s, steps[0]);
      KeepRun(c, Exec(c, s, steps[0]), steps[1..]);
    }
  }

  lemma KeepFactory(c: Setup, air: seq<Window>)
    ensures Kept(c, Factory(c, air))
  {
    KeepBoot(c, air, []);
  }
}
