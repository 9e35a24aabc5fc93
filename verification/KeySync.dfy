/** The key loaded in CCM against the key in the device record. */
module KeySync {
  import opened Bytes
  import opened Ccm
  import opened Frames
  import opened Gpd
  import opened Effects
  import opened Runs
  import opened Counters

  /** From the reply on, until the device leaves operation. */
  predicate Commissioned(state: byte)
  {
    REPLY_RECEIVED <= state <= COMMAND_REQUEST
  }

  predicate InSync(s: Device)
  {
    Commissioned(s.gpd.state) ==> s.ccmKey == s.gpd.key
  }

  // ------------------------------------------------------ the exact condition

  /** Whether a history leaves the device's own key loaded, by the last event that concerns a key: power-up and a
      processed reply do, a failed reply does not, a wrap does if the record holds the link key itself, and a
      decommissioning does if the key it puts into the record was the loaded one. */
  predicate OwnKeyHeld(log: seq<Event>)
  {
    log == [] ||
    var past := log[..|log| - 1];
    match log[|log| - 1]
    case Booted(_) => true
    case Replied(ok, _, _) => ok
    case Wrapped(_, _) => RecordKey(past) == LINK_KEY
    case Defaulted(key) => LoadedKey(past) == key
    case _ => OwnKeyHeld(past)
  }

  lemma {:induction false} OwnKeyHeldIff(log: seq<Event>)
    ensures OwnKeyHeld(log) <==> LoadedKey(log) == RecordKey(log)
    decreases |log|
  {
    if log != [] {
      OwnKeyHeldIff(log[..|log| - 1]);
      assert LINK_KEY[0] != Zeros(16)[0];
    }
  }

  /** In every run, of any operations with anything in the air and any power losses, the history determines both
      keys, and so says exactly when they agree, and when a send command would put the device out of sync. */
  lemma EveryRunKeys(c: Setup, air: seq<Window>, steps: seq<Step>)
    ensures var s := Run(c, Factory(c, air), steps);
      && s.ccmKey == LoadedKey(s.log) && s.gpd.key == RecordKey(s.log)
      && (s.ccmKey == s.gpd.key <==> OwnKeyHeld(s.log))
      && (InSync(Apply(c, s, CommandSend)) <==> OwnKeyHeld(s.log))
  {
    hide Run;
    KeepFactory(c, air);
    KeepRun(c, Factory(c, air), steps);
    KeptKeys(c, Run(c, Factory(c, air), steps));
    CommandSendIff(c, Run(c, Factory(c, air), steps));
  }

  lemma KeptKeys(c: Setup, s: Device)
    requires Kept(c, s)
    ensures s.ccmKey == s.gpd.key <==> OwnKeyHeld(s.log)
  {
    OwnKeyHeldIff(s.log);
  }

  // --------------------------------------------- what a stretch of history does

  predicate TouchesKeys(e: Event)
  {
    e.Booted? || e.Wrapped? || e.Defaulted?
  }

  /** Since the history was n events long the only events that concern keys are replies. */
  ghost predicate RepliesOnly(log: seq<Event>, n: nat)
  {
    n <= |log| && forall i :: n <= i < |log| ==> !TouchesKeys(log[i])
  }

  /** Then the last of those replies decides. */
  lemma {:induction false} LastReplyDecides(log: seq<Event>, n: nat)
    requires RepliesOnly(log, n)
    ensures match LastReply(log, n)
      case None =>
        LoadedKey(log) == LoadedKey(log[..n]) && RecordKey(log) == RecordKey(log[..n])
        && (OwnKeyHeld(log) <==> OwnKeyHeld(log[..n]))
      case Some(e) =>
        LoadedKey(log) == (if e.ok then e.key else LINK_KEY) && (OwnKeyHeld(log) <==> e.ok)
    decreases |log|
  {
    if |log| > n {
      var past := log[..|log| - 1];
      assert past[..n] == log[..n];
      LastReplyDecides(past, n);
    } else {
      assert log[..n] == log;
    }
  }

  lemma {:induction false} LastReplySuffix(log: seq<Event>, m: nat, n: nat)
    requires m <= n <= |log| && forall i :: m <= i < n ==> !log[i].Replied?
    ensures LastReply(log, m) == LastReply(log, n)
    decreases |log|
  {
    if |log| > m && (|log| <= n || !log[|log| - 1].Replied?) {
      LastReplySuffix(log[..|log| - 1], m, if |log| <= n then |log| - 1 else n);
    }
  }

  lemma SendRepliesOnly(c: Setup, s: Device, frameType: byte, payload: seq<byte>, repeats: nat)
    requires 1 <= |payload|
    ensures var r := Send(c, s, frameType, payload, repeats); s.log <= r.log && RepliesOnly(r.log, |s.log|)
  {
    hide Send;
    SendTransmits(c, s, frameType, payload, repeats);
    assert Prepare(s, frameType, payload).log[..|s.log|] == s.log;
  }

  /** A toggle pass ends in operation, in sync exactly if the last reply in its window was processed, or if there was
      none and the device's own key was loaded before. */
  lemma ToggleIff(c: Setup, s: Device)
    requires Kept(c, s) && s.gpd.state == COMMAND_REQUEST
    ensures var r := Tick(c, s);
      && r.gpd.state == OPERATIONAL
      && (r.ccmKey == r.gpd.key <==>
            match LastReply(r.log, |s.log|) case None => s.ccmKey == s.gpd.key case Some(e) => e.ok)
  {
    hide Send;
    var sent, r := Send(c, s, DATA, [CMD_TOGGLE], 1), Tick(c, s);
    SendRepliesOnly(c, s, DATA, [CMD_TOGGLE], 1);
    assert r == Store(SetState(sent, OPERATIONAL));
    assert r.log[..|s.log|] == s.log;
    LastReplyDecides(r.log, |s.log|);
    KeepTick(c, s);
    KeptKeys(c, r);
    KeptKeys(c, s);
  }

  /** A send command keeps a device of any run in sync exactly if its history left its own key loaded. */
  lemma CommandSendIff(c: Setup, s: Device)
    requires Kept(c, s)
    ensures InSync(Apply(c, s, CommandSend)) <==> OwnKeyHeld(s.log)
  {
    KeptKeys(c, s);
  }

  /** Whatever the state, a reply leaves its own key loaded exactly if its key, when wrapped, unwraps; otherwise it
      leaves the link key loaded and zeros in the record. */
  lemma ReplyLoadsIff(c: Setup, s: Device, i: nat)
    requires i < 100
    ensures var r := Reply(c, s, i);
      && (r.ccmKey == r.gpd.key <==> !ReplyFails(c, s, i))
      && (ReplyFails(c, s, i) ==> r.ccmKey == LINK_KEY && r.gpd.key == Zeros(16))
  {
    ReplyUndisturbed(c, s, i);
    assert LINK_KEY[0] != Zeros(16)[0];
  }

  /** Decommissioning puts the configured key into the record and loads none: unless a reply comes in its window,
      the key loaded before stays loaded. */
  lemma DecommissionKeepsLoadedKey(c: Setup, s: Device)
    requires Kept(c, s)
    ensures var r := Decommission(c, s);
      && r.gpd.key == c.key
      && r.ccmKey == match LastReply(r.log, |s.log|)
                     case None => s.ccmKey
                     case Some(e) => if e.ok then e.key else LINK_KEY
  {
    hide Send;
    var sent, r := Send(c, s, DATA, [CMD_DECOMMISSIONING], 1), Decommission(c, s);
    SendRepliesOnly(c, s, DATA, [CMD_DECOMMISSIONING], 1);
    KeepSend(c, s, DATA, [CMD_DECOMMISSIONING], 1);
    assert sent.log[..|s.log|] == s.log;
    LastReplyDecides(sent.log, |s.log|);
    ReplyAppend(sent.log, Defaulted(c.key), |s.log|);
    ReplyAppend(sent.log + [Defaulted(c.key)], r.log[|r.log| - 1], |s.log|);
  }

  lemma ReplyAppend(log: seq<Event>, e: Event, n: nat)
    requires n <= |log| && !e.Replied?
    ensures LastReply(log + [e], n) == LastReply(log, n)
  {
    assert (log + [e])[..|log|] == log;
  }

  lemma KeyAppend(log: seq<Event>, e: Event)
    ensures LoadedKey(log + [e]) == LoadedBy(LoadedKey(log), e) && RecordKey(log + [e]) == RecordedBy(RecordKey(log), e)
    ensures !TouchesKeys(e) && !e.Replied? ==> (OwnKeyHeld(log + [e]) <==> OwnKeyHeld(log))
    ensures e.Booted? || (e.Replied? && e.ok) ==> OwnKeyHeld(log + [e])
  {
    assert (log + [e])[..|log|] == log;
  }

  /** A Commissioning Request leaves the link key loaded, unless a reply comes in its window. */
  lemma RequestLeavesLinkKey(c: Setup, s: Device)
    requires Kept(c, s) && s.gpd.state == CHANNEL_RECEIVED && s.gpd.currentCommReq < c.maxRequests
    ensures var r := Tick(c, s);
      match LastReply(r.log, |s.log|)
      case None => r.ccmKey == LINK_KEY && r.gpd.key == s.gpd.key
      case Some(e) => r.ccmKey == if e.ok then e.key else LINK_KEY
  {
    hide Send;
    hide CommissioningCommand;
    var s1 := WrapKey(s.(gpd := s.gpd.(level := 0)));
    var sent, r, n := SendRequest(c, s), Tick(c, s), |s.log| + 1;
    SendRepliesOnly(c, s1, DATA, CommissioningCommand(c, s1), 1);
    assert r.log[..n] == s1.log;
    KeyAppend(s.log, Wrapped(LINK_KEY, s1.nonceTx));
    LastReplyDecides(r.log, n);
    LastReplySuffix(r.log, |s.log|, n);
    KeepTick(c, s);
  }

  /** A toggle commanded right after a request that no reply answers, the toggle's window included, puts the device
      into operation with the link key loaded. */
  lemma EarlySendDesyncs(c: Setup, s: Device)
    requires Kept(c, s) && s.gpd.state == CHANNEL_RECEIVED && s.gpd.currentCommReq < c.maxRequests
    requires s.gpd.key != LINK_KEY
    ensures var s1 := Tick(c, s);
      var r := Tick(c, Apply(c, s1, CommandSend));
      && r.gpd.state == OPERATIONAL
      && (LastReply(s1.log, |s.log|).None? && LastReply(r.log, |s1.log|).None? ==> r.ccmKey != r.gpd.key)
  {
    hide Tick;
    RequestLeavesLinkKey(c, s);
    KeepTick(c, s);
    ToggleIff(c, Apply(c, Tick(c, s), CommandSend));
  }

  // ------------------------------------------------------- over whole runs

  /** Whether the last frame sent was a toggle, so that what is heard now is heard in a toggle's window. */
  predicate AfterToggle(log: seq<Event>)
  {
    if log == [] then false
    else
      var e := log[|log| - 1];
      if e.Sent? then e.payload == [CMD_TOGGLE] else AfterToggle(log[..|log| - 1])
  }

  /** A reply whose key does not unwrap, heard by a device that is commissioned or is sending a toggle. */
  predicate LateFailure(past: seq<Event>, e: Event)
  {
    e.Replied? && !e.ok && (Commissioned(e.state) || AfterToggle(past))
  }

  predicate Spoiled(log: seq<Event>)
  {
    log != [] && (Spoiled(log[..|log| - 1]) || LateFailure(log[..|log| - 1], log[|log| - 1]))
  }

  /** A commissioned device has a history that leaves its own key loaded; within a toggle's window that is needed of
      every state, as the pass ends in operation. */
  ghost predicate Synced(s: Device, toggling: bool)
  {
    Spoiled(s.log) ||
    if toggling then AfterToggle(s.log) && OwnKeyHeld(s.log) else Commissioned(s.gpd.state) ==> OwnKeyHeld(s.log)
  }

  lemma SyncAppend(log: seq<Event>, e: Event)
    ensures Spoiled(log + [e]) <==> Spoiled(log) || LateFailure(log, e)
    ensures AfterToggle(log + [e]) <==> if e.Sent? then e.payload == [CMD_TOGGLE] else AfterToggle(log)
    ensures !TouchesKeys(e) && !e.Replied? ==> (OwnKeyHeld(log + [e]) <==> OwnKeyHeld(log))
    ensures e.Booted? || (e.Replied? && e.ok) ==> OwnKeyHeld(log + [e])
  {
    KeyAppend(log, e);
    assert (log + [e])[..|log|] == log;
  }

  lemma SyncEmit(s: Device, e: Event, toggling: bool)
    requires Synced(s, toggling) && (toggling ==> !e.Sent?) && !TouchesKeys(e) && !e.Replied?
    ensures Synced(Emit(s, e), toggling)
  {
    SyncAppend(s.log, e);
  }

  lemma SyncDeliver(c: Setup, s: Device, p: Packet, toggling: bool)
    requires Synced(s, toggling)
    ensures Synced(Deliver(c, s, p), toggling)
  {
    var rx, o := DeliverShape(c, s, p);
    hide Deliver;
    hide Reply;
    match o
    case Ignored =>
    case Config(channel) => SyncAppend(s.log, Configured(channel));
    case CommReply(at) =>
      var r := s.(rx := rx);
      ReplyUndisturbed(c, r, at);
      SyncAppend(s.log, Replied(!ReplyFails(c, r, at), s.gpd.state, Reply(c, r, at).gpd.key));
  }

  lemma {:induction false} SyncDeliverAll(c: Setup, s: Device, w: Window, toggling: bool)
    requires Synced(s, toggling)
    ensures Synced(DeliverAll(c, s, w), toggling)
    decreases |w|
  {
    hide Deliver;
    if w != [] {
      SyncDeliver(c, s, w[0], toggling);
      SyncDeliverAll(c, Deliver(c, s, w[0]), w[1..], toggling);
    }
  }

  lemma SyncListen(c: Setup, s: Device, toggling: bool)
    requires Synced(s, toggling)
    ensures Synced(Listen(c, s), toggling)
  {
    hide DeliverAll;
    var e := Listened(s.gpd.channel);
    SyncEmit(s, e, toggling);
    if s.air != [] {
      SyncDeliverAll(c, Emit(s, e).(air := s.air[1..]), s.air[0], toggling);
    }
  }

  lemma {:induction false} SyncRepeat(c: Setup, s: Device, payload: seq<byte>, frame: seq<byte>, n: nat)
    requires Synced(s, false)
    ensures Synced(Repeat(c, s, payload, frame, n), false)
    decreases n
  {
    hide Listen;
    if n > 0 {
      var e := Sent(s.gpd.channel, s.gpd.counter, payload, frame);
      SyncEmit(s, e, false);
      if s.gpd.rxAfterTx {
        SyncListen(c, Emit(s, e), false);
      }
      SyncRepeat(c, Transmit(c, s, payload, frame), payload, frame, n - 1);
    }
  }

  lemma SyncPrepare(s: Device, frameType: byte, payload: seq<byte>)
    requires Synced(s, false)
    ensures Synced(Prepare(s, frameType, payload), false) && Prepare(s, frameType, payload).gpd.state == s.gpd.state
  {
    var s1, r := Advance(s), Prepare(s, frameType, payload);
    SyncAppend(s.log, Saved(s1.nv, true));
    SyncAppend(s1.log, r.log[|s1.log|]);
  }

  lemma SyncSend(c: Setup, s: Device, frameType: byte, payload: seq<byte>, repeats: nat)
    requires Synced(s, false) && 1 <= |payload|
    ensures Synced(Send(c, s, frameType, payload, repeats), false)
  {
    hide Prepare;
    hide FrameFor;
    SyncPrepare(s, frameType, payload);
    var s1 := Prepare(s, frameType, payload);
    SyncRepeat(c, s1, Capped(payload), FrameFor(c, s1, frameType, payload), if repeats == 0 then 1 else repeats);
  }

  /** A toggle ends in operation whatever its window brought, so its window must not spoil the key. */
  lemma SyncToggle(c: Setup, s: Device)
    requires Synced(s, false) && s.gpd.state == COMMAND_REQUEST
    ensures Synced(SetState(Send(c, s, DATA, [CMD_TOGGLE], 1), OPERATIONAL), false)
  {
    hide Prepare;
    hide FrameFor;
    hide Listen;
    var toggle := [CMD_TOGGLE];
    SyncPrepare(s, DATA, toggle);
    SendOnce(c, s, DATA, toggle);
    var s1 := Prepare(s, DATA, toggle);
    var e := Sent(s1.gpd.channel, s1.gpd.counter, toggle, FrameFor(c, s1, DATA, toggle));
    SyncAppend(s1.log, e);
    if s1.gpd.rxAfterTx {
      SyncListen(c, Emit(s1, e), true);
    }
  }

  lemma SyncStore(s: Device)
    requires Synced(s, false)
    ensures Synced(Store(s), false)
  {
    SyncAppend(s.log, Saved(Store(s).nv, false));
  }

  /** The wrap desynchronises a device that is not commissioned, and only a reply makes it commissioned again. */
  lemma SyncSendRequest(c: Setup, s: Device)
    requires Synced(s, false) && s.gpd.state == CHANNEL_RECEIVED
    ensures Synced(SendRequest(c, s), false)
  {
    hide Send;
    hide CommissioningCommand;
    var s1 := WrapKey(s.(gpd := s.gpd.(level := 0)));
    SyncAppend(s.log, Wrapped(LINK_KEY, s1.nonceTx));
    SyncSend(c, s1, DATA, CommissioningCommand(c, s1), 1);
  }

  lemma SyncChannelRequest(c: Setup, s: Device, channel: byte)
    requires Synced(s, false)
    ensures Synced(SendChannelRequest(c, s, channel), false)
  {
    hide Send;
    SyncSend(c, s.(gpd := s.gpd.(channel := channel)), MAINTENANCE, CHANNEL_REQUEST_PAYLOAD, 1);
  }

  lemma SyncChannelRequestStep(c: Setup, s: Device)
    requires Synced(s, false)
    ensures Synced(ChannelRequestStep(c, s), false)
  {
    hide SendChannelRequest;
    hide ChannelRequestStep;
    var I := (r: Device) => Synced(r, false);
    forall r: Device, channel: byte | I(r) ensures I(SendChannelRequest(c, r, channel)) {
      SyncChannelRequest(c, r, channel);
    }
    ChannelRequestStepKeeps(c, s, I);
  }

  lemma SyncCommission(c: Setup, s: Device)
    requires Synced(s, false)
    ensures Synced(Commission(c, s), false)
  {
    hide Send;
    hide SendRequest;
    hide ChannelRequestStep;
    var state := s.gpd.state;
    if state == CHANNEL_REQUEST {
      SyncChannelRequestStep(c, s);
    } else if state == CHANNEL_RECEIVED {
      SyncSendRequest(c, s);
    } else if state == REPLY_RECEIVED {
      SyncSend(c, SetState(s, SUCCESS_REQUEST), DATA, [CMD_SUCCESS], 1);
    }
  }

  lemma SyncDecommission(c: Setup, s: Device)
    requires Synced(s, false)
    ensures Synced(Decommission(c, s), false)
  {
    hide Send;
    SyncSend(c, s, DATA, [CMD_DECOMMISSIONING], 1);
    var s1 := Send(c, s, DATA, [CMD_DECOMMISSIONING], 1);
    SyncAppend(s1.log, Defaulted(c.key));
    SyncStore(Emit(s1.(gpd := Defaults(c, s1.gpd)), Defaulted(c.key)));
  }

  lemma SyncUpdate(c: Setup, s: Device)
    requires Synced(s, false)
    ensures Synced(Update(c, s), false)
  {
    hide Send;
    hide Commission;
    hide Decommission;
    var state := s.gpd.state;
    if CHANNEL_REQUEST <= state <= REPLY_RECEIVED {
      SyncCommission(c, s);
    } else if state == COMMAND_REQUEST {
      SyncToggle(c, s);
    } else if state == INVALID {
      SyncDecommission(c, s);
    }
  }

  /** The send command marks the device commissioned without asking, so it is in order on a device that is
      commissioned, or whose history at least leaves its own key loaded. */
  predicate SendInOrder(s: Device, op: Op)
  {
    op == CommandSend ==> Commissioned(s.gpd.state) || OwnKeyHeld(s.log)
  }

  lemma SyncBoot(c: Setup, flash: Option<Image>, air: seq<Window>, log: seq<Event>)
    ensures Synced(Boot(c, flash, air, log), false)
  {
    var r := Boot(c, flash, air, log);
    SyncAppend(r.log[..|r.log| - 1], Booted(r.gpd.key));
    assert r.log == r.log[..|r.log| - 1] + [Booted(r.gpd.key)];
  }

  lemma SyncApply(c: Setup, s: Device, op: Op)
    requires Synced(s, false) && SendInOrder(s, op)
    ensures Synced(Apply(c, s, op), false)
  {
    hide Send;
    hide Update;
    hide Decommission;
    hide Boot;
    match op
    case Restart => SyncBoot(c, s.flash, s.air, s.log);
    case Pass =>
      SyncUpdate(c, s);
      SyncStore(Update(c, s));
    case AppSend(frameType, payload, repeats) => SyncSend(c, s, frameType, payload, repeats);
    case AppDecommission => SyncDecommission(c, s);
    case _ =>
  }

  lemma SyncExec(c: Setup, s: Device, step: Step)
    requires Synced(s, false) && (step.Do? ==> SendInOrder(s, step.op))
    ensures Synced(Exec(c, s, step), false)
  {
    hide Apply;
    hide Boot;
    match step
    case Do(op) => SyncApply(c, s, op);
    case PowerLoss(op, cut, air) =>
      var kept := Survives(Apply(c, s, op).log, |s.log|, cut);
      SyncBoot(c, FlashOf(kept), air, kept);
  }

  predicate SendsInOrder(c: Setup, s: Device, steps: seq<Step>)
    decreases |steps|
  {
    steps == [] || ((steps[0].Do? ==> SendInOrder(s, steps[0].op)) && SendsInOrder(c, Exec(c, s, steps[0]), steps[1..]))
  }

  lemma {:induction false} SyncRun(c: Setup, s: Device, steps: seq<Step>)
    requires Synced(s, false) && SendsInOrder(c, s, steps)
    ensures Synced(Run(c, s, steps), false)
    decreases |steps|
  {
    hide Exec;
    if steps != [] {
      SyncExec(c, s, steps[0]);
      SyncRun(c, Exec(c, s, steps[0]), steps[1..]);
    }
  }

  /** Every send command comes when the device reports a commissioned state. */
  predicate SendsWhenCommissioned(c: Setup, s: Device, steps: seq<Step>)
    decreases |steps|
  {
    steps == [] ||
    ((steps[0] == Do(CommandSend) ==> Commissioned(s.gpd.state))
     && SendsWhenCommissioned(c, Exec(c, s, steps[0]), steps[1..]))
  }

  lemma {:induction false} WhenCommissionedInOrder(c: Setup, s: Device, steps: seq<Step>)
    requires SendsWhenCommissioned(c, s, steps)
    ensures SendsInOrder(c, s, steps)
    decreases |steps|
  {
    if steps != [] {
      WhenCommissionedInOrder(c, Exec(c, s, steps[0]), steps[1..]);
    }
  }

  /** In every run in which sends are commanded only when commissioned and no reply fails late, a commissioned
      device has a history that leaves its own key loaded, and so has that key loaded. */
  lemma CommissionedInSync(c: Setup, air: seq<Window>, steps: seq<Step>)
    requires SendsWhenCommissioned(c, Factory(c, air), steps)
    ensures var s := Run(c, Factory(c, air), steps);
      !Spoiled(s.log) && Commissioned(s.gpd.state) ==> OwnKeyHeld(s.log) && s.ccmKey == s.gpd.key
  {
    hide Boot;
    hide Run;
    SyncBoot(c, None, air, []);
    WhenCommissionedInOrder(c, Factory(c, air), steps);
    SyncRun(c, Factory(c, air), steps);
    EveryRunKeys(c, air, steps);
  }
}
