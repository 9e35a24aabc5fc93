/** Commissioning Requests against the count that bounds them, and what happens when nobody answers. */
module Retries {
  import opened Bytes
  import opened Ccm
  import opened Frames
  import opened Gpd
  import opened Effects
  import opened Runs
  import opened Session
  import opened ChannelRequests

  /** Commissioning Requests among the frames sent. */
  function RequestsSent(log: seq<Event>): nat
  {
    if log == [] then 0
    else RequestsSent(log[..|log| - 1]) + if Carries(log[|log| - 1], CMD_COMMISSIONING) then 1 else 0
  }

  lemma RequestAppend(log: seq<Event>, e: Event)
    ensures RequestsSent(log + [e]) == RequestsSent(log) + if Carries(e, CMD_COMMISSIONING) then 1 else 0
  {
    assert (log + [e])[..|log|] == log;
  }

  /** Receiving sends nothing. */
  lemma {:induction false} HearingSendsNone(log: seq<Event>, n: nat)
    requires n <= |log| && forall i :: n <= i < |log| ==> FromAir(log[i])
    ensures RequestsSent(log) == RequestsSent(log[..n])
    decreases |log|
  {
    if n == |log| {
      assert log[..n] == log;
    } else {
      var past := log[..|log| - 1];
      HearingSendsNone(past, n);
      assert past[..n] == log[..n];
    }
  }

  lemma RequestsOfSend(c: Setup, s: Device, frameType: byte, payload: seq<byte>)
    requires 1 <= |payload|
    ensures RequestsSent(Send(c, s, frameType, payload, 1).log)
      == RequestsSent(s.log) + if payload[0] == CMD_COMMISSIONING then 1 else 0
  {
    hide FrameFor;
    hide Listen;
    SendOnce(c, s, frameType, payload);
    var s1, s2 := Advance(s), Prepare(s, frameType, payload);
    var sent := Sent(s2.gpd.channel, s2.gpd.counter, Capped(payload), FrameFor(c, s2, frameType, payload));
    var s3 := Emit(s2, sent);
    RequestAppend(s.log, Saved(s1.nv, true));
    RequestAppend(s1.log, s2.log[|s1.log|]);
    RequestAppend(s2.log, sent);
    if s.gpd.rxAfterTx {
      ListenUndisturbed(c, s3);
      var r := Listen(c, s3);
      HearingSendsNone(r.log, |s3.log|);
      assert r.log[..|s3.log|] == s3.log;
    }
  }

  // ------------------------------------------------ requests against the count

  /** No request was sent between the two, and none counted. */
  predicate Unasked(s: Device, r: Device)
  {
    RequestsSent(r.log) == RequestsSent(s.log) && r.gpd.currentCommReq == s.gpd.currentCommReq
  }

  /** Every request sent between the two was counted, and the count never exceeds its limit. */
  predicate Accounted(c: Setup, s: Device, r: Device)
  {
    RequestsSent(r.log) - RequestsSent(s.log) == r.gpd.currentCommReq - s.gpd.currentCommReq
    && s.gpd.currentCommReq <= r.gpd.currentCommReq <= c.maxRequests
  }

  lemma UnaskedSend(c: Setup, s: Device, frameType: byte, payload: seq<byte>)
    requires 1 <= |payload| && payload[0] != CMD_COMMISSIONING
    ensures Unasked(s, Send(c, s, frameType, payload, 1))
  {
    hide Send;
    RequestsOfSend(c, s, frameType, payload);
    SendSettings(c, s, frameType, payload, 1);
  }

  lemma UnaskedChannelRequest(c: Setup, s: Device, channel: byte)
    ensures Unasked(s, SendChannelRequest(c, s, channel))
  {
    hide Send;
    UnaskedSend(c, s.(gpd := s.gpd.(channel := channel)), MAINTENANCE, CHANNEL_REQUEST_PAYLOAD);
  }

  lemma UnaskedChannelRequestStep(c: Setup, s: Device)
    ensures Unasked(s, ChannelRequestStep(c, s))
  {
    hide SendChannelRequest;
    hide ChannelRequestStep;
    var I := (r: Device) => Unasked(s, r);
    forall r: Device, channel: byte | I(r) ensures I(SendChannelRequest(c, r, channel)) {
      UnaskedChannelRequest(c, r, channel);
    }
    ChannelRequestStepKeeps(c, s, I);
  }

  lemma OneRequestCounted(c: Setup, s: Device)
    requires s.gpd.currentCommReq < c.maxRequests && s.gpd.state == CHANNEL_RECEIVED
    ensures var r := RequestStep(c, s); Accounted(c, s, r) && r.gpd.currentCommReq == s.gpd.currentCommReq + 1
  {
    hide Send;
    var s1 := WrapKey(s.(gpd := s.gpd.(level := 0)));
    var command := CommissioningCommand(c, s1);
    assert command[0] == CMD_COMMISSIONING;
    RequestAppend(s.log, Wrapped(LINK_KEY, s1.nonceTx));
    RequestsOfSend(c, s1, DATA, command);
    SendSettings(c, s1, DATA, command, 1);
  }

  /** The step of each state; a request state machine that has seen a reply is never called, so its reset of the
      count is never reached. */
  lemma CommissionCounted(c: Setup, s: Device)
    requires s.gpd.currentCommReq <= c.maxRequests
    ensures Accounted(c, s, Commission(c, s))
  {
    hide Send;
    hide SendRequest;
    hide ChannelRequestStep;
    var state := s.gpd.state;
    if state == CHANNEL_REQUEST {
      UnaskedChannelRequestStep(c, s);
    } else if state == CHANNEL_RECEIVED {
      if s.gpd.currentCommReq < c.maxRequests {
        OneRequestCounted(c, s);
      }
    } else if state == REPLY_RECEIVED {
      UnaskedSend(c, SetState(s, SUCCESS_REQUEST), DATA, [CMD_SUCCESS]);
    }
  }

  lemma DecommissionUnasked(c: Setup, s: Device)
    ensures Unasked(s, Decommission(c, s))
  {
    hide Send;
    UnaskedSend(c, s, DATA, [CMD_DECOMMISSIONING]);
    var s1, r := Send(c, s, DATA, [CMD_DECOMMISSIONING], 1), Decommission(c, s);
    RequestAppend(s1.log, Defaulted(c.key));
    RequestAppend(s1.log + [Defaulted(c.key)], r.log[|s1.log| + 1]);
  }

  lemma PassCounted(c: Setup, s: Device)
    requires s.gpd.currentCommReq <= c.maxRequests
    ensures Accounted(c, s, Tick(c, s))
  {
    hide Send;
    hide Commission;
    hide Decommission;
    var state, r := s.gpd.state, Update(c, s);
    if CHANNEL_REQUEST <= state <= REPLY_RECEIVED {
      CommissionCounted(c, s);
    } else if state == COMMAND_REQUEST {
      UnaskedSend(c, s, DATA, [CMD_TOGGLE]);
    } else if state == INVALID {
      DecommissionUnasked(c, s);
    }
    RequestAppend(r.log, Saved(Store(r).nv, false));
  }

  lemma ApplyCounted(c: Setup, s: Device, op: Op)
    requires s.gpd.currentCommReq <= c.maxRequests && InSession(op)
    ensures Accounted(c, s, Apply(c, s, op))
  {
    hide Tick;
    hide Decommission;
    match op
    case Pass => PassCounted(c, s);
    case AppDecommission => DecommissionUnasked(c, s);
    case _ =>
  }

  /** In every session, with anything in the air, the Commissioning Requests sent are exactly the growth of the
      request count, which never falls and never exceeds its limit. */
  lemma {:induction false} RequestsCounted(c: Setup, s: Device, ops: seq<Op>)
    requires s.gpd.currentCommReq <= c.maxRequests && forall op :: op in ops ==> InSession(op)
    ensures Accounted(c, s, Play(c, s, ops))
    decreases |ops|
  {
    hide Apply;
    if ops != [] {
      ApplyCounted(c, s, ops[0]);
      RequestsCounted(c, Apply(c, s, ops[0]), ops[1..]);
    }
  }

  /** So one boot sends no more requests than the limit in all, however often it is commissioned: the count is reset
      neither by giving up nor by a successful commissioning. */
  lemma BootAsksAtMost(c: Setup, flash: Option<Image>, air: seq<Window>, log: seq<Event>, ops: seq<Op>)
    requires forall op :: op in ops ==> InSession(op)
    ensures var s := Boot(c, flash, air, log);
      RequestsSent(Play(c, s, ops).log) <= RequestsSent(s.log) + c.maxRequests
  {
    hide Play;
    RequestsCounted(c, Boot(c, flash, air, log), ops);
  }

  lemma ApplyBoundsCount(c: Setup, s: Device, op: Op)
    requires s.gpd.currentCommReq <= c.maxRequests
    ensures Apply(c, s, op).gpd.currentCommReq <= c.maxRequests
  {
    hide Send;
    hide Tick;
    hide Decommission;
    PassCounted(c, s);
    DecommissionUnasked(c, s);
    if op.AppSend? {
      SendSettings(c, s, op.frameType, op.payload, op.repeats);
    }
  }

  /** In every run, application sends and power losses included, the count stays within its limit: it never wraps. */
  lemma {:induction false} CountBounded(c: Setup, s: Device, steps: seq<Step>)
    requires s.gpd.currentCommReq <= c.maxRequests
    ensures Run(c, s, steps).gpd.currentCommReq <= c.maxRequests
    decreases |steps|
  {
    hide Apply;
    if steps != [] {
      ApplyBoundsCount(c, s, steps[0].op);
      CountBounded(c, Exec(c, s, steps[0]), steps[1..]);
    }
  }

  // ------------------------------------------------------ unanswered requests

  function Passes(c: Setup, s: Device, k: nat): Device
    decreases k
  {
    if k == 0 then s else Passes(c, Tick(c, s), k - 1)
  }

  /** No reply was processed since the history was n events long; anything else may have been heard. */
  ghost predicate Unanswered(log: seq<Event>, n: nat)
  {
    forall i :: n <= i < |log| ==> !(log[i].Replied? && log[i].ok)
  }

  ghost predicate UnansweredPasses(c: Setup, s: Device, k: nat)
    decreases k
  {
    k == 0 || (Unanswered(Tick(c, s).log, |s.log|) && UnansweredPasses(c, Tick(c, s), k - 1))
  }

  lemma {:induction false} UnansweredStays(log: seq<Event>, n: nat, start: (byte, byte))
    requires Unanswered(log, n) && start.0 == CHANNEL_RECEIVED
    ensures Heard(log, n, start).0 == CHANNEL_RECEIVED
    decreases |log|
  {
    if |log| > n {
      UnansweredStays(log[..|log| - 1], n, start);
    }
  }

  /** A pass that asks and gets no answer asks again next time. */
  lemma UnansweredPass(c: Setup, s: Device)
    requires s.gpd.state == CHANNEL_RECEIVED && s.gpd.currentCommReq < c.maxRequests
    requires Unanswered(Tick(c, s).log, |s.log|)
    ensures var r := Tick(c, s);
      && r.gpd.state == CHANNEL_RECEIVED && r.gpd.currentCommReq == s.gpd.currentCommReq + 1
      && RequestsSent(r.log) == RequestsSent(s.log) + 1
  {
    hide Send;
    hide CommissioningCommand;
    hide WrapKey;
    OneRequestCounted(c, s);
    var s1 := WrapKey(s.(gpd := s.gpd.(level := 0)));
    var sent, r := Send(c, s1, DATA, CommissioningCommand(c, s1), 1), Tick(c, s);
    WrapLog(s.(gpd := s.gpd.(level := 0)));
    HeardSend(c, s1, DATA, CommissioningCommand(c, s1), |s1.log|, (s1.gpd.state, s1.gpd.channel));
    RequestAppend(sent.log, Saved(r.nv, false));
    assert r.log == sent.log + [Saved(r.nv, false)];
    UnansweredStays(sent.log, |s1.log|, (s1.gpd.state, s1.gpd.channel));
  }

  lemma WrapLog(s: Device)
    ensures |WrapKey(s).log| == |s.log| + 1 && WrapKey(s).gpd == s.gpd
  {
  }

  lemma GiveUpPass(c: Setup, s: Device)
    requires s.gpd.state == CHANNEL_RECEIVED && s.gpd.currentCommReq == c.maxRequests
    ensures var r := Tick(c, s);
      && r.gpd.state == NOT_COMMISSIONED && r.gpd.currentCommReq == c.maxRequests
      && RequestsSent(r.log) == RequestsSent(s.log)
  {
    RequestAppend(s.log, Saved(Tick(c, s).nv, false));
  }

  /** A device whose passes bring no processed reply asks exactly as often as its count leaves it, and then gives up;
      the count is not reset, so the next channel received is given up on without a request. */
  lemma {:induction false} UnansweredGivesUp(c: Setup, s: Device)
    requires s.gpd.state == CHANNEL_RECEIVED && s.gpd.currentCommReq <= c.maxRequests
    requires UnansweredPasses(c, s, c.maxRequests - s.gpd.currentCommReq)
    ensures var left := c.maxRequests - s.gpd.currentCommReq;
      && var r := Passes(c, s, left);
         && r.gpd.state == CHANNEL_RECEIVED && RequestsSent(r.log) == RequestsSent(s.log) + left
         && Tick(c, r).gpd.state == NOT_COMMISSIONED && Tick(c, r).gpd.currentCommReq == c.maxRequests
         && RequestsSent(Tick(c, r).log) == RequestsSent(r.log)
    decreases c.maxRequests - s.gpd.currentCommReq
  {
    hide Tick;
    if s.gpd.currentCommReq < c.maxRequests {
      UnansweredPass(c, s);
      UnansweredGivesUp(c, Tick(c, s));
    } else {
      GiveUpPass(c, s);
    }
  }

  /** As shipped: four requests, less those already counted. */
  lemma ShippedGivesUp(E: Cipher, s: Device)
    requires s.gpd.state == CHANNEL_RECEIVED && s.gpd.currentCommReq <= 4
    requires UnansweredPasses(Shipped(E), s, 4 - s.gpd.currentCommReq)
    ensures var c := Shipped(E);
      var r := Passes(c, s, 4 - s.gpd.currentCommReq);
      RequestsSent(Tick(c, r).log) == RequestsSent(s.log) + 4 - s.gpd.currentCommReq
      && Tick(c, r).gpd.state == NOT_COMMISSIONED
  {
    hide Tick;
    hide Passes;
    hide UnansweredPasses;
    UnansweredGivesUp(Shipped(E), s);
  }
}
