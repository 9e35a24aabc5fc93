/** Reflection over whole runs: what the device has sent, heard back by it. */
module Reflection {
  import opened Bytes
  import opened Ccm
  import opened Frames
  import opened Gpd
  import opened Effects
  import opened Runs
  import opened Counters
  import opened CounterTheorems
  import opened Delivery

  // ------------------------------------------- what the stack never sends

  /** No frame sent carries a command that the device obeys. */
  ghost predicate Clean(log: seq<Event>)
  {
    forall i :: 0 <= i < |log| && log[i].Sent? ==> |log[i].payload| > 0 && !Obeyed(log[i].payload[0])
  }

  lemma CleanSend(c: Setup, s: Device, frameType: byte, payload: seq<byte>, repeats: nat)
    requires Clean(s.log) && 1 <= |payload| && !Obeyed(payload[0])
    ensures Clean(Send(c, s, frameType, payload, repeats).log)
  {
    hide Send;
    SendTransmits(c, s, frameType, payload, repeats);
  }

  lemma CleanRequest(c: Setup, s: Device)
    requires Clean(s.log)
    ensures Clean(SendRequest(c, s).log)
  {
    hide Send;
    var s1 := WrapKey(s.(gpd := s.gpd.(level := 0)));
    CleanSend(c, s1, DATA, CommissioningCommand(c, s1), 1);
  }

  lemma CleanChannelRequest(c: Setup, s: Device, channel: byte)
    requires Clean(s.log)
    ensures Clean(SendChannelRequest(c, s, channel).log)
  {
    hide Send;
    CleanSend(c, s.(gpd := s.gpd.(channel := channel)), MAINTENANCE, CHANNEL_REQUEST_PAYLOAD, 1);
  }

  lemma CleanChannelRequestStep(c: Setup, s: Device)
    requires Clean(s.log)
    ensures Clean(ChannelRequestStep(c, s).log)
  {
    hide SendChannelRequest;
    hide ChannelRequestStep;
    var I := (r: Device) => Clean(r.log);
    forall r: Device, channel: byte | I(r) ensures I(SendChannelRequest(c, r, channel)) {
      CleanChannelRequest(c, r, channel);
    }
    ChannelRequestStepKeeps(c, s, I);
  }

  lemma CleanCommission(c: Setup, s: Device)
    requires Clean(s.log)
    ensures Clean(Commission(c, s).log)
  {
    hide Send;
    hide SendRequest;
    hide ChannelRequestStep;
    CleanChannelRequestStep(c, s);
    CleanRequest(c, s);
    CleanSend(c, SetState(s, SUCCESS_REQUEST), DATA, [CMD_SUCCESS], 1);
  }

  lemma CleanDecommission(c: Setup, s: Device)
    requires Clean(s.log)
    ensures Clean(Decommission(c, s).log)
  {
    hide Send;
    CleanSend(c, s, DATA, [CMD_DECOMMISSIONING], 1);
  }

  lemma CleanTick(c: Setup, s: Device)
    requires Clean(s.log)
    ensures Clean(Tick(c, s).log)
  {
    hide Send;
    hide Commission;
    hide Decommission;
    CleanCommission(c, s);
    CleanDecommission(c, s);
    CleanSend(c, s, DATA, [CMD_TOGGLE], 1);
  }

  /** The one thing asked of an application: not to send commands that are meant for the device. */
  predicate SendsNoObeyed(op: Op)
  {
    op.AppSend? ==> !Obeyed(op.payload[0])
  }

  lemma CleanApply(c: Setup, s: Device, op: Op)
    requires Clean(s.log) && SendsNoObeyed(op)
    ensures Clean(Apply(c, s, op).log)
  {
    hide Send;
    hide Tick;
    hide Decommission;
    match op
    case Pass => CleanTick(c, s);
    case AppSend(frameType, payload, repeats) => CleanSend(c, s, frameType, payload, repeats);
    case AppDecommission => CleanDecommission(c, s);
    case _ =>
  }

  lemma CleanExec(c: Setup, s: Device, step: Step)
    requires Clean(s.log) && SendsNoObeyed(step.op)
    ensures Clean(Exec(c, s, step).log)
  {
    hide Apply;
    CleanApply(c, s, step.op);
  }

  lemma {:induction false} CleanRun(c: Setup, s: Device, steps: seq<Step>)
    requires Clean(s.log) && forall step :: step in steps ==> SendsNoObeyed(step.op)
    ensures Clean(Run(c, s, steps).log)
    decreases |steps|
  {
    hide Exec;
    if steps != [] {
      CleanExec(c, s, steps[0]);
      CleanRun(c, Exec(c, s, steps[0]), steps[1..]);
    }
  }

  // ------------------------------------------------------- what comes back

  /** A frame with its type where the receiver looks for it. */
  predicate IsMaintenance(frame: seq<byte>)
  {
    |frame| > 8 && frame[8] % 4 == MAINTENANCE
  }

  lemma TypeOfFrame(E: Cipher, key: Block, nonce: Nonce, t: TxFields, frameType: byte, payload: seq<byte>)
    requires 1 <= |payload| <= MAX_PAYLOAD
    ensures IsMaintenance(Frame(E, key, nonce, t, frameType, payload)) <==> frameType == MAINTENANCE
    ensures Frame(E, key, nonce, t, frameType, payload) != [] <==> frameType <= MAINTENANCE
  {
    if frameType == DATA {
      var m := DataMpdu(t, payload);
      assert Frame(E, key, nonce, t, frameType, payload)[8] == m[8] == NwkFc(DATA, t.autoCommissioning, Extended(t));
    }
  }

  /** In every run, with whatever happened since: each frame sent in it, heard back, changes nothing but the receive
      buffer, exactly unless it is a maintenance frame with an obeyed command. */
  lemma EveryRunReflects(c: Setup, air: seq<Window>, steps: seq<Step>, e: Event, fcs: seq<byte>)
    requires c.srcId != 0 && |fcs| == 2
    ensures var s := Run(c, Factory(c, air), steps);
      e in s.log && e.Sent? && e.frame != [] ==>
      && WellFormed(e.frame + fcs)
      && |e.payload| > 0
      && (SameButRx(s, Deliver(c, s, e.frame + fcs)) <==> !(IsMaintenance(e.frame) && Obeyed(e.payload[0])))
  {
    hide Run;
    hide Boot;
    hide Deliver;
    hide IsMaintenance;
    var s := Run(c, Factory(c, air), steps);
    KeepFactory(c, air);
    KeepRun(c, Factory(c, air), steps);
    if e in s.log && e.Sent? && e.frame != [] {
      var i :| 0 <= i < |s.log| && s.log[i] == e;
      OrderedAt(c, s.log, i);
      var b := LastBuilt(s.log[..i]).value;
      var t, frameType :| FramedAs(c, b, e.counter, e.frame, t, frameType);
      TypeOfFrame(c.E, b.key, b.nonce, t, frameType, b.payload);
      ReflectionIff(c, s, b.key, b.nonce, t, frameType, b.payload, fcs);
    }
  }

  lemma FactoryClean(c: Setup, air: seq<Window>)
    ensures Clean(Factory(c, air).log)
  {
  }

  /** The stack itself never sends such a frame: in every run whose application sends no obeyed command, each frame
      sent, heard back, changes nothing but the receive buffer. */
  lemma CleanRunReflects(c: Setup, air: seq<Window>, steps: seq<Step>, e: Event, fcs: seq<byte>)
    requires c.srcId != 0 && |fcs| == 2 && forall step :: step in steps ==> SendsNoObeyed(step.op)
    ensures var s := Run(c, Factory(c, air), steps);
      e in s.log && e.Sent? && e.frame != [] ==>
        WellFormed(e.frame + fcs) && SameButRx(s, Deliver(c, s, e.frame + fcs))
  {
    hide Run;
    hide Boot;
    hide Deliver;
    FactoryClean(c, air);
    CleanRun(c, Factory(c, air), steps);
    EveryRunReflects(c, air, steps, e, fcs);
  }
}
