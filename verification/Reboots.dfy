/** Commissioning across power losses: channels and Success frames over runs of many boots. */
module Reboots {
  import opened Bytes
  import opened Frames
  import opened Gpd
  import opened Effects
  import opened Runs
  import opened Session
  import opened Counters

  /** Some earlier Channel Configuration named the channel. */
  ghost predicate Named(log: seq<Event>, channel: byte)
  {
    exists i :: 0 <= i < |log| && log[i] == Configured(channel)
  }

  function Boots(log: seq<Event>): nat
  {
    if log == [] then 0 else Boots(log[..|log| - 1]) + if log[|log| - 1].Booted? then 1 else 0
  }

  /** What an event of a run owes to the events before it: a request or Success frame its channel, a Success frame a
      reply or a boot not yet spent, and an image saved the channel that its state vouches for. */
  ghost predicate Owes(past: seq<Event>, e: Event)
  {
    && (NeedsChannel(e) ==> Named(past, e.channel))
    && (Carries(e, CMD_SUCCESS) ==> Successes(past, 0) < Replies(past, 0) + Boots(past))
    && (e.Saved? && Vouches(e.image[23], WhenCommissioning) ==> Named(past, e.image[22]))
  }

  ghost predicate Honest(log: seq<Event>)
  {
    forall i :: 0 <= i < |log| ==> Owes(log[..i], log[i])
  }

  lemma HonestPrefix(log: seq<Event>, k: nat)
    requires Honest(log) && k <= |log|
    ensures Honest(log[..k])
  {
    hide Owes;
    forall i | 0 <= i < k ensures Owes(log[..k][..i], log[..k][i]) {
      assert log[..k][..i] == log[..i];
    }
  }

  lemma NamedLater(log: seq<Event>, k: nat, channel: byte)
    requires k <= |log| && Named(log[..k], channel)
    ensures Named(log, channel)
  {
    var i :| 0 <= i < k && log[..k][i] == Configured(channel);
    assert log[i] == Configured(channel);
  }

  /** Success frames and replies of a history are those before its n-th event and those since. */
  lemma {:induction false} CountsSplit(log: seq<Event>, n: nat)
    requires n <= |log|
    ensures Successes(log, 0) == Successes(log[..n], 0) + Successes(log, n)
    ensures Replies(log, 0) == Replies(log[..n], 0) + Replies(log, n)
    ensures Boots(log[..n]) <= Boots(log)
    decreases |log|
  {
    if n == |log| {
      assert log[..n] == log;
    } else {
      var past := log[..|log| - 1];
      assert past[..n] == log[..n];
      CountsSplit(past, n);
    }
  }

  // --------------------------------------------------------- within one boot

  /** The start of a session is covered by the history before it. */
  ghost predicate Grounded(log: seq<Event>, t: Start)
  {
    && t.n <= |log| && Honest(log[..t.n])
    && (t.channel.Some? ==> Named(log[..t.n], t.channel.value))
    && (t.stored.Some? ==> Named(log[..t.n], t.stored.value))
    && Successes(log[..t.n], 0) + t.credit <= Replies(log[..t.n], 0) + Boots(log[..t.n])
  }

  lemma NamedInRun(log: seq<Event>, t: Start, channel: byte)
    requires Grounded(log, t) && NamedSince(log, t, channel)
    ensures Named(log, channel)
  {
    if t.channel == Some(channel) || t.stored == Some(channel) {
      NamedLater(log, t.n, channel);
    } else {
      var i :| t.n <= i < |log| && log[i] == Configured(channel);
      assert Named(log, channel);
    }
  }

  lemma InOrderOwes(past: seq<Event>, e: Event, t: Start)
    requires Grounded(past, t) && InOrder(past, e, t)
    ensures Owes(past, e)
  {
    if NeedsChannel(e) {
      LatestIsNamed(past, t, e.channel);
      NamedInRun(past, t, e.channel);
    }
    if Carries(e, CMD_SUCCESS) {
      CountsSplit(past, t.n);
    }
    if e.Saved? && Vouches(e.image[23], WhenCommissioning) {
      NamedInRun(past, t, e.image[22]);
    }
  }

  lemma SoundIsHonest(log: seq<Event>, t: Start)
    requires Sound(log, t) && Grounded(log, t)
    ensures Honest(log)
  {
    hide Owes;
    hide InOrder;
    forall i | 0 <= i < |log| ensures Owes(log[..i], log[i]) {
      if i < t.n {
        assert log[..t.n][..i] == log[..i] && log[..t.n][i] == log[i];
      } else {
        assert log[..i][..t.n] == log[..t.n];
        InOrderOwes(log[..i], log[i], t);
      }
    }
  }

  // ---------------------------------------------------------- over many boots

  /** A device in a session that is covered by its whole history. */
  ghost predicate InRun(c: Setup, s: Device)
  {
    Kept(c, s) && exists t :: Good(s, t, WhenCommissioning, 0) && Grounded(s.log, t)
  }

  lemma InRunHonest(c: Setup, s: Device)
    requires InRun(c, s)
    ensures Honest(s.log)
  {
    var t :| Good(s, t, WhenCommissioning, 0) && Grounded(s.log, t);
    SoundIsHonest(s.log, t);
  }

  lemma {:induction false} FlashImage(log: seq<Event>) returns (i: nat)
    requires FlashOf(log).Some?
    ensures i < |log| && log[i].Saved? && log[i].image == FlashOf(log).value
    decreases |log|
  {
    if log[|log| - 1].Saved? {
      i := |log| - 1;
    } else {
      i := FlashImage(log[..|log| - 1]);
    }
  }

  /** What flash holds vouches only for a channel that was named. */
  lemma FlashNamed(log: seq<Event>)
    requires Honest(log) && FlashOf(log).Some?
    ensures var image := FlashOf(log).value; Vouches(image[23], WhenCommissioning) ==> Named(log, image[22])
  {
    var i := FlashImage(log);
    if Vouches(log[i].image[23], WhenCommissioning) {
      assert Owes(log[..i], log[i]);
      NamedLater(log, i, log[i].image[22]);
    }
  }

  lemma HonestAppend(log: seq<Event>, e: Event)
    requires Honest(log) && Owes(log, e)
    ensures Honest(log + [e])
  {
    hide Owes;
    var l := log + [e];
    forall i | 0 <= i < |l| ensures Owes(l[..i], l[i]) {
      assert l[..i] == if i < |log| then log[..i] else log;
    }
  }

  /** Power-up on an honest history: its flash, or the defaults it saves to an empty one, start an honest session. */
  lemma BootFields(c: Setup, air: seq<Window>, log: seq<Event>)
    requires Honest(log)
    ensures var r := Boot(c, FlashOf(log), air, log);
      && r.log != [] && var past := r.log[..|r.log| - 1];
        && r.log[|r.log| - 1].Booted? && Honest(past)
        && r.nv[23] == r.gpd.state && r.nv[22] == r.gpd.channel
        && (Vouches(r.gpd.state, WhenCommissioning) ==> Named(past, r.gpd.channel))
  {
    var flash := FlashOf(log);
    var r := Boot(c, flash, air, log);
    if flash.None? {
      var cold := Cold(flash, air, log);
      var nv := Shadow(Defaults(c, cold.gpd), cold.nv);
      assert nv[23] == NOT_COMMISSIONED && nv[22] == c.channels[0];
      HonestAppend(log, Saved(nv, false));
      assert r.log == log + [Saved(nv, false)] + [Booted(r.gpd.key)];
    } else {
      FlashNamed(log);
      assert r.log == log + [Booted(r.gpd.key)];
    }
    assert r.log[..|r.log| - 1] == if flash.None? then log + [Saved(r.nv, false)] else log;
  }

  lemma {:induction false} HonestPays(log: seq<Event>)
    requires Honest(log)
    ensures Successes(log, 0) <= Replies(log, 0) + Boots(log)
    decreases |log|
  {
    if log != [] {
      var k := |log| - 1;
      HonestPrefix(log, k);
      HonestPays(log[..k]);
      assert Owes(log[..k], log[k]);
    }
  }

  /** Where a session that begins with the device as it is starts. */
  function StartOf(s: Device): Start
  {
    var named := if Vouches(s.gpd.state, WhenCommissioning) then Some(s.gpd.channel) else None;
    Start(|s.log|, named, named, if s.gpd.state == REPLY_RECEIVED then 1 else 0)
  }

  lemma StartGood(s: Device)
    requires s.nv[23] == s.gpd.state && s.nv[22] == s.gpd.channel
    ensures Good(s, StartOf(s), WhenCommissioning, 0)
  {
  }

  /** So power-up on such a history, cut short or not, starts a session that the history covers. */
  lemma BootInRun(c: Setup, air: seq<Window>, log: seq<Event>)
    requires Honest(log) && Disciplined(c, log)
    ensures InRun(c, Boot(c, FlashOf(log), air, log))
  {
    hide Boot;
    KeepBoot(c, air, log);
    BootFields(c, air, log);
    var r := Boot(c, FlashOf(log), air, log);
    var n, past := |r.log|, r.log[..|r.log| - 1];
    assert past + [r.log[n - 1]] == r.log == r.log[..n];
    HonestAppend(past, r.log[n - 1]);
    HonestPays(past);
    StartGood(r);
    hide Good;
    hide Owes;
    if Vouches(r.gpd.state, WhenCommissioning) {
      NamedLater(r.log, n - 1, r.gpd.channel);
    }
    assert Good(r, StartOf(r), WhenCommissioning, 0) && Grounded(r.log, StartOf(r));
  }

  /** In-session operations and restarts; a power loss may cut any of them. */
  predicate Commissioning(op: Op)
  {
    InSession(op) || op == Restart
  }

  lemma ApplyInRun(c: Setup, s: Device, op: Op)
    requires InRun(c, s) && Commissioning(op)
    ensures InRun(c, Apply(c, s, op))
  {
    hide Boot;
    hide Apply;
    KeepApply(c, s, op);
    if op == Restart {
      InRunHonest(c, s);
      BootInRun(c, s.air, s.log);
      RestartBoots(c, s);
    } else {
      var t :| Good(s, t, WhenCommissioning, 0) && Grounded(s.log, t);
      GoodApply(c, s, op, t);
      var r := Apply(c, s, op);
      assert r.log[..t.n] == s.log[..t.n];
    }
  }

  lemma RestartBoots(c: Setup, s: Device)
    ensures Apply(c, s, Restart) == Boot(c, s.flash, s.air, s.log)
  {
  }

  lemma ExecInRun(c: Setup, s: Device, step: Step)
    requires InRun(c, s) && Commissioning(step.op)
    ensures InRun(c, Exec(c, s, step))
  {
    hide Boot;
    hide Apply;
    ApplyInRun(c, s, step.op);
    if step.PowerLoss? {
      var log := Apply(c, s, step.op).log;
      InRunHonest(c, Apply(c, s, step.op));
      KeepApply(c, s, step.op);
      KeepSurvivors(c, s.log, log, step.cut);
      var kept := Survives(log, |s.log|, step.cut);
      if |s.log| + step.cut <= |log| {
        HonestPrefix(log, |s.log| + step.cut);
      }
      BootInRun(c, step.air, kept);
    }
  }

  lemma {:induction false} StaysInRun(c: Setup, s: Device, steps: seq<Step>)
    requires InRun(c, s) && forall step :: step in steps ==> Commissioning(step.op)
    ensures InRun(c, Run(c, s, steps))
    decreases |steps|
  {
    hide Exec;
    hide InRun;
    if steps != [] {
      ExecInRun(c, s, steps[0]);
      StaysInRun(c, Exec(c, s, steps[0]), steps[1..]);
    }
  }

  /** Over every run of commands, passes, decommissionings, restarts and power losses from the factory: each
      Commissioning Request and Success frame goes out on a channel that some earlier Channel Configuration named,
      and at no time do Success frames outnumber the replies processed and the boots together. */
  lemma EveryRunCommissions(c: Setup, air: seq<Window>, steps: seq<Step>)
    requires forall step :: step in steps ==> Commissioning(step.op)
    ensures var log := Run(c, Factory(c, air), steps).log;
      && (forall i :: 0 <= i < |log| && NeedsChannel(log[i]) ==> Named(log[..i], log[i].channel))
      && (forall k :: 0 <= k <= |log| ==> Successes(log[..k], 0) <= Replies(log[..k], 0) + Boots(log[..k]))
  {
    hide Boot;
    hide Run;
    BootInRun(c, air, []);
    StaysInRun(c, Factory(c, air), steps);
    var log := Run(c, Factory(c, air), steps).log;
    InRunHonest(c, Run(c, Factory(c, air), steps));
    forall k | 0 <= k <= |log| ensures Successes(log[..k], 0) <= Replies(log[..k], 0) + Boots(log[..k]) {
      HonestPrefix(log, k);
      HonestPays(log[..k]);
    }
    forall i | 0 <= i < |log| && NeedsChannel(log[i]) ensures Named(log[..i], log[i].channel) {
      assert Owes(log[..i], log[i]);
    }
  }

  /** The history of a pass that answers a reply starts with the counter saved, the frame built and the frame sent. */
  lemma SuccessLogged(c: Setup, s: Device) returns (sent: Event)
    requires s.gpd.state == REPLY_RECEIVED
    ensures Carries(sent, CMD_SUCCESS)
    ensures Prepare(SetState(s, SUCCESS_REQUEST), DATA, [CMD_SUCCESS]).log + [sent] <= Tick(c, s).log
  {
    hide FrameFor;
    hide Listen;
    hide Prepare;
    var s0, p := SetState(s, SUCCESS_REQUEST), [CMD_SUCCESS];
    SendOnce(c, s0, DATA, p);
    var s1 := Prepare(s0, DATA, p);
    sent := Sent(s1.gpd.channel, s1.gpd.counter, p, FrameFor(c, s1, DATA, p));
    ListenUndisturbed(c, Emit(s1, sent));
    assert Update(c, s) == Transmit(c, s1, p, FrameFor(c, s1, DATA, p));
  }

  /** What is kept of the three events ends in the image saved, and counts one Success frame more. */
  lemma KeptCounts(log: seq<Event>, saved: Event, built: Event, sent: Event)
    requires saved.Saved? && built.Built? && Carries(sent, CMD_SUCCESS)
    ensures var kept := log + [saved] + [built] + [sent];
      && FlashOf(kept) == Some(saved.image)
      && Successes(kept, 0) == Successes(log, 0) + 1 && Replies(kept, 0) == Replies(log, 0)
  {
    var l1, l2, l3 := log + [saved], log + [saved] + [built], log + [saved] + [built] + [sent];
    assert l1[..|log|] == log && l2[..|l1|] == l1 && l3[..|l2|] == l2;
    assert FlashOf(l1) == FlashOf(l2) == FlashOf(l3) == Some(saved.image);
    assert Successes(l1, 0) == Successes(log, 0) == Successes(l2, 0);
    assert Replies(l1, 0) == Replies(log, 0) == Replies(l2, 0);
  }

  /** Power-up on a non-empty flash takes the state it holds and adds one event to the history. */
  lemma BootTakesState(c: Setup, image: Image, air: seq<Window>, log: seq<Event>)
    ensures var r := Boot(c, Some(image), air, log);
      && r.gpd.state == image[23]
      && Successes(r.log, 0) == Successes(log, 0) && Replies(r.log, 0) == Replies(log, 0)
  {
    var r := Boot(c, Some(image), air, log);
    assert r.log == log + [Booted(r.gpd.key)] && r.log[..|log|] == log;
  }

  /** The boots count: power lost between a Success frame and the store that ends its pass brings the device up with
      the reply still to be answered, and it sends another. */
  lemma SuccessAgain(c: Setup, s: Device)
    requires s.gpd.state == s.nv[23] == REPLY_RECEIVED
    ensures var r := Exec(c, s, PowerLoss(Pass, 3, []));
      && r.gpd.state == REPLY_RECEIVED
      && Successes(r.log, 0) == Successes(s.log, 0) + 1 && Replies(r.log, 0) == Replies(s.log, 0)
  {
    hide Tick;
    hide Boot;
    var sent := SuccessLogged(c, s);
    var s2, log := Prepare(SetState(s, SUCCESS_REQUEST), DATA, [CMD_SUCCESS]), Tick(c, s).log;
    var n := |s.log|;
    assert s2.log == s.log + [s2.log[n]] + [s2.log[n + 1]] && s2.log[n] == Saved(s2.nv, true);
    assert Survives(log, n, 3) == s2.log + [sent];
    KeptCounts(s.log, s2.log[n], s2.log[n + 1], sent);
    BootTakesState(c, s2.nv, [], s2.log + [sent]);
  }
}
