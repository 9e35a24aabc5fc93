/** What survives a reset: the six persisted fields, with only the counter moved on. */
module Persistence {
  import opened Bytes
  import opened Frames
  import opened Gpd
  import opened Effects
  import opened Runs
  import opened Counters
  import opened Counting

  lemma UnpackShadow(g: Record, h: Record, nv: Image)
    ensures var r := Unpack(h, Shadow(g, nv));
      && r.counter == g.counter && r.key == g.key && r.level == g.level && r.keyType == g.keyType
      && r.channel == g.channel && r.state == g.state
    ensures Shadow(g, nv)[4..] == g.key + [g.level, g.keyType, g.channel, g.state] + nv[24..]
  {
    WordOfLe4(g.counter);
    assert Shadow(g, nv)[..4] == Le4(g.counter);
  }

  /** On a fresh chip a load changes no field: it stores what it finds, and loading that again finds the same. */
  lemma FreshLoad(s: Device)
    requires s.flash.None?
    ensures var r := Load(s); r.gpd == s.gpd && r.flash == Some(Shadow(s.gpd, s.nv)) && Load(r) == r
  {
    UnpackShadow(s.gpd, s.gpd, s.nv);
  }

  /** Loading straight after a store changes nothing. */
  lemma LoadAfterStore(s: Device)
    ensures Load(Store(s)) == Store(s)
  {
    UnpackShadow(s.gpd, s.gpd, s.nv);
  }

  // -------------------------------------------------- between store and reset

  /** The operations that save no more than the counter: all but a pass of `GpdTask` and a decommissioning. */
  predicate SavesOnlyCounter(op: Op)
  {
    !op.Pass? && !op.AppDecommission?
  }

  /** Every image saved from position n on ends in rest, and something was saved at n. */
  ghost predicate RestHeld(log: seq<Event>, n: nat, rest: seq<byte>)
  {
    && n < |log| && log[n].Saved?
    && forall i :: n <= i < |log| && log[i].Saved? ==> log[i].image[4..] == rest
  }

  ghost predicate Held(c: Setup, s: Device, n: nat, rest: seq<byte>)
  {
    Kept(c, s) && RestHeld(s.log, n, rest) && s.nv[4..] == rest
  }

  lemma {:induction false} FlashHoldsRest(log: seq<Event>, n: nat, rest: seq<byte>)
    requires RestHeld(log, n, rest)
    ensures FlashOf(log).Some? && FlashOf(log).value[4..] == rest
    decreases |log|
  {
    if !log[|log| - 1].Saved? {
      FlashHoldsRest(log[..|log| - 1], n, rest);
    }
  }

  lemma HeldSend(c: Setup, s: Device, frameType: byte, payload: seq<byte>, repeats: nat, n: nat, rest: seq<byte>)
    requires Held(c, s, n, rest) && 1 <= |payload|
    ensures Held(c, Send(c, s, frameType, payload, repeats), n, rest)
  {
    hide Send;
    hide Advance;
    KeepSend(c, s, frameType, payload, repeats);
    SendTransmits(c, s, frameType, payload, repeats);
    AdvanceSaves(s);
  }

  lemma AdvanceSaves(s: Device)
    ensures var r := Advance(s); r.nv[4..] == s.nv[4..] && r.log == s.log + [Saved(r.nv, true)]
  {
  }

  lemma BootOnFlash(c: Setup, image: Image, air: seq<Window>, log: seq<Event>)
    ensures var r := Boot(c, Some(image), air, log); r.log == log + [Booted(r.gpd.key)] && r.nv == image
  {
  }

  lemma HeldBoot(c: Setup, air: seq<Window>, log: seq<Event>, n: nat, rest: seq<byte>)
    requires Disciplined(c, log) && RestHeld(log, n, rest)
    ensures Held(c, Boot(c, FlashOf(log), air, log), n, rest)
  {
    hide Boot;
    hide Kept;
    hide Disciplined;
    KeepBoot(c, air, log);
    FlashHoldsRest(log, n, rest);
    BootOnFlash(c, FlashOf(log).value, air, log);
  }

  lemma HeldApply(c: Setup, s: Device, op: Op, n: nat, rest: seq<byte>)
    requires Held(c, s, n, rest) && SavesOnlyCounter(op)
    ensures Held(c, Apply(c, s, op), n, rest)
  {
    match op
    case Restart => HeldBoot(c, s.air, s.log, n, rest);
    case AppSend(frameType, payload, repeats) => HeldSend(c, s, frameType, payload, repeats, n, rest);
    case _ =>
  }

  lemma HeldExec(c: Setup, s: Device, step: Step, n: nat, rest: seq<byte>)
    requires Held(c, s, n, rest) && SavesOnlyCounter(step.op)
    ensures Held(c, Exec(c, s, step), n, rest)
  {
    HeldApply(c, s, step.op, n, rest);
    if step.PowerLoss? {
      KeepApply(c, s, step.op);
      var log := Apply(c, s, step.op).log;
      KeepSurvivors(c, s.log, log, step.cut);
      HeldBoot(c, step.air, Survives(log, |s.log|, step.cut), n, rest);
    }
  }

  lemma {:induction false} HeldRun(c: Setup, s: Device, steps: seq<Step>, n: nat, rest: seq<byte>)
    requires Held(c, s, n, rest) && forall step :: step in steps ==> SavesOnlyCounter(step.op)
    ensures Held(c, Run(c, s, steps), n, rest)
    decreases |steps|
  {
    if steps != [] {
      HeldExec(c, s, steps[0], n, rest);
      HeldRun(c, Exec(c, s, steps[0]), steps[1..], n, rest);
    }
  }

  /** An image whose bytes behind the counter were stored for g brings g's five other fields up again. */
  lemma BootUnpacks(c: Setup, image: Image, air: seq<Window>, log: seq<Event>, g: Record, reserved: seq<byte>)
    requires image[4..] == g.key + [g.level, g.keyType, g.channel, g.state] + reserved
    ensures var r := Boot(c, Some(image), air, log);
      && r.gpd.key == r.ccmKey == g.key && r.gpd.level == g.level && r.gpd.keyType == g.keyType
      && r.gpd.channel == g.channel && r.gpd.state == g.state && r.gpd.counter == ImageCounter(image)
  {
    var rest := image[4..];
    assert image[4..20] == rest[..16] && image[20] == rest[16] && image[21] == rest[17] && image[22] == rest[18]
           && image[23] == rest[19];
  }

  /** Store, then any run of sends, commands, restarts and power losses, then a reset: the record comes up with
      the fields stored, and a counter moved on by the counter saves in between. */
  lemma StoredFieldsSurvive(c: Setup, s: Device, steps: seq<Step>, later: seq<Window>)
    requires Kept(c, s) && forall step :: step in steps ==> SavesOnlyCounter(step.op)
    ensures var run := Run(c, Store(s), steps);
      var r := Boot(c, run.flash, later, run.log);
      && |Store(s).log| <= |run.log|
      && r.gpd.key == r.ccmKey == s.gpd.key && r.gpd.level == s.gpd.level && r.gpd.keyType == s.gpd.keyType
      && r.gpd.channel == s.gpd.channel && r.gpd.state == s.gpd.state
      && r.gpd.counter == (s.gpd.counter + CounterSaves(run.log[|Store(s).log|..])) % 0x1_0000_0000
  {
    hide Run;
    hide Boot;
    hide Disciplined;
    hide CounterSaves;
    var stored := Store(s);
    var n, rest := |s.log|, stored.nv[4..];
    UnpackShadow(s.gpd, s.gpd, s.nv);
    KeepStore(c, s);
    HeldRun(c, stored, steps, n, rest);
    KeepRun(c, stored, steps);
    var run := Run(c, stored, steps);
    FlashHoldsRest(run.log, n, rest);
    assert run.log[..n + 1] == stored.log;
    FlashCounterCounts(c, run.log, n + 1);
    BootUnpacks(c, run.flash.value, later, run.log, s.gpd, s.nv[24..]);
  }

  /** Decommissioning outlives any reset: the record comes up with the configured defaults, and the counter kept. */
  lemma DecommissionSurvives(c: Setup, s: Device, later: seq<Window>)
    requires Kept(c, s)
    ensures var d := Apply(c, s, AppDecommission);
      var r := Boot(c, d.flash, later, d.log);
      && r.gpd.state == NOT_COMMISSIONED && r.gpd.key == r.ccmKey == c.key && r.gpd.keyType == KEY_TYPE_OOB
      && r.gpd.level == 3 && r.gpd.channel == c.channels[0]
      && r.gpd.counter == (s.gpd.counter + 1) % 0x1_0000_0000
  {
    SendSettings(c, s, DATA, [CMD_DECOMMISSIONING], 1);
    var s1 := Send(c, s, DATA, [CMD_DECOMMISSIONING], 1);
    UnpackShadow(Defaults(c, s1.gpd), Defaults(c, Cold(None, [], []).gpd), s1.nv);
  }
}
