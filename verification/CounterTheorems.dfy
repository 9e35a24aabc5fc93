/** What a disciplined history means: counters rise, flash stays ahead, and nonces are not used twice. */
module CounterTheorems {
  import opened Bytes
  import opened Frames
  import opened Gpd
  import opened Runs
  import opened Counters

  /** Successively built frames carry strictly increasing counters. */
  ghost predicate BuiltCountersRise(log: seq<Event>)
  {
    forall i, j :: 0 <= i < j < |log| && log[i].Built? && log[j].Built? ==> log[i].counter < log[j].counter
  }

  /** At every moment of the history, flash holds a counter no smaller than that of any frame sent so far. */
  ghost predicate FlashCoversSent(log: seq<Event>)
  {
    forall i, k :: 0 <= i < k <= |log| && log[i].Sent? ==>
      FlashOf(log[..k]).Some? && log[i].counter <= FlashCounter(log[..k])
  }

  ghost predicate FlashNeverFalls(log: seq<Event>)
  {
    forall j, k :: 0 <= j <= k <= |log| ==> FlashCounter(log[..j]) <= FlashCounter(log[..k])
  }

  lemma {:induction false} OrderedAt(c: Setup, log: seq<Event>, i: nat)
    requires Disciplined(c, log) && i < |log|
    ensures Ordered(c, log[..i], log[i]) && Disciplined(c, log[..i])
  {
    DisciplinedPrefix(c, log, i + 1);
    assert log[..i + 1][..i] == log[..i];
  }

  lemma OneStep(log: seq<Event>, k: nat)
    requires k < |log|
    ensures FlashOf(log[..k + 1]) == if log[k].Saved? then Some(log[k].image) else FlashOf(log[..k])
    ensures Unspent(log[..k + 1]) <==>
      (log[k].Saved? && log[k].forCounter) || (Unspent(log[..k]) && !log[k].Built?)
  {
    assert log[..k + 1][..k] == log[..k];
  }

  /** Short of a rollover one event never lowers the flash counter, and a counter save raises it. */
  lemma FlashStep(c: Setup, log: seq<Event>, k: nat)
    requires Disciplined(c, log) && !RolledOver(log) && k < |log|
    ensures FlashCounter(log[..k]) <= FlashCounter(log[..k + 1])
    ensures FlashOf(log[..k]).Some? ==> FlashOf(log[..k + 1]).Some?
    ensures log[k].Saved? && log[k].forCounter ==> FlashCounter(log[..k]) < FlashCounter(log[..k + 1])
  {
    OrderedAt(c, log, k);
    OneStep(log, k);
    assert !Rollover(log[k]);
  }

  lemma {:induction false} FlashClimbs(c: Setup, log: seq<Event>, j: nat, k: nat)
    requires Disciplined(c, log) && !RolledOver(log) && j <= k <= |log|
    ensures FlashCounter(log[..j]) <= FlashCounter(log[..k])
    ensures FlashOf(log[..j]).Some? ==> FlashOf(log[..k]).Some?
    decreases k
  {
    if j < k {
      FlashClimbs(c, log, j, k - 1);
      FlashStep(c, log, k - 1);
    }
  }

  /** Between a frame built at i and a later moment at which a counter is unspent, flash has climbed. */
  lemma {:induction false} ClimbsPastBuilt(c: Setup, log: seq<Event>, i: nat, k: nat)
    requires Disciplined(c, log) && !RolledOver(log) && i < k <= |log| && log[i].Built? && Unspent(log[..k])
    ensures FlashCounter(log[..i]) < FlashCounter(log[..k])
    decreases k
  {
    OneStep(log, k - 1);
    FlashStep(c, log, k - 1);
    FlashClimbs(c, log, i, k - 1);
    if !(log[k - 1].Saved? && log[k - 1].forCounter) {
      ClimbsPastBuilt(c, log, i, k - 1);
    }
  }

  lemma CountersRise(c: Setup, log: seq<Event>)
    requires Disciplined(c, log) && !RolledOver(log)
    ensures BuiltCountersRise(log)
  {
    forall i, j | 0 <= i < j < |log| && log[i].Built? && log[j].Built?
      ensures log[i].counter < log[j].counter
    {
      OrderedAt(c, log, i);
      OrderedAt(c, log, j);
      ClimbsPastBuilt(c, log, i, j);
    }
  }

  lemma SentCovered(c: Setup, log: seq<Event>)
    requires Disciplined(c, log) && !RolledOver(log)
    ensures FlashCoversSent(log)
  {
    forall i, k | 0 <= i < k <= |log| && log[i].Sent?
      ensures FlashOf(log[..k]).Some? && log[i].counter <= FlashCounter(log[..k])
    {
      OrderedAt(c, log, i);
      FlashClimbs(c, log, i, k);
    }
  }

  /** The flash counter falls exactly in the histories in which a counter save wrote 0. */
  lemma NeverFallsIffNoRollover(c: Setup, log: seq<Event>)
    requires Disciplined(c, log)
    ensures FlashNeverFalls(log) <==> !RolledOver(log)
  {
    if RolledOver(log) {
      var i :| 0 <= i < |log| && Rollover(log[i]);
      OrderedAt(c, log, i);
      OneStep(log, i);
      assert FlashCounter(log[..i + 1]) == 0 < FlashCounter(log[..i]);
    } else {
      forall j, k | 0 <= j <= k <= |log| ensures FlashCounter(log[..j]) <= FlashCounter(log[..k]) {
        FlashClimbs(c, log, j, k);
      }
    }
  }

  /** Every run from the factory, whatever arrives by air and whenever the power fails. */
  lemma EveryRunCounts(c: Setup, air: seq<Window>, steps: seq<Step>)
    ensures var log := Run(c, Factory(c, air), steps).log;
      && (FlashNeverFalls(log) <==> !RolledOver(log))
      && (!RolledOver(log) ==> BuiltCountersRise(log) && FlashCoversSent(log))
  {
    var s := Factory(c, air);
    KeepFactory(c, air);
    KeepRun(c, s, steps);
    var log := Run(c, s, steps).log;
    NeverFallsIffNoRollover(c, log);
    if !RolledOver(log) {
      CountersRise(c, log);
      SentCovered(c, log);
    }
  }

  /** After every run the counter in RAM is the one in flash, and a reboot does not change it. */
  lemma RebootKeepsCounter(c: Setup, air: seq<Window>, steps: seq<Step>, later: seq<Window>)
    ensures var s := Run(c, Factory(c, air), steps);
      s.flash.Some? && ImageCounter(s.flash.value) == s.gpd.counter == Boot(c, s.flash, later, s.log).gpd.counter
  {
    KeepFactory(c, air);
    KeepRun(c, Factory(c, air), steps);
  }

  /** The rollover itself: a send on counter 0xFFFFFFFF saves 0, below every counter used so far. */
  lemma RolloverFalls(c: Setup, s: Device)
    requires Kept(c, s) && s.gpd.counter == 0xFFFF_FFFF
    ensures var r := Advance(s);
      RolledOver(r.log) && r.gpd.counter == 0 && FlashCounter(r.log) == 0 < FlashCounter(s.log)
  {
    KeepAdvance(c, s);
    var a := Advance(s);
    WordOfLe4(0);
    assert a.nv[..4] == Le4(0);
    assert a.log[|s.log|] == Saved(a.nv, true);
  }

  // ------------------------------------------------------------------ nonces

  /** A use of a key and a nonce to seal something: a secured frame, or the wrapped key. */
  predicate Seals(e: Event)
  {
    e.Wrapped? || (e.Built? && Secured(e.level))
  }

  /** Every frame is built under the nonce of its own counter, and only the link key wraps. */
  lemma NoncesAreOwn(c: Setup, log: seq<Event>)
    requires Disciplined(c, log)
    ensures forall i :: 0 <= i < |log| && log[i].Built? ==> log[i].nonce == TxNonce(c.srcId, log[i].counter)
    ensures forall i :: 0 <= i < |log| && log[i].Wrapped? ==> log[i].key == LINK_KEY
  {
    forall i | 0 <= i < |log|
      ensures log[i].Built? ==> log[i].nonce == TxNonce(c.srcId, log[i].counter)
      ensures log[i].Wrapped? ==> log[i].key == LINK_KEY
    {
      OrderedAt(c, log, i);
    }
  }

  lemma NonceDeterminesCounter(srcId: uint32, a: uint32, b: uint32)
    requires TxNonce(srcId, a) == TxNonce(srcId, b)
    ensures a == b
  {
    assert TxNonce(srcId, a)[8..12] == Le4(a) && TxNonce(srcId, b)[8..12] == Le4(b);
    Le4Injective(a, b);
  }

  /** No key but the link key seals twice under one nonce. */
  ghost predicate NoncesDistinct(log: seq<Event>)
  {
    forall i, j :: 0 <= i < j < |log| && Seals(log[i]) && Seals(log[j]) && log[i].key == log[j].key != LINK_KEY ==>
      log[i].nonce != log[j].nonce
  }

  /** In every run short of a rollover that is so, across restarts and power losses. */
  lemma NoNonceTwice(c: Setup, air: seq<Window>, steps: seq<Step>)
    ensures var log := Run(c, Factory(c, air), steps).log; !RolledOver(log) ==> NoncesDistinct(log)
  {
    var log := Run(c, Factory(c, air), steps).log;
    KeepFactory(c, air);
    KeepRun(c, Factory(c, air), steps);
    NoncesAreOwn(c, log);
    if !RolledOver(log) {
      CountersRise(c, log);
      forall i, j | 0 <= i < j < |log| && Seals(log[i]) && Seals(log[j]) && log[i].key == log[j].key != LINK_KEY
        ensures log[i].nonce != log[j].nonce
      {
        if log[i].nonce == log[j].nonce {
          NonceDeterminesCounter(c.srcId, log[i].counter, log[j].counter);
        }
      }
    }
  }

  /** Every frame of every run is built under source id, source id, its own counter and 0x05. */
  lemma EveryRunOwnNonces(c: Setup, air: seq<Window>, steps: seq<Step>)
    ensures forall e :: e in Run(c, Factory(c, air), steps).log && e.Built? ==>
      e.nonce == Le4(c.srcId) + Le4(c.srcId) + Le4(e.counter) + [0x05]
  {
    KeepFactory(c, air);
    KeepRun(c, Factory(c, air), steps);
    NoncesAreOwn(c, Run(c, Factory(c, air), steps).log);
  }

  /** And every frame on the air, repeats included, is one built so: its counter is in flash by then, and its bytes
      are that frame under the key and the nonce recorded, which no other counter shares. */
  lemma EveryRunFrames(c: Setup, air: seq<Window>, steps: seq<Step>)
    ensures var log := Run(c, Factory(c, air), steps).log;
      forall i :: 0 <= i < |log| && log[i].Sent? ==>
        && log[i].counter == FlashCounter(log[..i]) && LastBuilt(log[..i]).Some?
        && IsFrameOf(c, LastBuilt(log[..i]).value, log[i].counter, log[i].payload, log[i].frame)
  {
    hide Run;
    hide Boot;
    KeepFactory(c, air);
    KeepRun(c, Factory(c, air), steps);
    var log := Run(c, Factory(c, air), steps).log;
    forall i | 0 <= i < |log| && log[i].Sent?
      ensures log[i].counter == FlashCounter(log[..i]) && LastBuilt(log[..i]).Some?
              && IsFrameOf(c, LastBuilt(log[..i]).value, log[i].counter, log[i].payload, log[i].frame)
    {
      OrderedAt(c, log, i);
    }
  }
}
