/** The flash counter as a count, and when it rolls over. */
module Counting {
  import opened Bytes
  import opened Gpd
  import opened Runs
  import opened Counters
  import CounterTheorems

  function CountedBy(e: Event): nat
  {
    if e.Saved? && e.forCounter then 1 else 0
  }

  function CounterSaves(log: seq<Event>): nat
  {
    if log == [] then 0 else CounterSaves(log[..|log| - 1]) + CountedBy(log[|log| - 1])
  }

  lemma CountStep(c: Setup, past: seq<Event>, e: Event)
    requires Disciplined(c, past) && Ordered(c, past, e) && FlashOf(past).Some?
    ensures FlashOf(past + [e]).Some?
    ensures FlashCounter(past + [e]) == (FlashCounter(past) + CountedBy(e)) % 0x1_0000_0000
  {
    Append(c, past, e);
  }

  lemma CountOn(a: nat, d: nat)
    ensures (a % 0x1_0000_0000 + d) % 0x1_0000_0000 == (a + d) % 0x1_0000_0000
  {
  }

  /** The flash counter counts the counter saves. */
  lemma {:induction false} FlashCounterCounts(c: Setup, log: seq<Event>, n: nat)
    requires Disciplined(c, log) && n <= |log| && FlashOf(log[..n]).Some?
    ensures FlashOf(log).Some?
    ensures FlashCounter(log) == (FlashCounter(log[..n]) + CounterSaves(log[n..])) % 0x1_0000_0000
    decreases |log|
  {
    if n == |log| {
      assert log[..n] == log;
    } else {
      var past, e := log[..|log| - 1], log[|log| - 1];
      assert past + [e] == log && past[..n] == log[..n] && log[n..][..|log| - n - 1] == past[n..];
      FlashCounterCounts(c, past, n);
      CountStep(c, past, e);
      CountOn(FlashCounter(log[..n]) + CounterSaves(past[n..]), CountedBy(e));
    }
  }

  // -------------------------------------------------------------- rollover

  lemma {:induction false} PrefixCounts(c: Setup, log: seq<Event>, k: nat)
    requires Disciplined(c, log) && 1 <= k <= |log| && FlashOf(log[..1]).Some?
    requires FlashCounter(log[..1]) == 0 && CounterSaves(log[..1]) == 0
    ensures FlashCounter(log[..k]) == CounterSaves(log[..k]) % 0x1_0000_0000
  {
    var past := log[..k];
    DisciplinedPrefix(c, log, k);
    assert past[..1] == log[..1] && past == past[..1] + past[1..];
    FlashCounterCounts(c, past, 1);
    SavesAfterFirst(past);
  }

  lemma {:induction false} SavesAfterFirst(log: seq<Event>)
    requires |log| >= 1 && CounterSaves(log[..1]) == 0
    ensures CounterSaves(log) == CounterSaves(log[1..])
    decreases |log|
  {
    if |log| > 1 {
      var past := log[..|log| - 1];
      assert past[..1] == log[..1] && log[1..][..|log| - 2] == past[1..];
      SavesAfterFirst(past);
    } else {
      assert log[..1] == log;
    }
  }

  lemma {:induction false} SavesGrow(log: seq<Event>, k: nat)
    requires k <= |log|
    ensures CounterSaves(log[..k]) <= CounterSaves(log)
    decreases |log|
  {
    if k == |log| {
      assert log[..k] == log;
    } else {
      assert log[..|log| - 1][..k] == log[..k];
      SavesGrow(log[..|log| - 1], k);
    }
  }

  /** The save that brings the count to n. */
  lemma {:induction false} SaveNumber(log: seq<Event>, n: nat) returns (i: nat)
    requires 0 < n <= CounterSaves(log)
    ensures i < |log| && CountedBy(log[i]) == 1 && CounterSaves(log[..i + 1]) == n
    decreases |log|
  {
    var last := |log| - 1;
    if CounterSaves(log[..last]) >= n {
      i := SaveNumber(log[..last], n);
      assert log[..last][..i + 1] == log[..i + 1];
    } else {
      i := last;
      assert log[..last + 1] == log;
    }
  }

  /** A history that starts, as they all do, with a saved counter of 0. */
  ghost predicate FromZero(c: Setup, log: seq<Event>)
  {
    Disciplined(c, log) && |log| >= 1 && FlashOf(log[..1]).Some? && FlashCounter(log[..1]) == 0
    && CounterSaves(log[..1]) == 0
  }

  lemma RolloverTakes(c: Setup, log: seq<Event>, i: nat)
    requires FromZero(c, log) && i < |log| && Rollover(log[i])
    ensures CounterSaves(log) >= 0x1_0000_0000
  {
    hide Disciplined;
    hide IsFrameOf;
    PrefixCounts(c, log, i + 1);
    CounterTheorems.OneStep(log, i);
    assert log[..i + 1][..i] == log[..i];
    SavesGrow(log, i + 1);
  }

  lemma SavesRollOver(c: Setup, log: seq<Event>) returns (i: nat)
    requires FromZero(c, log) && CounterSaves(log) >= 0x1_0000_0000
    ensures i < |log| && Rollover(log[i])
  {
    i := SaveNumber(log, 0x1_0000_0000);
    PrefixCounts(c, log, i + 1);
    CounterTheorems.OneStep(log, i);
  }

  /** In every run the counter has rolled over exactly if it was saved 2^32 times or more. */
  lemma RolloverIff(c: Setup, air: seq<Window>, steps: seq<Step>)
    ensures var log := Run(c, Factory(c, air), steps).log;
      RolledOver(log) <==> CounterSaves(log) >= 0x1_0000_0000
  {
    hide Boot;
    hide Run;
    var s, log := Factory(c, air), Run(c, Factory(c, air), steps).log;
    KeepFactory(c, air);
    KeepRun(c, s, steps);
    FactorySaves(c, air);
    assert log[..1] == s.log[..1];
    if RolledOver(log) {
      var i :| 0 <= i < |log| && Rollover(log[i]);
      RolloverTakes(c, log, i);
    }
    if CounterSaves(log) >= 0x1_0000_0000 {
      var i := SavesRollOver(c, log);
    }
  }

  /** Leaving power-up on an empty chip first saves the defaults, with counter 0. */
  lemma FactorySaves(c: Setup, air: seq<Window>)
    ensures var log := Factory(c, air).log;
      |log| == 2 && FlashOf(log[..1]).Some? && FlashCounter(log[..1]) == 0 && CounterSaves(log[..1]) == 0
  {
    WordOfLe4(0);
    var cold := Cold(None, air, []);
    var nv, log := Shadow(Defaults(c, cold.gpd), cold.nv), Factory(c, air).log;
    assert nv[..4] == Le4(0);
    assert log[..1] == [Saved(nv, false)] && log[..1][..0] == [];
  }
}
