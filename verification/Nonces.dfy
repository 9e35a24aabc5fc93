/** Exactly when two frames are sealed under one nonce, and that it happens. */
module Nonces {
  import opened Bytes
  import opened Ccm
  import opened Frames
  import opened Gpd
  import opened Effects
  import opened Runs
  import opened Counters
  import opened CounterTheorems
  import opened Counting

  lemma RemainderOfSum(a: nat, k: nat)
    requires a < 0x1_0000_0000
    ensures (a + k) % 0x1_0000_0000 == a <==> k % 0x1_0000_0000 == 0
  {
  }

  /** Two frames of a history were built under one nonce exactly if the counter saves between them are a multiple
      of 2^32. */
  lemma SharedNonceIff(c: Setup, log: seq<Event>, i: nat, j: nat)
    requires Disciplined(c, log) && i < j < |log| && log[i].Built? && log[j].Built?
    ensures log[i].nonce == log[j].nonce <==> CounterSaves(log[i..j]) % 0x1_0000_0000 == 0
  {
    OrderedAt(c, log, i);
    OrderedAt(c, log, j);
    assert log[..j][..i] == log[..i] && log[..j][i..] == log[i..j];
    FlashCounterCounts(c, log[..j], i);
    RemainderOfSum(log[i].counter, CounterSaves(log[i..j]));
    if log[i].nonce == log[j].nonce {
      NonceDeterminesCounter(c.srcId, log[i].counter, log[j].counter);
    }
  }

  /** Between any two frames sealed under one key, other than the link key, the counter was not saved a multiple of
      2^32 times. */
  ghost predicate SavesApart(log: seq<Event>)
  {
    forall i, j :: 0 <= i < j < |log| && Seals(log[i]) && Seals(log[j]) && log[i].key == log[j].key != LINK_KEY ==>
      CounterSaves(log[i..j]) % 0x1_0000_0000 != 0
  }

  lemma NoncesApart(c: Setup, log: seq<Event>)
    requires Disciplined(c, log)
    ensures NoncesDistinct(log) <==> SavesApart(log)
  {
    NoncesAreOwn(c, log);
    forall i, j | 0 <= i < j < |log| && Seals(log[i]) && Seals(log[j]) && log[i].key == log[j].key != LINK_KEY
      ensures log[i].nonce == log[j].nonce <==> CounterSaves(log[i..j]) % 0x1_0000_0000 == 0
    {
      SharedNonceIff(c, log, i, j);
    }
  }

  /** In every run no key but the link key seals twice under one nonce, exactly as long as that holds. */
  lemma NoncesDistinctIff(c: Setup, air: seq<Window>, steps: seq<Step>)
    ensures var log := Run(c, Factory(c, air), steps).log; NoncesDistinct(log) <==> SavesApart(log)
  {
    hide Run;
    hide Boot;
    KeepFactory(c, air);
    KeepRun(c, Factory(c, air), steps);
    NoncesApart(c, Run(c, Factory(c, air), steps).log);
  }

  // ------------------------------------------------------------- a repetition

  /** With nothing in the air a send changes nothing but the counter. */
  lemma QuietSend(c: Setup, s: Device, payload: Payload)
    requires s.air == []
    ensures var r := Send(c, s, DATA, payload, 1);
      && r.ccmKey == s.ccmKey && r.air == [] && r.gpd == s.gpd.(counter := (s.gpd.counter + 1) % 0x1_0000_0000)
      && Prepare(s, DATA, payload).log <= r.log
  {
    hide FrameFor;
    SendOnce(c, s, DATA, payload);
  }

  /** What a send builds, and where it stands in the history. */
  lemma BuiltBySend(c: Setup, s: Device, payload: Payload)
    requires Kept(c, s) && s.air == []
    ensures var log := Prepare(s, DATA, payload).log;
      && |log| == |s.log| + 2 && log[..|s.log|] == s.log
      && log[|s.log| + 1] == Built(s.ccmKey, TxNonce(c.srcId, (s.gpd.counter + 1) % 0x1_0000_0000), s.gpd.level,
                                   (s.gpd.counter + 1) % 0x1_0000_0000, Capped(payload))
  {
    KeepAdvance(c, s);
  }

  /** The steps of n application sends. */
  function Sends(payload: Payload, n: nat): (steps: seq<Step>)
    ensures |steps| == n
  {
    if n == 0 then [] else [Do(AppSend(DATA, payload, 1))] + Sends(payload, n - 1)
  }

  /** r is s after n quiet sends. */
  ghost predicate Counted(c: Setup, s: Device, r: Device, n: nat)
  {
    && Kept(c, r) && s.log <= r.log && r.ccmKey == s.ccmKey && r.air == []
    && r.gpd == s.gpd.(counter := (s.gpd.counter + n) % 0x1_0000_0000)
  }

  lemma CountedOnce(c: Setup, s: Device, payload: Payload)
    requires Kept(c, s) && s.air == []
    ensures Counted(c, s, Send(c, s, DATA, payload, 1), 1)
  {
    hide Send;
    QuietSend(c, s, payload);
    KeepSend(c, s, DATA, payload, 1);
  }

  lemma CountedThen(c: Setup, s: Device, s1: Device, r: Device, m: nat, n: nat)
    requires Counted(c, s, s1, m) && Counted(c, s1, r, n)
    ensures Counted(c, s, r, m + n)
  {
    hide Kept;
    CountOn(s.gpd.counter + m, n);
  }

  lemma FirstSend(c: Setup, s: Device, payload: Payload, n: nat)
    requires n > 0
    ensures Run(c, s, Sends(payload, n)) == Run(c, Send(c, s, DATA, payload, 1), Sends(payload, n - 1))
  {
    assert Sends(payload, n)[1..] == Sends(payload, n - 1);
  }

  lemma {:induction false} QuietSends(c: Setup, s: Device, payload: Payload, n: nat)
    requires Kept(c, s) && s.air == []
    ensures Counted(c, s, Run(c, s, Sends(payload, n)), n)
    decreases n
  {
    hide Send;
    hide Kept;
    if n > 0 {
      hide Run;
      var s1 := Send(c, s, DATA, payload, 1);
      CountedOnce(c, s, payload);
      QuietSends(c, s1, payload, n - 1);
      FirstSend(c, s, payload, n);
      CountedThen(c, s, s1, Run(c, s1, Sends(payload, n - 1)), 1, n - 1);
    }
  }

  lemma FactoryFields(c: Setup)
    ensures var s := Factory(c, []);
      s.gpd.key == s.ccmKey == c.key && s.gpd.level == 3 && s.gpd.counter == 0 && s.air == []
  {
    WordOfLe4(0);
    var cold := Cold(None, [], []);
    assert Shadow(Defaults(c, cold.gpd), cold.nv)[..4] == Le4(0);
  }

  /** Two different frames, as far as the payloads differ, sealed under one key and nonce. */
  ghost predicate Repetition(log: seq<Event>, key: Block, first: seq<byte>, next: seq<byte>)
  {
    exists i, j :: 0 <= i < j < |log| && SealedAlike(log[i], log[j], key, first, next)
  }

  predicate SealedAlike(e: Event, e': Event, key: Block, first: seq<byte>, next: seq<byte>)
  {
    && e.Built? && e'.Built? && Secured(e.level) && Secured(e'.level)
    && e.key == e'.key == key && e.nonce == e'.nonce && e.payload == first && e'.payload == next
  }

  /** A send by a device that has come back to the counter of an earlier one repeats its nonce. */
  lemma SameCounterRepeats(c: Setup, s: Device, r: Device, first: Payload, next: Payload)
    requires Kept(c, s) && Kept(c, r) && s.air == [] && r.air == [] && s.gpd.level == 3 && s.ccmKey != LINK_KEY
    requires r.ccmKey == s.ccmKey && r.gpd == s.gpd && Send(c, s, DATA, first, 1).log <= r.log
    ensures Repetition(Send(c, r, DATA, next, 1).log, s.ccmKey, Capped(first), Capped(next))
  {
    hide Send;
    hide Prepare;
    BuiltBySend(c, s, first);
    QuietSend(c, s, first);
    BuiltBySend(c, r, next);
    QuietSend(c, r, next);
    var log, i, j := Send(c, r, DATA, next, 1).log, |s.log| + 1, |r.log| + 1;
    assert SealedAlike(log[i], log[j], s.ccmKey, Capped(first), Capped(next));
  }

  /** The repetition: a device that has sent 2^32 frames since it left the factory seals the next one under the
      key and the nonce of its first. */
  lemma NonceRepeats(c: Setup, first: Payload, next: Payload, n: nat)
    requires c.key != LINK_KEY && n == 0x1_0000_0000
    ensures var s := Run(c, Factory(c, []), Sends(first, n));
      var log := Send(c, s, DATA, next, 1).log;
      Repetition(log, c.key, Capped(first), Capped(next)) && !NoncesDistinct(log)
  {
    hide Send;
    hide Boot;
    hide Run;
    hide Kept;
    var s0 := Factory(c, []);
    FactoryFields(c);
    KeepFactory(c, []);
    CountedOnce(c, s0, first);
    QuietSends(c, Send(c, s0, DATA, first, 1), first, n - 1);
    QuietSends(c, s0, first, n);
    FirstSend(c, s0, first, n);
    SameCounterRepeats(c, s0, Run(c, s0, Sends(first, n)), first, next);
  }
}
