/** The RTOS task that owns the device, over any finite sequence of things it wakes up for. */
module Task {
  import opened Gpd
  import opened Runs
  import opened Session
  import opened Counters
  import opened CounterTheorems
  import opened KeySync
  import opened Nonces
  import Stack

  /** One thing `GpdTask` does with the device. */
  method Handle(n: Stack.Node, op: Op)
    requires n.Valid() && InSession(op)
    modifies n.Repr()
    ensures n.Valid() && n.View() == Apply(n.c, old(n.View()), op)
  {
    match op
    case CommandCommission => n.SetState(CHANNEL_REQUEST);
    case CommandSend => n.SetState(COMMAND_REQUEST);
    case Pass => n.TaskPass();
    case AppDecommission => n.DeCommission();
  }

  lemma DisciplinedCounts(c: Setup, log: seq<Event>)
    requires Disciplined(c, log)
    ensures FlashNeverFalls(log) <==> !RolledOver(log)
    ensures !RolledOver(log) ==> BuiltCountersRise(log) && FlashCoversSent(log)
    ensures NoncesDistinct(log) <==> SavesApart(log)
  {
    NeverFallsIffNoRollover(c, log);
    NoncesApart(c, log);
    if !RolledOver(log) {
      CountersRise(c, log);
      SentCovered(c, log);
    }
  }

  /** `GpdTask`: on the object with its buffers, over any number of wake-ups, the session, counter, nonce and key
      properties of the device value hold of the history that the object leaves. */
  method GpdTask(n: Stack.Node, ops: seq<Op>)
    requires n.Valid() && forall op :: op in ops ==> InSession(op)
    modifies n.Repr()
    ensures n.Valid() && n.View() == Play(n.c, old(n.View()), ops)
    ensures old(n.gpdState) == NOT_COMMISSIONED ==>
      ChannelDiscipline(n.log, |old(n.log)|) && Successes(n.log, |old(n.log)|) <= Replies(n.log, |old(n.log)|)
    ensures Kept(n.c, old(n.View())) ==>
      && (FlashNeverFalls(n.log) <==> !RolledOver(n.log))
      && (!RolledOver(n.log) ==> BuiltCountersRise(n.log) && FlashCoversSent(n.log))
      && (NoncesDistinct(n.log) <==> SavesApart(n.log))
      && (n.ccmKey == n.securityKey[..] <==> OwnKeyHeld(n.log))
  {
    ghost var start := n.View();
    for k := 0 to |ops|
      invariant n.Valid() && Play(n.c, n.View(), ops[k..]) == Play(n.c, start, ops)
      invariant Kept(n.c, start) ==> Kept(n.c, n.View())
    {
      ghost var before := n.View();
      if Kept(n.c, before) {
        KeepApply(n.c, before, ops[k]);
      }
      assert ops[k..][1..] == ops[k + 1..];
      Handle(n, ops[k]);
    }
    if start.gpd.state == NOT_COMMISSIONED {
      SessionDiscipline(n.c, start, ops);
    }
    if Kept(n.c, start) {
      DisciplinedCounts(n.c, n.log);
      OwnKeyHeldIff(n.log);
    }
  }
}
