/** Over any run, what a session has seen stays as it was until the session itself is discarded. */
module ForkHistory {
  import opened Wrappers
  import opened Store
  import opened Journals
  import opened LedgerSteps
  import opened LedgerRuns
  import opened ForkView
  import opened Runs
  import opened Writers

  lemma SameSessionsGrow(m: Table, m': Table)
    requires forall s :: SameSession(m, m', s)
    ensures Grows(m, m')
  {
    forall s ensures SessionAt(m', s) == SessionAt(m, s) && forall n: nat :: RowAt(m', s, n) == RowAt(m, s, n) {
      assert SameSession(m, m', s);
    }
  }

  lemma CommitGrows(m: Table, rules: Rules, s: string, tx: CommitInput, lease: Lease)
    requires SessionSound(m, rules, s)
    ensures Grows(m, CommittedTable(m, rules, s, tx, lease))
  {
    var m' := CommittedTable(m, rules, s, tx, lease);
    CommitKeepsOthers(m, rules, s, tx, lease);
    AppendEventsKeep(m, rules, s, Base(m, s), Last(m, s), tx.events, tx.integrity);
    CommittedShape(m, rules, s, tx, lease);
    forall t | t != s ensures
      SessionAt(m', t) == SessionAt(m, t) && forall n: nat :: RowAt(m', t, n) == RowAt(m, t, n)
    {
      assert SameSession(m, m', t);
    }
  }

  lemma LedgerOpGrows(m: Table, rules: Rules, op: Op)
    requires LedgerSound(m, rules) && IsLedgerOp(op) && !op.DiscardOp?
    ensures Grows(m, After(m, rules, op))
  {
    if op.CommitOp? {
      if Commit(m, rules, op.s, op.tx, op.now).Done? {
        CommitGrows(m, rules, op.s, op.tx, Hold(m, op.s, op.tx.runId, op.tx.claim, op.now).value);
      }
    }
  }

  lemma StepGrows(m: Table, rules: Rules, op: Op)
    requires WorldSound(m, rules) && !op.DiscardOp?
    ensures Grows(m, After(m, rules, op))
  {
    var m' := After(m, rules, op);
    if IsLedgerOp(op) {
      LedgerOpGrows(m, rules, op);
    } else if op.CreateOp? {
      if Creates(m, op.input) {
        var forked := CreateSteps(m, rules, op.input);
        LedgerOpGrows(m, rules, ForkOp(op.input.parentKey, op.input.boundarySeq, op.input.childKey));
        CreateRows(m, forked, op.input);
        SameLedgerRows(forked, m');
        SameSessionsGrow(forked, m');
        GrowsTransitive(m, forked, m');
      }
    } else {
      if IsBudgetOp(op) { BudgetOpRows(m, rules, op); } else { TaskOpRows(m, rules, op); }
      SameLedgerRows(m, m');
      SameSessionsGrow(m, m');
    }
  }

  lemma GrowsTransitive(a: Table, b: Table, c: Table)
    requires Grows(a, b) && Grows(b, c)
    ensures Grows(a, c)
  {
  }

  // ----- Discards of other sessions ---------------------------------------------------------

  /** A session nothing forks from is nobody's ancestor: discarding it changes no other view. */
  lemma {:induction false} DiscardSeen(
    m: Table, m': Table, rank: map<string, nat>, rank': map<string, nat>, gone: string, s: string, n: nat)
    requires ForksRanked(m, rank) && ForksRanked(m', rank') && Childless(m, gone) && s != gone
    requires forall t | t != gone :: SameSession(m, m', t)
    ensures SeenAt(m', rank', s, n) == SeenAt(m, rank, s, n)
    decreases if s in rank then rank[s] else 0
  {
    assert SameSession(m, m', s);
    match ForkOf(m, s) {
      case None =>
      case Some(f) =>
        assert SessionKey(s) in m && m[SessionKey(s)].SessionV?;
        assert f.parent != gone;
        if n <= f.boundarySeq { DiscardSeen(m, m', rank, rank', gone, f.parent, n); }
    }
  }

  /** One permitted step that does not discard the session itself. */
  lemma StepSeen(m: Table, rules: Rules, op: Op, rank: map<string, nat>, rank': map<string, nat>, s: string, n: nat)
    requires WorldSound(m, rules) && Permitted(m, op) && !Removes(m, op, s)
    requires ForksRanked(m, rank) && ForksRanked(After(m, rules, op), rank')
    requires SessionAt(m, s).Some? && n <= Last(m, s)
    ensures
      var m' := After(m, rules, op);
      SessionAt(m', s).Some? && Last(m', s) >= Last(m, s) && SeenAt(m', rank', s, n) == SeenAt(m, rank, s, n)
  {
    var m' := After(m, rules, op);
    if op.DiscardOp? && Removes(m, op, op.s) {
      forall t | t != op.s ensures SameSession(m, m', t) {}
      DiscardSeen(m, m', rank, rank', op.s, s, n);
    } else {
      if op.DiscardOp? { SameSessionsGrow(m, m'); } else { StepGrows(m, rules, op); }
      SeenIsStable(m, m', rank, rank', s, n);
    }
  }

  /**
   * As long as a session is not discarded itself, each number it has seen goes on showing the same
   * row, whatever else runs: commits in it or its ancestors, forks, and discards of other sessions.
   */
  lemma {:induction false} SeenForever(
    m: Table, rules: Rules, ops: seq<Op>, rank: map<string, nat>, rank': map<string, nat>, s: string, n: nat)
    requires WorldSound(m, rules) && PermittedRun(m, rules, ops) && Stays(m, rules, ops, s)
    requires ForksRanked(m, rank) && ForksRanked(Run(m, rules, ops), rank')
    requires SessionAt(m, s).Some? && n <= Last(m, s)
    ensures SeenAt(Run(m, rules, ops), rank', s, n) == SeenAt(m, rank, s, n)
    decreases |ops|
  {
    if ops == [] {
      SeenIsStable(m, m, rank, rank', s, n);
    } else {
      var next := After(m, rules, ops[0]);
      StepKeeps(m, rules, ops[0]);
      var mid :| ForksRanked(next, mid);
      StepSeen(m, rules, ops[0], rank, mid, s, n);
      SeenForever(next, rules, ops[1..], mid, rank', s, n);
    }
  }
}
