/** How a writer lease is lost, and how it is stamped. */
module Leases {
  import opened Wrappers
  import opened Store
  import opened Journals
  import opened LedgerSteps
  import opened LedgerRuns
  import opened LedgerAnswers
  import opened Children
  import opened Runs
  import opened Writers

  // ----- Losing a lease ---------------------------------------------------------------------

  /**
   * The operation ends the run's lease: the run releases it, it is cleared, the run discards the
   * session, another run opens the session after the lease has expired, or a reclaim names exactly this
   * expired lease while no operation is open.
   */
  ghost predicate Loses(m: Table, op: Op, s: string, runId: string)
    requires LeasedTo(m, s, runId)
  {
    var until := LeaseAt(m, s).value.until;
    match op
    case ReleaseLeaseOp(t, run) => t == s && run == runId
    case ClearLeaseOp(t) => t == s
    case DiscardOp(t, run, claim, now) =>
      t == s && run == runId && (now <= until || (claim.Some? && claim.value.expectedLastSeq == Last(m, s)))
    case OpenOp(t, run, _, now, _) => t == s && run != runId && until < now
    case ReclaimOp(t, run, named, now) =>
      t == s && run == runId && named == until && until < now && forall c :: CellAt(m, s, OP_STATE, c).None?
    case _ => false
  }

  /** Every other operation keeps the run's lease, and each of these ends it. */
  lemma LeaseLostExactly(m: Table, rules: Rules, op: Op, s: string, runId: string)
    requires LeasedTo(m, s, runId)
    ensures !LeasedTo(After(m, rules, op), s, runId) <==> Loses(m, op, s, runId)
  {
    if op.CommitOp? {
      AppendEventsKeepLeases(m, rules, op.s, Last(m, op.s), op.tx.events, op.tx.integrity, s);
      CommitTable(m, rules, op);
    } else if op.CreateOp? {
      CreateLeases(m, rules, op, s);
    } else if !IsLedgerOp(op) {
      OtherLeases(m, rules, op, s);
    }
  }

  /** A run that held the lease and no longer does lost it in one of those ways in between. */
  lemma {:induction false} LeaseWasLost(m: Table, rules: Rules, ops: seq<Op>, i: nat, j: nat, s: string, runId: string)
    returns (k: nat)
    requires i <= j <= |ops|
    requires LeasedTo(Run(m, rules, ops[..i]), s, runId) && !LeasedTo(Run(m, rules, ops[..j]), s, runId)
    ensures
      i <= k < j && LeasedTo(Run(m, rules, ops[..k]), s, runId)
      && Loses(Run(m, rules, ops[..k]), ops[k], s, runId)
    decreases j - i
  {
    RunStep(m, rules, ops, i);
    if LeasedTo(Run(m, rules, ops[..i + 1]), s, runId) {
      k := LeaseWasLost(m, rules, ops, i + 1, j, s, runId);
    } else {
      LeaseLostExactly(Run(m, rules, ops[..i]), rules, ops[i], s, runId);
      k := i;
    }
  }

  /** A release takes the releasing run's lease away, and leaves every other lease alone. */
  lemma ReleaseTakesOwnLease(m: Table, rules: Rules, s: string, runId: string, t: string)
    ensures LeaseAt(After(m, rules, ReleaseLeaseOp(s, runId)), t) ==
            if t == s && LeasedTo(m, s, runId) then None else LeaseAt(m, t)
  {
  }

  // ----- How a lease is stamped -------------------------------------------------------------

  /** A lease that is new or changed is the calling run's, and runs from the clock reading of the call. */
  ghost predicate Stamps(m: Table, op: Op, s: string, lease: Lease) {
    match op
    case OpenOp(t, runId, ttlMs, _, later) => t == s && lease == Lease(runId, later + ttlMs, ttlMs)
    case RenewOp(t, runId, claim, now, later) =>
      t == s && MayWrite(m, s, runId, claim, now)
      && var ttl := TimeToLive(m, s, runId, claim, now); lease == Lease(runId, later + ttl, ttl)
    case CommitOp(t, tx, now) =>
      t == s && MayWrite(m, s, tx.runId, tx.claim, now) && tx.claim.Some?
      && var ttl := TimeToLive(m, s, tx.runId, tx.claim, now); lease == Lease(tx.runId, now + ttl, ttl)
    case _ => false
  }

  lemma ChangedLeaseIsStamped(m: Table, rules: Rules, op: Op, s: string)
    requires LeaseAt(After(m, rules, op), s).Some? && LeaseAt(After(m, rules, op), s) != LeaseAt(m, s)
    ensures Stamps(m, op, s, LeaseAt(After(m, rules, op), s).value)
  {
    if op.CommitOp? {
      AppendEventsKeepLeases(m, rules, op.s, Last(m, op.s), op.tx.events, op.tx.integrity, s);
      CommitTable(m, rules, op);
    } else if op.CreateOp? {
      CreateLeases(m, rules, op, s);
    } else if !IsLedgerOp(op) {
      OtherLeases(m, rules, op, s);
    }
  }

  /** And where such a call goes through, the lease it leaves is so stamped. */
  lemma AcceptedCallStamps(m: Table, rules: Rules, op: Op, s: string)
    requires match op
             case OpenOp(t, runId, ttlMs, now, later) => t == s && Open(m, s, runId, ttlMs, now, later).Done?
             case RenewOp(t, runId, claim, now, later) => t == s && Renew(m, s, runId, claim, now, later).Done?
             case CommitOp(t, tx, now) => t == s && Commit(m, rules, s, tx, now).Done? && tx.claim.Some?
             case _ => false
    ensures LeaseAt(After(m, rules, op), s).Some? && Stamps(m, op, s, LeaseAt(After(m, rules, op), s).value)
  {
    if op.CommitOp? { CommitTable(m, rules, op); }
  }
}
