/** The provider as a whole: operations performed one after the other, and what a reopening finds. */
module Providers {
  import opened Wrappers
  import opened Store
  import opened JournalTail
  import opened Recovery
  import opened Journals
  import opened Runs
  import opened CrashSafety
  import LedgerSteps
  import Ledgers
  import ChildControls
  import Budget
  import Children
  import Writers

  /** What one operation did to the committed table: all of it, or none because the write failed. */
  twostate predicate Moved(db: Journal<Key, Value>, next: Table)
    reads db
  {
    && db.pending.None? && db.closed == old(db.closed)
    && if !old(db.Usable()) then db.data == old(db.data) && db.poisoned == old(db.poisoned)
       else if db.poisoned then db.data == old(db.data) && db.attempted == next
       else db.data == next
  }

  class Provider {
    const db: Journal<Key, Value>
    const rules: LedgerSteps.Rules
    const ledger: Ledgers.Ledger
    const children: ChildControls.ChildControl

    constructor (db: Journal<Key, Value>, rules: LedgerSteps.Rules)
      requires db.Valid() && db.pending.None? && WorldSound(db.data, rules)
      ensures this.db == db && this.rules == rules && Valid()
    {
      this.db, this.rules := db, rules;
      ledger := new Ledgers.Ledger(db, rules);
      children := new ChildControls.ChildControl(db);
    }

    /** The file means the table in memory, and every invariant holds of it. */
    ghost predicate Valid()
      reads this, db, ledger, children
    {
      && ledger.db == db && ledger.rules == rules && children.db == db
      && db.Valid() && db.pending.None? && WorldSound(db.data, rules)
    }

    method PerformLease(op: Op)
      requires Valid() && (op.OpenOp? || op.RenewOp? || op.ReleaseLeaseOp? || op.ClearLeaseOp? || op.ReclaimOp?)
      modifies db
      ensures db.Valid() && Moved(db, After(old(db.data), rules, op))
    {
      if op.OpenOp? {
        var r := ledger.Open(op.s, op.runId, op.ttlMs, op.now, op.later);
      } else if op.RenewOp? {
        var r := ledger.Renew(op.s, op.runId, op.claim, op.now, op.later);
      } else if op.ReleaseLeaseOp? {
        var r := ledger.Release(op.s, op.runId);
      } else if op.ClearLeaseOp? {
        var r := ledger.ClearWriterLease(op.s);
      } else {
        var r := ledger.ClaimForReclaim(op.s, op.runId, op.until, op.now);
      }
    }

    method PerformSession(op: Op)
      requires Valid() && (op.CommitOp? || op.ForkOp? || op.DiscardOp?)
      modifies db
      ensures db.Valid() && Moved(db, After(old(db.data), rules, op))
    {
      match op {
        case CommitOp(s, tx, now) =>
          var r := ledger.CommitBatch(s, tx, now);
        case ForkOp(parent, boundarySeq, child) =>
          var r := ledger.CreateChild(parent, boundarySeq, child);
        case DiscardOp(s, runId, claim, now) =>
          var r := ledger.DiscardNewSession(s, runId, claim, now);
      }
    }

    method PerformCreation(op: Op)
      requires Valid() && op.CreateOp?
      modifies db
      ensures db.Valid() && Moved(db, After(old(db.data), rules, op))
    {
      ChildControls.ReachableIsIndexed(db.data, rules);
      var r := children.CreateDelegatedChild(op.input);
    }

    method PerformAttempt(op: Op)
      requires Valid() && (op.BeginOp? || op.DeferOp? || op.CommitAttemptOp?)
      modifies db
      ensures db.Valid() && Moved(db, After(old(db.data), rules, op))
    {
      match op {
        case BeginOp(cas, nextAttemptId, at) =>
          var r := children.BeginChildAttempt(cas, nextAttemptId, at);
        case DeferOp(cas, at) =>
          var r := children.DeferCreatingChild(cas, at);
        case CommitAttemptOp(cas) =>
          var r := children.CommitCreatingChild(cas);
      }
    }

    method PerformEnding(op: Op)
      requires Valid() && (op.CancelOp? || op.CasOp?)
      modifies db
      ensures db.Valid() && Moved(db, After(old(db.data), rules, op))
    {
      match op {
        case CancelOp(cas, openFailed, at) =>
          var r := children.CancelCreatingChild(cas, openFailed, at);
        case CasOp(child, revision, next) =>
          var r := children.CasTaskState(child, revision, next);
      }
    }

    method PerformReservation(op: Op)
      requires Valid() && (op.ReserveOp? || op.ReleaseOp?)
      modifies db
      ensures db.Valid() && Moved(db, After(old(db.data), rules, op))
    {
      ChildControls.ReachableIsIndexed(db.data, rules);
      match op {
        case ReserveOp(request) =>
          var r := children.Reserve(request);
        case ReleaseOp(permitId, expected) =>
          var r := children.ReleaseReservation(permitId, expected);
      }
    }

    method PerformSettlement(op: Op)
      requires Valid() && op.SettleOp?
      modifies db
      ensures db.Valid() && Moved(db, After(old(db.data), rules, op))
    {
      ChildControls.ReachableIsIndexed(db.data, rules);
      var r, settled := children.SettleOrigin(op.settlement);
    }

    method PerformRoot(op: Op)
      requires Valid() && (op.EnsureRootOp? || op.BumpOp?)
      modifies db
      ensures db.Valid() && Moved(db, After(old(db.data), rules, op))
    {
      match op {
        case EnsureRootOp(root, cap) =>
          var r := children.EnsureRootScope(root, cap);
        case BumpOp(root) =>
          var r := children.BumpWriterGeneration(root);
      }
    }

    method PerformTakeover(op: Op)
      requires Valid() && op.TakeoverOp?
      modifies db
      ensures db.Valid() && Moved(db, After(old(db.data), rules, op))
    {
      var r := children.TakeoverReservation(op.permitId, op.generation);
    }

    /** One operation through the methods: the table moves as the pure step says, and stays sound. */
    method Perform(op: Op)
      requires Valid() && !op.RecoverOp? && Permitted(db.data, op)
      modifies db
      ensures Valid() && Moved(db, After(old(db.data), rules, op))
    {
      StepKeeps(db.data, rules, op);
      if op.CommitOp? || op.ForkOp? || op.DiscardOp? { PerformSession(op); }
      else if IsLedgerOp(op) { PerformLease(op); }
      else if op.SettleOp? { PerformSettlement(op); }
      else if op.ReserveOp? || op.ReleaseOp? { PerformReservation(op); }
      else if op.TakeoverOp? { PerformTakeover(op); }
      else if IsBudgetOp(op) { PerformRoot(op); }
      else if op.CreateOp? { PerformCreation(op); }
      else if op.CancelOp? || op.CasOp? { PerformEnding(op); }
      else { PerformAttempt(op); }
    }

    /** A run of operations, up to the first write whose outcome is uncertain. */
    method PerformAll(ops: seq<Op>) returns (done: nat)
      requires Valid() && db.Usable() && PermittedRun(db.data, rules, ops)
      requires forall op | op in ops :: !op.RecoverOp?
      modifies db
      ensures Valid() && done <= |ops| && db.data == Run(old(db.data), rules, ops[..done])
      ensures if db.poisoned then done < |ops| && db.attempted == After(db.data, rules, ops[done]) else done == |ops|
      ensures done < |ops| ==> Permitted(db.data, ops[done])
    {
      done := 0;
      while done < |ops| && !db.poisoned
        invariant Valid() && !db.closed && done <= |ops|
        invariant db.data == Run(old(db.data), rules, ops[..done])
        invariant PermittedRun(db.data, rules, ops[done..])
        invariant db.poisoned ==> done < |ops| && db.attempted == After(db.data, rules, ops[done])
        decreases |ops| - done, if db.poisoned then 0 else 1
      {
        ghost var before := db.data;
        assert ops[done] in ops && ops[done..][0] == ops[done];
        Perform(ops[done]);
        if !db.poisoned {
          Writers.RunStep(old(db.data), rules, ops, done);
          assert ops[done..][1..] == ops[done + 1..];
          done := done + 1;
        }
      }
      assert done < |ops| ==> ops[done..][0] == ops[done];
      assert !db.poisoned ==> ops[..done] == ops;
    }
  }

  /**
   * Reopening after an uncertain write: the table is the one before the operation, the one after it,
   * or the repaired one before it, and every invariant holds. It is refused only where no record was
   * ever complete.
   */
  lemma ReopenAfterFailure(
    p: Provider, op: Op, audit: Data, control: Data, phase: Data, outcome: Result<Opened<Key, Value>>)
    requires p.Valid() && p.db.poisoned && p.db.revision < MAX_SAFE_INTEGER
    requires Permitted(p.db.data, op) && p.db.attempted == After(p.db.data, p.rules, op)
    requires Opens(p.db.codec, LedgerRepair(audit, control, phase), p.db.disk, outcome)
    ensures outcome.Failure? ==> p.db.frames == []
    ensures outcome.Success? ==>
              && WorldSound(outcome.value.data, p.rules)
              && outcome.value.data in {
                   p.db.data, After(p.db.data, p.rules, op), Fenced(LedgerRepair(audit, control, phase), p.db.data)}
  {
    var base, f, n :| Uncertain(p.db.codec, p.db.disk, p.db.frames, p.db.attempted, base, f, n);
    CrashDuringOperation(
      p.db.codec, p.rules, base, p.db.frames, f, op, n, audit, control, phase, outcome);
  }

  /** Reopening a file that no write failed on gives the table as it was. */
  lemma ReopenAfterClose(p: Provider, repair: Repair<Key, Value>, outcome: Result<Opened<Key, Value>>)
    requires p.Valid() && !p.db.poisoned && p.db.revision <= MAX_SAFE_INTEGER
    requires Opens(p.db.codec, repair, p.db.disk, outcome)
    ensures outcome == Success(Opened(p.db.disk, p.db.frames, p.db.data))
  {
  }
}
