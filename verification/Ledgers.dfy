/** The session ledger: each operation runs as one journal transaction. */
module Ledgers {
  import opened Wrappers
  import opened Store
  import opened Journals
  import opened LedgerSteps
  import LedgerAnswers

  /** Records a fork inside the open transaction; shared with the creation of delegated children. */
  method WriteFork(db: Journal<Key, Value>, parent: string, boundarySeq: int, child: string) returns (r: Result<()>)
    requires db.Valid() && db.Usable() && db.pending.Some?
    modifies db`pending
    ensures db.Valid() && db.pending.Some?
    ensures match CreateFork(old(db.View()), parent, boundarySeq, child)
            case Refused(code) => r == Failure(code) && db.View() == old(db.View())
            case Done(next, _) => r == Success(()) && db.View() == next
  {
    var m := db.View();
    if SessionAt(m, parent).None? || boundarySeq < 0 || boundarySeq > Last(m, parent) { return Failure(EStorageFault); }
    var existing := SessionAt(m, child);
    if existing.Some? {
      if existing.value.fork == Some(Fork(parent, boundarySeq)) { return Success(()); }
      return Failure(EStorageFault);
    }
    db.PendingSet(SessionKey(child), SessionV(Session(Some(Fork(parent, boundarySeq)), boundarySeq)));
    r := Success(());
  }

  class Ledger {
    const db: Journal<Key, Value>
    const rules: Rules

    constructor (db: Journal<Key, Value>, rules: Rules)
      ensures this.db == db && this.rules == rules
    {
      this.db, this.rules := db, rules;
    }

    method Open(s: string, runId: string, ttlMs: int, now: int, later: int) returns (r: Result<bool>)
      requires db.Valid()
      modifies db
      ensures db.Valid() && db.Transacts(LedgerSteps.Open(old(db.View()), s, runId, ttlMs, now, later), r)
      ensures r.Success? ==> LedgerAnswers.OpenTold(old(db.View()), db.View(), s, runId, ttlMs, later, r.value)
    {
      LedgerAnswers.OpenIsTrue(db.View(), s, runId, ttlMs, now, later);
      var begun := db.Begin();
      if begun.Failure? { return Failure(begun.code); }
      var lease := LeaseAt(db.View(), s);
      if lease.Some? && lease.value.runId != runId && lease.value.until >= now {
        db.Abort(begun.value);
        return Failure(EWriterLease);
      }
      var created := SessionAt(db.View(), s).None?;
      if created { db.PendingSet(SessionKey(s), SessionV(Session(None, 0))); }
      db.PendingSet(LeaseKey(s), LeaseV(Lease(runId, later + ttlMs, ttlMs)));
      r := db.Commit(begun.value, created);
    }

    /** One event, and the register cell it names. */
    method WriteEvent(s: string, row: Row)
      requires db.Valid() && db.Usable() && db.pending.Some?
      modifies db`pending
      ensures db.Valid() && db.pending.Some? && db.View() == AppendEvent(old(db.View()), rules, s, row)
    {
      db.PendingSet(EventKey(s, row.at), RowV(row));
      if RegisterOf(row.event).Some? {
        var register := RegisterOf(row.event).value;
        var cell := rules.registerKey(row.event);
        if rules.tombstone(register, row.event.data) {
          db.PendingDelete(RegisterKey(s, register, cell));
        } else {
          db.PendingSet(RegisterKey(s, register, cell), CellV(Cell(register, cell, row.at, row.event.data)));
        }
      }
    }

    /** The batch, one event after the other under increasing numbers. */
    method WriteEvents(s: string, last: nat, tx: CommitInput) returns (at: nat)
      requires db.Valid() && db.Usable() && db.pending.Some?
      modifies db`pending
      ensures db.Valid() && db.pending.Some? && at == last + |tx.events|
      ensures db.View() == AppendEvents(old(db.View()), rules, s, last, tx.events, tx.integrity)
    {
      at := last;
      for i := 0 to |tx.events|
        invariant db.Valid() && db.pending.Some? && at == last + i
        invariant db.View() == AppendEvents(old(db.View()), rules, s, last, tx.events[..i], tx.integrity)
      {
        at := at + 1;
        WriteEvent(s, EventRow(tx.events[i], at, tx.integrity, i));
        assert tx.events[..i + 1][..i] == tx.events[..i];
      }
      assert tx.events[..|tx.events|] == tx.events;
    }

    /** The cell that holds the running operation's program counter. */
    method WriteOpCell(s: string, at: nat, op: Option<OpWrite>)
      requires db.Valid() && db.Usable() && db.pending.Some?
      modifies db`pending
      ensures db.Valid() && db.pending.Some? && db.View() == WriteOpState(old(db.View()), s, at, op)
    {
      if op.Some? {
        var id := RegisterKey(s, OP_STATE, op.value.lane);
        if op.value.data == Null {
          db.PendingDelete(id);
        } else {
          db.PendingSet(id, CellV(Cell(OP_STATE, op.value.lane, at, op.value.data)));
        }
      }
    }

    static function Receipted(m: Table, s: string, tx: CommitInput): Receipt {
      Receipt(if tx.events == [] then Last(m, s) else Last(m, s) + 1, Last(m, s) + |tx.events|)
    }

    /** The check part of a commit: the lease to write under, or the error. */
    method Admit(s: string, tx: CommitInput, now: int) returns (r: Result<Lease>)
      ensures match Commit(db.View(), rules, s, tx, now)
              case Refused(code) => r == Failure(code)
              case Done(next, receipt) =>
                && r.Success? && next == CommittedTable(db.View(), rules, s, tx, r.value)
                && receipt == Receipted(db.View(), s, tx)
    {
      var m := db.View();
      var lease := Hold(m, s, tx.runId, tx.claim, now);
      if lease.None? { return Failure(EWriterLease); }
      if tx.opState.Some? && tx.events == [] { return Failure(EStorageFault); }
      if !ExpectationMet(m, s, tx.expectedRegister) { return Failure(ECas); }
      if !IntegrityMatches(Last(m, s), tx.events, tx.integrity) { return Failure(EStorageFault); }
      r := Success(lease.value);
    }

    /** The body of a commit, inside the open transaction. */
    method WriteBatch(s: string, tx: CommitInput, now: int) returns (r: Result<Receipt>)
      requires db.Valid() && db.Usable() && db.pending.Some?
      modifies db`pending
      ensures db.Valid() && db.pending.Some?
      ensures match Commit(old(db.View()), rules, s, tx, now)
              case Refused(code) => r == Failure(code)
              case Done(next, receipt) => r == Success(receipt) && db.View() == next
    {
      var lease := Admit(s, tx, now);
      if lease.Failure? { return Failure(lease.code); }
      var receipt := WriteRows(s, tx, lease.value);
      r := Success(receipt);
    }

    /** The events, the operation's cell, the session's new end and the writer's lease. */
    method WriteRows(s: string, tx: CommitInput, lease: Lease) returns (receipt: Receipt)
      requires db.Valid() && db.Usable() && db.pending.Some?
      modifies db`pending
      ensures db.Valid() && db.pending.Some?
      ensures db.View() == CommittedTable(old(db.View()), rules, s, tx, lease)
      ensures receipt == Receipted(old(db.View()), s, tx)
    {
      var fork, last := ForkOf(db.View(), s), Last(db.View(), s);
      var at := WriteEvents(s, last, tx);
      WriteOpCell(s, at, tx.opState);
      db.PendingSet(SessionKey(s), SessionV(Session(fork, at)));
      db.PendingSet(LeaseKey(s), LeaseV(lease));
      receipt := Receipt(if tx.events == [] then last else last + 1, at);
    }

    method CommitBatch(s: string, tx: CommitInput, now: int) returns (r: Result<Receipt>)
      requires db.Valid()
      modifies db
      ensures db.Valid() && db.Transacts(Commit(old(db.View()), rules, s, tx, now), r)
      ensures r.Success? ==> LedgerAnswers.CommitTold(old(db.View()), db.View(), rules, s, tx, r.value)
    {
      LedgerAnswers.CommitIsTrue(db.View(), rules, s, tx, now);
      var begun := db.Begin();
      if begun.Failure? { return Failure(begun.code); }
      var body := WriteBatch(s, tx, now);
      r := db.Finish(begun.value, body);
    }

    method WriteRenewal(s: string, runId: string, claim: Option<Claim>, now: int, later: int) returns (r: Result<()>)
      requires db.Valid() && db.Usable() && db.pending.Some?
      modifies db`pending
      ensures db.Valid() && db.pending.Some?
      ensures match LedgerSteps.Renew(old(db.View()), s, runId, claim, now, later)
              case Refused(code) => r == Failure(code)
              case Done(next, _) => r == Success(()) && db.View() == next
    {
      var lease := Hold(db.View(), s, runId, claim, now);
      if lease.None? { return Failure(EWriterLease); }
      db.PendingSet(LeaseKey(s), LeaseV(lease.value.(until := later + lease.value.ttlMs)));
      r := Success(());
    }

    method Renew(s: string, runId: string, claim: Option<Claim>, now: int, later: int) returns (r: Result<()>)
      requires db.Valid()
      modifies db
      ensures db.Valid() && db.Transacts(LedgerSteps.Renew(old(db.View()), s, runId, claim, now, later), r)
      ensures r.Success? ==> LedgerAnswers.RenewTold(old(db.View()), db.View(), s, runId, claim, now, later)
    {
      LedgerAnswers.RenewIsTrue(db.View(), s, runId, claim, now, later);
      var begun := db.Begin();
      if begun.Failure? { return Failure(begun.code); }
      var body := WriteRenewal(s, runId, claim, now, later);
      r := db.Finish(begun.value, body);
    }

    method Release(s: string, runId: string) returns (r: Result<()>)
      requires db.Valid()
      modifies db
      ensures db.Valid() && db.Transacts(ReleaseLease(old(db.View()), s, runId), r)
      ensures r.Success? ==> LedgerAnswers.ReleaseLeaseTold(old(db.View()), db.View(), s, runId)
    {
      LedgerAnswers.ReleaseLeaseIsTrue(db.View(), s, runId);
      var begun := db.Begin();
      if begun.Failure? { return Failure(begun.code); }
      var lease := LeaseAt(db.View(), s);
      if lease.Some? && lease.value.runId == runId { db.PendingDelete(LeaseKey(s)); }
      r := db.Commit(begun.value, ());
    }

    method ClearWriterLease(s: string) returns (r: Result<()>)
      requires db.Valid()
      modifies db
      ensures db.Valid() && db.Transacts(ClearLease(old(db.View()), s), r)
    {
      r := db.Delete(LeaseKey(s));
    }

    method CreateChild(parent: string, boundarySeq: int, child: string) returns (r: Result<()>)
      requires db.Valid()
      modifies db
      ensures db.Valid() && db.Transacts(CreateFork(old(db.View()), parent, boundarySeq, child), r)
      ensures r.Success? ==> LedgerAnswers.ForkTold(old(db.View()), db.View(), parent, boundarySeq, child)
    {
      LedgerAnswers.ForkIsTrue(db.View(), parent, boundarySeq, child);
      var begun := db.Begin();
      if begun.Failure? { return Failure(begun.code); }
      var body := WriteFork(db, parent, boundarySeq, child);
      r := db.Finish(begun.value, body);
    }

    /** Deletes every row of the session, key by key. */
    method DeleteRows(s: string)
      requires db.Valid() && db.Usable() && db.pending.Some?
      modifies db`pending
      ensures db.Valid() && db.pending.Some?
      ensures db.View() == map k | k in old(db.View()) && !BelongsTo(k, s) :: old(db.View())[k]
    {
      ghost var m := db.View();
      var todo := db.View().Keys;
      while todo != {}
        invariant db.Valid() && db.pending.Some? && todo <= m.Keys
        invariant db.View() == map k | k in m && (k in todo || !BelongsTo(k, s)) :: m[k]
        decreases todo
      {
        var k :| k in todo;
        if BelongsTo(k, s) { db.PendingDelete(k); }
        todo := todo - {k};
      }
    }

    method DiscardNewSession(s: string, runId: string, claim: Option<Claim>, now: int) returns (r: Result<()>)
      requires db.Valid()
      modifies db
      ensures db.Valid() && db.Transacts(Discard(old(db.View()), s, runId, claim, now), r)
      ensures r.Success? ==> LedgerAnswers.DiscardTold(old(db.View()), db.View(), s)
    {
      LedgerAnswers.DiscardIsTrue(db.View(), s, runId, claim, now);
      var begun := db.Begin();
      if begun.Failure? { return Failure(begun.code); }
      if Hold(db.View(), s, runId, claim, now).None? {
        db.Abort(begun.value);
        return Failure(EWriterLease);
      }
      DeleteRows(s);
      r := db.Commit(begun.value, ());
    }

    /** The body of a reclaim: keeps the lease of a session with an open operation. */
    method TakeLease(s: string, runId: string, until: int, now: int) returns (at: Option<int>)
      requires db.Valid() && db.Usable() && db.pending.Some?
      modifies db`pending
      ensures db.Valid() && db.pending.Some?
      ensures Reclaim(old(db.View()), s, runId, until, now) == Done(db.View(), at)
    {
      var lease := LeaseAt(db.View(), s);
      if lease.None? || lease.value.runId != runId || lease.value.until != until || lease.value.until >= now {
        return None;
      }
      var open := db.Find((k: Key, v: Value) =>
        k.RegisterKey? && k.session == s && k.register == OP_STATE && v.CellV?);
      OpStateFound(db.View(), s, open);
      at := Some(Last(db.View(), s));
      if open.None? { db.PendingDelete(LeaseKey(s)); }
    }

    method ClaimForReclaim(s: string, runId: string, until: int, now: int) returns (r: Result<Option<int>>)
      requires db.Valid()
      modifies db
      ensures db.Valid() && db.Transacts(Reclaim(old(db.View()), s, runId, until, now), r)
      ensures r.Success? ==> LedgerAnswers.ReclaimTold(old(db.View()), db.View(), s, runId, until, now, r.value)
    {
      LedgerAnswers.ReclaimIsTrue(db.View(), s, runId, until, now);
      var begun := db.Begin();
      if begun.Failure? { return Failure(begun.code); }
      var at := TakeLease(s, runId, until, now);
      r := db.Commit(begun.value, at);
    }
  }

  lemma OpStateFound(m: Table, s: string, hit: Option<Key>)
    requires hit.Some? ==>
               hit.value in m && hit.value.RegisterKey? && hit.value.session == s && hit.value.register == OP_STATE
               && m[hit.value].CellV?
    requires hit.None? ==>
               forall k | k in m :: !(k.RegisterKey? && k.session == s && k.register == OP_STATE && m[k].CellV?)
    ensures hit.Some? <==> HasOpState(m, s)
  {
    if hit.Some? { assert CellAt(m, s, OP_STATE, hit.value.cell).Some?; }
    if HasOpState(m, s) {
      var c :| CellAt(m, s, OP_STATE, c).Some?;
      assert RegisterKey(s, OP_STATE, c) in m;
    }
  }
}
