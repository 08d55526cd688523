/** What the ledger tells its callers, as statements about the rows before and after. */
module LedgerAnswers {
  import opened Wrappers
  import opened Store
  import opened Journals
  import opened LedgerSteps
  import opened LedgerRuns
  import opened Answers

  // ----- Who may write ----------------------------------------------------------------------

  /** An unexpired lease of its own; or a claim that names the log's end, against no other run's lease. */
  ghost predicate MayWrite(m: Table, s: string, runId: string, claim: Option<Claim>, now: int) {
    var lease := LeaseAt(m, s);
    || (lease.Some? && lease.value.runId == runId && now <= lease.value.until)
    || (claim.Some? && claim.value.expectedLastSeq == Last(m, s) && (lease.Some? ==> lease.value.runId == runId))
  }

  /** The time to live of an unexpired lease of the run itself, or else that of the claim. */
  function TimeToLive(m: Table, s: string, runId: string, claim: Option<Claim>, now: int): int {
    if LeaseAt(m, s).Some? && LeaseAt(m, s).value.runId == runId && now <= LeaseAt(m, s).value.until
    then LeaseAt(m, s).value.ttlMs
    else if claim.Some? then claim.value.ttlMs else 0
  }

  lemma HoldIsMayWrite(m: Table, s: string, runId: string, claim: Option<Claim>, now: int)
    ensures Hold(m, s, runId, claim, now).Some? <==> MayWrite(m, s, runId, claim, now)
    ensures
      var ttl := TimeToLive(m, s, runId, claim, now);
      Hold(m, s, runId, claim, now).Some? ==>
        Hold(m, s, runId, claim, now).value ==
          if claim.Some? then Lease(runId, now + ttl, ttl) else LeaseAt(m, s).GetOr(Lease(runId, 0, 0))
  {
  }

  // ----- Opening, renewing, releasing -------------------------------------------------------

  /** Created is told just of a session that was not there; an existing one stays as it was. */
  ghost predicate OpenTold(m: Table, m': Table, s: string, runId: string, ttlMs: int, later: int, created: bool) {
    && (created <==> SessionAt(m, s).None?)
    && SessionAt(m', s) == Some(SessionAt(m, s).GetOr(Session(None, 0)))
    && LeaseAt(m', s) == Some(Lease(runId, later + ttlMs, ttlMs))
    && OnlyMoved(m, m', {SessionKey(s), LeaseKey(s)})
  }

  /** Opening is refused exactly while another run's lease has not expired. */
  lemma OpenIsTrue(m: Table, s: string, runId: string, ttlMs: int, now: int, later: int)
    ensures
      var o := Open(m, s, runId, ttlMs, now, later);
      && (o.Done? ==> OpenTold(m, o.table, s, runId, ttlMs, later, o.value))
      && (o.Refused? <==>
          LeaseAt(m, s).Some? && LeaseAt(m, s).value.runId != runId && now <= LeaseAt(m, s).value.until)
      && (o.Refused? ==> o == Refused(EWriterLease))
  {
  }

  ghost predicate RenewTold(m: Table, m': Table, s: string, runId: string, claim: Option<Claim>, now: int, later: int) {
    var ttl := TimeToLive(m, s, runId, claim, now);
    LeaseAt(m', s) == Some(Lease(runId, later + ttl, ttl)) && OnlyMoved(m, m', {LeaseKey(s)})
  }

  lemma RenewIsTrue(m: Table, s: string, runId: string, claim: Option<Claim>, now: int, later: int)
    ensures
      var o := Renew(m, s, runId, claim, now, later);
      && (o.Done? ==> RenewTold(m, o.table, s, runId, claim, now, later))
      && (o.Done? <==> MayWrite(m, s, runId, claim, now)) && (o.Refused? ==> o == Refused(EWriterLease))
  {
    HoldIsMayWrite(m, s, runId, claim, now);
  }

  /** The run's own lease has gone; any other lease is as it was. */
  ghost predicate ReleaseLeaseTold(m: Table, m': Table, s: string, runId: string) {
    && OnlyMoved(m, m', {LeaseKey(s)})
    && LeaseAt(m', s) == (if LeaseAt(m, s).Some? && LeaseAt(m, s).value.runId == runId then None else LeaseAt(m, s))
  }

  lemma ReleaseLeaseIsTrue(m: Table, s: string, runId: string)
    ensures ReleaseLease(m, s, runId).Done? && ReleaseLeaseTold(m, ReleaseLease(m, s, runId).table, s, runId)
  {
  }

  lemma ClearLeaseIsTrue(m: Table, s: string)
    ensures
      var o := ClearLease(m, s);
      o.Done? && LeaseAt(o.table, s).None? && OnlyMoved(m, o.table, {LeaseKey(s)})
  {
  }

  /** The end of the log is told exactly for this expired lease; it goes unless an operation is open. */
  ghost predicate ReclaimTold(
    m: Table, m': Table, s: string, runId: string, until: int, now: int, told: Option<int>)
  {
    var expired := LeaseAt(m, s).Some? && LeaseAt(m, s).value.runId == runId
                   && LeaseAt(m, s).value.until == until && until < now;
    && told == (if expired then Some(Last(m, s)) else None)
    && OnlyMoved(m, m', {LeaseKey(s)})
    && LeaseAt(m', s) ==
         if expired && (forall c :: CellAt(m, s, OP_STATE, c).None?) then None else LeaseAt(m, s)
  }

  lemma ReclaimIsTrue(m: Table, s: string, runId: string, until: int, now: int)
    ensures
      var o := Reclaim(m, s, runId, until, now);
      o.Done? && ReclaimTold(m, o.table, s, runId, until, now, o.value)
  {
  }

  // ----- Committing -------------------------------------------------------------------------

  /** The metadata of the event at a position of the batch. */
  function MetadataOf(tx: CommitInput, i: nat): Option<Integrity> {
    match tx.integrity
    case None => None
    case Some(rows) => if i < |rows| then Some(rows[i].integrity) else None
  }

  /**
   * The batch stands behind the log's old end, each event under its own number with its own metadata; the
   * receipt names the numbers; the operation's cell holds what was written to it.
   */
  ghost predicate CommitTold(m: Table, m': Table, rules: Rules, s: string, tx: CommitInput, receipt: Receipt) {
    var last := Last(m, s);
    && SessionAt(m', s) == Some(Session(ForkOf(m, s), last + |tx.events|))
    && receipt.lastSeq == last + |tx.events| && receipt.firstSeq == (if tx.events == [] then last else last + 1)
    && (forall i | 0 <= i < |tx.events| ::
          RowAt(m', s, last + 1 + i) == Some(Row(last + 1 + i, tx.events[i], MetadataOf(tx, i))))
    && (forall n: nat | n <= last || n > last + |tx.events| :: RowAt(m', s, n) == RowAt(m, s, n))
    && (tx.opState.Some? ==>
          CellAt(m', s, OP_STATE, tx.opState.value.lane) ==
            if tx.opState.value.data == Null then None
            else Some(Cell(OP_STATE, tx.opState.value.lane, receipt.lastSeq as nat, tx.opState.value.data)))
    && (forall k | !OfSession(k, s) :: (k in m <==> k in m') && (k in m ==> m'[k] == m[k]))
    && (forall r, c | !WritesTo(rules, tx, r, c) :: CellAt(m', s, r, c) == CellAt(m, s, r, c))
  }

  predicate OfSession(k: Key, s: string) {
    (k.SessionKey? || k.LeaseKey? || k.EventKey? || k.RegisterKey?) && k.session == s
  }

  /** The batch has an event for the cell, or is the operation's own write to it. */
  predicate WritesTo(rules: Rules, tx: CommitInput, r: string, c: string) {
    || (exists e | e in tx.events :: Names(rules, e, r, c))
    || (r == OP_STATE && tx.opState.Some? && tx.opState.value.lane == c)
  }

  lemma {:induction false} AppendedRow(
    m: Table, rules: Rules, s: string, last: nat, events: seq<Event>, integrity: Option<seq<IntegrityCommit>>, n: nat)
    ensures
      RowAt(AppendEvents(m, rules, s, last, events, integrity), s, n) ==
        if last < n <= last + |events| then Some(EventRow(events[n - last - 1], n, integrity, n - last - 1))
        else RowAt(m, s, n)
    decreases |events|
  {
    if events != [] {
      var k := |events| - 1;
      AppendedRow(m, rules, s, last, events[..k], integrity, n);
      AppendedOneRow(AppendEvents(m, rules, s, last, events[..k], integrity), rules, s,
                     EventRow(events[k], last + k + 1, integrity, k), n);
    }
  }

  lemma AppendedOneRow(m: Table, rules: Rules, s: string, row: Row, n: nat)
    ensures RowAt(AppendEvent(m, rules, s, row), s, n) == if n == row.at then Some(row) else RowAt(m, s, n)
  {
  }

  lemma {:induction false} AppendedElsewhere(
    m: Table, rules: Rules, s: string, last: nat, events: seq<Event>, integrity: Option<seq<IntegrityCommit>>, k: Key)
    requires !OfSession(k, s)
    ensures
      var m' := AppendEvents(m, rules, s, last, events, integrity);
      (k in m <==> k in m') && (k in m ==> m'[k] == m[k])
    decreases |events|
  {
    if events != [] { AppendedElsewhere(m, rules, s, last, events[..|events| - 1], integrity, k); }
  }

  lemma {:induction false} AppendedCells(
    m: Table, rules: Rules, s: string, last: nat, events: seq<Event>, integrity: Option<seq<IntegrityCommit>>,
    r: string, c: string)
    requires forall e | e in events :: !Names(rules, e, r, c)
    ensures CellAt(AppendEvents(m, rules, s, last, events, integrity), s, r, c) == CellAt(m, s, r, c)
    decreases |events|
  {
    if events != [] {
      var n := |events| - 1;
      assert events[n] in events && forall e | e in events[..n] :: e in events;
      AppendedCells(m, rules, s, last, events[..n], integrity, r, c);
      AppendEventShape(AppendEvents(m, rules, s, last, events[..n], integrity), rules, s,
                       EventRow(events[n], last + n + 1, integrity, n));
    }
  }

  lemma CommittedIsTrue(m: Table, rules: Rules, s: string, tx: CommitInput, lease: Lease)
    ensures
      var last := Last(m, s);
      CommitTold(m, CommittedTable(m, rules, s, tx, lease), rules, s, tx,
                 Receipt(if tx.events == [] then last else last + 1, last + |tx.events|))
  {
    CommittedRows(m, rules, s, tx, lease);
    CommittedElsewhere(m, rules, s, tx, lease);
    CommittedCells(m, rules, s, tx, lease);
  }

  lemma CommittedRows(m: Table, rules: Rules, s: string, tx: CommitInput, lease: Lease)
    ensures
      var last, m' := Last(m, s), CommittedTable(m, rules, s, tx, lease);
      && SessionAt(m', s) == Some(Session(ForkOf(m, s), last + |tx.events|))
      && (forall i | 0 <= i < |tx.events| ::
            RowAt(m', s, last + 1 + i) == Some(Row(last + 1 + i, tx.events[i], MetadataOf(tx, i))))
      && forall n: nat | n <= last || n > last + |tx.events| :: RowAt(m', s, n) == RowAt(m, s, n)
  {
    var last, m' := Last(m, s), CommittedTable(m, rules, s, tx, lease);
    CommittedSession(m, rules, s, tx, lease);
    forall i | 0 <= i < |tx.events|
      ensures RowAt(m', s, last + 1 + i) == Some(Row(last + 1 + i, tx.events[i], MetadataOf(tx, i)))
    {
      CommittedRow(m, rules, s, tx, lease, last + 1 + i);
    }
    forall n: nat | n <= last || n > last + |tx.events| ensures RowAt(m', s, n) == RowAt(m, s, n) {
      CommittedRow(m, rules, s, tx, lease, n);
    }
  }

  lemma CommittedSession(m: Table, rules: Rules, s: string, tx: CommitInput, lease: Lease)
    ensures SessionAt(CommittedTable(m, rules, s, tx, lease), s) ==
            Some(Session(ForkOf(m, s), Last(m, s) + |tx.events|))
  {
  }

  lemma CommittedRow(m: Table, rules: Rules, s: string, tx: CommitInput, lease: Lease, n: nat)
    ensures
      var last := Last(m, s);
      RowAt(CommittedTable(m, rules, s, tx, lease), s, n) ==
        if last < n <= last + |tx.events| then Some(Row(n, tx.events[n - last - 1], MetadataOf(tx, n - last - 1)))
        else RowAt(m, s, n)
  {
    AppendedRow(m, rules, s, Last(m, s), tx.events, tx.integrity, n);
    RowsStay(AppendEvents(m, rules, s, Last(m, s), tx.events, tx.integrity), m, rules, s, tx, lease, n);
  }

  /** What a commit writes besides its events is no event. */
  lemma RowsStay(mid: Table, m: Table, rules: Rules, s: string, tx: CommitInput, lease: Lease, n: nat)
    requires mid == AppendEvents(m, rules, s, Last(m, s), tx.events, tx.integrity)
    ensures RowAt(CommittedTable(m, rules, s, tx, lease), s, n) == RowAt(mid, s, n)
  {
  }

  lemma CommittedElsewhere(m: Table, rules: Rules, s: string, tx: CommitInput, lease: Lease)
    ensures
      var m' := CommittedTable(m, rules, s, tx, lease);
      forall k | !OfSession(k, s) :: (k in m <==> k in m') && (k in m ==> m'[k] == m[k])
  {
    var m' := CommittedTable(m, rules, s, tx, lease);
    forall k | !OfSession(k, s) ensures (k in m <==> k in m') && (k in m ==> m'[k] == m[k]) {
      AppendedElsewhere(m, rules, s, Last(m, s), tx.events, tx.integrity, k);
    }
  }

  lemma CommittedCells(m: Table, rules: Rules, s: string, tx: CommitInput, lease: Lease)
    ensures
      var m' := CommittedTable(m, rules, s, tx, lease);
      && (tx.opState.Some? ==>
            CellAt(m', s, OP_STATE, tx.opState.value.lane) ==
              if tx.opState.value.data == Null then None
              else Some(Cell(OP_STATE, tx.opState.value.lane, Last(m, s) + |tx.events|, tx.opState.value.data)))
      && forall r, c | !WritesTo(rules, tx, r, c) :: CellAt(m', s, r, c) == CellAt(m, s, r, c)
  {
    var m' := CommittedTable(m, rules, s, tx, lease);
    forall r, c | !WritesTo(rules, tx, r, c) ensures CellAt(m', s, r, c) == CellAt(m, s, r, c) {
      AppendedCells(m, rules, s, Last(m, s), tx.events, tx.integrity, r, c);
    }
  }

  /** What the caller expects of a cell: its number, or its absence. */
  predicate Expected(m: Table, s: string, e: RegisterExpectation) {
    match e.at
    case None => CellAt(m, s, e.register, e.key).None?
    case Some(n) => CellAt(m, s, e.register, e.key).Some? && CellAt(m, s, e.register, e.key).value.at == n
  }

  /** The metadata is for these events: as many, each naming its event's number. */
  predicate Numbered(last: nat, tx: CommitInput) {
    match tx.integrity
    case None => true
    case Some(rows) => |rows| == |tx.events| && forall i | 0 <= i < |rows| :: rows[i].at == last + 1 + i
  }

  /**
   * A commit is refused for the first of these: the run may not write; an operation's write without an
   * event; an expectation that is not met; metadata for other numbers. Otherwise it is done.
   */
  lemma CommitIsTrue(m: Table, rules: Rules, s: string, tx: CommitInput, now: int)
    ensures
      var o := Commit(m, rules, s, tx, now);
      && (o.Done? ==> CommitTold(m, o.table, rules, s, tx, o.value))
      && (o.Done? ==>
            LeaseAt(o.table, s) ==
              if tx.claim.Some?
              then Some(Lease(tx.runId, now + TimeToLive(m, s, tx.runId, tx.claim, now),
                              TimeToLive(m, s, tx.runId, tx.claim, now)))
              else LeaseAt(m, s))
      && (if !MayWrite(m, s, tx.runId, tx.claim, now) then o == Refused(EWriterLease)
          else if tx.opState.Some? && tx.events == [] then o == Refused(EStorageFault)
          else if tx.expectedRegister.Some? && !Expected(m, s, tx.expectedRegister.value) then o == Refused(ECas)
          else if !Numbered(Last(m, s), tx) then o == Refused(EStorageFault)
          else o.Done?)
  {
    CommitDecides(m, rules, s, tx, now);
    if Commit(m, rules, s, tx, now).Done? {
      var lease := Hold(m, s, tx.runId, tx.claim, now).value;
      CommittedIsTrue(m, rules, s, tx, lease);
      CommittedShape(m, rules, s, tx, lease);
    }
  }

  lemma CommitDecides(m: Table, rules: Rules, s: string, tx: CommitInput, now: int)
    ensures
      var o, last := Commit(m, rules, s, tx, now), Last(m, s);
      && (if !MayWrite(m, s, tx.runId, tx.claim, now) then o == Refused(EWriterLease)
          else if tx.opState.Some? && tx.events == [] then o == Refused(EStorageFault)
          else if tx.expectedRegister.Some? && !Expected(m, s, tx.expectedRegister.value) then o == Refused(ECas)
          else if !Numbered(Last(m, s), tx) then o == Refused(EStorageFault)
          else o.Done?)
      && (o.Done? ==>
            && o.value == Receipt(if tx.events == [] then last else last + 1, last + |tx.events|)
            && var hold, ttl := Hold(m, s, tx.runId, tx.claim, now), TimeToLive(m, s, tx.runId, tx.claim, now);
               && hold.Some? && o.table == CommittedTable(m, rules, s, tx, hold.value)
               && Some(hold.value) == if tx.claim.Some? then Some(Lease(tx.runId, now + ttl, ttl)) else LeaseAt(m, s))
  {
    HoldIsMayWrite(m, s, tx.runId, tx.claim, now);
  }

  // ----- Forking and discarding -------------------------------------------------------------

  ghost predicate ForkTold(m: Table, m': Table, parent: string, boundarySeq: int, child: string) {
    && 0 <= boundarySeq <= Last(m, parent) && SessionAt(m, parent).Some?
    && ForkOf(m', child) == Some(Fork(parent, boundarySeq))
    && (SessionAt(m, child).Some? ==> m' == m)
    && (SessionAt(m, child).None? ==> Last(m', child) == boundarySeq && OnlyMoved(m, m', {SessionKey(child)}))
  }

  lemma ForkIsTrue(m: Table, parent: string, boundarySeq: int, child: string)
    ensures
      var o := CreateFork(m, parent, boundarySeq, child);
      && (o.Done? ==> ForkTold(m, o.table, parent, boundarySeq, child))
      && (o.Done? <==>
            && SessionAt(m, parent).Some? && 0 <= boundarySeq <= Last(m, parent)
            && (SessionAt(m, child).Some? ==> ForkOf(m, child) == Some(Fork(parent, boundarySeq))))
      && (o.Refused? ==> o == Refused(EStorageFault))
  {
  }

  /** No row of the session is left, and no other row moved. */
  lemma DiscardIsTrue(m: Table, s: string, runId: string, claim: Option<Claim>, now: int)
    ensures
      var o := Discard(m, s, runId, claim, now);
      && (o.Done? ==> DiscardTold(m, o.table, s))
      && (o.Done? <==> MayWrite(m, s, runId, claim, now)) && (o.Refused? ==> o == Refused(EWriterLease))
  {
    HoldIsMayWrite(m, s, runId, claim, now);
  }

  ghost predicate DiscardTold(m: Table, m': Table, s: string) {
    forall k :: if OfSession(k, s) then k !in m' else (k in m' <==> k in m) && (k in m ==> m'[k] == m[k])
  }
}
