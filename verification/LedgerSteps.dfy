/** Sessions, events, registers and writer leases, as steps on the table. */
module LedgerSteps {
  import opened Wrappers
  import opened Store
  import opened Journals

  /** How an event names its register cell and which writes erase it: fixed by the extension API. */
  datatype Rules = Rules(registerKey: Event -> string, tombstone: (string, Data) -> bool)

  datatype Claim = Claim(ttlMs: int, expectedLastSeq: int)

  datatype IntegrityCommit = IntegrityCommit(at: int, integrity: Integrity)

  datatype RegisterExpectation = RegisterExpectation(register: string, key: string, at: Option<int>)

  datatype OpWrite = OpWrite(lane: string, data: Data)

  datatype CommitInput = CommitInput(
    runId: string,
    events: seq<Event>,
    integrity: Option<seq<IntegrityCommit>>,
    expectedRegister: Option<RegisterExpectation>,
    claim: Option<Claim>,
    opState: Option<OpWrite>)

  datatype Receipt = Receipt(firstSeq: int, lastSeq: int)

  function Last(m: Table, s: string): nat {
    if SessionAt(m, s).Some? then SessionAt(m, s).value.lastSeq else 0
  }

  function ForkOf(m: Table, s: string): Option<Fork> {
    if SessionAt(m, s).Some? then SessionAt(m, s).value.fork else None
  }

  /** The sequence number a session's own events start after. */
  function Base(m: Table, s: string): nat {
    if ForkOf(m, s).Some? then ForkOf(m, s).value.boundarySeq else 0
  }

  // ----- Leases -----------------------------------------------------------------------------

  /** The lease the run writes under: its own unexpired one, or one taken back by a matching claim. */
  function Hold(m: Table, s: string, runId: string, claim: Option<Claim>, now: int): Option<Lease> {
    var lease := LeaseAt(m, s);
    if lease.Some? && lease.value.runId == runId && lease.value.until >= now then
      Some(if claim.Some? then lease.value.(until := now + lease.value.ttlMs) else lease.value)
    else if claim.None? || (lease.Some? && lease.value.runId != runId) || Last(m, s) != claim.value.expectedLastSeq then
      None
    else
      Some(Lease(runId, now + claim.value.ttlMs, claim.value.ttlMs))
  }

  /** The clock is read twice: once to judge the old lease, once to stamp the new one. */
  function Open(m: Table, s: string, runId: string, ttlMs: int, now: int, later: int): Outcome<Table, bool> {
    var lease := LeaseAt(m, s);
    if lease.Some? && lease.value.runId != runId && lease.value.until >= now then Refused(EWriterLease)
    else
      var created := SessionAt(m, s).None?;
      var m1 := if created then m[SessionKey(s) := SessionV(Session(None, 0))] else m;
      Done(m1[LeaseKey(s) := LeaseV(Lease(runId, later + ttlMs, ttlMs))], created)
  }

  function Renew(m: Table, s: string, runId: string, claim: Option<Claim>, now: int, later: int): Outcome<Table, ()> {
    var lease := Hold(m, s, runId, claim, now);
    if lease.None? then Refused(EWriterLease)
    else Done(m[LeaseKey(s) := LeaseV(lease.value.(until := later + lease.value.ttlMs))], ())
  }

  function ReleaseLease(m: Table, s: string, runId: string): Outcome<Table, ()> {
    var lease := LeaseAt(m, s);
    Done(if lease.Some? && lease.value.runId == runId then m - {LeaseKey(s)} else m, ())
  }

  function ClearLease(m: Table, s: string): Outcome<Table, ()> {
    Done(m - {LeaseKey(s)}, ())
  }

  ghost predicate HasOpState(m: Table, s: string) {
    exists c :: CellAt(m, s, OP_STATE, c).Some?
  }

  /** Takes an expired lease off a session, unless an operation is still open there. */
  ghost function Reclaim(m: Table, s: string, runId: string, until: int, now: int): Outcome<Table, Option<int>> {
    var lease := LeaseAt(m, s);
    if lease.None? || lease.value.runId != runId || lease.value.until != until || lease.value.until >= now
    then Done(m, None)
    else Done(if HasOpState(m, s) then m else m - {LeaseKey(s)}, Some(Last(m, s)))
  }

  // ----- Commits ----------------------------------------------------------------------------

  function EventRow(e: Event, at: nat, integrity: Option<seq<IntegrityCommit>>, i: nat): Row {
    Row(at, e, if integrity.Some? && i < |integrity.value| then Some(integrity.value[i].integrity) else None)
  }

  /** The register an event writes; an empty name is none. */
  function RegisterOf(e: Event): Option<string> {
    if e.register == Some("") then None else e.register
  }

  predicate Names(rules: Rules, e: Event, r: string, c: string) {
    RegisterOf(e) == Some(r) && rules.registerKey(e) == c
  }

  /** One event under its sequence number, and the register cell it writes or erases. */
  function AppendEvent(m: Table, rules: Rules, s: string, row: Row): Table {
    var m1 := m[EventKey(s, row.at) := RowV(row)];
    if RegisterOf(row.event).None? then m1
    else
      var register := RegisterOf(row.event).value;
      var cell := rules.registerKey(row.event);
      if rules.tombstone(register, row.event.data) then m1 - {RegisterKey(s, register, cell)}
      else m1[RegisterKey(s, register, cell) := CellV(Cell(register, cell, row.at, row.event.data))]
  }

  function AppendEvents(
    m: Table, rules: Rules, s: string, last: nat, events: seq<Event>, integrity: Option<seq<IntegrityCommit>>): Table
  {
    if events == [] then m
    else
      var n := |events| - 1;
      AppendEvent(AppendEvents(m, rules, s, last, events[..n], integrity), rules, s,
                  EventRow(events[n], last + n + 1, integrity, n))
  }

  function WriteOpState(m: Table, s: string, at: nat, op: Option<OpWrite>): Table {
    if op.None? then m
    else
      var id := RegisterKey(s, OP_STATE, op.value.lane);
      if op.value.data == Null then m - {id} else m[id := CellV(Cell(OP_STATE, op.value.lane, at, op.value.data))]
  }

  predicate ExpectationMet(m: Table, s: string, expected: Option<RegisterExpectation>) {
    expected.Some? ==>
      var cell := CellAt(m, s, expected.value.register, expected.value.key);
      expected.value.at == if cell.Some? then Some(cell.value.at as int) else None
  }

  predicate IntegrityMatches(last: nat, events: seq<Event>, integrity: Option<seq<IntegrityCommit>>) {
    integrity.Some? ==>
      && |integrity.value| == |events|
      && forall i :: 0 <= i < |integrity.value| ==> integrity.value[i].at == last + i + 1
  }

  function Commit(m: Table, rules: Rules, s: string, tx: CommitInput, now: int): Outcome<Table, Receipt> {
    var lease := Hold(m, s, tx.runId, tx.claim, now);
    if lease.None? then Refused(EWriterLease)
    else if tx.opState.Some? && tx.events == [] then Refused(EStorageFault)
    else if !ExpectationMet(m, s, tx.expectedRegister) then Refused(ECas)
    else if !IntegrityMatches(Last(m, s), tx.events, tx.integrity) then Refused(EStorageFault)
    else Done(CommittedTable(m, rules, s, tx, lease.value),
              Receipt(if tx.events == [] then Last(m, s) else Last(m, s) + 1, Last(m, s) + |tx.events|))
  }

  function CommittedTable(m: Table, rules: Rules, s: string, tx: CommitInput, lease: Lease): Table {
    var last := Last(m, s);
    var at := last + |tx.events|;
    var m1 := AppendEvents(m, rules, s, last, tx.events, tx.integrity);
    WriteOpState(m1, s, at, tx.opState)
      [SessionKey(s) := SessionV(Session(ForkOf(m, s), at))]
      [LeaseKey(s) := LeaseV(lease)]
  }

  // ----- Forks ------------------------------------------------------------------------------

  /** A fork records its parent and where it branched off; repeating the same request is allowed. */
  function CreateFork(m: Table, parent: string, boundarySeq: int, child: string): Outcome<Table, ()> {
    if SessionAt(m, parent).None? || boundarySeq < 0 || boundarySeq > Last(m, parent) then Refused(EStorageFault)
    else
      var fork := Some(Fork(parent, boundarySeq));
      if SessionAt(m, child).Some? then
        if ForkOf(m, child) == fork then Done(m, ()) else Refused(EStorageFault)
      else Done(m[SessionKey(child) := SessionV(Session(fork, boundarySeq))], ())
  }

  predicate BelongsTo(k: Key, s: string) {
    match k
    case SessionKey(session) => session == s
    case LeaseKey(session) => session == s
    case EventKey(session, _) => session == s
    case RegisterKey(session, _, _) => session == s
    case _ => false
  }

  function Discard(m: Table, s: string, runId: string, claim: Option<Claim>, now: int): Outcome<Table, ()> {
    if Hold(m, s, runId, claim, now).None? then Refused(EWriterLease)
    else Done(map k | k in m && !BelongsTo(k, s) :: m[k], ())
  }
}
