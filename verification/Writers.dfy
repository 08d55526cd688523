/** Who may write a session, and what a compare-and-swap on a register notices. */
module Writers {
  import opened Wrappers
  import opened Store
  import opened Journals
  import opened LedgerSteps
  import opened LedgerRuns
  import opened Children
  import opened Runs

  // ----- States of a run --------------------------------------------------------------------

  lemma {:induction false} RunAppend(m: Table, rules: Rules, a: seq<Op>, b: seq<Op>)
    ensures Run(m, rules, a + b) == Run(Run(m, rules, a), rules, b)
    decreases |a|
  {
    if a == [] {
      assert a + b == b;
    } else {
      assert (a + b)[1..] == a[1..] + b;
      RunAppend(After(m, rules, a[0]), rules, a[1..], b);
    }
  }

  lemma RunStep(m: Table, rules: Rules, ops: seq<Op>, k: nat)
    requires k < |ops|
    ensures Run(m, rules, ops[..k + 1]) == After(Run(m, rules, ops[..k]), rules, ops[k])
  {
    assert ops[..k + 1] == ops[..k] + [ops[k]];
    RunAppend(m, rules, ops[..k], [ops[k]]);
    assert [ops[k]][1..] == [];
  }

  // ----- Leases -----------------------------------------------------------------------------

  ghost predicate LeasedTo(m: Table, s: string, runId: string) {
    LeaseAt(m, s).Some? && LeaseAt(m, s).value.runId == runId
  }

  /**
   * The operation gives the session's lease to the run: by opening it once no other run holds an
   * unexpired lease, or by a claim that names the log's current end while no other run holds one.
   */
  ghost predicate Acquires(m: Table, rules: Rules, op: Op, s: string, runId: string) {
    || (&& op.OpenOp? && op.s == s && op.runId == runId
        && (LeaseAt(m, s).Some? && LeaseAt(m, s).value.runId != runId ==> LeaseAt(m, s).value.until < op.now))
    || (&& op.CommitOp? && op.s == s && op.tx.runId == runId && op.tx.claim.Some?
        && op.tx.claim.value.expectedLastSeq == Last(m, s) && (LeaseAt(m, s).Some? ==> LeasedTo(m, s, runId)))
    || (&& op.RenewOp? && op.s == s && op.runId == runId && op.claim.Some?
        && op.claim.value.expectedLastSeq == Last(m, s) && (LeaseAt(m, s).Some? ==> LeasedTo(m, s, runId)))
  }

  lemma {:induction false} AppendEventsKeepLeases(
    m: Table, rules: Rules, s: string, last: nat, events: seq<Event>, integrity: Option<seq<IntegrityCommit>>,
    t: string)
    ensures LeaseAt(AppendEvents(m, rules, s, last, events, integrity), t) == LeaseAt(m, t)
    decreases |events|
  {
    if events != [] { AppendEventsKeepLeases(m, rules, s, last, events[..|events| - 1], integrity, t); }
  }

  lemma LeasesAfter(m: Table, rules: Rules, op: Op, s: string, runId: string)
    requires !LeasedTo(m, s, runId) && LeasedTo(After(m, rules, op), s, runId)
    ensures Acquires(m, rules, op, s, runId)
  {
    if op.CreateOp? {
      CreateLeases(m, rules, op, s);
    } else if op.CommitOp? {
      AppendEventsKeepLeases(m, rules, op.s, Last(m, op.s), op.tx.events, op.tx.integrity, s);
    } else if !IsLedgerOp(op) {
      OtherLeases(m, rules, op, s);
    }
  }

  lemma OtherLeases(m: Table, rules: Rules, op: Op, s: string)
    requires IsBudgetOp(op) || IsTaskOp(op)
    ensures LeaseAt(After(m, rules, op), s) == LeaseAt(m, s)
  {
    if IsBudgetOp(op) { BudgetOpRows(m, rules, op); } else { TaskOpRows(m, rules, op); }
    assert KindOf(LeaseKey(s)) == LedgerRow;
  }

  lemma CreateLeases(m: Table, rules: Rules, op: Op, s: string)
    requires op.CreateOp?
    ensures LeaseAt(After(m, rules, op), s) == LeaseAt(m, s)
  {
  }

  /** Accepted commits by a run. */
  ghost predicate CommitsAs(m: Table, rules: Rules, op: Op, s: string, runId: string) {
    op.CommitOp? && op.s == s && op.tx.runId == runId && Commit(m, rules, s, op.tx, op.now).Done?
  }

  lemma CommitLeases(m: Table, rules: Rules, op: Op, s: string, runId: string)
    requires CommitsAs(m, rules, op, s, runId)
    ensures LeasedTo(After(m, rules, op), s, runId)
  {
  }

  /** A run that holds the lease at `j`, and did not at `i`, acquired it in between. */
  lemma {:induction false} LeaseWasAcquired(
    m: Table, rules: Rules, ops: seq<Op>, i: nat, j: nat, s: string, runId: string)
    returns (k: nat)
    requires i <= j <= |ops|
    requires !LeasedTo(Run(m, rules, ops[..i]), s, runId) && LeasedTo(Run(m, rules, ops[..j]), s, runId)
    ensures i <= k < j && Acquires(Run(m, rules, ops[..k]), rules, ops[k], s, runId)
    decreases j - i
  {
    RunStep(m, rules, ops, i);
    if LeasedTo(Run(m, rules, ops[..i + 1]), s, runId) {
      LeasesAfter(Run(m, rules, ops[..i]), rules, ops[i], s, runId);
      k := i;
    } else {
      k := LeaseWasAcquired(m, rules, ops, i + 1, j, s, runId);
    }
  }

  /**
   * Single writer. Between a commit by one run and a later commit by another, the second run
   * acquired the lease, possibly by the later commit's own claim.
   */
  lemma SingleWriter(m: Table, rules: Rules, ops: seq<Op>, i: nat, j: nat, s: string, a: string, b: string)
    requires i < j < |ops| && a != b
    requires CommitsAs(Run(m, rules, ops[..i]), rules, ops[i], s, a)
    requires CommitsAs(Run(m, rules, ops[..j]), rules, ops[j], s, b)
    ensures exists k :: i < k <= j && Acquires(Run(m, rules, ops[..k]), rules, ops[k], s, b)
  {
    RunStep(m, rules, ops, i);
    CommitLeases(Run(m, rules, ops[..i]), rules, ops[i], s, a);
    if LeasedTo(Run(m, rules, ops[..j]), s, b) {
      var k := LeaseWasAcquired(m, rules, ops, i + 1, j, s, b);
    } else {
      CommitWithoutLease(Run(m, rules, ops[..j]), rules, ops[j], s, b);
    }
  }

  lemma CommitWithoutLease(m: Table, rules: Rules, op: Op, s: string, runId: string)
    requires CommitsAs(m, rules, op, s, runId) && !LeasedTo(m, s, runId)
    ensures Acquires(m, rules, op, s, runId)
  {
  }

  // ----- Registers --------------------------------------------------------------------------

  /** The position, from one, of the last event that names the cell; zero if none does. */
  function LastNaming(rules: Rules, events: seq<Event>, r: string, c: string): (k: nat)
    ensures k <= |events| && (k > 0 ==> Names(rules, events[k - 1], r, c))
    ensures forall i | k <= i < |events| :: !Names(rules, events[i], r, c)
    decreases |events|
  {
    if events == [] then 0
    else
      var n := |events| - 1;
      if Names(rules, events[n], r, c) then n + 1 else LastNaming(rules, events[..n], r, c)
  }

  predicate WritesOpCell(tx: CommitInput, r: string, c: string) {
    r == OP_STATE && tx.opState.Some? && tx.opState.value.lane == c
  }

  /** An accepted commit that writes or erases the cell. */
  ghost predicate WritesCell(m: Table, rules: Rules, op: Op, s: string, r: string, c: string) {
    && op.CommitOp? && op.s == s && Commit(m, rules, s, op.tx, op.now).Done?
    && (LastNaming(rules, op.tx.events, r, c) > 0 || WritesOpCell(op.tx, r, c))
  }

  /** An accepted discard of the session. */
  ghost predicate Removes(m: Table, op: Op, s: string) {
    op.DiscardOp? && op.s == s && Discard(m, s, op.runId, op.claim, op.now).Done?
  }

  ghost predicate Touches(m: Table, rules: Rules, op: Op, s: string, r: string, c: string) {
    WritesCell(m, rules, op, s, r, c) || Removes(m, op, s)
  }

  /** The last write of the batch to the cell is an erasure. */
  predicate Erases(rules: Rules, tx: CommitInput, r: string, c: string) {
    if WritesOpCell(tx, r, c) then tx.opState.value.data == Null
    else
      var k := LastNaming(rules, tx.events, r, c);
      k > 0 && rules.tombstone(r, tx.events[k - 1].data)
  }

  /** The number the batch's last write to the cell gets after this end of the log. */
  function LandsAt(last: nat, rules: Rules, tx: CommitInput, r: string, c: string): nat {
    last + if WritesOpCell(tx, r, c) then |tx.events| else LastNaming(rules, tx.events, r, c)
  }

  /** What a compare-and-swap sees of a cell. */
  function CellNumber(m: Table, s: string, r: string, c: string): Option<nat> {
    if CellAt(m, s, r, c).Some? then Some(CellAt(m, s, r, c).value.at) else None
  }

  lemma {:induction false} AppendedCell(
    m: Table, rules: Rules, s: string, last: nat, events: seq<Event>, integrity: Option<seq<IntegrityCommit>>,
    t: string, r: string, c: string)
    ensures
      var k := LastNaming(rules, events, r, c);
      CellAt(AppendEvents(m, rules, s, last, events, integrity), t, r, c) ==
        if t != s || k == 0 then CellAt(m, t, r, c)
        else if rules.tombstone(r, events[k - 1].data) then None
        else Some(Cell(r, c, last + k, events[k - 1].data))
    decreases |events|
  {
    if events != [] {
      var n := |events| - 1;
      AppendedCell(m, rules, s, last, events[..n], integrity, t, r, c);
      var mid := AppendEvents(m, rules, s, last, events[..n], integrity);
      AppendedOne(mid, rules, s, EventRow(events[n], last + n + 1, integrity, n), t, r, c);
    }
  }

  lemma AppendedOne(m: Table, rules: Rules, s: string, row: Row, t: string, r: string, c: string)
    ensures
      CellAt(AppendEvent(m, rules, s, row), t, r, c) ==
        if t != s || !Names(rules, row.event, r, c) then CellAt(m, t, r, c)
        else if rules.tombstone(r, row.event.data) then None
        else Some(Cell(r, c, row.at, row.event.data))
  {
    AppendEventShape(m, rules, s, row);
  }

  lemma CommittedTableCell(
    m: Table, rules: Rules, s: string, tx: CommitInput, lease: Lease, t: string, r: string, c: string)
    ensures
      var at := Last(m, s) + |tx.events|;
      var mid := AppendEvents(m, rules, s, Last(m, s), tx.events, tx.integrity);
      CellAt(CommittedTable(m, rules, s, tx, lease), t, r, c) ==
        if t != s || !WritesOpCell(tx, r, c) then CellAt(mid, t, r, c)
        else if tx.opState.value.data == Null then None
        else Some(Cell(OP_STATE, c, at, tx.opState.value.data))
  {
  }

  /** A commit that writes a cell leaves it empty or under its own number; any other leaves it alone. */
  lemma CommittedCell(m: Table, rules: Rules, op: Op, s: string, r: string, c: string)
    requires op.CommitOp?
    ensures
      var m' := After(m, rules, op);
      if WritesCell(m, rules, op, s, r, c) then
        CellNumber(m', s, r, c) ==
          if Erases(rules, op.tx, r, c) then None else Some(LandsAt(Last(m, s), rules, op.tx, r, c))
      else CellAt(m', s, r, c) == CellAt(m, s, r, c)
    ensures WritesCell(m, rules, op, s, r, c) ==> LandsAt(Last(m, s), rules, op.tx, r, c) > Last(m, s)
  {
    CommitTable(m, rules, op);
    if Commit(m, rules, op.s, op.tx, op.now).Done? {
      AppendedCell(m, rules, op.s, Last(m, op.s), op.tx.events, op.tx.integrity, s, r, c);
      CommittedTableCell(m, rules, op.s, op.tx, Hold(m, op.s, op.tx.runId, op.tx.claim, op.now).value, s, r, c);
    }
  }

  lemma CommitTable(m: Table, rules: Rules, op: Op)
    requires op.CommitOp?
    ensures
      var o := Commit(m, rules, op.s, op.tx, op.now);
      var lease := Hold(m, op.s, op.tx.runId, op.tx.claim, op.now);
      && (o.Done? ==> lease.Some? && (op.tx.opState.Some? ==> op.tx.events != []))
      && After(m, rules, op) == if o.Done? then CommittedTable(m, rules, op.s, op.tx, lease.value) else m
  {
  }

  lemma {:induction false} AppendEventsKeepSessions(
    m: Table, rules: Rules, s: string, last: nat, events: seq<Event>, integrity: Option<seq<IntegrityCommit>>,
    t: string)
    ensures SessionAt(AppendEvents(m, rules, s, last, events, integrity), t) == SessionAt(m, t)
    decreases |events|
  {
    if events != [] { AppendEventsKeepSessions(m, rules, s, last, events[..|events| - 1], integrity, t); }
  }

  lemma CommitLast(m: Table, rules: Rules, op: Op, s: string)
    requires op.CommitOp?
    ensures Last(After(m, rules, op), s) ==
            if op.s == s && Commit(m, rules, s, op.tx, op.now).Done? then Last(m, s) + |op.tx.events| else Last(m, s)
  {
    AppendEventsKeepSessions(m, rules, op.s, Last(m, op.s), op.tx.events, op.tx.integrity, s);
  }

  /** What a repair makes of the data of an op.state cell; other operations leave it. */
  function RepairedOnce(op: Op, data: Data): Data {
    if op.RecoverOp? && (data.Object? || data.Array?) then CancelRequested(data, op.control, op.phase) else data
  }

  function RepairedCell(op: Op, cell: Option<Cell>, r: string): Option<Cell> {
    if cell.Some? && r == OP_STATE then Some(cell.value.(data := RepairedOnce(op, cell.value.data))) else cell
  }

  /** Of steps other than commits and the session's discard only a repair changes a cell, and no number. */
  lemma OtherStepCell(m: Table, rules: Rules, op: Op, s: string, r: string, c: string)
    requires !op.CommitOp? && !Removes(m, op, s)
    ensures CellAt(After(m, rules, op), s, r, c) == RepairedCell(op, CellAt(m, s, r, c), r)
    ensures Last(After(m, rules, op), s) >= Last(m, s)
  {
    var m' := After(m, rules, op);
    if IsLedgerOp(op) {
      LedgerStepCell(m, rules, op, s, r, c);
    } else if op.CreateOp? {
      CreatedCell(m, rules, op, s, r, c);
    } else {
      if IsBudgetOp(op) { BudgetOpRows(m, rules, op); } else { TaskOpRows(m, rules, op); }
      SameLedgerRows(m, m');
      assert SameSession(m, m', s);
    }
  }

  lemma LedgerStepCell(m: Table, rules: Rules, op: Op, s: string, r: string, c: string)
    requires IsLedgerOp(op) && !op.CommitOp? && !Removes(m, op, s)
    ensures CellAt(After(m, rules, op), s, r, c) == RepairedCell(op, CellAt(m, s, r, c), r)
    ensures Last(After(m, rules, op), s) >= Last(m, s)
  {
  }

  lemma CreatedCell(m: Table, rules: Rules, op: Op, s: string, r: string, c: string)
    requires op.CreateOp?
    ensures CellAt(After(m, rules, op), s, r, c) == CellAt(m, s, r, c)
    ensures Last(After(m, rules, op), s) >= Last(m, s)
  {
    if Creates(m, op.input) {
      CreateForks(m, rules, op.input);
      var forked := CreateFork(m, op.input.parentKey, op.input.boundarySeq, op.input.childKey).table;
      CreateRows(m, forked, op.input);
      SameLedgerRows(forked, WithChild(m, forked, op.input));
      assert SameSession(forked, WithChild(m, forked, op.input), s);
    } else {
      NothingCreated(m, rules, op.input);
    }
  }

  /** An operation that does not touch the cell leaves it, but for the repair of an op.state cell. */
  lemma UntouchedStep(m: Table, rules: Rules, op: Op, s: string, r: string, c: string)
    requires !Touches(m, rules, op, s, r, c)
    ensures CellAt(After(m, rules, op), s, r, c) == RepairedCell(op, CellAt(m, s, r, c), r)
  {
    if op.CommitOp? { CommittedCell(m, rules, op, s, r, c); } else { OtherStepCell(m, rules, op, s, r, c); }
  }

  // ----- Registers over runs ----------------------------------------------------------------

  ghost predicate Untouched(m: Table, rules: Rules, ops: seq<Op>, s: string, r: string, c: string)
    decreases |ops|
  {
    ops == []
    || (!Touches(m, rules, ops[0], s, r, c) && Untouched(After(m, rules, ops[0]), rules, ops[1..], s, r, c))
  }

  /** What the repairs of a run make of the data of an op.state cell. */
  function RepairedData(ops: seq<Op>, data: Data): Data
    decreases |ops|
  {
    if ops == [] then data else RepairedData(ops[1..], RepairedOnce(ops[0], data))
  }

  /** The session is not discarded during the run. */
  ghost predicate Stays(m: Table, rules: Rules, ops: seq<Op>, s: string)
    decreases |ops|
  {
    ops == [] || (!Removes(m, ops[0], s) && Stays(After(m, rules, ops[0]), rules, ops[1..], s))
  }

  /** The operation at `i` is the last of the run that touches the cell. */
  ghost predicate LastTouch(m: Table, rules: Rules, ops: seq<Op>, i: nat, s: string, r: string, c: string) {
    && i < |ops| && Touches(Run(m, rules, ops[..i]), rules, ops[i], s, r, c)
    && Untouched(Run(m, rules, ops[..i + 1]), rules, ops[i + 1..], s, r, c)
  }

  lemma {:induction false} UntouchedRun(m: Table, rules: Rules, ops: seq<Op>, s: string, r: string, c: string)
    requires Untouched(m, rules, ops, s, r, c)
    ensures CellAt(Run(m, rules, ops), s, r, c) ==
            match CellAt(m, s, r, c)
            case None => None
            case Some(cell) => Some(if r == OP_STATE then cell.(data := RepairedData(ops, cell.data)) else cell)
    decreases |ops|
  {
    if ops != [] {
      UntouchedStep(m, rules, ops[0], s, r, c);
      UntouchedRun(After(m, rules, ops[0]), rules, ops[1..], s, r, c);
    }
  }

  /** A run either leaves the cell alone or has a last operation that touches it. */
  lemma {:induction false} TouchedHasLast(m: Table, rules: Rules, ops: seq<Op>, s: string, r: string, c: string)
    returns (i: nat)
    requires !Untouched(m, rules, ops, s, r, c)
    ensures LastTouch(m, rules, ops, i, s, r, c)
    decreases |ops|
  {
    var next := After(m, rules, ops[0]);
    if Untouched(next, rules, ops[1..], s, r, c) {
      i := 0;
      RunStep(m, rules, ops, 0);
      assert ops[..0] == [];
    } else {
      var j := TouchedHasLast(next, rules, ops[1..], s, r, c);
      i := j + 1;
      RunTail(m, rules, ops, j);
      RunTail(m, rules, ops, j + 1);
      assert ops[i + 1..] == ops[1..][j + 1..];
    }
  }

  lemma RunTail(m: Table, rules: Rules, ops: seq<Op>, j: nat)
    requires j < |ops|
    ensures Run(m, rules, ops[..j + 1]) == Run(After(m, rules, ops[0]), rules, ops[1..][..j])
  {
    assert ops[..j + 1][1..] == ops[1..][..j];
  }

  lemma RunSplit(m: Table, rules: Rules, ops: seq<Op>, i: nat)
    requires i <= |ops|
    ensures Run(m, rules, ops) == Run(Run(m, rules, ops[..i]), rules, ops[i..])
  {
    assert ops == ops[..i] + ops[i..];
    RunAppend(m, rules, ops[..i], ops[i..]);
  }

  lemma TouchedStep(m: Table, rules: Rules, op: Op, s: string, r: string, c: string)
    requires Touches(m, rules, op, s, r, c)
    ensures
      CellNumber(After(m, rules, op), s, r, c) ==
        if Removes(m, op, s) || Erases(rules, op.tx, r, c) then None else Some(LandsAt(Last(m, s), rules, op.tx, r, c))
  {
    if op.CommitOp? { CommittedCell(m, rules, op, s, r, c); }
  }

  /** At the end of a run the cell has the number its last touch gave it. */
  lemma NumberAfterRun(m: Table, rules: Rules, ops: seq<Op>, i: nat, s: string, r: string, c: string)
    requires LastTouch(m, rules, ops, i, s, r, c)
    ensures
      var before := Run(m, rules, ops[..i]);
      CellNumber(Run(m, rules, ops), s, r, c) ==
        if Removes(before, ops[i], s) || Erases(rules, ops[i].tx, r, c) then None
        else Some(LandsAt(Last(before, s), rules, ops[i].tx, r, c))
  {
    TouchedStep(Run(m, rules, ops[..i]), rules, ops[i], s, r, c);
    RunStep(m, rules, ops, i);
    UntouchedRun(Run(m, rules, ops[..i + 1]), rules, ops[i + 1..], s, r, c);
    RunSplit(m, rules, ops, i + 1);
  }

  /**
   * A commit that expects an absent cell after other operations touched it is let through if and only
   * if the last of them erased the cell or discarded the session. Any register, any run.
   */
  lemma AbsenceHidesExactly(m: Table, rules: Rules, ops: seq<Op>, i: nat, s: string, r: string, c: string)
    requires LastTouch(m, rules, ops, i, s, r, c)
    ensures
      ExpectationMet(Run(m, rules, ops), s, Some(RegisterExpectation(r, c, None))) <==>
      (ops[i].DiscardOp? || Erases(rules, ops[i].tx, r, c))
  {
    NumberAfterRun(m, rules, ops, i, s, r, c);
  }

  /** The cell is empty, or was written after `bound`. */
  ghost predicate Newer(m: Table, s: string, r: string, c: string, bound: nat) {
    Last(m, s) >= bound && (CellAt(m, s, r, c).Some? ==> CellAt(m, s, r, c).value.at > bound)
  }

  lemma StepLast(m: Table, rules: Rules, op: Op, s: string)
    requires !Removes(m, op, s)
    ensures Last(After(m, rules, op), s) >= Last(m, s)
  {
    if op.CommitOp? { CommitLast(m, rules, op, s); } else { OtherStepCell(m, rules, op, s, "", ""); }
  }

  lemma StepNewer(m: Table, rules: Rules, op: Op, s: string, r: string, c: string, bound: nat)
    requires Last(m, s) >= bound && !Removes(m, op, s)
    requires WritesCell(m, rules, op, s, r, c) || Newer(m, s, r, c, bound)
    ensures Newer(After(m, rules, op), s, r, c, bound)
  {
    StepLast(m, rules, op, s);
    if op.CommitOp? { CommittedCell(m, rules, op, s, r, c); } else { OtherStepCell(m, rules, op, s, r, c); }
  }

  /** Without a discard, a cell that is written once is newer than the bound ever after. */
  lemma {:induction false} RunNewer(m: Table, rules: Rules, ops: seq<Op>, s: string, r: string, c: string, bound: nat)
    requires Last(m, s) >= bound && Stays(m, rules, ops, s)
    requires !Untouched(m, rules, ops, s, r, c) || Newer(m, s, r, c, bound)
    ensures Newer(Run(m, rules, ops), s, r, c, bound)
    decreases |ops|
  {
    if ops != [] {
      var next := After(m, rules, ops[0]);
      StepLast(m, rules, ops[0], s);
      if WritesCell(m, rules, ops[0], s, r, c) || Newer(m, s, r, c, bound) {
        StepNewer(m, rules, ops[0], s, r, c, bound);
      }
      RunNewer(next, rules, ops[1..], s, r, c, bound);
    }
  }

  /**
   * As long as the session is not discarded, a commit that expects the number of a cell seen earlier
   * is let through if and only if no commit wrote the cell since, whatever the register and whatever
   * else ran. The cell is then the very same, but for what repairs made of the data of an op.state cell.
   */
  lemma RegisterSwapNoticesWrites(
    m: Table, rules: Rules, ops: seq<Op>, s: string, r: string, c: string, cell: Cell)
    requires SessionSound(m, rules, s) && CellAt(m, s, r, c) == Some(cell)
    requires Stays(m, rules, ops, s)
    ensures
      ExpectationMet(Run(m, rules, ops), s, Some(RegisterExpectation(r, c, Some(cell.at)))) <==>
      Untouched(m, rules, ops, s, r, c)
    ensures Untouched(m, rules, ops, s, r, c) ==>
              CellAt(Run(m, rules, ops), s, r, c) ==
                Some(if r == OP_STATE then cell.(data := RepairedData(ops, cell.data)) else cell)
  {
    if Untouched(m, rules, ops, s, r, c) {
      UntouchedRun(m, rules, ops, s, r, c);
    } else {
      RunNewer(m, rules, ops, s, r, c, cell.at);
    }
  }

  /**
   * A met expectation of the number of an op.state cell means that the cell is as it was if and only if
   * the repairs of the run leave its data as it was: there is none, or the last one says what the data
   * already says.
   */
  lemma OpCellUnchangedExactly(m: Table, rules: Rules, ops: seq<Op>, s: string, c: string, cell: Cell)
    requires SessionSound(m, rules, s) && CellAt(m, s, OP_STATE, c) == Some(cell)
    requires Stays(m, rules, ops, s)
    requires ExpectationMet(Run(m, rules, ops), s, Some(RegisterExpectation(OP_STATE, c, Some(cell.at))))
    ensures CellAt(Run(m, rules, ops), s, OP_STATE, c) == Some(cell) <==> RepairedData(ops, cell.data) == cell.data
    ensures RepairedData(ops, cell.data) == cell.data <==>
            (LastRepair(ops).Some? ==> RepairedOnce(LastRepair(ops).value, cell.data) == cell.data)
  {
    RegisterSwapNoticesWrites(m, rules, ops, s, OP_STATE, c, cell);
    RepairsByTheLast(ops, cell.data);
  }

  /** The last repair of the run. */
  function LastRepair(ops: seq<Op>): (last: Option<Op>)
    ensures last.Some? ==> last.value.RecoverOp?
  {
    if ops == [] then None
    else if ops[|ops| - 1].RecoverOp? then Some(ops[|ops| - 1])
    else LastRepair(ops[..|ops| - 1])
  }

  /** Of several repairs only the last one shows. */
  lemma {:induction false} RepairsByTheLast(ops: seq<Op>, data: Data)
    ensures RepairedData(ops, data) ==
            match LastRepair(ops) case None => data case Some(op) => RepairedOnce(op, data)
    decreases |ops|
  {
    if ops != [] {
      var n := |ops| - 1;
      RepairsByTheLast(ops[..n], data);
      RepairedMore(ops[..n], ops[n], data);
      assert ops[..n] + [ops[n]] == ops;
      if LastRepair(ops[..n]).Some? && ops[n].RecoverOp? {
        RepairedTwice(LastRepair(ops[..n]).value, ops[n], data);
      }
    }
  }

  lemma {:induction false} RepairedMore(ops: seq<Op>, op: Op, data: Data)
    ensures RepairedData(ops + [op], data) == RepairedOnce(op, RepairedData(ops, data))
    decreases |ops|
  {
    if ops == [] {
      assert [] + [op] == [op] && [op][1..] == [];
    } else {
      assert (ops + [op])[1..] == ops[1..] + [op];
      RepairedMore(ops[1..], op, RepairedOnce(ops[0], data));
    }
  }

  lemma RepairedTwice(first: Op, second: Op, data: Data)
    requires first.RecoverOp? && second.RecoverOp?
    ensures RepairedOnce(second, RepairedOnce(first, data)) == RepairedOnce(second, data)
  {
    if data.Object? || data.Array? {
      var fields := if data.Object? then data.fields else Indexed(data.items);
      var once := fields["control" := first.control]["phase" := first.phase];
      assert once["control" := second.control]["phase" := second.phase]
          == fields["control" := second.control]["phase" := second.phase];
    }
  }

  lemma {:induction false} StaysOrRemoved(m: Table, rules: Rules, ops: seq<Op>, s: string)
    ensures Stays(m, rules, ops, s) <==> forall j | 0 <= j < |ops| :: !Removes(Run(m, rules, ops[..j]), ops[j], s)
    decreases |ops|
  {
    if ops != [] {
      var next := After(m, rules, ops[0]);
      StaysOrRemoved(next, rules, ops[1..], s);
      assert ops[..0] == [] && Run(m, rules, ops[..0]) == m;
      forall j | 0 <= j < |ops| - 1 ensures Run(m, rules, ops[..j + 1]) == Run(next, rules, ops[1..][..j]) {
        RunTail(m, rules, ops, j);
      }
      if j :| 0 < j < |ops| && Removes(Run(m, rules, ops[..j]), ops[j], s) {
        assert ops[1..][j - 1] == ops[j] && ops[..j - 1 + 1] == ops[..j];
        assert Removes(Run(next, rules, ops[1..][..j - 1]), ops[1..][j - 1], s);
      }
      if j :| 0 <= j < |ops| - 1 && Removes(Run(next, rules, ops[1..][..j]), ops[1..][j], s) {
        assert Removes(Run(m, rules, ops[..j + 1]), ops[j + 1], s);
      }
    }
  }

  /**
   * With discards as well: after the cell was touched, the old number is let through if and only if
   * the last touch is a write that got this very number again, and then the session was discarded in
   * between.
   */
  lemma NumberHidesExactly(
    m: Table, rules: Rules, ops: seq<Op>, i: nat, s: string, r: string, c: string, cell: Cell)
    requires SessionSound(m, rules, s) && CellAt(m, s, r, c) == Some(cell)
    requires LastTouch(m, rules, ops, i, s, r, c)
    ensures
      var met := ExpectationMet(Run(m, rules, ops), s, Some(RegisterExpectation(r, c, Some(cell.at))));
      && (met <==>
            && ops[i].CommitOp? && !Erases(rules, ops[i].tx, r, c)
            && LandsAt(Last(Run(m, rules, ops[..i]), s), rules, ops[i].tx, r, c) == cell.at)
      && (met ==> exists j :: 0 <= j < |ops| && Removes(Run(m, rules, ops[..j]), ops[j], s))
  {
    NumberAfterRun(m, rules, ops, i, s, r, c);
    StaysOrRemoved(m, rules, ops, s);
    if Stays(m, rules, ops, s) {
      RegisterSwapNoticesWrites(m, rules, ops, s, r, c, cell);
      if Untouched(m, rules, ops, s, r, c) { UntouchedHasNoTouch(m, rules, ops, i, s, r, c); }
    }
  }

  lemma {:induction false} UntouchedHasNoTouch(
    m: Table, rules: Rules, ops: seq<Op>, i: nat, s: string, r: string, c: string)
    requires Untouched(m, rules, ops, s, r, c) && i < |ops|
    ensures !Touches(Run(m, rules, ops[..i]), rules, ops[i], s, r, c)
    decreases i
  {
    if i == 0 {
      assert ops[..0] == [];
    } else {
      var next, rest := After(m, rules, ops[0]), ops[1..];
      UntouchedHasNoTouch(next, rules, rest, i - 1, s, r, c);
      RunTail(m, rules, ops, i - 1);
      var there := Run(m, rules, ops[..i]);
      assert there == Run(next, rules, rest[..i - 1]) && rest[i - 1] == ops[i];
      assert !Touches(there, rules, ops[i], s, r, c);
    }
  }
}
