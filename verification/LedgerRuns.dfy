/** What every ledger step keeps: contiguous events, registers that agree with them, acyclic forks. */
module LedgerRuns {
  import opened Wrappers
  import opened Store
  import opened Journals
  import opened LedgerSteps

  // ----- Invariants -------------------------------------------------------------------------

  /** The cell a session's own events leave after `upto`: that of the last event that wrote it. */
  function Fold(m: Table, rules: Rules, s: string, register: string, cell: string, upto: nat): Option<Cell> {
    if upto == 0 then None
    else
      match RowAt(m, s, upto)
      case Some(row) =>
        if Names(rules, row.event, register, cell) then
          if rules.tombstone(register, row.event.data) then None
          else Some(Cell(register, cell, upto, row.event.data))
        else Fold(m, rules, s, register, cell, upto - 1)
      case None => Fold(m, rules, s, register, cell, upto - 1)
  }

  /** Own events fill base+1 .. last, each under its number. */
  ghost predicate Contiguous(m: Table, s: string, base: nat, last: nat) {
    && (forall n: nat :: RowAt(m, s, n).Some? <==> base < n <= last)
    && (forall n: nat :: RowAt(m, s, n).Some? ==> RowAt(m, s, n).value.at == n)
  }

  /** Every register other than the operation's program counter is the fold of the own events. */
  ghost predicate RegistersAgree(m: Table, rules: Rules, s: string, last: nat) {
    forall r, c | r != OP_STATE :: CellAt(m, s, r, c) == Fold(m, rules, s, r, c, last)
  }

  ghost predicate CellsDated(m: Table, s: string, last: nat) {
    forall r, c :: CellAt(m, s, r, c).Some? ==> 0 < CellAt(m, s, r, c).value.at <= last
  }

  ghost predicate SessionSound(m: Table, rules: Rules, s: string) {
    && Base(m, s) <= Last(m, s)
    && Contiguous(m, s, Base(m, s), Last(m, s))
    && RegistersAgree(m, rules, s, Last(m, s))
    && CellsDated(m, s, Last(m, s))
  }

  /** A fork's parent exists, reaches the boundary, and comes earlier in the ranking. */
  ghost predicate ForksRanked(m: Table, rank: map<string, nat>) {
    forall s | ForkOf(m, s).Some? ::
      var f := ForkOf(m, s).value;
      && SessionAt(m, f.parent).Some? && f.boundarySeq <= Last(m, f.parent)
      && s in rank && f.parent in rank && rank[f.parent] < rank[s]
  }

  ghost predicate Acyclic(m: Table) {
    exists rank :: ForksRanked(m, rank)
  }

  ghost predicate LedgerSound(m: Table, rules: Rules) {
    (forall s :: SessionSound(m, rules, s)) && Acyclic(m)
  }

  // ----- One session at a time --------------------------------------------------------------

  /** The rows of a session are the same in both tables; its lease may differ. */
  ghost predicate SameSession(m: Table, m': Table, s: string) {
    && SessionAt(m, s) == SessionAt(m', s)
    && (forall n: nat :: RowAt(m, s, n) == RowAt(m', s, n))
    && (forall r, c :: CellAt(m, s, r, c) == CellAt(m', s, r, c))
  }

  lemma {:induction false} FoldSame(m: Table, m': Table, rules: Rules, s: string, r: string, c: string, upto: nat)
    requires forall n: nat | n <= upto :: RowAt(m, s, n) == RowAt(m', s, n)
    ensures Fold(m, rules, s, r, c, upto) == Fold(m', rules, s, r, c, upto)
  {
    if upto > 0 { FoldSame(m, m', rules, s, r, c, upto - 1); }
  }

  lemma SameSessionSound(m: Table, m': Table, rules: Rules, s: string)
    requires SessionSound(m, rules, s) && SameSession(m, m', s)
    ensures SessionSound(m', rules, s)
  {
    forall r, c | r != OP_STATE ensures CellAt(m', s, r, c) == Fold(m', rules, s, r, c, Last(m', s)) {
      FoldSame(m, m', rules, s, r, c, Last(m, s));
    }
  }

  lemma {:induction false} FoldOfNothing(m: Table, rules: Rules, s: string, r: string, c: string, upto: nat)
    requires forall n: nat | n <= upto :: RowAt(m, s, n).None?
    ensures Fold(m, rules, s, r, c, upto) == None
  {
    if upto > 0 { FoldOfNothing(m, rules, s, r, c, upto - 1); }
  }

  /** A session with no rows, at its own base. */
  lemma EmptySessionSound(m: Table, rules: Rules, s: string)
    requires Base(m, s) == Last(m, s)
    requires forall n: nat :: RowAt(m, s, n).None?
    requires forall r, c :: CellAt(m, s, r, c).None?
    ensures SessionSound(m, rules, s)
  {
    forall r, c | r != OP_STATE ensures CellAt(m, s, r, c) == Fold(m, rules, s, r, c, Last(m, s)) {
      FoldOfNothing(m, rules, s, r, c, Last(m, s));
    }
  }

  /** A session that does not exist has no rows. */
  lemma AbsentSessionIsEmpty(m: Table, rules: Rules, s: string)
    requires SessionSound(m, rules, s) && SessionAt(m, s).None?
    ensures forall n: nat :: RowAt(m, s, n).None?
    ensures forall r, c :: CellAt(m, s, r, c).None?
  {
  }

  // ----- Appending events -------------------------------------------------------------------

  /** One event, at its number, has been added; at most the cell it names has moved. */
  ghost predicate EventAdded(m: Table, m': Table, rules: Rules, s: string, row: Row) {
    && (forall t :: SessionAt(m', t) == SessionAt(m, t) && LeaseAt(m', t) == LeaseAt(m, t))
    && (forall t, n: nat :: RowAt(m', t, n) == if t == s && n == row.at then Some(row) else RowAt(m, t, n))
    && (forall t, r, c :: CellAt(m', t, r, c) ==
          if t == s && Names(rules, row.event, r, c) then
            if rules.tombstone(r, row.event.data) then None else Some(Cell(r, c, row.at, row.event.data))
          else CellAt(m, t, r, c))
  }

  lemma AppendEventShape(m: Table, rules: Rules, s: string, row: Row)
    ensures EventAdded(m, AppendEvent(m, rules, s, row), rules, s, row)
  {
  }

  lemma EventAddedKeeps(m: Table, m': Table, rules: Rules, s: string, row: Row, base: nat, last: nat)
    requires EventAdded(m, m', rules, s, row) && row.at == last + 1 && base <= last
    requires Contiguous(m, s, base, last) && RegistersAgree(m, rules, s, last) && CellsDated(m, s, last)
    ensures Contiguous(m', s, base, last + 1) && RegistersAgree(m', rules, s, last + 1) && CellsDated(m', s, last + 1)
    ensures forall t | t != s :: SameSession(m, m', t)
  {
    forall r, c | r != OP_STATE ensures CellAt(m', s, r, c) == Fold(m', rules, s, r, c, last + 1) {
      FoldSame(m, m', rules, s, r, c, last);
    }
  }

  lemma {:induction false} AppendEventsKeep(
    m: Table, rules: Rules, s: string, base: nat, last: nat, events: seq<Event>,
    integrity: Option<seq<IntegrityCommit>>)
    requires base <= last
    requires Contiguous(m, s, base, last) && RegistersAgree(m, rules, s, last) && CellsDated(m, s, last)
    ensures Contiguous(AppendEvents(m, rules, s, last, events, integrity), s, base, last + |events|)
    ensures RegistersAgree(AppendEvents(m, rules, s, last, events, integrity), rules, s, last + |events|)
    ensures CellsDated(AppendEvents(m, rules, s, last, events, integrity), s, last + |events|)
    ensures forall t | t != s :: SameSession(m, AppendEvents(m, rules, s, last, events, integrity), t)
    ensures forall t :: SessionAt(AppendEvents(m, rules, s, last, events, integrity), t) == SessionAt(m, t)
    ensures forall n: nat | n <= last ::
              RowAt(AppendEvents(m, rules, s, last, events, integrity), s, n) == RowAt(m, s, n)
    decreases |events|
  {
    if events != [] {
      var n := |events| - 1;
      AppendEventsKeep(m, rules, s, base, last, events[..n], integrity);
      var mid := AppendEvents(m, rules, s, last, events[..n], integrity);
      var row := EventRow(events[n], last + n + 1, integrity, n);
      var m' := AppendEvent(mid, rules, s, row);
      AppendEventShape(mid, rules, s, row);
      EventAddedKeeps(mid, m', rules, s, row, base, last + n);
      forall t | t != s ensures SameSession(m, m', t) {
        assert SameSession(m, mid, t) && SameSession(mid, m', t);
      }
    }
  }

  // ----- Every step -------------------------------------------------------------------------

  /** No fork moves, no session disappears or shrinks. */
  ghost predicate SessionsGrow(m: Table, m': Table) {
    forall s ::
      && ForkOf(m', s) == ForkOf(m, s)
      && (SessionAt(m, s).Some? ==> SessionAt(m', s).Some? && Last(m', s) >= Last(m, s))
  }

  lemma SessionsGrowKeepForks(m: Table, m': Table)
    requires Acyclic(m) && SessionsGrow(m, m')
    ensures Acyclic(m')
  {
    var rank :| ForksRanked(m, rank);
    assert ForksRanked(m', rank);
  }

  /** Steps that touch leases, or rows of other kinds, only. */
  lemma SameSessionsKeep(m: Table, m': Table, rules: Rules)
    requires LedgerSound(m, rules) && forall s :: SameSession(m, m', s)
    ensures LedgerSound(m', rules)
  {
    forall s ensures SessionSound(m', rules, s) {
      assert SameSession(m, m', s);
      SameSessionSound(m, m', rules, s);
    }
    forall s ensures ForkOf(m', s) == ForkOf(m, s) && Last(m', s) == Last(m, s) && SessionAt(m', s) == SessionAt(m, s) {
      assert SameSession(m, m', s);
    }
    SessionsGrowKeepForks(m, m');
  }

  /** A session without rows, that did not exist. */
  ghost predicate SessionAdded(m: Table, m': Table, s: string, row: Session) {
    && SessionAt(m, s).None? && SessionAt(m', s) == Some(row)
    && (forall t | t != s :: SameSession(m, m', t))
    && (forall n: nat :: RowAt(m, s, n) == RowAt(m', s, n))
    && (forall r, c :: CellAt(m, s, r, c) == CellAt(m', s, r, c))
  }

  lemma SessionAddedKeeps(m: Table, m': Table, rules: Rules, s: string, row: Session)
    requires LedgerSound(m, rules) && SessionAdded(m, m', s, row)
    requires row.fork.None? ==> row.lastSeq == 0
    requires row.fork.Some? ==>
               row.lastSeq == row.fork.value.boundarySeq && SessionAt(m, row.fork.value.parent).Some?
               && row.lastSeq <= Last(m, row.fork.value.parent)
    ensures LedgerSound(m', rules)
  {
    forall t ensures SessionSound(m', rules, t) {
      if t == s {
        AbsentSessionIsEmpty(m, rules, s);
        EmptySessionSound(m', rules, s);
      } else {
        SameSessionSound(m, m', rules, t);
      }
    }
    SessionAddedForks(m, m', s, row);
  }

  lemma SessionAddedForks(m: Table, m': Table, s: string, row: Session)
    requires Acyclic(m) && SessionAdded(m, m', s, row)
    requires row.fork.Some? ==>
               row.lastSeq == row.fork.value.boundarySeq && SessionAt(m, row.fork.value.parent).Some?
               && row.lastSeq <= Last(m, row.fork.value.parent)
    ensures Acyclic(m')
  {
    var rank :| ForksRanked(m, rank);
    var rank' := rank;
    if row.fork.Some? {
      // the parent may be a session that no fork has named yet
      var parent := row.fork.value.parent;
      if parent !in rank { rank' := rank[parent := 0]; }
      rank' := rank'[s := rank'[parent] + 1];
    }
    forall t | ForkOf(m', t).Some? ensures
      var f := ForkOf(m', t).value;
      && SessionAt(m', f.parent).Some? && f.boundarySeq <= Last(m', f.parent)
      && t in rank' && f.parent in rank' && rank'[f.parent] < rank'[t]
    {
      if t != s {
        assert SameSession(m, m', t);
        var f := ForkOf(m, t).value;
        assert SessionAt(m, f.parent).Some?;
        assert f.parent != s;
        assert SameSession(m, m', f.parent);
      } else {
        assert SameSession(m, m', row.fork.value.parent);
      }
    }
    assert ForksRanked(m', rank');
  }

  lemma OpenKeeps(m: Table, rules: Rules, s: string, runId: string, ttlMs: int, now: int, later: int)
    requires LedgerSound(m, rules) && Open(m, s, runId, ttlMs, now, later).Done?
    ensures LedgerSound(Open(m, s, runId, ttlMs, now, later).table, rules)
  {
    var m' := Open(m, s, runId, ttlMs, now, later).table;
    OpenShape(m, s, runId, ttlMs, now, later);
    if SessionAt(m, s).None? {
      SessionAddedKeeps(m, m', rules, s, Session(None, 0));
    } else {
      SameSessionsKeep(m, m', rules);
    }
  }

  lemma OpenShape(m: Table, s: string, runId: string, ttlMs: int, now: int, later: int)
    requires Open(m, s, runId, ttlMs, now, later).Done?
    ensures
      var m' := Open(m, s, runId, ttlMs, now, later).table;
      if SessionAt(m, s).None? then SessionAdded(m, m', s, Session(None, 0))
      else forall t :: SameSession(m, m', t)
  {
  }

  lemma CreateForkKeeps(m: Table, rules: Rules, parent: string, boundarySeq: int, child: string)
    requires LedgerSound(m, rules) && CreateFork(m, parent, boundarySeq, child).Done?
    ensures LedgerSound(CreateFork(m, parent, boundarySeq, child).table, rules)
  {
    if SessionAt(m, child).None? {
      var row := Session(Some(Fork(parent, boundarySeq)), boundarySeq);
      assert SessionAdded(m, CreateFork(m, parent, boundarySeq, child).table, child, row);
      SessionAddedKeeps(m, CreateFork(m, parent, boundarySeq, child).table, rules, child, row);
    }
  }

  /** What a commit leaves, row by row. */
  lemma CommittedShape(m: Table, rules: Rules, s: string, tx: CommitInput, lease: Lease)
    ensures
      var at := Last(m, s) + |tx.events|;
      var mid := AppendEvents(m, rules, s, Last(m, s), tx.events, tx.integrity);
      var m' := CommittedTable(m, rules, s, tx, lease);
      && SessionAt(m', s) == Some(Session(ForkOf(m, s), at))
      && (forall t | t != s :: SameSession(mid, m', t))
      && (forall n: nat :: RowAt(m', s, n) == RowAt(mid, s, n))
      && (forall r, c | r != OP_STATE :: CellAt(m', s, r, c) == CellAt(mid, s, r, c))
      && (forall c :: CellAt(m', s, OP_STATE, c) == CellAt(mid, s, OP_STATE, c)
                      || CellAt(m', s, OP_STATE, c).None?
                      || (CellAt(m', s, OP_STATE, c).value.at == at && tx.opState.Some?))
      && LeaseAt(m', s) == Some(lease)
  {
  }

  lemma CommitKeepsOthers(m: Table, rules: Rules, s: string, tx: CommitInput, lease: Lease)
    requires SessionSound(m, rules, s)
    ensures forall t | t != s :: SameSession(m, CommittedTable(m, rules, s, tx, lease), t)
  {
    var last := Last(m, s);
    var mid := AppendEvents(m, rules, s, last, tx.events, tx.integrity);
    AppendEventsKeep(m, rules, s, Base(m, s), last, tx.events, tx.integrity);
    CommittedShape(m, rules, s, tx, lease);
    forall t | t != s ensures SameSession(m, CommittedTable(m, rules, s, tx, lease), t) {
      assert SameSession(m, mid, t) && SameSession(mid, CommittedTable(m, rules, s, tx, lease), t);
    }
  }

  lemma CommitKeepsOwn(m: Table, rules: Rules, s: string, tx: CommitInput, lease: Lease)
    requires SessionSound(m, rules, s)
    requires tx.opState.Some? ==> tx.events != []
    ensures SessionSound(CommittedTable(m, rules, s, tx, lease), rules, s)
  {
    var last := Last(m, s);
    var mid := AppendEvents(m, rules, s, last, tx.events, tx.integrity);
    AppendEventsKeep(m, rules, s, Base(m, s), last, tx.events, tx.integrity);
    CommittedShape(m, rules, s, tx, lease);
    CommitKeepsSession(m, mid, CommittedTable(m, rules, s, tx, lease), rules, s, tx);
  }

  lemma CommitKeeps(m: Table, rules: Rules, s: string, tx: CommitInput, now: int)
    requires LedgerSound(m, rules) && Commit(m, rules, s, tx, now).Done?
    ensures LedgerSound(Commit(m, rules, s, tx, now).table, rules)
  {
    var lease := Hold(m, s, tx.runId, tx.claim, now).value;
    var m' := CommittedTable(m, rules, s, tx, lease);
    CommitKeepsOwn(m, rules, s, tx, lease);
    CommitKeepsOthers(m, rules, s, tx, lease);
    forall t | t != s ensures SessionSound(m', rules, t) && SessionAt(m', t) == SessionAt(m, t) {
      assert SameSession(m, m', t);
      SameSessionSound(m, m', rules, t);
    }
    SessionsGrowKeepForks(m, m');
  }

  lemma CommitKeepsSession(m: Table, mid: Table, m': Table, rules: Rules, s: string, tx: CommitInput)
    requires SessionAt(m', s) == Some(Session(ForkOf(m, s), Last(m, s) + |tx.events|))
    requires Contiguous(mid, s, Base(m, s), Last(m', s)) && RegistersAgree(mid, rules, s, Last(m', s))
    requires CellsDated(mid, s, Last(m', s)) && Base(m, s) <= Last(m, s)
    requires forall n: nat :: RowAt(m', s, n) == RowAt(mid, s, n)
    requires forall r, c | r != OP_STATE :: CellAt(m', s, r, c) == CellAt(mid, s, r, c)
    requires forall c :: CellAt(m', s, OP_STATE, c) == CellAt(mid, s, OP_STATE, c)
               || CellAt(m', s, OP_STATE, c).None?
               || (CellAt(m', s, OP_STATE, c).value.at == Last(m', s) && tx.opState.Some?)
    requires tx.opState.Some? ==> tx.events != []
    ensures SessionSound(m', rules, s)
  {
    forall r, c | r != OP_STATE ensures CellAt(m', s, r, c) == Fold(m', rules, s, r, c, Last(m', s)) {
      FoldSame(mid, m', rules, s, r, c, Last(m', s));
    }
    assert Base(m', s) == Base(m, s);
    assert CellsDated(m', s, Last(m', s)) by {
      forall r, c | CellAt(m', s, r, c).Some? ensures 0 < CellAt(m', s, r, c).value.at <= Last(m', s) {
        if r != OP_STATE { assert CellAt(m', s, r, c) == CellAt(mid, s, r, c); }
      }
    }
  }

  /** A session may be discarded when no other session forks from it. */
  predicate Childless(m: Table, s: string) {
    forall k | k in m && k.SessionKey? && m[k].SessionV? ::
      m[k].session.fork.Some? ==> m[k].session.fork.value.parent != s
  }

  lemma DiscardKeeps(m: Table, rules: Rules, s: string, runId: string, claim: Option<Claim>, now: int)
    requires LedgerSound(m, rules) && Discard(m, s, runId, claim, now).Done?
    requires Childless(m, s)
    ensures LedgerSound(Discard(m, s, runId, claim, now).table, rules)
  {
    var m' := Discard(m, s, runId, claim, now).table;
    forall t ensures SessionSound(m', rules, t) {
      if t == s {
        EmptySessionSound(m', rules, s);
      } else {
        assert SameSession(m, m', t);
        SameSessionSound(m, m', rules, t);
      }
    }
    var rank :| ForksRanked(m, rank);
    forall t | ForkOf(m', t).Some? ensures
      var f := ForkOf(m', t).value;
      && SessionAt(m', f.parent).Some? && f.boundarySeq <= Last(m', f.parent)
      && t in rank && f.parent in rank && rank[f.parent] < rank[t]
    {
      assert t != s && ForkOf(m', t) == ForkOf(m, t);
      assert SessionKey(t) in m && m[SessionKey(t)].SessionV?;
      assert ForkOf(m, t).value.parent != s;
    }
    assert ForksRanked(m', rank);
  }

  /** Discarding keeps the ledger sound if and only if nothing forks from the session. */
  lemma DiscardKeepsExactly(m: Table, rules: Rules, s: string, runId: string, claim: Option<Claim>, now: int)
    requires LedgerSound(m, rules) && Discard(m, s, runId, claim, now).Done?
    ensures LedgerSound(Discard(m, s, runId, claim, now).table, rules) <==> Childless(m, s)
  {
    if Childless(m, s) {
      DiscardKeeps(m, rules, s, runId, claim, now);
    } else {
      var k :| k in m && k.SessionKey? && m[k].SessionV?
               && m[k].session.fork.Some? && m[k].session.fork.value.parent == s;
      DiscardOrphans(m, s, runId, claim, now, k.session);
    }
  }

  /** A fork of a discarded session is left without its parent, and one call closes a cycle. */
  lemma DiscardOrphans(m: Table, s: string, runId: string, claim: Option<Claim>, now: int, t: string)
    requires Acyclic(m) && Discard(m, s, runId, claim, now).Done?
    requires ForkOf(m, t).Some? && ForkOf(m, t).value.parent == s
    ensures
      var m' := Discard(m, s, runId, claim, now).table;
      && !Acyclic(m')
      && CreateFork(m', t, 0, s).Done? && ForkOf(CreateFork(m', t, 0, s).table, s) == Some(Fork(t, 0))
      && ForkOf(CreateFork(m', t, 0, s).table, t) == ForkOf(m, t)
      && !Acyclic(CreateFork(m', t, 0, s).table)
  {
    var m' := Discard(m, s, runId, claim, now).table;
    var rank :| ForksRanked(m, rank);
    assert t != s;
    assert ForkOf(m', t) == ForkOf(m, t) && SessionAt(m', s).None? && SessionAt(m', t).Some?;
    forall r ensures !ForksRanked(m', r) {}
    var m'' := CreateFork(m', t, 0, s).table;
    assert ForkOf(m'', s) == Some(Fork(t, 0)) && ForkOf(m'', t) == ForkOf(m, t);
    forall r ensures !ForksRanked(m'', r) {}
  }
}
