/** Arbitrary runs of the provider's operations, and what holds at every point of them. */
module Runs {
  import opened Wrappers
  import opened Store
  import opened Journals
  import opened Recovery
  import opened LedgerSteps
  import opened LedgerRuns
  import opened Budget
  import opened Conservation
  import opened BudgetRuns
  import opened Children

  datatype Op =
    // ledger
    | OpenOp(s: string, runId: string, ttlMs: int, now: int, later: int)
    | CommitOp(s: string, tx: CommitInput, now: int)
    | RenewOp(s: string, runId: string, claim: Option<Claim>, now: int, later: int)
    | ReleaseLeaseOp(s: string, runId: string)
    | ClearLeaseOp(s: string)
    | ReclaimOp(s: string, runId: string, until: int, now: int)
    | ForkOp(parent: string, boundarySeq: int, child: string)
    | DiscardOp(s: string, runId: string, claim: Option<Claim>, now: int)
    | RecoverOp(audit: Data, control: Data, phase: Data)
    // child tasks
    | CreateOp(input: CreateInput)
    | BeginOp(cas: Cas, nextAttemptId: string, at: int)
    | DeferOp(cas: Cas, at: int)
    | CommitAttemptOp(cas: Cas)
    | CancelOp(cas: Cas, openFailed: bool, at: int)
    | CasOp(child: string, revision: int, next: TaskState)
    // budget
    | EnsureRootOp(root: string, cap: int)
    | ReserveOp(request: ReserveInput)
    | SettleOp(settlement: SettleInput)
    | ReleaseOp(permitId: int, expected: Option<int>)
    | TakeoverOp(permitId: int, generation: int)
    | BumpOp(root: string)

  /** A refused operation leaves the table as it was. */
  function TableOf<R>(o: Outcome<Table, R>, m: Table): Table {
    match o
    case Done(table, _) => table
    case Refused(_) => m
  }

  function IndexText(i: nat): string {
    (if i < 10 then "" else IndexText(i / 10)) + ["0123456789"[i % 10]]
  }

  /** The items of an array as properties. */
  function Indexed(items: seq<Data>): map<string, Data> {
    if items == [] then map[]
    else
      var n := |items| - 1;
      Indexed(items[..n])[IndexText(n) := items[n]]
  }

  /** The state of an open operation, told to cancel; an array becomes an object of its items. */
  function CancelRequested(data: Data, control: Data, phase: Data): Data
    requires data.Object? || data.Array?
  {
    var fields := if data.Object? then data.fields else Indexed(data.items);
    Object(fields["control" := control]["phase" := phase])
  }

  /** How the ledger is repaired after a damaged tail: open operations must not be replayed. */
  function LedgerRepair(audit: Data, control: Data, phase: Data): Repair<Key, Value> {
    Repair(RecoveryKey, DataV(audit), (k: Key, v: Value) =>
      if k.RegisterKey? && k.register == OP_STATE && v.CellV? && (v.cell.data.Object? || v.cell.data.Array?)
      then Some(CellV(v.cell.(data := CancelRequested(v.cell.data, control, phase))))
      else None)
  }

  ghost function After(m: Table, rules: Rules, op: Op): Table {
    match op
    case OpenOp(s, runId, ttlMs, now, later) => TableOf(Open(m, s, runId, ttlMs, now, later), m)
    case CommitOp(s, tx, now) => TableOf(Commit(m, rules, s, tx, now), m)
    case RenewOp(s, runId, claim, now, later) => TableOf(Renew(m, s, runId, claim, now, later), m)
    case ReleaseLeaseOp(s, runId) => TableOf(ReleaseLease(m, s, runId), m)
    case ClearLeaseOp(s) => TableOf(ClearLease(m, s), m)
    case ReclaimOp(s, runId, until, now) => TableOf(Reclaim(m, s, runId, until, now), m)
    case ForkOp(parent, boundarySeq, child) => TableOf(CreateFork(m, parent, boundarySeq, child), m)
    case DiscardOp(s, runId, claim, now) => TableOf(Discard(m, s, runId, claim, now), m)
    case RecoverOp(audit, control, phase) => Fenced(LedgerRepair(audit, control, phase), m)
    case CreateOp(input) => TableOf(CreateChild(m, input), m)
    case BeginOp(cas, nextAttemptId, at) => TableOf(BeginAttempt(m, cas, nextAttemptId, at), m)
    case DeferOp(cas, at) => TableOf(DeferAttempt(m, cas, at), m)
    case CommitAttemptOp(cas) => TableOf(CommitAttempt(m, cas), m)
    case CancelOp(cas, openFailed, at) => TableOf(CancelAttempt(m, cas, openFailed, at), m)
    case CasOp(child, revision, next) => TableOf(CasState(m, child, revision, next), m)
    case EnsureRootOp(root, cap) => TableOf(EnsureRoot(m, root, cap), m)
    case ReserveOp(request) => TableOf(Reserve(m, request), m)
    case SettleOp(settlement) => TableOf(Settle(m, settlement), m)
    case ReleaseOp(permitId, expected) => TableOf(Release(m, permitId, expected), m)
    case TakeoverOp(permitId, generation) => TableOf(Takeover(m, permitId, generation), m)
    case BumpOp(root) => TableOf(Bump(m, root), m)
  }

  /** Only a session that nothing refers to may be discarded. */
  predicate Permitted(m: Table, op: Op) {
    op.DiscardOp? ==>
      Childless(m, op.s) && TaskAt(m, op.s).None? && ScopeAt(m, ChildScope(op.s)).None?
  }

  ghost function Run(m: Table, rules: Rules, ops: seq<Op>): Table
    decreases |ops|
  {
    if ops == [] then m else Run(After(m, rules, ops[0]), rules, ops[1..])
  }

  ghost predicate PermittedRun(m: Table, rules: Rules, ops: seq<Op>)
    decreases |ops|
  {
    ops == [] || (Permitted(m, ops[0]) && PermittedRun(After(m, rules, ops[0]), rules, ops[1..]))
  }

  // ----- Invariants -------------------------------------------------------------------------

  ghost predicate TasksSound(m: Table) {
    && (forall c :: TaskAt(m, c).Some? ==> SessionAt(m, c).Some? && TaskAt(m, c).value.childKey == c)
    && (forall c :: ScopeAt(m, ChildScope(c)).Some? ==> SessionAt(m, c).Some?)
    && (forall c, c' | TaskAt(m, c).Some? && TaskAt(m, c').Some?
          && TaskAt(m, c).value.creationId == TaskAt(m, c').value.creationId :: c == c')
  }

  /** Every scope belongs to a tree whose root exists. */
  ghost predicate RootsSound(m: Table) {
    forall id :: ScopeAt(m, id).Some? ==> ScopeAt(m, RootScope(ScopeAt(m, id).value.rootTaskId)).Some?
  }

  /** The task lists distinct scopes that exist, among them its root's and the one it spends from. */
  ghost predicate ScopesListed(m: Table, t: Task) {
    && Distinct(t.ancestorScopeIds) && RootScope(t.rootTaskId) in t.ancestorScopeIds
    && t.budgetScopeId in t.ancestorScopeIds
    && forall id | id in t.ancestorScopeIds :: ScopeAt(m, id).Some?
  }

  ghost predicate TaskScopesSound(m: Table) {
    forall c :: TaskAt(m, c).Some? ==> ScopesListed(m, TaskAt(m, c).value)
  }

  ghost predicate WorldSound(m: Table, rules: Rules) {
    LedgerSound(m, rules) && Balanced(m) && TasksSound(m) && RootsSound(m) && TaskScopesSound(m)
  }

  // ----- Which rows an operation may touch --------------------------------------------------

  datatype Kind = LedgerRow | TaskRow | BudgetRow | OtherRow

  function KindOf(k: Key): Kind {
    match k
    case SessionKey(_) => LedgerRow
    case LeaseKey(_) => LedgerRow
    case EventKey(_, _) => LedgerRow
    case RegisterKey(_, _, _) => LedgerRow
    case ChildKey(_) => TaskRow
    case ScopeKey(_) => BudgetRow
    case PermitKey(_) => BudgetRow
    case OriginKey(_, _) => BudgetRow
    case GenerationKey(_) => BudgetRow
    case PermitCounterKey => BudgetRow
    case _ => OtherRow
  }

  ghost predicate SameRows(m: Table, m': Table, kind: Kind) {
    forall k | KindOf(k) == kind :: (k in m <==> k in m') && (k in m ==> m[k] == m'[k])
  }

  lemma SameBudgetRows(m: Table, m': Table)
    requires SameRows(m, m', BudgetRow)
    ensures SameBooks(m, m')
  {
    forall id ensures ScopeAt(m, id) == ScopeAt(m', id) { assert KindOf(ScopeKey(id)) == BudgetRow; }
    forall p ensures PermitAt(m, p) == PermitAt(m', p) { assert KindOf(PermitKey(p)) == BudgetRow; }
    forall s, n ensures OriginAt(m, s, n) == OriginAt(m', s, n) { assert KindOf(OriginKey(s, n)) == BudgetRow; }
    forall r ensures Generation(m, r) == Generation(m', r) { assert KindOf(GenerationKey(r)) == BudgetRow; }
    assert KindOf(PermitCounterKey) == BudgetRow;
  }

  lemma SameLedgerRows(m: Table, m': Table)
    requires SameRows(m, m', LedgerRow)
    ensures forall s :: SameSession(m, m', s) && LeaseAt(m, s) == LeaseAt(m', s)
  {
    forall s ensures SameSession(m, m', s) && LeaseAt(m, s) == LeaseAt(m', s) {
      assert KindOf(SessionKey(s)) == LedgerRow && KindOf(LeaseKey(s)) == LedgerRow;
      forall n: nat ensures RowAt(m, s, n) == RowAt(m', s, n) { assert KindOf(EventKey(s, n)) == LedgerRow; }
      forall r, c ensures CellAt(m, s, r, c) == CellAt(m', s, r, c) {
        assert KindOf(RegisterKey(s, r, c)) == LedgerRow;
      }
    }
  }

  lemma SameTaskRows(m: Table, m': Table)
    requires SameRows(m, m', TaskRow)
    ensures forall c :: TaskAt(m, c) == TaskAt(m', c)
    ensures forall k :: IsTask(m, k) <==> IsTask(m', k)
    ensures forall k :: IsTask(m, k) ==> m[k] == m'[k]
  {
    forall c ensures TaskAt(m, c) == TaskAt(m', c) { assert KindOf(ChildKey(c)) == TaskRow; }
    forall k ensures (IsTask(m, k) <==> IsTask(m', k)) && (IsTask(m, k) ==> m[k] == m'[k]) {
      if k.ChildKey? { assert KindOf(k) == TaskRow; }
    }
  }

  lemma {:induction false} AppendEventsRows(
    m: Table, rules: Rules, s: string, last: nat, events: seq<Event>, integrity: Option<seq<IntegrityCommit>>,
    kind: Kind)
    requires kind != LedgerRow
    ensures SameRows(m, AppendEvents(m, rules, s, last, events, integrity), kind)
    decreases |events|
  {
    if events != [] { AppendEventsRows(m, rules, s, last, events[..|events| - 1], integrity, kind); }
  }

  predicate IsLedgerOp(op: Op) {
    op.OpenOp? || op.CommitOp? || op.RenewOp? || op.ReleaseLeaseOp? || op.ClearLeaseOp? || op.ReclaimOp?
    || op.ForkOp? || op.DiscardOp? || op.RecoverOp?
  }

  predicate IsBudgetOp(op: Op) {
    op.EnsureRootOp? || op.ReserveOp? || op.SettleOp? || op.ReleaseOp? || op.TakeoverOp? || op.BumpOp?
  }

  predicate IsTaskOp(op: Op) {
    op.BeginOp? || op.DeferOp? || op.CommitAttemptOp? || op.CancelOp? || op.CasOp?
  }

  lemma LedgerOpRows(m: Table, rules: Rules, op: Op)
    requires IsLedgerOp(op)
    ensures SameRows(m, After(m, rules, op), BudgetRow) && SameRows(m, After(m, rules, op), TaskRow)
  {
    if op.CommitOp? { CommitRows(m, rules, op); }
  }

  lemma CommitRows(m: Table, rules: Rules, op: Op)
    requires op.CommitOp?
    ensures SameRows(m, After(m, rules, op), BudgetRow) && SameRows(m, After(m, rules, op), TaskRow)
  {
    AppendEventsRows(m, rules, op.s, Last(m, op.s), op.tx.events, op.tx.integrity, BudgetRow);
    AppendEventsRows(m, rules, op.s, Last(m, op.s), op.tx.events, op.tx.integrity, TaskRow);
  }

  /** Only rows of the books may differ. */
  ghost predicate SameButBooks(m: Table, m': Table) {
    SameRows(m, m', LedgerRow) && SameRows(m, m', TaskRow)
  }

  lemma ReserveRows(m: Table, request: ReserveInput)
    ensures SameButBooks(m, TableOf(Reserve(m, request), m))
  {
  }

  lemma SettleRows(m: Table, settlement: SettleInput)
    ensures SameButBooks(m, TableOf(Settle(m, settlement), m))
  {
  }

  lemma ReleaseRows(m: Table, permitId: int, expected: Option<int>)
    ensures SameButBooks(m, TableOf(Release(m, permitId, expected), m))
  {
  }

  lemma TakeoverRows(m: Table, permitId: int, generation: int)
    ensures SameButBooks(m, TableOf(Takeover(m, permitId, generation), m))
  {
  }

  lemma EnsureRootRows(m: Table, root: string, cap: int)
    ensures SameButBooks(m, TableOf(EnsureRoot(m, root, cap), m))
  {
  }

  lemma BumpRows(m: Table, root: string)
    ensures SameButBooks(m, TableOf(Bump(m, root), m))
  {
  }

  lemma BudgetOpRows(m: Table, rules: Rules, op: Op)
    requires IsBudgetOp(op)
    ensures SameRows(m, After(m, rules, op), LedgerRow) && SameRows(m, After(m, rules, op), TaskRow)
  {
    match op {
      case ReserveOp(request) => ReserveRows(m, request);
      case SettleOp(settlement) => SettleRows(m, settlement);
      case ReleaseOp(permitId, expected) => ReleaseRows(m, permitId, expected);
      case TakeoverOp(permitId, generation) => TakeoverRows(m, permitId, generation);
      case EnsureRootOp(root, cap) => EnsureRootRows(m, root, cap);
      case BumpOp(root) => BumpRows(m, root);
    }
  }

  lemma TaskOpRows(m: Table, rules: Rules, op: Op)
    requires IsTaskOp(op)
    ensures SameRows(m, After(m, rules, op), LedgerRow) && SameRows(m, After(m, rules, op), BudgetRow)
  {
  }

  // ----- Ledger operations ------------------------------------------------------------------

  lemma RecoverKeeps(m: Table, rules: Rules, audit: Data, control: Data, phase: Data)
    requires LedgerSound(m, rules)
    ensures LedgerSound(Fenced(LedgerRepair(audit, control, phase), m), rules)
  {
    var m' := Fenced(LedgerRepair(audit, control, phase), m);
    forall s ensures SessionSound(m', rules, s) && SessionAt(m', s) == SessionAt(m, s) {
      RecoverRows(m, audit, control, phase, s);
      assert SessionSound(m, rules, s);
      SameEventsKeep(m, m', rules, s);
    }
    SessionsGrowKeepForks(m, m');
  }

  /** A repair leaves a session's events and registers alone, and its op.state cells under their numbers. */
  lemma RecoverRows(m: Table, audit: Data, control: Data, phase: Data, s: string)
    ensures
      var m' := Fenced(LedgerRepair(audit, control, phase), m);
      && SessionAt(m', s) == SessionAt(m, s)
      && (forall n: nat :: RowAt(m', s, n) == RowAt(m, s, n))
      && (forall r, c | r != OP_STATE :: CellAt(m', s, r, c) == CellAt(m, s, r, c))
      && (forall r, c | CellAt(m', s, r, c).Some? ::
            CellAt(m, s, r, c).Some? && CellAt(m', s, r, c).value.at == CellAt(m, s, r, c).value.at)
  {
  }

  lemma SameEventsKeep(m: Table, m': Table, rules: Rules, s: string)
    requires SessionSound(m, rules, s) && SessionAt(m', s) == SessionAt(m, s)
    requires forall n: nat :: RowAt(m', s, n) == RowAt(m, s, n)
    requires forall r, c | r != OP_STATE :: CellAt(m', s, r, c) == CellAt(m, s, r, c)
    requires forall r, c | CellAt(m', s, r, c).Some? ::
               CellAt(m, s, r, c).Some? && CellAt(m', s, r, c).value.at == CellAt(m, s, r, c).value.at
    ensures SessionSound(m', rules, s)
  {
    forall r, c | r != OP_STATE ensures CellAt(m', s, r, c) == Fold(m', rules, s, r, c, Last(m', s)) {
      FoldSame(m, m', rules, s, r, c, Last(m, s));
    }
  }

  lemma LeaseOpKeeps(m: Table, rules: Rules, op: Op)
    requires LedgerSound(m, rules)
    requires op.RenewOp? || op.ReleaseLeaseOp? || op.ClearLeaseOp? || op.ReclaimOp?
    ensures LedgerSound(After(m, rules, op), rules)
  {
    SameSessionsKeep(m, After(m, rules, op), rules);
  }

  lemma LedgerOpKeepsLedger(m: Table, rules: Rules, op: Op)
    requires LedgerSound(m, rules) && IsLedgerOp(op) && Permitted(m, op)
    ensures LedgerSound(After(m, rules, op), rules)
  {
    match op {
      case OpenOp(s, runId, ttlMs, now, later) =>
        if Open(m, s, runId, ttlMs, now, later).Done? { OpenKeeps(m, rules, s, runId, ttlMs, now, later); }
      case CommitOp(s, tx, now) =>
        if Commit(m, rules, s, tx, now).Done? { CommitKeeps(m, rules, s, tx, now); }
      case ForkOp(parent, boundarySeq, child) =>
        if CreateFork(m, parent, boundarySeq, child).Done? { CreateForkKeeps(m, rules, parent, boundarySeq, child); }
      case DiscardOp(s, runId, claim, now) =>
        if Discard(m, s, runId, claim, now).Done? { DiscardKeeps(m, rules, s, runId, claim, now); }
      case RecoverOp(audit, control, phase) => RecoverKeeps(m, rules, audit, control, phase);
      case _ => LeaseOpKeeps(m, rules, op);
    }
  }

  /** A ledger operation removes no session that a task or scope names. */
  lemma LedgerOpKeepsSessions(m: Table, rules: Rules, op: Op, s: string)
    requires (forall t :: SessionSound(m, rules, t)) && IsLedgerOp(op) && Permitted(m, op)
    requires SessionAt(m, s).Some? && (op.DiscardOp? ==> op.s != s)
    ensures SessionAt(After(m, rules, op), s).Some?
  {
    if op.CommitOp? && Commit(m, rules, op.s, op.tx, op.now).Done? {
      var lease := Hold(m, op.s, op.tx.runId, op.tx.claim, op.now).value;
      CommitKeepsOthers(m, rules, op.s, op.tx, lease);
      CommittedShape(m, rules, op.s, op.tx, lease);
      if s != op.s { assert SameSession(m, CommittedTable(m, rules, op.s, op.tx, lease), s); }
    }
  }

  lemma LedgerOpKeeps(m: Table, rules: Rules, op: Op)
    requires WorldSound(m, rules) && IsLedgerOp(op) && Permitted(m, op)
    ensures WorldSound(After(m, rules, op), rules)
  {
    var m' := After(m, rules, op);
    LedgerOpKeepsLedger(m, rules, op);
    LedgerOpRows(m, rules, op);
    SameBudgetRows(m, m');
    SameBooksKeep(m, m');
    SameTaskRows(m, m');
    SameScopesKeepTasks(m, m');
    forall c | TaskAt(m', c).Some? || ScopeAt(m', ChildScope(c)).Some? ensures SessionAt(m', c).Some? {
      assert TaskAt(m, c).Some? || ScopeAt(m, ChildScope(c)).Some?;
      LedgerOpKeepsSessions(m, rules, op, c);
    }
  }

  lemma SameScopesKeepTasks(m: Table, m': Table)
    requires TaskScopesSound(m) && forall c :: TaskAt(m', c) == TaskAt(m, c)
    requires forall id :: ScopeAt(m, id).Some? ==> ScopeAt(m', id).Some?
    ensures TaskScopesSound(m')
  {
    forall c | TaskAt(m', c).Some? ensures ScopesListed(m', TaskAt(m', c).value) {
      assert ScopesListed(m, TaskAt(m, c).value);
    }
  }

  // ----- Budget operations ------------------------------------------------------------------

  lemma BudgetOpKeepsBalance(m: Table, rules: Rules, op: Op)
    requires Balanced(m) && IsBudgetOp(op)
    ensures Balanced(After(m, rules, op))
    ensures HeldConserved(m) && (op.SettleOp? ==> !DoubleOverrun(m, op.settlement)) ==>
              HeldConserved(After(m, rules, op))
  {
    if op.SettleOp? {
      SettleOpKeepsBalance(m, op.settlement);
    } else if op.ReserveOp? {
      if Reserve(m, op.request).Done? { ReserveKeeps(m, op.request); }
    } else if op.ReleaseOp? {
      if Release(m, op.permitId, op.expected).Done? { ReleaseKeeps(m, op.permitId, op.expected); }
    } else {
      RootOpKeepsBalance(m, rules, op);
    }
  }

  lemma SettleOpKeepsBalance(m: Table, settlement: SettleInput)
    requires Balanced(m)
    ensures Balanced(TableOf(Settle(m, settlement), m))
    ensures HeldConserved(m) && !DoubleOverrun(m, settlement) ==> HeldConserved(TableOf(Settle(m, settlement), m))
  {
    if Settle(m, settlement).Done? {
      SettleKeeps(m, settlement);
      if HeldConserved(m) { SettleKeepsHeldExactly(m, settlement); }
    }
  }

  lemma RootOpKeepsBalance(m: Table, rules: Rules, op: Op)
    requires Balanced(m) && (op.EnsureRootOp? || op.TakeoverOp? || op.BumpOp?)
    ensures Balanced(After(m, rules, op)) && (HeldConserved(m) ==> HeldConserved(After(m, rules, op)))
  {
    match op {
      case EnsureRootOp(root, cap) =>
        if EnsureRoot(m, root, cap).Done? { EnsureRootKeeps(m, root, cap); }
      case TakeoverOp(permitId, generation) =>
        if Takeover(m, permitId, generation).Done? { TakeoverKeeps(m, permitId, generation); }
      case BumpOp(root) =>
        if Bump(m, root).Done? { BumpKeeps(m, root); }
    }
  }

  /** A second known cost on a permit that an earlier known cost already overran. */
  ghost predicate DoubleOverrun(m: Table, settlement: SettleInput) {
    && Records(m, settlement) && settlement.actual.Some?
    && PermitAt(m, settlement.permitId).value.q > 0 && !Holding(m, settlement.permitId)
  }

  /** The scope is the one that was created, in its place and with its cap: only its balances may have moved. */
  predicate SameScope(s: Scope, s': Scope) {
    s' == s.(settled := s'.settled, held := s'.held)
  }

  /** Scopes stay, in their trees; a scope that is new is a root. */
  ghost predicate ScopesStay(m: Table, m': Table) {
    && (forall id :: ScopeAt(m, id).Some? ==>
          ScopeAt(m', id).Some? && SameScope(ScopeAt(m, id).value, ScopeAt(m', id).value))
    && (forall id :: ScopeAt(m', id).Some? ==>
          ScopeAt(m, id).Some? || id == RootScope(ScopeAt(m', id).value.rootTaskId))
  }

  lemma ReserveScopes(m: Table, request: ReserveInput)
    ensures ScopesStay(m, TableOf(Reserve(m, request), m))
  {
  }

  lemma SettleScopes(m: Table, settlement: SettleInput)
    ensures ScopesStay(m, TableOf(Settle(m, settlement), m))
  {
  }

  lemma ReleaseScopes(m: Table, permitId: int, expected: Option<int>)
    ensures ScopesStay(m, TableOf(Release(m, permitId, expected), m))
  {
  }

  lemma RootOpScopes(m: Table, rules: Rules, op: Op)
    requires op.TakeoverOp? || op.EnsureRootOp? || op.BumpOp?
    ensures ScopesStay(m, After(m, rules, op))
  {
  }

  lemma BudgetOpScopes(m: Table, rules: Rules, op: Op)
    requires IsBudgetOp(op)
    ensures ScopesStay(m, After(m, rules, op))
  {
    match op {
      case ReserveOp(request) => ReserveScopes(m, request);
      case SettleOp(settlement) => SettleScopes(m, settlement);
      case ReleaseOp(permitId, expected) => ReleaseScopes(m, permitId, expected);
      case _ => RootOpScopes(m, rules, op);
    }
  }

  lemma ScopesStayKeepRoots(m: Table, m': Table)
    requires RootsSound(m) && ScopesStay(m, m')
    ensures RootsSound(m')
  {
    forall id | ScopeAt(m', id).Some? ensures ScopeAt(m', RootScope(ScopeAt(m', id).value.rootTaskId)).Some? {
      if ScopeAt(m, id).Some? { assert ScopeAt(m, RootScope(ScopeAt(m, id).value.rootTaskId)).Some?; }
    }
  }

  lemma BudgetOpKeeps(m: Table, rules: Rules, op: Op)
    requires WorldSound(m, rules) && IsBudgetOp(op)
    ensures WorldSound(After(m, rules, op), rules)
  {
    var m' := After(m, rules, op);
    BudgetOpKeepsBalance(m, rules, op);
    BudgetOpRows(m, rules, op);
    SameLedgerRows(m, m');
    SameSessionsKeep(m, m', rules);
    SameTaskRows(m, m');
    BudgetOpScopes(m, rules, op);
    ScopesStayKeepRoots(m, m');
    SameScopesKeepTasks(m, m');
    forall c | TaskAt(m', c).Some? || ScopeAt(m', ChildScope(c)).Some? ensures SessionAt(m', c).Some? {
      assert SameSession(m, m', c);
    }
  }

  // ----- Task operations --------------------------------------------------------------------

  /** One task row has been rewritten, keeping its identity. */
  ghost predicate TaskRewritten(m: Table, m': Table, c: string) {
    && TaskAt(m, c).Some? && TaskAt(m', c).Some?
    && SameCreation(TaskAt(m, c).value, TaskAt(m', c).value)
    && (forall d | d != c :: TaskAt(m', d) == TaskAt(m, d))
  }

  function TaskOf(op: Op): string
    requires IsTaskOp(op)
  {
    match op
    case BeginOp(cas, _, _) => cas.childKey
    case DeferOp(cas, _) => cas.childKey
    case CommitAttemptOp(cas) => cas.childKey
    case CancelOp(cas, _, _) => cas.childKey
    case CasOp(child, _, _) => child
  }

  lemma TaskOpShape(m: Table, rules: Rules, op: Op)
    requires IsTaskOp(op)
    ensures After(m, rules, op) == m || TaskRewritten(m, After(m, rules, op), TaskOf(op))
  {
  }

  lemma TaskOpKeeps(m: Table, rules: Rules, op: Op)
    requires WorldSound(m, rules) && IsTaskOp(op)
    ensures WorldSound(After(m, rules, op), rules)
  {
    var m' := After(m, rules, op);
    TaskOpRows(m, rules, op);
    SameBudgetRows(m, m');
    SameBooksKeep(m, m');
    SameLedgerRows(m, m');
    SameSessionsKeep(m, m', rules);
    TaskOpKeepsTasks(m, rules, op);
  }

  lemma TaskOpKeepsTasks(m: Table, rules: Rules, op: Op)
    requires TasksSound(m) && TaskScopesSound(m) && IsTaskOp(op)
    ensures TasksSound(After(m, rules, op)) && TaskScopesSound(After(m, rules, op))
  {
    var m' := After(m, rules, op);
    TaskOpShape(m, rules, op);
    TaskOpRows(m, rules, op);
    SameBudgetRows(m, m');
    SameLedgerRows(m, m');
    forall c ensures SessionAt(m', c) == SessionAt(m, c) { assert SameSession(m, m', c); }
    if m' != m { TaskRewrittenKeeps(m, m', TaskOf(op)); }
  }

  lemma TaskRewrittenKeeps(m: Table, m': Table, c: string)
    requires TasksSound(m) && TaskScopesSound(m) && TaskRewritten(m, m', c)
    requires (forall d :: SessionAt(m', d) == SessionAt(m, d)) && forall id :: ScopeAt(m', id) == ScopeAt(m, id)
    ensures TasksSound(m') && TaskScopesSound(m')
  {
    forall d | TaskAt(m', d).Some? ensures ScopesListed(m', TaskAt(m', d).value) {
      assert ScopesListed(m, TaskAt(m, d).value);
    }
  }

  // ----- Creating a child -------------------------------------------------------------------

  /** A creation that goes through. */
  ghost predicate Creates(m: Table, input: CreateInput) {
    CreateChild(m, input).Done? && CreateChild(m, input).value.Created?
  }

  lemma CreateRows(m: Table, forked: Table, input: CreateInput)
    ensures
      var m' := WithChild(m, forked, input);
      && SameRows(forked, m', LedgerRow)
      && (forall c :: TaskAt(m', c) == if c == input.childKey then Some(NewTask(m, input)) else TaskAt(forked, c))
      && (forall p :: PermitAt(m', p) == PermitAt(forked, p))
      && (forall s, n :: OriginAt(m', s, n) == OriginAt(forked, s, n))
      && (forall r :: Generation(m', r) == Generation(forked, r))
      && PermitCounter(m') == PermitCounter(forked)
      && (forall id :: ScopeAt(m', id) ==
            if id == ChildScope(input.childKey) && input.childCap.Some?
            then Some(NewScope(m, input, input.childCap.value)) else ScopeAt(forked, id))
  {
    CreateLedgerRows(m, forked, input);
  }

  lemma CreateLedgerRows(m: Table, forked: Table, input: CreateInput)
    ensures SameRows(forked, WithChild(m, forked, input), LedgerRow)
  {
  }

  lemma CreateKeepsBooks(m: Table, forked: Table, input: CreateInput)
    requires Balanced(m) && SameBooks(m, forked)
    requires ScopeAt(m, ChildScope(input.childKey)).None?
    requires input.childCap.Some? ==> input.childCap.value >= 0
    ensures Balanced(WithChild(m, forked, input))
    ensures HeldConserved(m) <==> HeldConserved(WithChild(m, forked, input))
  {
    var m' := WithChild(m, forked, input);
    CreateRows(m, forked, input);
    if input.childCap.Some? {
      ScopeAddedKeeps(m, m', ChildScope(input.childKey), NewScope(m, input, input.childCap.value));
    } else {
      SameBooksKeep(m, m');
    }
  }

  /** A creation is a fork followed by the child's own rows. */
  lemma CreateSteps(m: Table, rules: Rules, input: CreateInput) returns (forked: Table)
    requires TasksSound(m) && Creates(m, input)
    ensures CreateFork(m, input.parentKey, input.boundarySeq, input.childKey).Done?
    ensures forked == CreateFork(m, input.parentKey, input.boundarySeq, input.childKey).table
    ensures After(m, rules, CreateOp(input)) == WithChild(m, forked, input)
    ensures TaskAt(m, input.childKey).None? && ScopeAt(m, ChildScope(input.childKey)).None?
    ensures ScopeAt(m, RootScope(input.rootTaskId)).Some?
    ensures CapFits(m, Ancestors(m, input.parentKey, input.rootTaskId), input.childCap)
    ensures SameBooks(m, forked) && forall c :: TaskAt(forked, c) == TaskAt(m, c)
    ensures input.childCap.Some? ==> input.childCap.value >= 0
  {
    CreateForks(m, rules, input);
    forked := CreateFork(m, input.parentKey, input.boundarySeq, input.childKey).table;
    CreateCap(m, input);
    ForkedRows(m, input.childKey, SessionV(Session(Some(Fork(input.parentKey, input.boundarySeq)), input.boundarySeq)));
    assert TaskAt(m, input.childKey).Some? ==> SessionAt(m, input.childKey).Some?;
  }

  lemma CreateForks(m: Table, rules: Rules, input: CreateInput)
    requires Creates(m, input)
    ensures
      var fork := CreateFork(m, input.parentKey, input.boundarySeq, input.childKey);
      && input.boundarySeq >= 0 && SessionAt(m, input.childKey).None? && fork.Done?
      && fork.table == m[SessionKey(input.childKey) :=
                           SessionV(Session(Some(Fork(input.parentKey, input.boundarySeq)), input.boundarySeq))]
      && After(m, rules, CreateOp(input)) == WithChild(m, fork.table, input)
    ensures ScopeAt(m, RootScope(input.rootTaskId)).Some?
    ensures CapFits(m, Ancestors(m, input.parentKey, input.rootTaskId), input.childCap)
  {
  }

  lemma ForkedRows(m: Table, s: string, v: Value)
    ensures SameBooks(m, m[SessionKey(s) := v]) && forall c :: TaskAt(m[SessionKey(s) := v], c) == TaskAt(m, c)
  {
  }

  lemma CreateCap(m: Table, input: CreateInput)
    requires Creates(m, input)
    ensures input.childCap.Some? ==> input.childCap.value >= 0
  {
    assert RootScope(input.rootTaskId) in Ancestors(m, input.parentKey, input.rootTaskId);
  }

  lemma NothingCreated(m: Table, rules: Rules, input: CreateInput)
    requires !Creates(m, input)
    ensures After(m, rules, CreateOp(input)) == m
  {
  }

  lemma CreateKeeps(m: Table, rules: Rules, input: CreateInput)
    requires WorldSound(m, rules)
    ensures WorldSound(After(m, rules, CreateOp(input)), rules)
    ensures HeldConserved(m) ==> HeldConserved(After(m, rules, CreateOp(input)))
  {
    if Creates(m, input) {
      var forked := CreateSteps(m, rules, input);
      var m' := WithChild(m, forked, input);
      CreateForkKeeps(m, rules, input.parentKey, input.boundarySeq, input.childKey);
      CreateRows(m, forked, input);
      CreateKeepsBooks(m, forked, input);
      SameLedgerRows(forked, m');
      SameSessionsKeep(forked, m', rules);
      CreateKeepsTasks(m, forked, input);
      CreateKeepsRoots(m, forked, input);
      CreateKeepsScopes(m, rules, input);
    } else {
      NothingCreated(m, rules, input);
    }
  }

  lemma CreateKeepsRoots(m: Table, forked: Table, input: CreateInput)
    requires RootsSound(m) && SameBooks(m, forked) && ScopeAt(m, RootScope(input.rootTaskId)).Some?
    requires ScopeAt(m, ChildScope(input.childKey)).None?
    ensures RootsSound(WithChild(m, forked, input))
  {
    var m' := WithChild(m, forked, input);
    CreateScopes(m, forked, input);
    forall id | ScopeAt(m', id).Some? ensures ScopeAt(m', RootScope(ScopeAt(m', id).value.rootTaskId)).Some? {
      if ScopeAt(m, id).Some? { assert ScopeAt(m, RootScope(ScopeAt(m, id).value.rootTaskId)).Some?; }
    }
  }

  /** The scopes above a new child are distinct, the root's and the inherited one among them. */
  lemma AncestorsListed(m: Table, parentKey: string, root: string)
    requires TaskScopesSound(m)
    ensures
      var ids := Ancestors(m, parentKey, root);
      && Distinct(ids) && RootScope(root) in ids
      && (TaskAt(m, parentKey).Some? ==> TaskAt(m, parentKey).value.budgetScopeId in ids)
  {
    if TaskAt(m, parentKey).Some? { assert ScopesListed(m, TaskAt(m, parentKey).value); }
  }

  lemma NewTaskListsScopes(m: Table, forked: Table, input: CreateInput)
    requires TaskScopesSound(m) && SameBooks(m, forked) && ScopeAt(m, ChildScope(input.childKey)).None?
    requires CapFits(m, Ancestors(m, input.parentKey, input.rootTaskId), input.childCap)
    ensures ScopesListed(WithChild(m, forked, input), NewTask(m, input))
  {
    var ids, t := Ancestors(m, input.parentKey, input.rootTaskId), NewTask(m, input);
    AncestorsListed(m, input.parentKey, input.rootTaskId);
    CreateScopes(m, forked, input);
    CreateRows(m, forked, input);
    forall id | id in t.ancestorScopeIds ensures ScopeAt(WithChild(m, forked, input), id).Some? {
      assert id in ids ==> ScopeAt(m, id).Some?;
    }
  }

  lemma CreateKeepsScopes(m: Table, rules: Rules, input: CreateInput)
    requires TasksSound(m) && TaskScopesSound(m) && Creates(m, input)
    ensures TaskScopesSound(After(m, rules, CreateOp(input)))
  {
    var forked := CreateSteps(m, rules, input);
    var m' := WithChild(m, forked, input);
    NewTaskListsScopes(m, forked, input);
    CreateScopes(m, forked, input);
    CreateRows(m, forked, input);
    forall c | TaskAt(m', c).Some? ensures ScopesListed(m', TaskAt(m', c).value) {
      if c != input.childKey { assert ScopesListed(m, TaskAt(m, c).value); }
    }
  }

  /** The one scope a creation may add belongs to the tree it names. */
  lemma CreateScopes(m: Table, forked: Table, input: CreateInput)
    requires SameBooks(m, forked) && ScopeAt(m, ChildScope(input.childKey)).None?
    ensures
      var m' := WithChild(m, forked, input);
      && (forall id :: ScopeAt(m, id).Some? ==> ScopeAt(m', id) == ScopeAt(m, id))
      && (forall id :: ScopeAt(m', id).Some? ==>
            ScopeAt(m', id) == ScopeAt(m, id) || ScopeAt(m', id).value.rootTaskId == input.rootTaskId)
  {
    CreateRows(m, forked, input);
  }

  lemma CreateKeepsTasks(m: Table, forked: Table, input: CreateInput)
    requires TasksSound(m) && Creates(m, input)
    requires CreateFork(m, input.parentKey, input.boundarySeq, input.childKey).Done?
    requires forked == CreateFork(m, input.parentKey, input.boundarySeq, input.childKey).table
    ensures TasksSound(WithChild(m, forked, input))
  {
    var m' := WithChild(m, forked, input);
    var c := input.childKey;
    CreateRows(m, forked, input);
    assert forall d :: TaskAt(forked, d) == TaskAt(m, d) && ScopeAt(forked, ChildScope(d)) == ScopeAt(m, ChildScope(d));
    CreatedSessions(m, forked, m', c);
    forall d | d != c && TaskAt(m', d).Some? ensures TaskAt(m', d).value.creationId != input.creationId {
      assert TaskAt(m, d) == TaskAt(m', d) && IsTask(m, ChildKey(d));
    }
  }

  lemma CreatedSessions(m: Table, forked: Table, m': Table, c: string)
    requires SameRows(forked, m', LedgerRow) && SessionAt(forked, c).Some?
    requires forall d :: SessionAt(m, d).Some? ==> SessionAt(forked, d).Some?
    ensures SessionAt(m', c).Some?
    ensures forall d :: SessionAt(m, d).Some? ==> SessionAt(m', d).Some?
  {
    SameLedgerRows(forked, m');
    forall d | SessionAt(forked, d).Some? ensures SessionAt(m', d).Some? { assert SameSession(forked, m', d); }
  }

  // ----- Runs -------------------------------------------------------------------------------

  lemma StepKeeps(m: Table, rules: Rules, op: Op)
    requires WorldSound(m, rules) && Permitted(m, op)
    ensures WorldSound(After(m, rules, op), rules)
  {
    if IsLedgerOp(op) { LedgerOpKeeps(m, rules, op); }
    else if IsBudgetOp(op) { BudgetOpKeeps(m, rules, op); }
    else if IsTaskOp(op) { TaskOpKeeps(m, rules, op); }
    else { CreateKeeps(m, rules, op.input); }
  }

  /** A discard that goes through keeps the invariants if and only if nothing refers to the session. */
  lemma DiscardKeepsWorldExactly(m: Table, rules: Rules, s: string, runId: string, claim: Option<Claim>, now: int)
    requires WorldSound(m, rules) && Discard(m, s, runId, claim, now).Done?
    ensures
      var op := DiscardOp(s, runId, claim, now);
      WorldSound(After(m, rules, op), rules) <==> Permitted(m, op)
  {
    var op := DiscardOp(s, runId, claim, now);
    if Permitted(m, op) {
      StepKeeps(m, rules, op);
    } else {
      DiscardKeepsExactly(m, rules, s, runId, claim, now);
      var m' := After(m, rules, op);
      assert SessionAt(m', s).None? && TaskAt(m', s) == TaskAt(m, s);
      assert ScopeAt(m', ChildScope(s)) == ScopeAt(m, ChildScope(s));
    }
  }

  lemma StepKeepsHeld(m: Table, rules: Rules, op: Op)
    requires WorldSound(m, rules) && HeldConserved(m) && Permitted(m, op)
    requires op.SettleOp? ==> !DoubleOverrun(m, op.settlement)
    ensures HeldConserved(After(m, rules, op))
  {
    var m' := After(m, rules, op);
    if IsBudgetOp(op) { BudgetOpKeepsBalance(m, rules, op); }
    else if op.CreateOp? { CreateKeeps(m, rules, op.input); }
    else {
      if IsLedgerOp(op) { LedgerOpRows(m, rules, op); } else { TaskOpRows(m, rules, op); }
      SameBudgetRows(m, m');
      SameBooksKeep(m, m');
    }
  }

  /** From an empty journal, every run keeps every invariant. */
  lemma {:induction false} RunKeeps(m: Table, rules: Rules, ops: seq<Op>)
    requires WorldSound(m, rules) && PermittedRun(m, rules, ops)
    ensures WorldSound(Run(m, rules, ops), rules)
    decreases |ops|
  {
    if ops != [] {
      StepKeeps(m, rules, ops[0]);
      RunKeeps(After(m, rules, ops[0]), rules, ops[1..]);
    }
  }

  lemma EmptyIsSound(rules: Rules)
    ensures WorldSound(map[], rules) && HeldConserved(map[])
  {
    forall s ensures SessionSound(map[], rules, s) {
      EmptySessionSound(map[], rules, s);
    }
    assert ForksRanked(map[], map[]);
  }

  ghost predicate NoDoubleOverrun(m: Table, rules: Rules, ops: seq<Op>)
    decreases |ops|
  {
    ops == [] || (&& (ops[0].SettleOp? ==> !DoubleOverrun(m, ops[0].settlement))
                  && NoDoubleOverrun(After(m, rules, ops[0]), rules, ops[1..]))
  }

  /** And held balances stay exact as long as no overrun permit is settled a second time. */
  lemma {:induction false} RunKeepsHeld(m: Table, rules: Rules, ops: seq<Op>)
    requires WorldSound(m, rules) && HeldConserved(m)
    requires PermittedRun(m, rules, ops) && NoDoubleOverrun(m, rules, ops)
    ensures HeldConserved(Run(m, rules, ops))
    decreases |ops|
  {
    if ops != [] {
      StepKeeps(m, rules, ops[0]);
      StepKeepsHeld(m, rules, ops[0]);
      RunKeepsHeld(After(m, rules, ops[0]), rules, ops[1..]);
    }
  }
}
