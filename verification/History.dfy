/** What can never be undone: records, revisions, final states, and what redelivery may do. */
module History {
  import opened Wrappers
  import opened Store
  import opened Journals
  import opened LedgerSteps
  import opened LedgerRuns
  import opened Budget
  import opened Conservation
  import opened BudgetRuns
  import opened Children
  import opened Runs
  import Sums

  // ----- How rows may change ----------------------------------------------------------------

  /** Final states stay; a cancelling task can only become cancelled or failed. */
  predicate StateLeads(s: TaskState, s': TaskState) {
    && (Terminal(s) ==> s' == s)
    && (s == Cancelling ==> s' in {Cancelling, Cancelled, Failed})
  }

  predicate TaskAdvances(t: Task, t': Task) {
    && SameCreation(t, t')
    && t'.creationRevision >= t.creationRevision && t'.stateRevision >= t.stateRevision
    && (t'.creationRevision == t.creationRevision ==>
          t'.creationPhase == t.creationPhase && t'.attemptId == t.attemptId)
    && (t'.stateRevision == t.stateRevision ==> t'.state == t.state)
    && (t.creationPhase in {Committed, CreationCancelled} ==> t'.creationPhase == t.creationPhase)
    && StateLeads(t.state, t'.state)
  }

  predicate PermitAdvances(p: Permit, p': Permit) {
    && p' == p.(writerGeneration := p'.writerGeneration, status := p'.status)
    && p'.writerGeneration >= p.writerGeneration
    && (p.status in {Settled, Released} ==> p'.status == p.status)
    && (p'.status == Held ==> p.status == Held)
  }

  /** No record disappears, and each moves forward only. */
  ghost predicate Advances(m: Table, m': Table) {
    && (forall c :: TaskAt(m, c).Some? ==>
          TaskAt(m', c).Some? && TaskAdvances(TaskAt(m, c).value, TaskAt(m', c).value))
    && (forall p :: PermitAt(m, p).Some? ==>
          PermitAt(m', p).Some? && PermitAdvances(PermitAt(m, p).value, PermitAt(m', p).value))
    && (forall s, n :: OriginAt(m, s, n).Some? ==> OriginAt(m', s, n) == OriginAt(m, s, n))
    && (forall r :: Generation(m', r) >= Generation(m, r))
  }

  lemma AdvancesTransitive(a: Table, b: Table, c: Table)
    requires Advances(a, b) && Advances(b, c)
    ensures Advances(a, c)
  {
    forall k | TaskAt(a, k).Some? ensures
      TaskAt(c, k).Some? && TaskAdvances(TaskAt(a, k).value, TaskAt(c, k).value)
    {
      assert TaskAt(b, k).Some?;
    }
    forall p | PermitAt(a, p).Some? ensures
      PermitAt(c, p).Some? && PermitAdvances(PermitAt(a, p).value, PermitAt(c, p).value)
    {
      assert PermitAt(b, p).Some?;
    }
    forall r ensures Generation(c, r) >= Generation(a, r) {
      assert Generation(b, r) >= Generation(a, r);
    }
  }

  lemma SameRowsAdvance(m: Table, m': Table)
    requires SameRows(m, m', TaskRow) && SameRows(m, m', BudgetRow)
    ensures Advances(m, m')
  {
    SameTaskRows(m, m');
    SameBudgetRows(m, m');
  }

  lemma TaskOpAdvances(m: Table, rules: Rules, op: Op)
    requires IsTaskOp(op)
    ensures Advances(m, After(m, rules, op))
  {
    var m' := After(m, rules, op);
    TaskOpRows(m, rules, op);
    SameBudgetRows(m, m');
    TaskOpShape(m, rules, op);
    forall c | TaskAt(m, c).Some? ensures
      TaskAt(m', c).Some? && TaskAdvances(TaskAt(m, c).value, TaskAt(m', c).value)
    {
      if c == TaskOf(op) { TaskOpAdvancesRow(m, rules, op); }
    }
  }

  lemma TaskOpAdvancesRow(m: Table, rules: Rules, op: Op)
    requires IsTaskOp(op) && TaskAt(m, TaskOf(op)).Some?
    ensures
      var t' := TaskAt(After(m, rules, op), TaskOf(op));
      t'.Some? && TaskAdvances(TaskAt(m, TaskOf(op)).value, t'.value)
  {
  }

  /** The books alone: permits move forward, costs stay, generations do not fall. */
  ghost predicate BooksAdvance(m: Table, m': Table) {
    && (forall p :: PermitAt(m, p).Some? ==>
          PermitAt(m', p).Some? && PermitAdvances(PermitAt(m, p).value, PermitAt(m', p).value))
    && (forall s, n :: OriginAt(m, s, n).Some? ==> OriginAt(m', s, n) == OriginAt(m, s, n))
    && (forall r :: Generation(m', r) >= Generation(m, r))
  }

  lemma ReserveAdvances(m: Table, request: ReserveInput)
    requires Sound(m)
    ensures BooksAdvance(m, TableOf(Reserve(m, request), m))
  {
    NewPermitRows(m, PermitCounter(m) + 1, request);
    FreshPermitUncosted(m, PermitCounter(m) + 1);
  }

  lemma SettleAdvances(m: Table, settlement: SettleInput)
    requires Sound(m)
    ensures BooksAdvance(m, TableOf(Settle(m, settlement), m))
  {
    if Records(m, settlement) { RecordedRows(m, PermitAt(m, settlement.permitId).value, settlement); }
  }

  lemma ReleaseAdvances(m: Table, p: int, expected: Option<int>)
    requires Sound(m)
    ensures BooksAdvance(m, TableOf(Release(m, p, expected), m))
  {
    if PermitAt(m, p).Some? { ReleaseShape(m, p, PermitAt(m, p).value); }
  }

  lemma GenerationsAdvance(m: Table, m': Table, root: string)
    requires Sound(m) && (OnlyGenerations(m, m', root) || m == m')
    ensures BooksAdvance(m, m')
  {
    forall p | PermitAt(m, p).Some? ensures
      PermitAt(m', p).Some? && PermitAdvances(PermitAt(m, p).value, PermitAt(m', p).value)
    {
      assert PermitSound(m, p, PermitAt(m, p).value);
    }
  }

  lemma TakeoverAdvances(m: Table, p: int, expected: int)
    requires Sound(m)
    ensures BooksAdvance(m, TableOf(Takeover(m, p, expected), m))
  {
    if Takeover(m, p, expected).Done? {
      TakeoverShape(m, p, expected);
      GenerationsAdvance(m, Takeover(m, p, expected).table, PermitAt(m, p).value.rootTaskId);
    }
  }

  lemma EnsureRootAdvances(m: Table, root: string, cap: int)
    ensures BooksAdvance(m, TableOf(EnsureRoot(m, root, cap), m))
  {
  }

  lemma BumpAdvances(m: Table, root: string)
    ensures BooksAdvance(m, TableOf(Bump(m, root), m))
  {
    var m' := TableOf(Bump(m, root), m);
    assert forall p :: PermitAt(m', p) == PermitAt(m, p);
    assert forall s, n :: OriginAt(m', s, n) == OriginAt(m, s, n);
  }

  lemma BudgetOpBooksAdvance(m: Table, rules: Rules, op: Op)
    requires Sound(m) && IsBudgetOp(op)
    ensures BooksAdvance(m, After(m, rules, op))
  {
    match op {
      case ReserveOp(request) => ReserveAdvances(m, request);
      case SettleOp(settlement) => SettleAdvances(m, settlement);
      case ReleaseOp(p, expected) => ReleaseAdvances(m, p, expected);
      case TakeoverOp(p, expected) => TakeoverAdvances(m, p, expected);
      case EnsureRootOp(root, cap) => EnsureRootAdvances(m, root, cap);
      case BumpOp(root) => BumpAdvances(m, root);
    }
  }

  lemma BudgetOpAdvances(m: Table, rules: Rules, op: Op)
    requires Sound(m) && IsBudgetOp(op)
    ensures Advances(m, After(m, rules, op))
  {
    var m' := After(m, rules, op);
    BudgetOpRows(m, rules, op);
    SameTaskRows(m, m');
    BudgetOpBooksAdvance(m, rules, op);
  }

  lemma WithChildAdvances(m: Table, forked: Table, input: CreateInput)
    requires SameBooks(m, forked) && TaskAt(m, input.childKey).None?
    requires forall c :: TaskAt(forked, c) == TaskAt(m, c)
    ensures Advances(m, WithChild(m, forked, input))
  {
    WithChildBooks(m, forked, input);
    WithChildTasks(m, forked, input);
  }

  lemma WithChildBooks(m: Table, forked: Table, input: CreateInput)
    requires SameBooks(m, forked)
    ensures BooksAdvance(m, WithChild(m, forked, input))
  {
    CreateRows(m, forked, input);
  }

  lemma WithChildTasks(m: Table, forked: Table, input: CreateInput)
    requires TaskAt(m, input.childKey).None? && forall c :: TaskAt(forked, c) == TaskAt(m, c)
    ensures forall c :: TaskAt(m, c).Some? ==> TaskAt(WithChild(m, forked, input), c) == TaskAt(m, c)
  {
    CreateRows(m, forked, input);
  }

  lemma CreateAdvances(m: Table, rules: Rules, input: CreateInput)
    requires TasksSound(m)
    ensures Advances(m, After(m, rules, CreateOp(input)))
  {
    if Creates(m, input) {
      var forked := CreateSteps(m, rules, input);
      WithChildAdvances(m, forked, input);
    } else {
      NothingCreated(m, rules, input);
    }
  }

  lemma StepAdvances(m: Table, rules: Rules, op: Op)
    requires WorldSound(m, rules)
    ensures Advances(m, After(m, rules, op))
  {
    if IsLedgerOp(op) {
      LedgerOpRows(m, rules, op);
      SameRowsAdvance(m, After(m, rules, op));
    } else if IsBudgetOp(op) {
      BudgetOpAdvances(m, rules, op);
    } else if IsTaskOp(op) {
      TaskOpAdvances(m, rules, op);
    } else {
      CreateAdvances(m, rules, op.input);
    }
  }

  /**
   * Over whole runs: committed and cancelled creations, settled and released permits, and final task
   * states are absorbing; revisions and generations never decrease; no recorded cost changes.
   */
  lemma {:induction false} RunAdvances(m: Table, rules: Rules, ops: seq<Op>)
    requires WorldSound(m, rules) && PermittedRun(m, rules, ops)
    ensures Advances(m, Run(m, rules, ops))
    decreases |ops|
  {
    if ops != [] {
      var next := After(m, rules, ops[0]);
      StepAdvances(m, rules, ops[0]);
      StepKeeps(m, rules, ops[0]);
      RunAdvances(next, rules, ops[1..]);
      AdvancesTransitive(m, next, Run(next, rules, ops[1..]));
    }
  }

  // ----- Effect at most once ----------------------------------------------------------------

  predicate Redeliverable(op: Op) {
    IsTaskOp(op) || op.CreateOp? || op.ReserveOp? || op.SettleOp? || op.ReleaseOp?
  }

  /** The caller is told that what it asked for is so. */
  ghost predicate Accepted(m: Table, op: Op) {
    match op
    case CreateOp(input) =>
      CreateChild(m, input).Done? && (CreateChild(m, input).value.Created? || CreateChild(m, input).value.Existing?)
    case BeginOp(cas, nextAttemptId, at) =>
      BeginAttempt(m, cas, nextAttemptId, at).Done? && BeginAttempt(m, cas, nextAttemptId, at).value.Some?
    case DeferOp(cas, at) => DeferAttempt(m, cas, at).Done?
    case CommitAttemptOp(cas) => CommitAttempt(m, cas).Done? && CommitAttempt(m, cas).value
    case CancelOp(cas, openFailed, at) => CancelAttempt(m, cas, openFailed, at).Done?
    case CasOp(child, revision, next) =>
      CasState(m, child, revision, next).Done? && CasState(m, child, revision, next).value
    case ReserveOp(request) => Reserve(m, request).Done? && Reserve(m, request).value.Reserved?
    case SettleOp(settlement) => Settle(m, settlement).Done?
    case ReleaseOp(p, expected) => Release(m, p, expected).Done?
    case _ => false
  }

  /** A release of a permit, or a repeated deferral at a revision, that does not exist yet. */
  predicate Anticipates(m: Table, op: Op) {
    match op
    case ReleaseOp(p, _) => PermitAt(m, p).None?
    case DeferOp(cas, _) =>
      TaskAt(m, cas.childKey).Some? && cas.expectedRevision > TaskAt(m, cas.childKey).value.creationRevision
    case _ => false
  }

  /**
   * A call that took effect changes nothing when it is delivered again, whatever ran in between; nor does
   * one that was accepted because what it asked for was so already.
   */
  lemma EffectAtMostOnce(m: Table, rules: Rules, op: Op, ops: seq<Op>)
    requires WorldSound(m, rules) && Redeliverable(op)
    requires After(m, rules, op) != m || (Accepted(m, op) && !Anticipates(m, op))
    requires PermittedRun(After(m, rules, op), rules, ops)
    ensures
      var later := Run(After(m, rules, op), rules, ops);
      After(later, rules, op) == later
  {
    var m1 := After(m, rules, op);
    StepKeeps(m, rules, op);
    RunAdvances(m1, rules, ops);
    var later := Run(m1, rules, ops);
    if m1 == m { AcceptedStays(m, rules, op, later); } else { EffectStays(m, rules, op, later); }
  }

  lemma EffectStays(m: Table, rules: Rules, op: Op, later: Table)
    requires TasksSound(m) && Redeliverable(op) && After(m, rules, op) != m && Advances(After(m, rules, op), later)
    ensures After(later, rules, op) == later
  {
    match op {
      case CreateOp(input) => CreateEffectAtMostOnce(m, rules, input, later);
      case ReserveOp(request) => ReserveEffectAtMostOnce(m, request, later);
      case SettleOp(settlement) => SettleEffectAtMostOnce(m, settlement, later);
      case ReleaseOp(p, expected) => ReleaseEffectAtMostOnce(m, p, expected, later);
      case _ => TaskEffectAtMostOnce(m, rules, op, later);
    }
  }

  lemma AcceptedStays(m: Table, rules: Rules, op: Op, later: Table)
    requires Accepted(m, op) && !Anticipates(m, op) && After(m, rules, op) == m && Advances(m, later)
    ensures After(later, rules, op) == later
  {
    match op {
      case CreateOp(input) => ExistingStays(m, rules, input, later);
      case ReserveOp(request) => ReservedStays(m, request, later);
      case SettleOp(settlement) => SettledStays(m, settlement, later);
      case ReleaseOp(p, expected) =>
      case _ => TaskAcceptedStays(m, rules, op, later);
    }
  }

  /** A creation that has a task is never repeated. */
  lemma CreationRemembered(m: Table, rules: Rules, input: CreateInput, c: string)
    requires TaskAt(m, c).Some? && TaskAt(m, c).value.creationId == input.creationId
    ensures After(m, rules, CreateOp(input)) == m
  {
    assert IsTask(m, ChildKey(c)) && m[ChildKey(c)].task.creationId == input.creationId;
  }

  lemma CreateEffectAtMostOnce(m: Table, rules: Rules, input: CreateInput, later: Table)
    requires TasksSound(m) && After(m, rules, CreateOp(input)) != m
    requires Advances(After(m, rules, CreateOp(input)), later)
    ensures After(later, rules, CreateOp(input)) == later
  {
    if Creates(m, input) {
      var forked := CreateSteps(m, rules, input);
      CreateRows(m, forked, input);
      assert TaskAt(WithChild(m, forked, input), input.childKey).Some?;
      CreationRemembered(later, rules, input, input.childKey);
    } else {
      NothingCreated(m, rules, input);
    }
  }

  lemma ExistingStays(m: Table, rules: Rules, input: CreateInput, later: Table)
    requires Accepted(m, CreateOp(input)) && After(m, rules, CreateOp(input)) == m && Advances(m, later)
    ensures After(later, rules, CreateOp(input)) == later
  {
    CreatedIsNew(m, rules, input);
    var found := FindCreation(m, input.creationId);
    var k :| IsTask(m, k) && m[k].task == found.value;
    assert TaskAt(m, k.child) == Some(found.value);
    CreationRemembered(later, rules, input, k.child);
  }

  lemma CreatedIsNew(m: Table, rules: Rules, input: CreateInput)
    ensures Creates(m, input) ==> After(m, rules, CreateOp(input)) != m
  {
    if Creates(m, input) {
      assert forall k :: IsTask(m, k) ==> m[k].task.creationId != input.creationId;
      assert IsTask(After(m, rules, CreateOp(input)), ChildKey(input.childKey));
    }
  }

  lemma ReservedStays(m: Table, request: ReserveInput, later: Table)
    requires Accepted(m, ReserveOp(request)) && TableOf(Reserve(m, request), m) == m && Advances(m, later)
    ensures TableOf(Reserve(later, request), later) == later
  {
    var p := FindPermit(m, request.rootTaskId, request.effectId);
    ReservedIsNew(m, request);
    assert IsPermitFor(later, p.value, request.rootTaskId, request.effectId);
  }

  lemma ReservedIsNew(m: Table, request: ReserveInput)
    ensures FindPermit(m, request.rootTaskId, request.effectId).None? && Accepted(m, ReserveOp(request)) ==>
              TableOf(Reserve(m, request), m) != m
  {
    var m', n := NewPermit(m, PermitCounter(m) + 1, request), PermitCounter(m) + 1;
    NewPermitRows(m, n, request);
    assert IsPermitFor(m', n, request.rootTaskId, request.effectId);
    assert FindPermit(m, request.rootTaskId, request.effectId).None? ==>
             !IsPermitFor(m, n, request.rootTaskId, request.effectId);
  }

  lemma SettledStays(m: Table, settlement: SettleInput, later: Table)
    requires Settle(m, settlement).Done? && Settle(m, settlement).table == m && Advances(m, later)
    ensures TableOf(Settle(later, settlement), later) == later
  {
    if Records(m, settlement) {
      RecordedRows(m, PermitAt(m, settlement.permitId).value, settlement);
    }
    assert OriginAt(m, settlement.originSession, settlement.originCostSeq).Some?;
  }

  lemma TaskAcceptedStays(m: Table, rules: Rules, op: Op, later: Table)
    requires IsTaskOp(op) && Accepted(m, op) && !Anticipates(m, op) && After(m, rules, op) == m && Advances(m, later)
    ensures After(later, rules, op) == later
  {
    var c := TaskOf(op);
    assert TaskAt(m, c).Some? && TaskAt(later, c).Some?;
    assert TaskAdvances(TaskAt(m, c).value, TaskAt(later, c).value);
    assert After(m, rules, op) == m ==> TaskAt(After(m, rules, op), c) == TaskAt(m, c);
  }

  lemma ReserveEffectAtMostOnce(m: Table, request: ReserveInput, later: Table)
    requires TableOf(Reserve(m, request), m) != m && Advances(TableOf(Reserve(m, request), m), later)
    ensures TableOf(Reserve(later, request), later) == later
  {
    var n := PermitCounter(m) + 1;
    var m1 := NewPermit(m, n, request);
    NewPermitRows(m, n, request);
    assert PermitAt(m1, n).Some?;
    assert IsPermitFor(later, n, request.rootTaskId, request.effectId);
  }

  lemma SettleEffectAtMostOnce(m: Table, settlement: SettleInput, later: Table)
    requires TableOf(Settle(m, settlement), m) != m && Advances(TableOf(Settle(m, settlement), m), later)
    ensures TableOf(Settle(later, settlement), later) == later
  {
    var m1 := Settle(m, settlement).table;
    RecordedRows(m, PermitAt(m, settlement.permitId).value, settlement);
    assert OriginAt(m1, settlement.originSession, settlement.originCostSeq).Some?;
  }

  lemma ReleaseEffectAtMostOnce(m: Table, p: int, expected: Option<int>, later: Table)
    requires TableOf(Release(m, p, expected), m) != m && Advances(TableOf(Release(m, p, expected), m), later)
    ensures TableOf(Release(later, p, expected), later) == later
  {
    var m1 := Release(m, p, expected).table;
    ReleaseShape(m, p, PermitAt(m, p).value);
    assert PermitAt(m1, p).Some?;
  }

  lemma TaskEffectAtMostOnce(m: Table, rules: Rules, op: Op, later: Table)
    requires IsTaskOp(op) && After(m, rules, op) != m && Advances(After(m, rules, op), later)
    ensures After(later, rules, op) == later
  {
    var m1 := After(m, rules, op);
    TaskOpShape(m, rules, op);
    var c := TaskOf(op);
    assert TaskAt(m1, c).Some?;
    var t1, t2 := TaskAt(m1, c).value, TaskAt(later, c).value;
    assert TaskAdvances(t1, t2);
  }

  // ----- Generations ------------------------------------------------------------------------

  /** The call carries a generation of its root that has passed. */
  predicate Stale(m: Table, op: Op) {
    match op
    case ReserveOp(request) => request.writerGeneration < Generation(m, request.rootTaskId)
    case SettleOp(settlement) =>
      && settlement.writerGeneration.Some? && PermitAt(m, settlement.permitId).Some?
      && settlement.writerGeneration.value < Generation(m, PermitAt(m, settlement.permitId).value.rootTaskId)
    case ReleaseOp(p, expected) =>
      && expected.Some? && PermitAt(m, p).Some?
      && expected.value < Generation(m, PermitAt(m, p).value.rootTaskId)
    case TakeoverOp(p, expected) =>
      PermitAt(m, p).Some? && expected < Generation(m, PermitAt(m, p).value.rootTaskId)
    case _ => false
  }

  /** A call that carries an old generation changes nothing at all. */
  lemma StaleCallsChangeNothing(m: Table, rules: Rules, op: Op)
    requires Stale(m, op) || (op.TakeoverOp? && PermitAt(m, op.permitId).None?)
    ensures After(m, rules, op) == m
  {
  }

  /** What is stale once changes nothing ever after, whatever runs. */
  lemma StaleForever(m: Table, rules: Rules, op: Op, ops: seq<Op>)
    requires WorldSound(m, rules) && PermittedRun(m, rules, ops) && Stale(m, op)
    ensures
      var later := Run(m, rules, ops);
      Stale(later, op) && After(later, rules, op) == later
  {
    RunAdvances(m, rules, ops);
    var later := Run(m, rules, ops);
    StaysStale(m, later, op);
    StaleCallsChangeNothing(later, rules, op);
  }

  lemma StaysStale(m: Table, later: Table, op: Op)
    requires Stale(m, op) && Advances(m, later)
    ensures Stale(later, op)
  {
    if op.ReserveOp? {
      assert Generation(later, op.request.rootTaskId) >= Generation(m, op.request.rootTaskId);
    } else {
      var p := if op.SettleOp? then op.settlement.permitId else op.permitId;
      var root := PermitAt(m, p).value.rootTaskId;
      assert PermitAdvances(PermitAt(m, p).value, PermitAt(later, p).value);
      assert Generation(later, root) >= Generation(m, root);
    }
  }

  /** The call is for this root and carries this generation or an older one. */
  predicate CarriesUpTo(m: Table, op: Op, root: string, generation: int) {
    match op
    case ReserveOp(request) => request.rootTaskId == root && request.writerGeneration <= generation
    case SettleOp(settlement) =>
      && PermitAt(m, settlement.permitId).Some? && PermitAt(m, settlement.permitId).value.rootTaskId == root
      && settlement.writerGeneration.Some? && settlement.writerGeneration.value <= generation
    case ReleaseOp(j, named) =>
      PermitAt(m, j).Some? && PermitAt(m, j).value.rootTaskId == root && named.Some? && named.value <= generation
    case TakeoverOp(j, named) =>
      PermitAt(m, j).Some? && PermitAt(m, j).value.rootTaskId == root && named <= generation
    case _ => false
  }

  lemma TakeoverMakesStale(m: Table, p: int, expected: int, op: Op)
    requires Sound(m) && Takeover(m, p, expected).Done?
    requires CarriesUpTo(m, op, PermitAt(m, p).value.rootTaskId, expected)
    ensures Stale(Takeover(m, p, expected).table, op)
  {
    TakeoverMovesAllHeld(m, p, expected);
    if !op.ReserveOp? {
      var j := if op.SettleOp? then op.settlement.permitId else op.permitId;
      assert PermitAt(Takeover(m, p, expected).table, j).Some?;
    }
  }

  lemma TakeoverStep(m: Table, rules: Rules, p: int, expected: int)
    requires Takeover(m, p, expected).Done?
    ensures After(m, rules, TakeoverOp(p, expected)) == Takeover(m, p, expected).table
  {
  }

  /**
   * Fencing. Once a takeover went through, no reservation, settlement, release or takeover for that root
   * that names the generation it ended, or an older one, ever changes anything again.
   */
  lemma TakeoverFences(m: Table, rules: Rules, p: int, expected: int, ops: seq<Op>, op: Op)
    requires WorldSound(m, rules) && Takeover(m, p, expected).Done?
    requires PermittedRun(After(m, rules, TakeoverOp(p, expected)), rules, ops)
    requires CarriesUpTo(m, op, PermitAt(m, p).value.rootTaskId, expected)
    ensures
      var later := Run(After(m, rules, TakeoverOp(p, expected)), rules, ops);
      After(later, rules, op) == later
  {
    StepKeeps(m, rules, TakeoverOp(p, expected));
    TakeoverMakesStale(m, p, expected, op);
    TakeoverStep(m, rules, p, expected);
    StaleForever(After(m, rules, TakeoverOp(p, expected)), rules, op, ops);
  }

  /** A takeover advances the root and every held reservation of it together, and no other. */
  lemma TakeoverMovesAllHeld(m: Table, p: int, expected: int)
    requires Sound(m) && Takeover(m, p, expected).Done?
    ensures
      var root := PermitAt(m, p).value.rootTaskId;
      var m' := Takeover(m, p, expected).table;
      && Generation(m', root) == expected + 1
      && forall j | PermitAt(m, j).Some? ::
           && PermitAt(m', j).Some?
           && (PermitAt(m, j).value.rootTaskId == root && PermitAt(m, j).value.status == Held ==>
                 PermitAt(m, j).value.writerGeneration == expected
                 && PermitAt(m', j) == Some(PermitAt(m, j).value.(writerGeneration := expected + 1)))
           && (PermitAt(m, j).value.rootTaskId != root || PermitAt(m, j).value.status != Held ==>
                 PermitAt(m', j) == PermitAt(m, j))
  {
    forall j | PermitAt(m, j).Some? ensures PermitKey(j) in m {}
  }

  // ----- The tree's root --------------------------------------------------------------------

  /** A root scope's settled amount dominates that of every scope in its tree. */
  lemma RootDominates(m: Table, id: ScopeId)
    requires Balanced(m) && RootsSound(m) && ScopeAt(m, id).Some?
    ensures
      var root := ScopeAt(m, RootScope(ScopeAt(m, id).value.rootTaskId));
      root.Some? && root.value.settled >= ScopeAt(m, id).value.settled
  {
    var root := RootScope(ScopeAt(m, id).value.rootTaskId);
    forall k ensures CostOf(m, id, k) <= CostOf(m, root, k) {
      KnownCostAt(m, k);
      if KnownCost(m, k) {
        var o := OriginAt(m, k.session, k.costSeq).value;
        assert OriginSound(m, o);
        assert PermitSound(m, o.binding.permitId, PermitAt(m, o.binding.permitId).value);
      }
    }
    Sums.SumMonotone(m.Keys, k => CostOf(m, id, k), k => CostOf(m, root, k));
  }
}
