/**
 * What a caller is told is so. For each operation: the answer as a statement about the rows before and
 * after, and when it is given.
 */
module Answers {
  import opened Wrappers
  import opened Store
  import opened Journals
  import opened LedgerSteps
  import opened Budget
  import opened Children

  /** No row moved but those of these keys. */
  ghost predicate OnlyMoved(m: Table, m': Table, keys: set<Key>) {
    forall k | k !in keys :: (k in m <==> k in m') && (k in m ==> m'[k] == m[k])
  }

  // ----- Reservations -----------------------------------------------------------------------

  predicate NoRepeats<T(==)>(s: seq<T>) {
    forall i, j | 0 <= i < j < |s| :: s[i] != s[j]
  }

  /** The request is of this root's current generation and lists distinct scopes, the root's among them. */
  ghost predicate WellBound(m: Table, input: ReserveInput) {
    && input.q >= 0 && input.writerGeneration == Generation(m, input.rootTaskId)
    && NoRepeats(input.scopeIds) && RootScope(input.rootTaskId) in input.scopeIds
  }

  ghost predicate OfRoot(m: Table, id: ScopeId, root: string) {
    ScopeAt(m, id).Some? && ScopeAt(m, id).value.rootTaskId == root
  }

  /** The amount still fits under the scope's cap. */
  ghost predicate HasRoom(m: Table, id: ScopeId, q: int) {
    ScopeAt(m, id).Some?
    && ScopeAt(m, id).value.settled + ScopeAt(m, id).value.held + q <= ScopeAt(m, id).value.cap
  }

  /** The permit binds just what is asked for. */
  predicate Binds(row: Permit, input: ReserveInput) {
    && row.rootTaskId == input.rootTaskId && row.effectId == input.effectId && row.scopeIds == input.scopeIds
    && row.q == input.q && row.requestHash == input.requestHash && row.writerGeneration == input.writerGeneration
  }

  /**
   * A granted permit is in the table, with the status that is told and bound to what was asked for; it is
   * told to exist already just where it did. Over the cap: some listed scope has no room. Invalid: the
   * request is not well bound, or the effect has a permit bound otherwise, or a scope is not the root's.
   */
  ghost predicate ReserveTold(m: Table, m': Table, input: ReserveInput, told: ReserveResult) {
    match told
    case Reserved(p, status, existing) =>
      && PermitAt(m', p).Some? && Binds(PermitAt(m', p).value, input) && PermitAt(m', p).value.status == status
      && (existing <==> IsPermitFor(m, p, input.rootTaskId, input.effectId))
      && (existing ==> m' == m)
      && (!existing ==> status == Held && forall id | id in input.scopeIds :: HasRoom(m, id, input.q))
    case CapExceeded =>
      m' == m && exists id :: id in input.scopeIds && OfRoot(m, id, input.rootTaskId) && !HasRoom(m, id, input.q)
    case InvalidBinding =>
      && m' == m
      && (|| !WellBound(m, input)
          || (exists p :: IsPermitFor(m, p, input.rootTaskId, input.effectId) && !Binds(PermitAt(m, p).value, input))
          || (exists id :: id in input.scopeIds && !OfRoot(m, id, input.rootTaskId)))
  }

  lemma ReserveIsTrue(m: Table, input: ReserveInput)
    ensures Reserve(m, input).Done? ==> ReserveTold(m, Reserve(m, input).table, input, Reserve(m, input).value)
  {
    if ValidBinding(m, input) && Writable(m) {
      var prior := FindPermit(m, input.rootTaskId, input.effectId);
      if prior.None? {
        assert !IsPermitFor(m, PermitCounter(m) + 1, input.rootTaskId, input.effectId);
      }
    }
  }

  /** A new permit is granted exactly to a well-bound request for an effect without one, with room in every scope. */
  lemma ReserveGrantsExactly(m: Table, input: ReserveInput)
    requires Writable(m) && forall p :: !IsPermitFor(m, p, input.rootTaskId, input.effectId)
    ensures Reserve(m, input).Done?
    ensures Reserve(m, input).value.Reserved? <==>
            && WellBound(m, input)
            && forall id | id in input.scopeIds :: OfRoot(m, id, input.rootTaskId) && HasRoom(m, id, input.q)
  {
  }

  /** The rows a new permit leaves: its own, the counter's, and the held amount of each listed scope. */
  lemma GrantMovesRows(m: Table, input: ReserveInput)
    requires Reserve(m, input).Done? && Reserve(m, input).value.Reserved? && !Reserve(m, input).value.existing
    ensures
      var Done(m', Reserved(p, _, _)) := Reserve(m, input);
      && p == PermitCounter(m) + 1 == PermitCounter(m')
      && OnlyMoved(m, m', {PermitCounterKey, PermitKey(p)} + set id | id in input.scopeIds :: ScopeKey(id))
      && forall id | id in input.scopeIds ::
           && ScopeAt(m, id).Some?
           && ScopeAt(m', id) == Some(ScopeAt(m, id).value.(held := ScopeAt(m, id).value.held + input.q))
  {
    GrantIsNewPermit(m, input);
    NewPermitMovesRows(m, PermitCounter(m) + 1, input);
  }

  lemma GrantIsNewPermit(m: Table, input: ReserveInput)
    requires Reserve(m, input).Done? && Reserve(m, input).value.Reserved? && !Reserve(m, input).value.existing
    ensures
      var Done(m', Reserved(p, _, _)) := Reserve(m, input);
      p == PermitCounter(m) + 1 && m' == NewPermit(m, p, input)
    ensures forall id | id in input.scopeIds :: ScopeAt(m, id).Some?
  {
  }

  lemma NewPermitMovesRows(m: Table, n: int, input: ReserveInput)
    ensures
      var m' := NewPermit(m, n, input);
      && PermitCounter(m') == n
      && OnlyMoved(m, m', {PermitCounterKey, PermitKey(n)} + set id | id in input.scopeIds :: ScopeKey(id))
      && forall id | id in input.scopeIds && ScopeAt(m, id).Some? ::
           ScopeAt(m', id) == Some(ScopeAt(m, id).value.(held := ScopeAt(m, id).value.held + input.q))
  {
    ChargeMovesScopes(m, input.scopeIds, input.q, 0);
  }

  // ----- Settling and releasing -------------------------------------------------------------

  /**
   * The cost is on record, bound to the permit as it was. If it was not before, the permit is consumed: it
   * is settled by a known cost within the reserved amount, and its outcome unknown otherwise, which is told
   * where the cost overruns; a known cost has moved from held to settled in every listed scope.
   */
  ghost predicate SettleTold(m: Table, m': Table, input: SettleInput, overrun: bool) {
    && PermitAt(m, input.permitId).Some? && PermitAt(m', input.permitId).Some?
    && var row, row' := PermitAt(m, input.permitId).value, PermitAt(m', input.permitId).value;
       var origin := OriginAt(m, input.originSession, input.originCostSeq);
       && OriginAt(m', input.originSession, input.originCostSeq) ==
            Some(Origin(input.actual, Binding(input.permitId, row.effectId, row.requestHash, row.writerGeneration,
                                              row.scopeIds)))
       && (input.actual.Some? ==> input.actual.value >= 0)
       && (origin.Some? ==> m' == m && !overrun)
       && (origin.None? ==>
             && row.status in {Held, Unknown}
             && (overrun <==> input.actual.Some? && input.actual.value > row.q)
             && row' == row.(status := row'.status)
             && row'.status == (if input.actual.Some? && input.actual.value <= row.q then Settled else Unknown)
             && OnlyMoved(m, m',
                  {PermitKey(input.permitId), OriginKey(input.originSession, input.originCostSeq)}
                  + if input.actual.Some? then set id | id in row.scopeIds :: ScopeKey(id) else {})
             && (input.actual.Some? ==> forall id | id in row.scopeIds :: Paid(m, m', id, row.q, input.actual.value)))
  }

  /** The scope's held balance covered the reserved amount, which has gone; and the cost has been added. */
  ghost predicate Paid(m: Table, m': Table, id: ScopeId, q: int, actual: int) {
    && ScopeAt(m, id).Some? && ScopeAt(m, id).value.held >= q
    && ScopeAt(m', id) == Some(ScopeAt(m, id).value.(held := ScopeAt(m, id).value.held - q,
                                                     settled := ScopeAt(m, id).value.settled + actual))
  }

  lemma SettleIsTrue(m: Table, input: SettleInput)
    ensures Settle(m, input).Done? ==> SettleTold(m, Settle(m, input).table, input, Settle(m, input).value)
  {
    if Settle(m, input).Done? && OriginAt(m, input.originSession, input.originCostSeq).None? {
      RecordedIsTrue(m, PermitAt(m, input.permitId).value, input);
    }
  }

  lemma RecordedIsTrue(m: Table, row: Permit, input: SettleInput)
    requires PermitAt(m, input.permitId) == Some(row) && row.status in {Held, Unknown}
    requires OriginAt(m, input.originSession, input.originCostSeq).None?
    requires input.actual.Some? ==> input.actual.value >= 0 && Affordable(m, row.scopeIds, row.q)
    ensures SettleTold(m, Recorded(m, row, input), input, input.actual.Some? && input.actual.value > row.q)
  {
    RecordedRowsAreTrue(m, row, input);
    if input.actual.Some? { RecordedScopesArePaid(m, row, input); }
    RecordedMoves(m, row, input);
  }

  lemma RecordedRowsAreTrue(m: Table, row: Permit, input: SettleInput)
    ensures
      var m' := Recorded(m, row, input);
      && OriginAt(m', input.originSession, input.originCostSeq) ==
           Some(Origin(input.actual, Binding(input.permitId, row.effectId, row.requestHash, row.writerGeneration,
                                             row.scopeIds)))
      && PermitAt(m', input.permitId) ==
           Some(row.(status := if input.actual.Some? && input.actual.value <= row.q then Settled else Unknown))
  {
  }

  lemma RecordedScopesArePaid(m: Table, row: Permit, input: SettleInput)
    requires input.actual.Some? && Affordable(m, row.scopeIds, row.q)
    ensures forall id | id in row.scopeIds :: Paid(m, Recorded(m, row, input), id, row.q, input.actual.value)
  {
    ChargeMovesScopes(m, row.scopeIds, -row.q, input.actual.value);
  }

  lemma RecordedMoves(m: Table, row: Permit, input: SettleInput)
    ensures OnlyMoved(m, Recorded(m, row, input),
                      {PermitKey(input.permitId), OriginKey(input.originSession, input.originCostSeq)}
                      + if input.actual.Some? then set id | id in row.scopeIds :: ScopeKey(id) else {})
  {
    if input.actual.Some? { ChargeMovesScopes(m, row.scopeIds, -row.q, input.actual.value); }
  }

  /** A generation, if the call carries one, is both the permit's and the root's. */
  ghost predicate Current(m: Table, row: Permit, generation: Option<int>) {
    generation.Some? ==> generation.value == row.writerGeneration == Generation(m, row.rootTaskId)
  }

  lemma SettleAcceptsExactly(m: Table, input: SettleInput)
    requires Writable(m)
    ensures Settle(m, input).Done? <==>
            && PermitAt(m, input.permitId).Some?
            && var row := PermitAt(m, input.permitId).value;
               && Current(m, row, input.writerGeneration)
               && (input.actual.Some? ==> input.actual.value >= 0)
               && match OriginAt(m, input.originSession, input.originCostSeq)
                  case Some(origin) =>
                    origin == Origin(input.actual, Binding(input.permitId, row.effectId, row.requestHash,
                                                           row.writerGeneration, row.scopeIds))
                  case None =>
                    && row.status in {Held, Unknown}
                    && (input.actual.Some? ==>
                          forall id | id in row.scopeIds :: ScopeAt(m, id).Some? && ScopeAt(m, id).value.held >= row.q)
    ensures Settle(m, input).Refused? ==> Settle(m, input) == Refused(EBudget)
  {
  }

  /** Afterwards the permit, if it exists, is not held; if it was, its amount has left every listed scope. */
  ghost predicate ReleaseTold(m: Table, m': Table, p: int) {
    if PermitAt(m, p).None? || PermitAt(m, p).value.status != Held then m' == m
    else
      var row := PermitAt(m, p).value;
      && PermitAt(m', p) == Some(row.(status := Released))
      && OnlyMoved(m, m', {PermitKey(p)} + set id | id in row.scopeIds :: ScopeKey(id))
      && forall id | id in row.scopeIds ::
           && ScopeAt(m, id).Some? && ScopeAt(m, id).value.held >= row.q
           && ScopeAt(m', id) == Some(ScopeAt(m, id).value.(held := ScopeAt(m, id).value.held - row.q))
  }

  lemma ReleaseIsTrue(m: Table, p: int, generation: Option<int>)
    ensures Release(m, p, generation).Done? ==> ReleaseTold(m, Release(m, p, generation).table, p)
  {
    if PermitAt(m, p).Some? { ReleasedRows(m, p, PermitAt(m, p).value); }
  }

  lemma ReleasedRows(m: Table, p: int, row: Permit)
    requires PermitAt(m, p) == Some(row)
    ensures
      var m' := ReleasedTable(m, p, row);
      && PermitAt(m', p) == Some(row.(status := Released))
      && OnlyMoved(m, m', {PermitKey(p)} + set id | id in row.scopeIds :: ScopeKey(id))
      && forall id | id in row.scopeIds && ScopeAt(m, id).Some? ::
           ScopeAt(m', id) == Some(ScopeAt(m, id).value.(held := ScopeAt(m, id).value.held - row.q))
  {
    ChargeMovesScopes(m, row.scopeIds, -row.q, 0);
  }

  lemma ChargeMovesScopes(m: Table, ids: seq<ScopeId>, held: int, settled: int)
    ensures
      var m' := Charge(m, ids, held, settled);
      && OnlyMoved(m, m', set id | id in ids :: ScopeKey(id))
      && forall id | id in ids && ScopeAt(m, id).Some? ::
           ScopeAt(m', id) == Some(ScopeAt(m, id).value.(held := ScopeAt(m, id).value.held + held,
                                                         settled := ScopeAt(m, id).value.settled + settled))
  {
  }

  lemma ReleaseAcceptsExactly(m: Table, p: int, generation: Option<int>)
    requires Writable(m)
    ensures Release(m, p, generation).Done? <==>
            (PermitAt(m, p).Some? ==>
               var row := PermitAt(m, p).value;
               && Current(m, row, generation)
               && (row.status == Held ==>
                     forall id | id in row.scopeIds :: ScopeAt(m, id).Some? && ScopeAt(m, id).value.held >= row.q))
    ensures Release(m, p, generation).Refused? ==> Release(m, p, generation) == Refused(EBudget)
  {
  }

  // ----- Generations and roots --------------------------------------------------------------

  /** The permit is told as it now stands: held, under the next generation, which is the root's as well. */
  ghost predicate TakeoverTold(m: Table, m': Table, p: int, expected: int, told: Permit) {
    && PermitAt(m', p) == Some(told) && told.status == Held && told.writerGeneration == expected + 1
    && PermitAt(m, p) == Some(told.(writerGeneration := expected))
    && Generation(m, told.rootTaskId) == expected && Generation(m', told.rootTaskId) == expected + 1
    && forall k | k !in m || !(k.PermitKey? && HeldBy(m[k], told.rootTaskId)) ::
         k != GenerationKey(told.rootTaskId) ==> (k in m <==> k in m') && (k in m ==> m'[k] == m[k])
  }

  lemma TakeoverIsTrue(m: Table, p: int, expected: int)
    ensures Takeover(m, p, expected).Done? ==>
              TakeoverTold(m, Takeover(m, p, expected).table, p, expected, Takeover(m, p, expected).value)
  {
    if Takeover(m, p, expected).Done? {
      assert PermitKey(p) in m && HeldBy(m[PermitKey(p)], PermitAt(m, p).value.rootTaskId);
    }
  }

  lemma TakeoverAcceptsExactly(m: Table, p: int, expected: int)
    requires Writable(m)
    ensures Takeover(m, p, expected).Done? <==>
            && PermitAt(m, p).Some? && PermitAt(m, p).value.status == Held
            && Generation(m, PermitAt(m, p).value.rootTaskId) == expected
            && forall j | PermitAt(m, j).Some? && PermitAt(m, j).value.rootTaskId == PermitAt(m, p).value.rootTaskId
                 && PermitAt(m, j).value.status == Held :: PermitAt(m, j).value.writerGeneration == expected
    ensures Takeover(m, p, expected).Refused? ==> Takeover(m, p, expected) == Refused(EBudget)
  {
    forall j | PermitAt(m, j).Some? ensures PermitKey(j) in m {}
    forall k | k in m && k.PermitKey? && m[k].PermitV? ensures PermitAt(m, k.permit) == Some(m[k].permit) {}
  }

  ghost predicate BumpTold(m: Table, m': Table, root: string, told: int) {
    told == Generation(m, root) + 1 == Generation(m', root) && OnlyMoved(m, m', {GenerationKey(root)})
  }

  lemma BumpIsTrue(m: Table, root: string)
    ensures Bump(m, root).Done? ==> BumpTold(m, Bump(m, root).table, root, Bump(m, root).value)
    ensures Bump(m, root).Done? <==> Writable(m)
  {
  }

  /** The root's scope is told as it now stands; one that is new is empty and has the cap. */
  ghost predicate EnsureRootTold(m: Table, m': Table, root: string, cap: int, told: Scope) {
    && ScopeAt(m', RootScope(root)) == Some(told)
    && (ScopeAt(m, RootScope(root)).Some? ==> m' == m)
    && (ScopeAt(m, RootScope(root)).None? ==>
          && OnlyMoved(m, m', {ScopeKey(RootScope(root))}) && 0 <= cap == told.cap
          && told.rootTaskId == root && told.child.None? && told.parent.None? && told.settled == 0 == told.held)
  }

  lemma EnsureRootIsTrue(m: Table, root: string, cap: int)
    ensures EnsureRoot(m, root, cap).Done? ==>
              EnsureRootTold(m, EnsureRoot(m, root, cap).table, root, cap, EnsureRoot(m, root, cap).value)
    ensures Writable(m) ==>
              (EnsureRoot(m, root, cap) == Refused(EBudget) <==> ScopeAt(m, RootScope(root)).None? && cap < 0)
  {
  }

  // ----- Attempts ---------------------------------------------------------------------------

  ghost predicate OfAttempt(m: Table, cas: Cas) {
    && TaskAt(m, cas.childKey).Some?
    && TaskAt(m, cas.childKey).value.creationId == cas.creationId
    && TaskAt(m, cas.childKey).value.attemptId == cas.attemptId
  }

  /** The task is in the phase, by this attempt and at the revision the call expects. */
  ghost predicate Stands(m: Table, cas: Cas, phase: CreationPhase) {
    && OfAttempt(m, cas) && TaskAt(m, cas.childKey).value.creationPhase == phase
    && TaskAt(m, cas.childKey).value.creationRevision == cas.expectedRevision
  }

  /** The next attempt is under way: begun before, or just now from the deferred one. */
  ghost predicate BeginTold(m: Table, m': Table, cas: Cas, next: string, at: int, told: Option<Task>) {
    match told
    case None => m' == m
    case Some(t) =>
      && TaskAt(m', cas.childKey) == Some(t) && t.creationId == cas.creationId && t.attemptId == next
      && t.creationPhase == BeingCreated && t.creationRevision == cas.expectedRevision + 1
      && (m' == m || (
            && OnlyMoved(m, m', {ChildKey(cas.childKey)}) && Stands(m, cas, Deferred)
            && t.attemptStartedAt == at && t.deferredFact.None? && t.cancelledFact.None?
            && var old' := TaskAt(m, cas.childKey).value;
               t == old'.(attemptId := next, creationPhase := BeingCreated, creationRevision := t.creationRevision,
                          attemptStartedAt := at, deferredFact := None, cancelledFact := None)))
  }

  /** The attempt after this one is already under way. */
  ghost predicate Begun(m: Table, cas: Cas, next: string) {
    Stands(m, cas.(attemptId := next, expectedRevision := cas.expectedRevision + 1), BeingCreated)
  }

  lemma BeginIsTrue(m: Table, cas: Cas, next: string, at: int)
    ensures
      var o := BeginAttempt(m, cas, next, at);
      && (o.Done? <==> Writable(m)) && (o.Done? ==> BeginTold(m, o.table, cas, next, at, o.value))
      && (o.Done? ==>
            (o.value.Some? <==>
             Begun(m, cas, next) || (Stands(m, cas, Deferred) && next != "" && next != cas.attemptId)))
      && (o.Done? && Begun(m, cas, next) ==> o.table == m)
  {
  }

  /** The attempt is deferred, and the fact that is told is on its record. */
  ghost predicate DeferTold(m: Table, m': Table, cas: Cas, at: int, told: (string, int, int)) {
    && OfAttempt(m', cas) && TaskAt(m', cas.childKey).value.creationPhase == Deferred
    && TaskAt(m', cas.childKey).value.deferredFact == Some(told)
    && (m' == m || (
          && OnlyMoved(m, m', {ChildKey(cas.childKey)}) && Stands(m, cas, BeingCreated)
          && told == (cas.attemptId, cas.expectedRevision + 1, at)
          && TaskAt(m', cas.childKey).value ==
             TaskAt(m, cas.childKey).value.(
               creationPhase := Deferred, creationRevision := cas.expectedRevision + 1, deferredFact := Some(told))))
  }

  lemma DeferIsTrue(m: Table, cas: Cas, at: int)
    ensures
      var o := DeferAttempt(m, cas, at);
      && (o.Done? ==> DeferTold(m, o.table, cas, at, o.value))
      && (Writable(m) ==>
            (o.Done? <==>
             || Stands(m, cas, BeingCreated)
             || (OfAttempt(m, cas) && TaskAt(m, cas.childKey).value.creationPhase == Deferred
                 && TaskAt(m, cas.childKey).value.deferredFact.Some?))
            && (o.Refused? ==> o == Refused(ECas)))
  {
  }

  ghost predicate CommitTold(m: Table, m': Table, cas: Cas, told: bool) {
    if !told then m' == m
    else
      && OfAttempt(m', cas) && TaskAt(m', cas.childKey).value.creationPhase == Committed
      && (m' == m || (
            && OnlyMoved(m, m', {ChildKey(cas.childKey)}) && Stands(m, cas, BeingCreated)
            && TaskAt(m', cas.childKey).value ==
               TaskAt(m, cas.childKey).value.(
                 creationPhase := Committed, creationRevision := cas.expectedRevision + 1)))
  }

  lemma CommitIsTrue(m: Table, cas: Cas)
    ensures
      var o := CommitAttempt(m, cas);
      && (o.Done? <==> Writable(m)) && (o.Done? ==> CommitTold(m, o.table, cas, o.value))
      && (o.Done? ==>
            (o.value <==>
             || Stands(m, cas, BeingCreated)
             || (OfAttempt(m, cas) && TaskAt(m, cas.childKey).value.creationPhase == Committed)))
  {
  }

  /**
   * The attempt is cancelled, and the fact that is told is on its record. A task that was still being
   * created has ended: as failed if its session could not be opened, as cancelled otherwise.
   */
  ghost predicate CancelTold(m: Table, m': Table, cas: Cas, openFailed: bool, at: int, told: (string, int, bool, int)) {
    && OfAttempt(m', cas) && TaskAt(m', cas.childKey).value.creationPhase == CreationCancelled
    && TaskAt(m', cas.childKey).value.cancelledFact == Some(told)
    && (m' == m || (
          && OnlyMoved(m, m', {ChildKey(cas.childKey)}) && Stands(m, cas, BeingCreated)
          && told == (cas.attemptId, cas.expectedRevision + 1, openFailed, at)
          && var t, t' := TaskAt(m, cas.childKey).value, TaskAt(m', cas.childKey).value;
             && t' == t.(creationPhase := CreationCancelled, creationRevision := cas.expectedRevision + 1,
                         cancelledFact := Some(told), state := t'.state, stateRevision := t'.stateRevision)
             && (t.state != Creating ==> t'.state == t.state && t'.stateRevision == t.stateRevision)
             && (t.state == Creating ==>
                   (t'.state == Failed <==> openFailed) && (t'.state == Cancelled <==> !openFailed)
                   && t'.stateRevision == t.stateRevision + 1)))
  }

  lemma CancelIsTrue(m: Table, cas: Cas, openFailed: bool, at: int)
    ensures
      var o := CancelAttempt(m, cas, openFailed, at);
      && (o.Done? ==> CancelTold(m, o.table, cas, openFailed, at, o.value))
      && (Writable(m) ==>
            (o.Done? <==>
             || Stands(m, cas, BeingCreated)
             || (OfAttempt(m, cas) && TaskAt(m, cas.childKey).value.creationPhase == CreationCancelled
                 && TaskAt(m, cas.childKey).value.cancelledFact.Some?))
            && (o.Refused? ==> o == Refused(ECas)))
  {
  }

  // ----- Execution states -------------------------------------------------------------------

  /** The states a task may be moved to, besides the one it is in. */
  function Onward(s: TaskState): set<TaskState> {
    var resting := {Creating, Ready, Idle, Interrupted, WaitingApproval, RecoveryPending, Cancelling,
                    Completed, Failed, Cancelled};
    match s
    case Completed => {}
    case Failed => {}
    case Cancelled => {}
    case Cancelling => {Failed, Cancelled}
    case Creating => resting + {Running}
    case Ready => resting + {Running}
    case WaitingApproval => resting + {Running}
    case Idle => resting
    case Interrupted => resting
    case RecoveryPending => resting
    case Running => resting
  }

  ghost predicate CasTold(m: Table, m': Table, child: string, revision: int, next: TaskState, told: bool) {
    if !told then m' == m
    else
      && TaskAt(m, child).Some? && TaskAt(m, child).value.stateRevision == revision
      && TaskAt(m', child) == Some(TaskAt(m, child).value.(state := next, stateRevision := revision + 1))
      && OnlyMoved(m, m', {ChildKey(child)})
  }

  /** A state change goes through exactly at the expected revision, and to the same state or one the table allows. */
  lemma CasIsTrue(m: Table, child: string, revision: int, next: TaskState)
    ensures
      var o := CasState(m, child, revision, next);
      && (o.Done? <==> Writable(m)) && (o.Done? ==> CasTold(m, o.table, child, revision, next, o.value))
      && (o.Done? ==>
            (o.value <==>
             && TaskAt(m, child).Some? && TaskAt(m, child).value.stateRevision == revision
             && (next == TaskAt(m, child).value.state || next in Onward(TaskAt(m, child).value.state))))
  {
  }

  // ----- Creation ---------------------------------------------------------------------------

  /** The scope a child without a cap of its own spends from: its parent task's, or the root's. */
  function Inherited(m: Table, input: CreateInput): ScopeId {
    if TaskAt(m, input.parentKey).Some? then TaskAt(m, input.parentKey).value.budgetScopeId
    else RootScope(input.rootTaskId)
  }

  /** The scopes above a child: those its parent task lists, the parent's own, and the root's. */
  ghost predicate Above(m: Table, input: CreateInput, id: ScopeId) {
    || id == RootScope(input.rootTaskId)
    || (TaskAt(m, input.parentKey).Some?
        && var parent := TaskAt(m, input.parentKey).value; id in parent.ancestorScopeIds || id == parent.budgetScopeId)
  }

  /** The child lists the scopes above it, and its own if it has a cap; its own is the last. */
  ghost predicate ListsScopes(m: Table, input: CreateInput, t: Task) {
    var own := ChildScope(input.childKey);
    && (forall id :: id in t.ancestorScopeIds <==> Above(m, input, id) || (input.childCap.Some? && id == own))
    && t.budgetScopeId == (if input.childCap.Some? then own else Inherited(m, input))
    && (input.childCap.Some? ==> t.ancestorScopeIds != [] && t.ancestorScopeIds[|t.ancestorScopeIds| - 1] == own)
  }

  /** The record takes every field from the request, its parent, or the beginning of a task's life. */
  ghost predicate RecordsRequest(m: Table, input: CreateInput, t: Task) {
    && t.childKey == input.childKey && t.parentKey == input.parentKey && t.boundarySeq == input.boundarySeq
    && t.creationId == input.creationId && t.rootTaskId == input.rootTaskId
    && t.attemptId == (if input.attemptId.Some? then input.attemptId.value else "legacy:" + input.writerRunId)
    && t.generationDepth == input.generationDepth && t.generationLimit == input.generationLimit
    && t.inputHash == input.inputHash && t.brief == input.brief && t.workspaceId == input.workspaceId
    && t.runtimeOwner == (if TaskAt(m, input.parentKey).Some? then TaskAt(m, input.parentKey).value.runtimeOwner
                          else input.runtimeOwner)
    && t.creationPhase == BeingCreated && t.creationRevision == 1 && t.attemptStartedAt == input.startedAt
    && t.deferredFact.None? && t.cancelledFact.None? && t.state == Creating && t.stateRevision == 1
  }

  /** The child's scope is new, empty, below the parent's, and holds the cap. */
  ghost predicate CapsChild(m: Table, m': Table, input: CreateInput) {
    match input.childCap
    case None => ScopeAt(m', ChildScope(input.childKey)) == ScopeAt(m, ChildScope(input.childKey))
    case Some(cap) =>
      ScopeAt(m', ChildScope(input.childKey)) ==
        Some(Scope(input.rootTaskId, Some(input.childKey), Some(Inherited(m, input)), cap, 0, 0))
  }

  ghost predicate Affords(m: Table, id: ScopeId, cap: Option<int>) {
    && ScopeAt(m, id).Some?
    && (cap.Some? ==>
          && 0 <= cap.value
          && ScopeAt(m, id).value.settled + ScopeAt(m, id).value.held + cap.value <= ScopeAt(m, id).value.cap)
  }

  /** How many tasks of this parent, and of this root, are active. */
  ghost predicate FanOutReached(m: Table, input: CreateInput) {
    || |ActiveOfParent(m, input.parentKey)| >= input.maxFanOut
    || |ActiveOfRoot(m, input.rootTaskId)| >= input.maxFanOut
  }

  ghost predicate CreateTold(m: Table, m': Table, input: CreateInput, told: CreateResult) {
    match told
    case Created(t) =>
      && TaskAt(m', input.childKey) == Some(t) && RecordsRequest(m, input, t) && ListsScopes(m, input, t)
      && CapsChild(m, m', input) && (forall id | Above(m, input, id) :: Affords(m, id, input.childCap))
      && SessionAt(m, input.childKey).None? && 0 <= input.boundarySeq <= Last(m, input.parentKey)
      && SessionAt(m, input.parentKey).Some?
      && SessionAt(m', input.childKey) ==
           Some(Session(Some(Fork(input.parentKey, input.boundarySeq)), input.boundarySeq))
      && WorkspaceKey(input.workspaceId) !in m
      && WorkspaceKey(input.workspaceId) in m'
      && m'[WorkspaceKey(input.workspaceId)] == WorkspaceV(input.childKey, input.path)
      && NumberAt(m', ChildFormatKey, 0) == FORMAT
      && OnlyMoved(m, m', {ChildKey(input.childKey), SessionKey(input.childKey), WorkspaceKey(input.workspaceId),
                           ScopeKey(ChildScope(input.childKey)), ChildFormatKey})
      && input.generationDepth <= input.generationLimit && !FanOutReached(m, input)
      && forall k :: IsTask(m, k) ==> m[k].task.creationId != input.creationId
    case Existing(t) =>
      m' == m && t.creationId == input.creationId && t.inputHash == input.inputHash
      && exists k :: IsTask(m, k) && m[k].task == t
    case Conflict(t) =>
      m' == m && t.creationId == input.creationId && t.inputHash != input.inputHash
      && exists k :: IsTask(m, k) && m[k].task == t
    case GenerationLimit => m' == m && input.generationDepth > input.generationLimit
    case FanOutLimit => m' == m && FanOutReached(m, input)
    case OutOfBudget => m' == m && exists id :: Above(m, input, id) && !Affords(m, id, input.childCap)
  }

  lemma AncestorsAreAbove(m: Table, input: CreateInput)
    ensures forall id :: id in Ancestors(m, input.parentKey, input.rootTaskId) <==> Above(m, input, id)
  {
  }

  lemma CapFitsWhenAfforded(m: Table, input: CreateInput)
    ensures CapFits(m, Ancestors(m, input.parentKey, input.rootTaskId), input.childCap) <==>
            forall id | Above(m, input, id) :: Affords(m, id, input.childCap)
  {
    AncestorsAreAbove(m, input);
  }

  lemma NewTaskIsTrue(m: Table, input: CreateInput)
    ensures RecordsRequest(m, input, NewTask(m, input)) && ListsScopes(m, input, NewTask(m, input))
  {
    AncestorsAreAbove(m, input);
  }

  lemma CreateIsTrue(m: Table, input: CreateInput)
    ensures CreateChild(m, input).Done? ==>
              CreateTold(m, CreateChild(m, input).table, input, CreateChild(m, input).value)
  {
    CapFitsWhenAfforded(m, input);
    NewTaskIsTrue(m, input);
    if CreateChild(m, input).Done? && CreateChild(m, input).value.OutOfBudget? {
      assert Above(m, input, RootScope(input.rootTaskId));
    }
    if CreateChild(m, input).Done? && CreateChild(m, input).value.Created? { CreatedIsTrue(m, input); }
  }

  lemma CreatedIsTrue(m: Table, input: CreateInput)
    requires CreateChild(m, input).Done? && CreateChild(m, input).value.Created?
    ensures CreateTold(m, CreateChild(m, input).table, input, CreateChild(m, input).value)
  {
    CapFitsWhenAfforded(m, input);
    NewTaskIsTrue(m, input);
    ChildRowsAreTrue(m, input, Session(Some(Fork(input.parentKey, input.boundarySeq)), input.boundarySeq));
  }

  lemma ChildRowsAreTrue(m: Table, input: CreateInput, session: Session)
    ensures
      var m' := WithChild(m, m[SessionKey(input.childKey) := SessionV(session)], input);
      && TaskAt(m', input.childKey) == Some(NewTask(m, input)) && CapsChild(m, m', input)
      && SessionAt(m', input.childKey) == Some(session)
      && WorkspaceKey(input.workspaceId) in m'
      && m'[WorkspaceKey(input.workspaceId)] == WorkspaceV(input.childKey, input.path)
      && NumberAt(m', ChildFormatKey, 0) == FORMAT
      && OnlyMoved(m, m', {ChildKey(input.childKey), SessionKey(input.childKey), WorkspaceKey(input.workspaceId),
                           ScopeKey(ChildScope(input.childKey)), ChildFormatKey})
  {
  }
}
