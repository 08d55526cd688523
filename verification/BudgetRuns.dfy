/** Each budget step, against the invariants of module Conservation. */
module BudgetRuns {
  import opened Wrappers
  import opened Store
  import opened Sums
  import opened Journals
  import opened Budget
  import opened Conservation

  // ----- Charging ---------------------------------------------------------------------------

  /** Charging moves the listed scopes and nothing else. */
  lemma ChargeAt(m: Table, ids: seq<ScopeId>, held: int, settled: int)
    ensures
      var m' := Charge(m, ids, held, settled);
      && (forall id :: ScopeAt(m', id) ==
            if ScopeAt(m, id).Some? && id in ids
            then Some(ScopeAt(m, id).value.(
                        held := ScopeAt(m, id).value.held + held,
                        settled := ScopeAt(m, id).value.settled + settled))
            else ScopeAt(m, id))
      && (forall p :: PermitAt(m', p) == PermitAt(m, p))
      && (forall s, n :: OriginAt(m', s, n) == OriginAt(m, s, n))
      && (forall root :: Generation(m', root) == Generation(m, root))
      && PermitCounter(m') == PermitCounter(m)
  {
  }

  lemma {:induction false} SumOfZeros<T>(s: set<T>, f: T -> int)
    requires forall x | x in s :: f(x) == 0
    ensures Sum(s, f) == 0
    decreases s
  {
    if s != {} {
      var x :| x in s;
      SumTake(s, f, x);
      SumOfZeros(s - {x}, f);
    }
  }

  lemma OverrunsNonNegative(m: Table, id: ScopeId)
    ensures Overruns(m, id) >= 0
  {
    SumMonotone(m.Keys, (k: Key) => 0, k => OverrunOf(m, id, k));
    SumOfZeros(m.Keys, (k: Key) => 0);
  }

  /** Holds compare permit by permit. */
  lemma HoldsMoveAt(m: Table, m': Table, id: ScopeId, p: int)
    requires forall p' | p' != p :: PermitAt(m, p') == PermitAt(m', p') && (Paid(m, p') <==> Paid(m', p'))
    ensures Holds(m', id) == Holds(m, id) - HoldOf(m, id, PermitKey(p)) + HoldOf(m', id, PermitKey(p))
  {
    forall j | j != PermitKey(p) ensures HoldOf(m, id, j) == HoldOf(m', id, j) {
      if j.PermitKey? { assert PermitAt(m, j.permit) == PermitAt(m', j.permit); }
    }
    HoldsMove(m, m', id, PermitKey(p));
  }

  // ----- Rows that only move forward --------------------------------------------------------

  /** Scopes stay, permits change at most their generation or are released, costs are the same. */
  ghost predicate Carries(m: Table, m': Table) {
    && (forall id :: ScopeAt(m, id).Some? ==>
          ScopeAt(m', id).Some? && ScopeAt(m', id).value.rootTaskId == ScopeAt(m, id).value.rootTaskId)
    && (forall root :: ScopeAt(m', RootScope(root)).Some? ==> ScopeAt(m', RootScope(root)).value.rootTaskId == root)
    && (forall s, n :: OriginAt(m, s, n) == OriginAt(m', s, n))
    && (forall root :: Generation(m', root) >= Generation(m, root))
    && PermitCounter(m') >= PermitCounter(m)
    && (forall p :: PermitAt(m', p).Some? <==> PermitAt(m, p).Some?)
    && (forall p :: PermitAt(m', p).Some? ==> PermitCarried(m', PermitAt(m, p).value, PermitAt(m', p).value))
  }

  ghost predicate PermitCarried(m': Table, row: Permit, row': Permit) {
    && row' == row.(writerGeneration := row'.writerGeneration, status := row'.status)
    && (row'.writerGeneration == row.writerGeneration || row'.writerGeneration <= Generation(m', row.rootTaskId))
    && (row'.status == row.status || (row.status == Held && row'.status == Released))
  }

  lemma CarriesCosts(m: Table, m': Table)
    requires Sound(m) && Carries(m, m')
    ensures forall id :: Costs(m', id) == Costs(m, id) && Overruns(m', id) == Overruns(m, id)
    ensures forall p :: Paid(m, p) <==> Paid(m', p)
    ensures forall p :: Costed(m, p) <==> Costed(m', p)
  {
    forall s, n | OriginAt(m, s, n).Some?
      ensures PermitAt(m, OriginAt(m, s, n).value.binding.permitId).Some?
    {
      assert OriginSound(m, OriginAt(m, s, n).value);
    }
    assert SameCosts(m, m');
    SameCostSums(m, m', RootScope(""));
    forall id ensures Costs(m', id) == Costs(m, id) && Overruns(m', id) == Overruns(m, id) {
      SameCostSums(m, m', id);
    }
  }

  lemma CarriesPermit(m: Table, m': Table, p: int)
    requires Sound(m) && Carries(m, m') && PermitAt(m', p).Some?
    ensures PermitSound(m', p, PermitAt(m', p).value)
  {
    CarriesCosts(m, m');
    var row, row' := PermitAt(m, p).value, PermitAt(m', p).value;
    assert PermitSound(m, p, row) && PermitCarried(m', row, row');
    assert ScopesOfRoot(m', row.scopeIds, row.rootTaskId);
    if row'.status == Settled { assert Paid(m', p); }
  }

  lemma CarriesSound(m: Table, m': Table)
    requires Sound(m) && Carries(m, m')
    ensures Sound(m')
  {
    forall p | PermitAt(m', p).Some? ensures PermitSound(m', p, PermitAt(m', p).value) {
      CarriesPermit(m, m', p);
    }
    forall s, n | OriginAt(m', s, n).Some? ensures OriginSound(m', OriginAt(m', s, n).value) {
      assert OriginSound(m, OriginAt(m, s, n).value);
    }
  }

  // ----- Steps that only add a scope, or leave the books alone ------------------------------

  /** The rows the invariants speak of are the same. */
  ghost predicate SameBooks(m: Table, m': Table) {
    && (forall id :: ScopeAt(m, id) == ScopeAt(m', id))
    && (forall p :: PermitAt(m, p) == PermitAt(m', p))
    && (forall s, n :: OriginAt(m, s, n) == OriginAt(m', s, n))
    && (forall root :: Generation(m, root) == Generation(m', root))
    && PermitCounter(m) == PermitCounter(m')
  }

  lemma SameBooksKeep(m: Table, m': Table)
    requires Balanced(m) && SameBooks(m, m')
    ensures Balanced(m') && (HeldConserved(m) <==> HeldConserved(m'))
  {
    CarriesSound(m, m');
    CarriesCosts(m, m');
    forall id ensures Holds(m', id) == Holds(m, id) {
      HoldsMoveAt(m, m', id, 0);
    }
  }

  /** A scope nothing refers to yet is added, empty. */
  ghost predicate ScopeAdded(m: Table, m': Table, id: ScopeId, row: Scope) {
    && ScopeAt(m, id).None?
    && row.settled == 0 && row.held == 0 && row.cap >= 0
    && (id.RootScope? ==> row.rootTaskId == id.task)
    && (forall j :: ScopeAt(m', j) == if j == id then Some(row) else ScopeAt(m, j))
    && (forall p :: PermitAt(m, p) == PermitAt(m', p))
    && (forall s, n :: OriginAt(m, s, n) == OriginAt(m', s, n))
    && (forall root :: Generation(m, root) == Generation(m', root))
    && PermitCounter(m) == PermitCounter(m')
  }

  lemma ScopeAddedKeeps(m: Table, m': Table, id: ScopeId, row: Scope)
    requires Balanced(m) && ScopeAdded(m, m', id, row)
    ensures Balanced(m') && (HeldConserved(m) <==> HeldConserved(m'))
  {
    ScopeAddedSums(m, m', id, row);
    UnlistedScopeIsEmpty(m, id);
    OverrunsNonNegative(m, id);
    forall j | j != id ensures ScopeAt(m', j) == ScopeAt(m, j) {}
    assert HeldConserved(m) ==> HeldConserved(m');
    forall j | ScopeAt(m, j).Some? ensures j != id && ScopeAt(m', j) == ScopeAt(m, j) {}
  }

  lemma ScopeAddedSums(m: Table, m': Table, id: ScopeId, row: Scope)
    requires Sound(m) && ScopeAdded(m, m', id, row)
    ensures Sound(m')
    ensures forall j :: Costs(m', j) == Costs(m, j) && Overruns(m', j) == Overruns(m, j) && Holds(m', j) == Holds(m, j)
  {
    CarriesSound(m, m');
    CarriesCosts(m, m');
    forall j ensures Holds(m', j) == Holds(m, j) {
      HoldsMoveAt(m, m', j, 0);
    }
  }

  lemma UnlistedScopeIsEmpty(m: Table, id: ScopeId)
    requires Sound(m) && ScopeAt(m, id).None?
    ensures Costs(m, id) == 0 && Holds(m, id) == 0
  {
    forall k ensures CostOf(m, id, k) == 0 && HoldOf(m, id, k) == 0 {
      KnownCostAt(m, k);
    }
    SumOfZeros(m.Keys, k => CostOf(m, id, k));
    SumOfZeros(m.Keys, k => HoldOf(m, id, k));
  }

  lemma EnsureRootKeeps(m: Table, root: string, cap: int)
    requires Balanced(m) && EnsureRoot(m, root, cap).Done?
    ensures Balanced(EnsureRoot(m, root, cap).table)
    ensures HeldConserved(m) <==> HeldConserved(EnsureRoot(m, root, cap).table)
  {
    if ScopeAt(m, RootScope(root)).None? {
      ScopeAddedKeeps(m, EnsureRoot(m, root, cap).table, RootScope(root), Scope(root, None, None, cap, 0, 0));
    }
  }

  // ----- Reserve ----------------------------------------------------------------------------

  /** A new permit: its amount is added to every scope it lists, each within its cap. */
  lemma ReserveKeeps(m: Table, input: ReserveInput)
    requires Balanced(m) && Reserve(m, input).Done?
    ensures
      var m' := Reserve(m, input).table;
      Balanced(m') && (HeldConserved(m) <==> HeldConserved(m'))
    ensures
      var Done(m', r) := Reserve(m, input);
      r.Reserved? && !r.existing ==>
        forall id | id in input.scopeIds ::
          && ScopeAt(m', id).Some?
          && ScopeAt(m', id).value.settled + ScopeAt(m', id).value.held <= ScopeAt(m', id).value.cap
  {
    var Done(m', r) := Reserve(m, input);
    if r.Reserved? && !r.existing {
      var n := PermitCounter(m) + 1;
      ChargeAt(m, input.scopeIds, input.q, 0);
      NewPermitRows(m, n, input);
      NewPermitSound(m, n, input);
      forall id ensures
        && Costs(m', id) == Costs(m, id) && Overruns(m', id) == Overruns(m, id)
        && Holds(m', id) == Holds(m, id) + if id in input.scopeIds then input.q else 0
      {
        NewPermitSums(m, n, input, id);
      }
      forall id | ScopeAt(m', id).Some? ensures
        var s := ScopeAt(m', id).value; 0 <= s.held && s.settled + s.held <= s.cap + Overruns(m', id)
      {
        OverrunsNonNegative(m, id);
      }
    }
  }

  lemma NewPermitRows(m: Table, n: int, input: ReserveInput)
    ensures
      var m' := NewPermit(m, n, input);
      && (forall p :: PermitAt(m', p) ==
            if p == n then Some(Permit(input.rootTaskId, input.scopeIds, input.q, input.effectId, input.requestHash,
                                       input.writerGeneration, Held))
            else PermitAt(m, p))
      && (forall s, k :: OriginAt(m', s, k) == OriginAt(m, s, k))
      && (forall root :: Generation(m', root) == Generation(m, root))
      && PermitCounter(m') == n
      && (forall id :: ScopeAt(m', id) == ScopeAt(Charge(m, input.scopeIds, input.q, 0), id))
  {
    ChargeAt(m, input.scopeIds, input.q, 0);
  }

  lemma FreshPermitUncosted(m: Table, n: int)
    requires Sound(m) && n > PermitCounter(m)
    ensures PermitAt(m, n).None? && !Paid(m, n) && !Costed(m, n)
  {
    assert PermitAt(m, n).Some? ==> PermitSound(m, n, PermitAt(m, n).value);
    forall k | KnownCost(m, k) ensures m[k].origin.binding.permitId != n {
      KnownCostAt(m, k);
    }
  }

  lemma NewPermitSums(m: Table, n: int, input: ReserveInput, id: ScopeId)
    requires Sound(m) && n == PermitCounter(m) + 1
    ensures
      var m' := NewPermit(m, n, input);
      && Costs(m', id) == Costs(m, id) && Overruns(m', id) == Overruns(m, id)
      && Holds(m', id) == Holds(m, id) + (if id in input.scopeIds then input.q else 0)
      && (forall p :: Paid(m, p) <==> Paid(m', p)) && (forall p :: Costed(m, p) <==> Costed(m', p))
  {
    var m' := NewPermit(m, n, input);
    NewPermitRows(m, n, input);
    FreshPermitUncosted(m, n);
    SameCostSums(m, m', id);
    HoldsMoveAt(m, m', id, n);
  }

  lemma NewPermitSound(m: Table, n: int, input: ReserveInput)
    requires Sound(m) && n == PermitCounter(m) + 1
    requires ValidBinding(m, input) && FindPermit(m, input.rootTaskId, input.effectId).None?
    requires ScopesOfRoot(m, input.scopeIds, input.rootTaskId)
    ensures Sound(NewPermit(m, n, input))
  {
    var m' := NewPermit(m, n, input);
    NewPermitRows(m, n, input);
    ChargeAt(m, input.scopeIds, input.q, 0);
    FreshPermitUncosted(m, n);
    NewPermitSums(m, n, input, RootScope(""));
    forall p | PermitAt(m', p).Some? ensures PermitSound(m', p, PermitAt(m', p).value) {
      if p != n { assert PermitSound(m, p, PermitAt(m, p).value); }
    }
    forall p | p != n && PermitAt(m', p).Some?
      ensures PermitAt(m', p).value.rootTaskId != input.rootTaskId || PermitAt(m', p).value.effectId != input.effectId
    {
      assert !IsPermitFor(m, p, input.rootTaskId, input.effectId);
    }
  }

  // ----- Release ----------------------------------------------------------------------------

  /** The permit is released and its amount leaves every scope it lists; nothing else moves. */
  ghost predicate ReleasedFrom(m: Table, m': Table, p: int, row: Permit) {
    && PermitAt(m, p) == Some(row)
    && (forall j :: PermitAt(m', j) == if j == p then Some(row.(status := Released)) else PermitAt(m, j))
    && (forall s, n :: OriginAt(m', s, n) == OriginAt(m, s, n))
    && (forall root :: Generation(m', root) == Generation(m, root))
    && PermitCounter(m') == PermitCounter(m)
    && (forall id :: ScopeAt(m', id) ==
          if ScopeAt(m, id).Some? && id in row.scopeIds
          then Some(ScopeAt(m, id).value.(held := ScopeAt(m, id).value.held - row.q)) else ScopeAt(m, id))
  }

  lemma SetPermitRows(m: Table, p: int, row: Permit)
    ensures
      var m' := m[PermitKey(p) := PermitV(row)];
      && (forall j :: PermitAt(m', j) == if j == p then Some(row) else PermitAt(m, j))
      && (forall s, n :: OriginAt(m', s, n) == OriginAt(m, s, n))
      && (forall root :: Generation(m', root) == Generation(m, root))
      && PermitCounter(m') == PermitCounter(m)
      && (forall id :: ScopeAt(m', id) == ScopeAt(m, id))
  {
  }

  lemma ReleaseShape(m: Table, p: int, row: Permit)
    requires PermitAt(m, p) == Some(row)
    ensures ReleasedFrom(m, ReleasedTable(m, p, row), p, row)
  {
    ReleasedScopes(m, p, row);
    ReleasedPermits(m, p, row);
    ReleasedRest(m, p, row);
  }

  lemma ReleasedPermits(m: Table, p: int, row: Permit)
    ensures forall j ::
              PermitAt(ReleasedTable(m, p, row), j) == if j == p then Some(row.(status := Released)) else PermitAt(m, j)
  {
    ChargeAt(m, row.scopeIds, -row.q, 0);
  }

  lemma ReleasedRest(m: Table, p: int, row: Permit)
    ensures
      var m' := ReleasedTable(m, p, row);
      && (forall s, n :: OriginAt(m', s, n) == OriginAt(m, s, n))
      && (forall root :: Generation(m', root) == Generation(m, root)) && PermitCounter(m') == PermitCounter(m)
  {
    ChargeAt(m, row.scopeIds, -row.q, 0);
  }

  lemma ReleasedScopes(m: Table, p: int, row: Permit)
    ensures
      forall id :: ScopeAt(ReleasedTable(m, p, row), id) ==
        if ScopeAt(m, id).Some? && id in row.scopeIds
        then Some(ScopeAt(m, id).value.(held := ScopeAt(m, id).value.held - row.q)) else ScopeAt(m, id)
  {
    ChargeAt(m, row.scopeIds, -row.q, 0);
  }

  lemma ReleasedCarries(m: Table, m': Table, p: int, row: Permit)
    requires Sound(m) && ReleasedFrom(m, m', p, row) && row.status == Held
    ensures Carries(m, m')
  {
  }

  lemma ReleasedHolds(m: Table, m': Table, p: int, row: Permit, id: ScopeId)
    requires Sound(m) && ReleasedFrom(m, m', p, row) && row.status == Held
    ensures Holds(m', id) == Holds(m, id) - (if id in row.scopeIds then row.q else 0)
  {
    assert PermitSound(m, p, row);
    NotCostedNotPaid(m, p);
    ReleasedCarries(m, m', p, row);
    CarriesCosts(m, m');
    HoldsMoveAt(m, m', id, p);
  }

  lemma ReleasedBalanced(m: Table, m': Table, p: int, row: Permit)
    requires Balanced(m) && ReleasedFrom(m, m', p, row) && row.status == Held && Affordable(m, row.scopeIds, row.q)
    ensures Balanced(m')
  {
    ReleasedCarries(m, m', p, row);
    CarriesSound(m, m');
    CarriesCosts(m, m');
    assert PermitSound(m, p, row);
  }

  lemma ReleasedHeld(m: Table, m': Table, p: int, row: Permit)
    requires Balanced(m) && ReleasedFrom(m, m', p, row) && row.status == Held
    ensures HeldConserved(m) <==> HeldConserved(m')
  {
    forall id ensures Holds(m', id) == Holds(m, id) - (if id in row.scopeIds then row.q else 0) {
      ReleasedHolds(m, m', p, row, id);
    }
    forall id ensures ScopeAt(m, id).Some? ==>
      (ScopeAt(m, id).value.held == Holds(m, id) <==> ScopeAt(m', id).value.held == Holds(m', id))
    {
    }
    assert forall id :: ScopeAt(m, id).Some? <==> ScopeAt(m', id).Some?;
  }

  lemma ReleaseKeeps(m: Table, p: int, expected: Option<int>)
    requires Balanced(m) && Release(m, p, expected).Done?
    ensures
      var m' := Release(m, p, expected).table;
      Balanced(m') && (HeldConserved(m) <==> HeldConserved(m'))
  {
    if PermitAt(m, p).Some? && PermitAt(m, p).value.status == Held {
      ReleaseShape(m, p, PermitAt(m, p).value);
      ReleasedBalanced(m, Release(m, p, expected).table, p, PermitAt(m, p).value);
      ReleasedHeld(m, Release(m, p, expected).table, p, PermitAt(m, p).value);
    }
  }

  lemma NotCostedNotPaid(m: Table, p: int)
    requires !Costed(m, p)
    ensures !Paid(m, p)
  {
    forall k | KnownCost(m, k) ensures m[k].origin.binding.permitId != p {
      KnownCostAt(m, k);
    }
  }

  // ----- Generations ------------------------------------------------------------------------

  lemma BumpKeeps(m: Table, root: string)
    requires Balanced(m) && Bump(m, root).Done?
    ensures
      var m' := Bump(m, root).table;
      Balanced(m') && (HeldConserved(m) <==> HeldConserved(m'))
  {
    GenerationKeeps(m, Bump(m, root).table, root);
  }

  lemma TakeoverKeeps(m: Table, p: int, expected: int)
    requires Balanced(m) && Takeover(m, p, expected).Done?
    ensures
      var m' := Takeover(m, p, expected).table;
      Balanced(m') && (HeldConserved(m) <==> HeldConserved(m'))
  {
    TakeoverShape(m, p, expected);
    GenerationKeeps(m, Takeover(m, p, expected).table, PermitAt(m, p).value.rootTaskId);
  }

  lemma TakeoverShape(m: Table, p: int, expected: int)
    requires Takeover(m, p, expected).Done?
    ensures OnlyGenerations(m, Takeover(m, p, expected).table, PermitAt(m, p).value.rootTaskId)
  {
  }

  /** Only generations move, and the root's stays the largest. */
  ghost predicate OnlyGenerations(m: Table, m': Table, root: string) {
    && (forall id :: ScopeAt(m, id) == ScopeAt(m', id))
    && (forall s, n :: OriginAt(m, s, n) == OriginAt(m', s, n))
    && (forall r :: Generation(m', r) >= Generation(m, r))
    && PermitCounter(m) == PermitCounter(m')
    && (forall p :: PermitAt(m, p).Some? <==> PermitAt(m', p).Some?)
    && (forall p | PermitAt(m, p).Some? ::
          var row, row' := PermitAt(m, p).value, PermitAt(m', p).value;
          && row' == row.(writerGeneration := row'.writerGeneration)
          && (row'.writerGeneration == row.writerGeneration
              || (row.rootTaskId == root && row'.writerGeneration == Generation(m', root))))
  }

  lemma GenerationKeeps(m: Table, m': Table, root: string)
    requires Balanced(m) && OnlyGenerations(m, m', root)
    ensures Balanced(m') && (HeldConserved(m) <==> HeldConserved(m'))
  {
    assert forall p | PermitAt(m', p).Some? :: PermitCarried(m', PermitAt(m, p).value, PermitAt(m', p).value);
    CarriesSound(m, m');
    CarriesCosts(m, m');
    forall id ensures Holds(m', id) == Holds(m, id) {
      forall j ensures HoldOf(m, id, j) == HoldOf(m', id, j) {
        if j.PermitKey? { assert PermitAt(m, j.permit).Some? <==> PermitAt(m', j.permit).Some?; }
      }
      HoldsMove(m, m', id, PermitCounterKey);
    }
  }

  // ----- Settle -----------------------------------------------------------------------------

  lemma RecordedRows(m: Table, row: Permit, input: SettleInput)
    ensures
      var m' := Recorded(m, row, input);
      var cost := Origin(input.actual, BindingOf(input.permitId, row));
      && (forall p :: PermitAt(m', p) ==
            if p == input.permitId
            then Some(row.(status := if input.actual.None? || input.actual.value > row.q then Unknown else Settled))
            else PermitAt(m, p))
      && (forall s, n :: OriginAt(m', s, n) ==
            if s == input.originSession && n == input.originCostSeq then Some(cost) else OriginAt(m, s, n))
      && (forall root :: Generation(m', root) == Generation(m, root))
      && PermitCounter(m') == PermitCounter(m)
      && (forall id :: ScopeAt(m', id) ==
            if input.actual.Some? && ScopeAt(m, id).Some? && id in row.scopeIds
            then Some(ScopeAt(m, id).value.(
                        held := ScopeAt(m, id).value.held - row.q,
                        settled := ScopeAt(m, id).value.settled + input.actual.value))
            else ScopeAt(m, id))
  {
    RecordedScopes(m, row, input);
    if input.actual.Some? { ChargeAt(m, row.scopeIds, -row.q, input.actual.value); }
  }

  lemma RecordedScopes(m: Table, row: Permit, input: SettleInput)
    ensures
      forall id :: ScopeAt(Recorded(m, row, input), id) ==
        if input.actual.Some? && ScopeAt(m, id).Some? && id in row.scopeIds
        then Some(ScopeAt(m, id).value.(
                    held := ScopeAt(m, id).value.held - row.q,
                    settled := ScopeAt(m, id).value.settled + input.actual.value))
        else ScopeAt(m, id)
  {
    if input.actual.Some? { ChargeAt(m, row.scopeIds, -row.q, input.actual.value); }
  }

  /** A settlement that is neither refused nor a replay. */
  ghost predicate Records(m: Table, input: SettleInput) {
    && Settle(m, input).Done? && OriginAt(m, input.originSession, input.originCostSeq).None?
  }

  lemma RecordedSums(m: Table, input: SettleInput, id: ScopeId)
    requires Sound(m) && Records(m, input)
    ensures
      var row := PermitAt(m, input.permitId).value;
      var m' := Settle(m, input).table;
      var listed := input.actual.Some? && id in row.scopeIds;
      && Costs(m', id) == Costs(m, id) + (if listed then input.actual.value else 0)
      && Overruns(m', id) == Overruns(m, id) +
           (if listed && input.actual.value > row.q then input.actual.value - row.q else 0)
      && (forall p :: Paid(m', p) <==> Paid(m, p) || (p == input.permitId && input.actual.Some?))
      && (forall p :: Costed(m', p) <==> Costed(m, p) || p == input.permitId)
  {
    var row := PermitAt(m, input.permitId).value;
    var m' := Settle(m, input).table;
    var key := OriginKey(input.originSession, input.originCostSeq);
    RecordedRows(m, row, input);
    forall k | k != key ensures
      CostOf(m, id, k) == CostOf(m', id, k) && OverrunOf(m, id, k) == OverrunOf(m', id, k)
      && (KnownCost(m, k) <==> KnownCost(m', k)) && (KnownCost(m, k) ==> m[k].origin == m'[k].origin)
    {
      KnownCostAt(m, k);
      KnownCostAt(m', k);
    }
    KnownCostAt(m, key);
    KnownCostAt(m', key);
    CostsMove(m, m', id, key);
    OverrunsMove(m, m', id, key);
    RecordedPaid(m, input);
  }

  lemma RecordedPaid(m: Table, input: SettleInput)
    requires Records(m, input)
    ensures
      var m' := Settle(m, input).table;
      && (forall p :: Paid(m', p) <==> Paid(m, p) || (p == input.permitId && input.actual.Some?))
      && (forall p :: Costed(m', p) <==> Costed(m, p) || p == input.permitId)
  {
    var row := PermitAt(m, input.permitId).value;
    var m' := Settle(m, input).table;
    var key := OriginKey(input.originSession, input.originCostSeq);
    RecordedRows(m, row, input);
    forall k ensures k != key ==>
      (KnownCost(m, k) <==> KnownCost(m', k)) && (KnownCost(m, k) ==> m[k].origin == m'[k].origin)
    {
      KnownCostAt(m, k);
      KnownCostAt(m', k);
    }
    KnownCostAt(m, key);
    KnownCostAt(m', key);
    forall p ensures Paid(m', p) <==> Paid(m, p) || (p == input.permitId && input.actual.Some?) {
      if Paid(m, p) {
        var k :| KnownCost(m, k) && m[k].origin.binding.permitId == p;
        assert KnownCost(m', k);
      }
      if p == input.permitId && input.actual.Some? { assert KnownCost(m', key); }
      if Paid(m', p) {
        var k :| KnownCost(m', k) && m'[k].origin.binding.permitId == p;
        if k != key { assert KnownCost(m, k); }
      }
    }
    forall p ensures Costed(m', p) <==> Costed(m, p) || p == input.permitId {
      if Costed(m, p) {
        var s, n :| OriginAt(m, s, n).Some? && OriginAt(m, s, n).value.binding.permitId == p;
        assert OriginAt(m', s, n).Some? && OriginAt(m', s, n).value.binding.permitId == p;
      }
      assert OriginAt(m', input.originSession, input.originCostSeq).Some?;
    }
  }

  lemma RecordedHolds(m: Table, input: SettleInput, id: ScopeId)
    requires Sound(m) && Records(m, input)
    ensures
      var row := PermitAt(m, input.permitId).value;
      Holds(Settle(m, input).table, id) == Holds(m, id)
        - (if input.actual.Some? && Holding(m, input.permitId) && id in row.scopeIds then row.q else 0)
  {
    var m' := Settle(m, input).table;
    RecordedRows(m, PermitAt(m, input.permitId).value, input);
    RecordedPaid(m, input);
    HoldsMoveAt(m, m', id, input.permitId);
  }

  lemma RecordedSound(m: Table, input: SettleInput)
    requires Sound(m) && Records(m, input)
    ensures Sound(Settle(m, input).table)
  {
    var row := PermitAt(m, input.permitId).value;
    var m' := Settle(m, input).table;
    RecordedRows(m, row, input);
    RecordedPaid(m, input);
    forall p | PermitAt(m', p).Some? ensures PermitSound(m', p, PermitAt(m', p).value) {
      assert PermitSound(m, p, PermitAt(m, p).value);
    }
    forall s, n | OriginAt(m', s, n).Some? ensures OriginSound(m', OriginAt(m', s, n).value) {
      if s != input.originSession || n != input.originCostSeq { assert OriginSound(m, OriginAt(m, s, n).value); }
    }
  }

  /** Settling keeps the balances, overruns included. */
  lemma SettleKeeps(m: Table, input: SettleInput)
    requires Balanced(m) && Settle(m, input).Done?
    ensures Balanced(Settle(m, input).table)
  {
    if Records(m, input) {
      var row := PermitAt(m, input.permitId).value;
      var m' := Settle(m, input).table;
      RecordedRows(m, row, input);
      RecordedSound(m, input);
      forall id | ScopeAt(m', id).Some? ensures
        && ScopeAt(m', id).value.settled == Costs(m', id)
        && 0 <= ScopeAt(m', id).value.held
        && ScopeAt(m', id).value.settled + ScopeAt(m', id).value.held <= ScopeAt(m', id).value.cap + Overruns(m', id)
      {
        RecordedSums(m, input, id);
      }
    }
  }

  /**
   * Settling keeps the held balances exact, precisely when the call is a replay, reports no amount,
   * reserves nothing, or names a permit that still holds. The one other case is a second cost on a
   * permit that a first cost already overran: its amount is subtracted again.
   */
  lemma SettleKeepsHeldExactly(m: Table, input: SettleInput)
    requires Balanced(m) && HeldConserved(m) && Settle(m, input).Done?
    ensures HeldConserved(Settle(m, input).table) <==>
            || OriginAt(m, input.originSession, input.originCostSeq).Some?
            || input.actual.None?
            || PermitAt(m, input.permitId).value.q == 0
            || Holding(m, input.permitId)
  {
    if Records(m, input) {
      var row := PermitAt(m, input.permitId).value;
      var m' := Settle(m, input).table;
      assert PermitSound(m, input.permitId, row);
      RecordedRows(m, row, input);
      forall id ensures Holds(m', id) == Holds(m, id)
        - (if input.actual.Some? && Holding(m, input.permitId) && id in row.scopeIds then row.q else 0)
      {
        RecordedHolds(m, input, id);
      }
      var id := row.scopeIds[0];
      assert id in row.scopeIds && ScopeAt(m, id).Some?;
      assert ScopeAt(m', id).Some?;
    }
  }
}
