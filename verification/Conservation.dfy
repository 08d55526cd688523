/** What every budget step keeps: balances are sums over the recorded costs and permits. */
module Conservation {
  import opened Wrappers
  import opened Store
  import opened Sums
  import opened Journals
  import opened Budget

  // ----- What one row contributes to a scope ------------------------------------------------

  predicate KnownCost(m: Table, k: Key) {
    k in m && k.OriginKey? && m[k].OriginV? && m[k].origin.micro.Some?
  }

  /** The permit has a recorded cost of known amount: its hold is gone. */
  ghost predicate Paid(m: Table, p: int) {
    exists k :: KnownCost(m, k) && m[k].origin.binding.permitId == p
  }

  /** The permit's amount is still part of the held balances. */
  ghost predicate Holding(m: Table, p: int) {
    PermitAt(m, p).Some? && PermitAt(m, p).value.status in {Held, Unknown} && !Paid(m, p)
  }

  function CostOf(m: Table, id: ScopeId, k: Key): int {
    if KnownCost(m, k) && id in m[k].origin.binding.scopeIds then m[k].origin.micro.value else 0
  }

  ghost function HoldOf(m: Table, id: ScopeId, k: Key): int {
    if k.PermitKey? && Holding(m, k.permit) && id in PermitAt(m, k.permit).value.scopeIds
    then PermitAt(m, k.permit).value.q else 0
  }

  function OverrunOf(m: Table, id: ScopeId, k: Key): int {
    if KnownCost(m, k) && id in m[k].origin.binding.scopeIds then
      var row := PermitAt(m, m[k].origin.binding.permitId);
      if row.Some? && m[k].origin.micro.value > row.value.q then m[k].origin.micro.value - row.value.q else 0
    else 0
  }

  /** The sum of the known amounts of the recorded costs whose permit lists the scope. */
  ghost function Costs(m: Table, id: ScopeId): int {
    Sum(m.Keys, k => CostOf(m, id, k))
  }

  /** The sum of the reserved amounts of the permits that list the scope and still hold. */
  ghost function Holds(m: Table, id: ScopeId): int {
    Sum(m.Keys, k => HoldOf(m, id, k))
  }

  /** The sum of max(0, actual - reserved) over the recorded costs whose permit lists the scope. */
  ghost function Overruns(m: Table, id: ScopeId): int {
    Sum(m.Keys, k => OverrunOf(m, id, k))
  }

  // ----- Invariants -------------------------------------------------------------------------

  ghost predicate PermitSound(m: Table, p: int, row: Permit) {
    && row.q >= 0 && row.scopeIds != [] && Distinct(row.scopeIds)
    && RootScope(row.rootTaskId) in row.scopeIds
    && ScopesOfRoot(m, row.scopeIds, row.rootTaskId)
    && row.writerGeneration <= Generation(m, row.rootTaskId)
    && p <= PermitCounter(m)
    && (row.status in {Held, Released} ==> !Costed(m, p))
    && (row.status == Settled ==> Paid(m, p))
  }

  /** A cost, known or not, is recorded against the permit. */
  ghost predicate Costed(m: Table, p: int) {
    exists s, n :: OriginAt(m, s, n).Some? && OriginAt(m, s, n).value.binding.permitId == p
  }

  ghost predicate OriginSound(m: Table, o: Origin) {
    && (o.micro.Some? ==> o.micro.value >= 0)
    && PermitAt(m, o.binding.permitId).Some?
    && o.binding.scopeIds == PermitAt(m, o.binding.permitId).value.scopeIds
  }

  /** Rows refer to rows that exist, and a root's effect has one permit. */
  ghost predicate Sound(m: Table) {
    && (forall p :: PermitAt(m, p).Some? ==> PermitSound(m, p, PermitAt(m, p).value))
    && (forall s, n :: OriginAt(m, s, n).Some? ==> OriginSound(m, OriginAt(m, s, n).value))
    && (forall p, p' | PermitAt(m, p).Some? && PermitAt(m, p').Some?
          && PermitAt(m, p).value.rootTaskId == PermitAt(m, p').value.rootTaskId
          && PermitAt(m, p).value.effectId == PermitAt(m, p').value.effectId :: p == p')
    && (forall root :: ScopeAt(m, RootScope(root)).Some? ==> ScopeAt(m, RootScope(root)).value.rootTaskId == root)
  }

  /** Settled balances are exactly the known costs. */
  ghost predicate SettledConserved(m: Table) {
    forall id :: ScopeAt(m, id).Some? ==> ScopeAt(m, id).value.settled == Costs(m, id)
  }

  /** Held balances are exactly the permits that still hold. */
  ghost predicate HeldConserved(m: Table) {
    forall id :: ScopeAt(m, id).Some? ==> ScopeAt(m, id).value.held == Holds(m, id)
  }

  /** Nothing is spent or held beyond the cap, except what overran its reservation. */
  ghost predicate Bounded(m: Table) {
    forall id :: ScopeAt(m, id).Some? ==>
      var s := ScopeAt(m, id).value; 0 <= s.held && s.settled + s.held <= s.cap + Overruns(m, id)
  }

  ghost predicate Balanced(m: Table) {
    Sound(m) && SettledConserved(m) && Bounded(m)
  }

  // ----- Comparing two tables ---------------------------------------------------------------

  /** The sums of a scope move by what row `k` contributes before and after. */
  lemma CostsMove(m: Table, m': Table, id: ScopeId, k: Key)
    requires forall j :: j != k ==> CostOf(m, id, j) == CostOf(m', id, j)
    ensures Costs(m', id) == Costs(m, id) - CostOf(m, id, k) + CostOf(m', id, k)
  {
    SumDiffersAt(m.Keys, j => CostOf(m, id, j), m'.Keys, j => CostOf(m', id, j), k);
  }

  lemma HoldsMove(m: Table, m': Table, id: ScopeId, k: Key)
    requires forall j :: j != k ==> HoldOf(m, id, j) == HoldOf(m', id, j)
    ensures Holds(m', id) == Holds(m, id) - HoldOf(m, id, k) + HoldOf(m', id, k)
  {
    SumDiffersAt(m.Keys, j => HoldOf(m, id, j), m'.Keys, j => HoldOf(m', id, j), k);
  }

  lemma OverrunsMove(m: Table, m': Table, id: ScopeId, k: Key)
    requires forall j :: j != k ==> OverrunOf(m, id, j) == OverrunOf(m', id, j)
    ensures Overruns(m', id) == Overruns(m, id) - OverrunOf(m, id, k) + OverrunOf(m', id, k)
  {
    SumDiffersAt(m.Keys, j => OverrunOf(m, id, j), m'.Keys, j => OverrunOf(m', id, j), k);
  }

  /** Same costs, same permits' scopes and amounts: same cost sums. */
  ghost predicate SameCosts(m: Table, m': Table) {
    && (forall s, n :: OriginAt(m, s, n) == OriginAt(m', s, n))
    && (forall s, n :: OriginAt(m, s, n).Some? ==>
          var p := OriginAt(m, s, n).value.binding.permitId;
          && PermitAt(m, p).Some? && PermitAt(m', p).Some?
          && PermitAt(m, p).value.q == PermitAt(m', p).value.q
          && PermitAt(m, p).value.scopeIds == PermitAt(m', p).value.scopeIds)
  }

  lemma KnownCostAt(m: Table, k: Key)
    ensures KnownCost(m, k) <==> k.OriginKey? && OriginAt(m, k.session, k.costSeq).Some?
                                 && OriginAt(m, k.session, k.costSeq).value.micro.Some?
    ensures KnownCost(m, k) ==> m[k].origin == OriginAt(m, k.session, k.costSeq).value
  {
  }

  lemma SameCostSums(m: Table, m': Table, id: ScopeId)
    requires SameCosts(m, m')
    ensures Costs(m', id) == Costs(m, id) && Overruns(m', id) == Overruns(m, id)
    ensures forall p :: Paid(m, p) <==> Paid(m', p)
    ensures forall p :: Costed(m, p) <==> Costed(m', p)
  {
    forall k ensures CostOf(m, id, k) == CostOf(m', id, k) && OverrunOf(m, id, k) == OverrunOf(m', id, k)
      && (KnownCost(m, k) <==> KnownCost(m', k)) && (KnownCost(m, k) ==> m[k].origin == m'[k].origin)
    {
      KnownCostAt(m, k);
      KnownCostAt(m', k);
    }
    CostsMove(m, m', id, PermitCounterKey);
    OverrunsMove(m, m', id, PermitCounterKey);
    forall p ensures Paid(m, p) <==> Paid(m', p) {
      if Paid(m, p) {
        var k :| KnownCost(m, k) && m[k].origin.binding.permitId == p;
        assert KnownCost(m', k);
      }
      if Paid(m', p) {
        var k :| KnownCost(m', k) && m'[k].origin.binding.permitId == p;
        assert KnownCost(m, k);
      }
    }
  }
}
