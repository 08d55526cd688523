/** Budget scopes, reservations and settlements, as steps on the table. */
module Budget {
  import opened Wrappers
  import opened Store
  import opened Journals

  // ----- Requests and results ---------------------------------------------------------------

  datatype ReserveInput = ReserveInput(
    rootTaskId: string,
    scopeIds: seq<ScopeId>,
    q: int,
    effectId: string,
    requestHash: string,
    writerGeneration: int)

  datatype ReserveResult =
    | Reserved(permitId: int, status: PermitStatus, existing: bool)
    | InvalidBinding
    | CapExceeded

  datatype SettleInput = SettleInput(
    permitId: int,
    writerGeneration: Option<int>,
    originSession: string,
    originCostSeq: int,
    actual: Option<int>)

  // ----- Reading and charging ---------------------------------------------------------------

  predicate Distinct<T(==)>(s: seq<T>) {
    forall i, j :: 0 <= i < j < |s| ==> s[i] != s[j]
  }

  ghost predicate IsPermitFor(m: Table, p: int, root: string, effect: string) {
    PermitAt(m, p).Some? && PermitAt(m, p).value.rootTaskId == root && PermitAt(m, p).value.effectId == effect
  }

  ghost function FindPermit(m: Table, root: string, effect: string): (r: Option<int>)
    ensures r.Some? ==> IsPermitFor(m, r.value, root, effect)
    ensures r.None? ==> forall p :: !IsPermitFor(m, p, root, effect)
  {
    if exists p :: IsPermitFor(m, p, root, effect) then
      var p :| IsPermitFor(m, p, root, effect);
      Some(p)
    else None
  }

  /** The table with these amounts added to the balances of the listed scopes. */
  function Charge(m: Table, ids: seq<ScopeId>, held: int, settled: int): Table {
    map k | k in m :: if k.ScopeKey? && k.scope in ids then Charged(m[k], held, settled) else m[k]
  }

  function Charged(v: Value, held: int, settled: int): Value {
    match v
    case ScopeV(s) => ScopeV(s.(held := s.held + held, settled := s.settled + settled))
    case _ => v
  }

  predicate Affordable(m: Table, ids: seq<ScopeId>, q: int) {
    forall id | id in ids :: ScopeAt(m, id).Some? && ScopeAt(m, id).value.held >= q
  }

  predicate StaleGeneration(m: Table, row: Permit, expected: Option<int>) {
    expected.Some? && (expected.value != row.writerGeneration || expected.value != Generation(m, row.rootTaskId))
  }

  function BindingOf(p: int, row: Permit): Binding {
    Binding(p, row.effectId, row.requestHash, row.writerGeneration, row.scopeIds)
  }

  // ----- Steps ------------------------------------------------------------------------------

  predicate ValidBinding(m: Table, input: ReserveInput) {
    && input.q >= 0
    && input.writerGeneration == Generation(m, input.rootTaskId)
    && input.scopeIds != []
    && Distinct(input.scopeIds)
    && RootScope(input.rootTaskId) in input.scopeIds
  }

  predicate SameRequest(row: Permit, input: ReserveInput) {
    && row.requestHash == input.requestHash && row.q == input.q
    && row.writerGeneration == input.writerGeneration && row.scopeIds == input.scopeIds
  }

  predicate ScopesOfRoot(m: Table, ids: seq<ScopeId>, root: string) {
    forall id | id in ids :: ScopeAt(m, id).Some? && ScopeAt(m, id).value.rootTaskId == root
  }

  predicate WithinCap(m: Table, ids: seq<ScopeId>, q: int) {
    forall id | id in ids && ScopeAt(m, id).Some? ::
      var s := ScopeAt(m, id).value; s.settled + s.held + q <= s.cap
  }

  ghost function Reserve(m: Table, input: ReserveInput): Outcome<Table, ReserveResult> {
    if !Writable(m) then Refused(EFormat)
    else if !ValidBinding(m, input) then Done(m, InvalidBinding)
    else
      match FindPermit(m, input.rootTaskId, input.effectId)
      case Some(p) =>
        var row := PermitAt(m, p).value;
        Done(m, if SameRequest(row, input) then Reserved(p, row.status, true) else InvalidBinding)
      case None =>
        if !ScopesOfRoot(m, input.scopeIds, input.rootTaskId) then Done(m, InvalidBinding)
        else if !WithinCap(m, input.scopeIds, input.q) then Done(m, CapExceeded)
        else
          var n := PermitCounter(m) + 1;
          Done(NewPermit(m, n, input), Reserved(n, Held, false))
  }

  function NewPermit(m: Table, n: int, input: ReserveInput): Table {
    var row := Permit(input.rootTaskId, input.scopeIds, input.q, input.effectId, input.requestHash,
                      input.writerGeneration, Held);
    Charge(m, input.scopeIds, input.q, 0)[PermitCounterKey := NumberV(n)][PermitKey(n) := PermitV(row)]
  }

  /** The value says whether the cost overruns the reservation: the caller sees that as an error. */
  function Settle(m: Table, input: SettleInput): Outcome<Table, bool> {
    if !Writable(m) then Refused(EFormat)
    else if PermitAt(m, input.permitId).None? then Refused(EBudget)
    else
      var row := PermitAt(m, input.permitId).value;
      var prior := OriginAt(m, input.originSession, input.originCostSeq);
      if StaleGeneration(m, row, input.writerGeneration) then Refused(EBudget)
      else if input.actual.Some? && input.actual.value < 0 then Refused(EBudget)
      else if prior.Some? then
        if prior.value == Origin(input.actual, BindingOf(input.permitId, row)) then Done(m, false) else Refused(EBudget)
      else if row.status == Settled || row.status == Released then Refused(EBudget)
      else if input.actual.Some? && !Affordable(m, row.scopeIds, row.q) then Refused(EBudget)
      else Done(Recorded(m, row, input), input.actual.Some? && input.actual.value > row.q)
  }

  /** A settlement that goes through: balances, the permit's status, and the cost origin. */
  function Recorded(m: Table, row: Permit, input: SettleInput): Table {
    var paid := if input.actual.None? then m else Charge(m, row.scopeIds, -row.q, input.actual.value);
    var status := if input.actual.None? || input.actual.value > row.q then Unknown else Settled;
    paid[PermitKey(input.permitId) := PermitV(row.(status := status))]
        [OriginKey(input.originSession, input.originCostSeq) :=
          OriginV(Origin(input.actual, BindingOf(input.permitId, row)))]
  }

  function Release(m: Table, permitId: int, expected: Option<int>): Outcome<Table, ()> {
    if !Writable(m) then Refused(EFormat)
    else if PermitAt(m, permitId).None? then Done(m, ())
    else
      var row := PermitAt(m, permitId).value;
      if StaleGeneration(m, row, expected) then Refused(EBudget)
      else if row.status != Held then Done(m, ())
      else if !Affordable(m, row.scopeIds, row.q) then Refused(EBudget)
      else Done(ReleasedTable(m, permitId, row), ())
  }

  function ReleasedTable(m: Table, permitId: int, row: Permit): Table {
    Charge(m, row.scopeIds, -row.q, 0)[PermitKey(permitId) := PermitV(row.(status := Released))]
  }

  predicate HeldBy(v: Value, root: string) {
    v.PermitV? && v.permit.rootTaskId == root && v.permit.status == Held
  }

  /** Every held reservation of the root moves to the new generation. */
  function MoveHeld(m: Table, root: string, generation: int): Table {
    map k | k in m ::
      if k.PermitKey? && HeldBy(m[k], root)
      then PermitV(m[k].permit.(writerGeneration := generation)) else m[k]
  }

  function Takeover(m: Table, permitId: int, expected: int): Outcome<Table, Permit> {
    if !Writable(m) then Refused(EFormat)
    else if PermitAt(m, permitId).None? || PermitAt(m, permitId).value.status != Held then Refused(EBudget)
    else
      var row := PermitAt(m, permitId).value;
      if Generation(m, row.rootTaskId) != expected then Refused(EBudget)
      else if exists k | k in m ::
          k.PermitKey? && HeldBy(m[k], row.rootTaskId) && m[k].permit.writerGeneration != expected
      then Refused(EBudget)
      else Done(MoveHeld(m, row.rootTaskId, expected + 1)[GenerationKey(row.rootTaskId) := NumberV(expected + 1)],
                row.(writerGeneration := expected + 1))
  }

  function Bump(m: Table, root: string): Outcome<Table, int> {
    if !Writable(m) then Refused(EFormat)
    else
      var n := Generation(m, root) + 1;
      Done(m[GenerationKey(root) := NumberV(n)], n)
  }

  function EnsureRoot(m: Table, root: string, cap: int): Outcome<Table, Scope> {
    if !Writable(m) then Refused(EFormat)
    else if ScopeAt(m, RootScope(root)).Some? then Done(m, ScopeAt(m, RootScope(root)).value)
    else if cap < 0 then Refused(EBudget)
    else
      var row := Scope(root, None, None, cap, 0, 0);
      Done(m[ScopeKey(RootScope(root)) := ScopeV(row)], row)
  }
}
