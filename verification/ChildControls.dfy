/** Child control over the journal: the loops that read and rewrite rows, one transaction a call. */
module ChildControls {
  import opened Wrappers
  import opened Store
  import opened Journals
  import opened LedgerSteps
  import opened Budget
  import opened Children
  import opened Answers
  import Conservation
  import Ledgers
  import Runs

  /** At most one permit per root and effect, and one task per creation; scope lists do not repeat. */
  ghost predicate Indexed(m: Table) {
    && (forall p :: PermitAt(m, p).Some? ==> Distinct(PermitAt(m, p).value.scopeIds))
    && (forall p, p' | PermitAt(m, p).Some? && PermitAt(m, p').Some?
          && PermitAt(m, p).value.rootTaskId == PermitAt(m, p').value.rootTaskId
          && PermitAt(m, p).value.effectId == PermitAt(m, p').value.effectId :: p == p')
    && (forall k, k' | IsTask(m, k) && IsTask(m, k') && m[k].task.creationId == m[k'].task.creationId :: k == k')
  }

  // ----- Loops over scopes ------------------------------------------------------------------

  lemma NotYetCharged(m: Table, ids: seq<ScopeId>, i: nat, held: int, settled: int)
    requires i < |ids| && Distinct(ids)
    ensures ScopeAt(Charge(m, ids[..i], held, settled), ids[i]) == ScopeAt(m, ids[i])
  {
    assert ids[i] !in ids[..i];
  }

  lemma ChargeOne(m: Table, ids: seq<ScopeId>, i: nat, held: int, settled: int)
    requires i < |ids| && Distinct(ids) && ScopeAt(m, ids[i]).Some?
    ensures ScopeAt(Charge(m, ids[..i], held, settled), ids[i]) == ScopeAt(m, ids[i])
    ensures
      var s := ScopeAt(m, ids[i]).value;
      Charge(m, ids[..i + 1], held, settled) ==
      Charge(m, ids[..i], held, settled)
        [ScopeKey(ids[i]) := ScopeV(s.(held := s.held + held, settled := s.settled + settled))]
  {
    assert ids[i] !in ids[..i];
    assert forall id :: id in ids[..i + 1] <==> id in ids[..i] || id == ids[i];
    var s := ScopeAt(m, ids[i]).value;
    var charged := ScopeV(s.(held := s.held + held, settled := s.settled + settled));
    var next := Charge(m, ids[..i], held, settled)[ScopeKey(ids[i]) := charged];
    assert Charge(m, ids[..i + 1], held, settled).Keys == next.Keys;
  }

  function Discharged(s: Scope, q: int, paid: int): Scope {
    s.(held := s.held - q, settled := s.settled + paid)
  }

  lemma DischargeOne(m: Table, ids: seq<ScopeId>, i: nat, q: int, paid: int)
    requires i < |ids| && Distinct(ids) && ScopeAt(m, ids[i]).Some?
    ensures Charge(m, ids[..i + 1], -q, paid) ==
            Charge(m, ids[..i], -q, paid)[ScopeKey(ids[i]) := ScopeV(Discharged(ScopeAt(m, ids[i]).value, q, paid))]
  {
    ChargeOne(m, ids, i, -q, paid);
    var s := ScopeAt(m, ids[i]).value;
    assert Discharged(s, q, paid) == s.(held := s.held + -q, settled := s.settled + paid);
  }

  function WithHeld(s: Scope, q: int): Scope {
    s.(held := s.held + q)
  }

  lemma HoldOne(m: Table, ids: seq<ScopeId>, i: nat, q: int)
    requires i < |ids| && Distinct(ids) && ScopeAt(m, ids[i]).Some?
    ensures Charge(m, ids[..i + 1], q, 0) ==
            Charge(m, ids[..i], q, 0)[ScopeKey(ids[i]) := ScopeV(WithHeld(ScopeAt(m, ids[i]).value, q))]
  {
    ChargeOne(m, ids, i, q, 0);
    var s := ScopeAt(m, ids[i]).value;
    assert WithHeld(s, q) == s.(held := s.held + q, settled := s.settled + 0);
  }

  class ChildControl {
    const db: Journal<Key, Value>

    constructor (db: Journal<Key, Value>)
      ensures this.db == db
    {
      this.db := db;
    }

    ghost predicate Valid()
      reads db
    {
      db.Valid() && Indexed(db.View())
    }

    /** A transaction that first checks the format. */
    method Begin() returns (r: Result<Option<Table>>)
      requires db.Valid()
      modifies db`pending
      ensures db.Valid()
      ensures db.Usable() && Writable(old(db.View())) ==>
                r == Success(old(db.pending)) && db.pending == Some(old(db.View()))
      ensures !(db.Usable() && Writable(old(db.View()))) ==>
                r == Failure(if db.Usable() then EFormat else db.Refusal()) && db.pending == old(db.pending)
    {
      r := db.Begin();
      if r.Success? && !Writable(db.View()) {
        db.Abort(r.value);
        r := Failure(EFormat);
      }
    }

    /** Takes a reserved amount off every listed scope, and adds what was paid. Stops at the first bad balance. */
    method Discharge(ids: seq<ScopeId>, q: int, paid: int) returns (ok: bool)
      requires db.Valid() && db.Usable() && db.pending.Some? && Distinct(ids)
      modifies db`pending
      ensures db.Valid() && db.pending.Some?
      ensures ok == Affordable(old(db.View()), ids, q)
      ensures ok ==> db.View() == Charge(old(db.View()), ids, -q, paid)
    {
      ghost var m := db.View();
      for i := 0 to |ids|
        invariant db.Valid() && db.pending.Some?
        invariant Affordable(m, ids[..i], q)
        invariant db.View() == Charge(m, ids[..i], -q, paid)
      {
        NotYetCharged(m, ids, i, -q, paid);
        var balance := ScopeAt(db.View(), ids[i]);
        if balance.None? || balance.value.held < q {
          assert ids[i] in ids;
          return false;
        }
        DischargeOne(m, ids, i, q, paid);
        db.PendingSet(ScopeKey(ids[i]), ScopeV(Discharged(balance.value, q, paid)));
      }
      assert ids[..|ids|] == ids;
      ok := true;
    }

    // ----- Reservations ---------------------------------------------------------------------

    /** Adds the amount to the scopes read before. */
    method HoldScopes(ids: seq<ScopeId>, rows: seq<Scope>, q: int)
      requires db.Valid() && db.Usable() && db.pending.Some? && Distinct(ids)
      requires |rows| == |ids| && forall i :: 0 <= i < |ids| ==> ScopeAt(db.View(), ids[i]) == Some(rows[i])
      modifies db`pending
      ensures db.Valid() && db.pending.Some? && db.View() == Charge(old(db.View()), ids, q, 0)
    {
      ghost var m := db.View();
      for i := 0 to |ids|
        invariant db.Valid() && db.pending.Some? && db.View() == Charge(m, ids[..i], q, 0)
      {
        HoldOne(m, ids, i, q);
        db.PendingSet(ScopeKey(ids[i]), ScopeV(WithHeld(rows[i], q)));
      }
      assert ids[..|ids|] == ids;
    }

    /** Reads the listed scopes, if all exist under the root. */
    method ReadScopes(ids: seq<ScopeId>, root: string) returns (rows: Option<seq<Scope>>)
      ensures rows.Some? <==> ScopesOfRoot(db.View(), ids, root)
      ensures rows.Some? ==>
                |rows.value| == |ids|
                && forall i :: 0 <= i < |ids| ==> ScopeAt(db.View(), ids[i]) == Some(rows.value[i])
    {
      var read: seq<Scope> := [];
      for i := 0 to |ids|
        invariant |read| == i
        invariant forall j :: 0 <= j < i ==>
          ScopeAt(db.View(), ids[j]) == Some(read[j]) && read[j].rootTaskId == root
      {
        var row := ScopeAt(db.View(), ids[i]);
        if row.None? || row.value.rootTaskId != root {
          assert ids[i] in ids;
          return None;
        }
        read := read + [row.value];
      }
      rows := Some(read);
    }

    /** The permit a root's effect already has. */
    method PriorPermit(root: string, effect: string) returns (prior: Option<int>)
      requires Indexed(db.View())
      ensures prior == FindPermit(db.View(), root, effect)
      ensures prior.Some? ==> PermitAt(db.View(), prior.value).Some?
    {
      ghost var m := db.View();
      var hit := db.Find((k: Key, v: Value) =>
        k.PermitKey? && v.PermitV? && v.permit.rootTaskId == root && v.permit.effectId == effect);
      forall k | hit.None? && k in m ensures
        !(k.PermitKey? && m[k].PermitV? && m[k].permit.rootTaskId == root && m[k].permit.effectId == effect)
      {
        assert k in db.View();
      }
      PriorFound(m, root, effect, hit);
      prior := if hit.Some? then Some(hit.value.permit) else None;
    }

    method WriteReservation(input: ReserveInput) returns (r: ReserveResult)
      requires db.Valid() && db.Usable() && db.pending.Some? && Writable(db.View()) && Indexed(db.View())
      modifies db`pending
      ensures db.Valid() && db.pending.Some?
      ensures Budget.Reserve(old(db.View()), input) == Done(db.View(), r)
    {
      if input.q < 0 || input.writerGeneration != Generation(db.View(), input.rootTaskId) || input.scopeIds == []
         || !Distinct(input.scopeIds) || RootScope(input.rootTaskId) !in input.scopeIds
      {
        return InvalidBinding;
      }
      var prior := PriorPermit(input.rootTaskId, input.effectId);
      if prior.Some? {
        var row := PermitAt(db.View(), prior.value).value;
        if !SameRequest(row, input) { return InvalidBinding; }
        return Reserved(prior.value, row.status, true);
      }
      r := WriteNewReservation(input);
    }

    /** A reservation that no permit exists for yet. */
    method WriteNewReservation(input: ReserveInput) returns (r: ReserveResult)
      requires db.Valid() && db.Usable() && db.pending.Some? && Distinct(input.scopeIds)
      modifies db`pending
      ensures db.Valid() && db.pending.Some?
      ensures
        var m := old(db.View());
        var n := PermitCounter(m) + 1;
        if !ScopesOfRoot(m, input.scopeIds, input.rootTaskId) then r == InvalidBinding && db.View() == m
        else if !WithinCap(m, input.scopeIds, input.q) then r == CapExceeded && db.View() == m
        else r == Reserved(n, Held, false) && db.View() == NewPermit(m, n, input)
    {
      var rows := ReadScopes(input.scopeIds, input.rootTaskId);
      if rows.None? { return InvalidBinding; }
      if exists i :: 0 <= i < |rows.value| && rows.value[i].settled + rows.value[i].held + input.q > rows.value[i].cap {
        return CapExceeded;
      }
      HoldScopes(input.scopeIds, rows.value, input.q);
      var n := PermitCounter(db.View()) + 1;
      db.PendingSet(PermitCounterKey, NumberV(n));
      db.PendingSet(PermitKey(n), PermitV(Permit(input.rootTaskId, input.scopeIds, input.q, input.effectId,
                                                 input.requestHash, input.writerGeneration, Held)));
      r := Reserved(n, Held, false);
    }

    method Reserve(input: ReserveInput) returns (r: Result<ReserveResult>)
      requires Valid()
      modifies db
      ensures db.Valid() && db.Transacts(Budget.Reserve(old(db.View()), input), r)
      ensures r.Success? ==> ReserveTold(old(db.View()), db.View(), input, r.value)
    {
      ReserveIsTrue(db.View(), input);
      var begun := Begin();
      if begun.Failure? { return Failure(begun.code); }
      var result := WriteReservation(input);
      r := db.Commit(begun.value, result);
    }

    // ----- Settling and releasing -----------------------------------------------------------

    method WriteSettlement(input: SettleInput) returns (r: Result<bool>)
      requires db.Valid() && db.Usable() && db.pending.Some? && Writable(db.View()) && Indexed(db.View())
      modifies db`pending
      ensures db.Valid() && db.pending.Some?
      ensures match Settle(old(db.View()), input)
              case Refused(code) => r == Failure(code)
              case Done(next, overrun) => r == Success(overrun) && db.View() == next
    {
      var found := PermitAt(db.View(), input.permitId);
      if found.None? { return Failure(EBudget); }
      var row := found.value;
      if StaleGeneration(db.View(), row, input.writerGeneration) { return Failure(EBudget); }
      if input.actual.Some? && input.actual.value < 0 { return Failure(EBudget); }
      var binding := BindingOf(input.permitId, row);
      var prior := OriginAt(db.View(), input.originSession, input.originCostSeq);
      if prior.Some? {
        if prior.value.micro != input.actual || prior.value.binding != binding { return Failure(EBudget); }
        return Success(false);
      }
      if row.status == Settled || row.status == Released { return Failure(EBudget); }
      if input.actual.Some? {
        var ok := Discharge(row.scopeIds, row.q, input.actual.value);
        if !ok { return Failure(EBudget); }
      }
      var overrun := input.actual.Some? && input.actual.value > row.q;
      db.PendingSet(PermitKey(input.permitId),
        PermitV(row.(status := if input.actual.None? || overrun then Unknown else Settled)));
      db.PendingSet(OriginKey(input.originSession, input.originCostSeq), OriginV(Origin(input.actual, binding)));
      r := Success(overrun);
    }

    /** The transaction of a settlement; its value reports an overrun. */
    method SettleTransaction(input: SettleInput) returns (r: Result<bool>)
      requires Valid()
      modifies db
      ensures db.Valid() && db.Transacts(Settle(old(db.View()), input), r)
    {
      var begun := Begin();
      if begun.Failure? { return Failure(begun.code); }
      var body := WriteSettlement(input);
      r := db.Finish(begun.value, body);
    }

    /** An overrun is recorded first, and reported as an error afterwards. */
    method SettleOrigin(input: SettleInput) returns (r: Result<()>, ghost settled: Result<bool>)
      requires Valid()
      modifies db
      ensures db.Valid() && db.Transacts(Settle(old(db.View()), input), settled)
      ensures r == match settled
                   case Failure(code) => Failure(code)
                   case Success(overrun) => if overrun then Failure(EBudget) else Success(())
      ensures settled.Success? ==> SettleTold(old(db.View()), db.View(), input, settled.value)
    {
      SettleIsTrue(db.View(), input);
      var t := SettleTransaction(input);
      settled := t;
      match t
      case Failure(code) => r := Failure(code);
      case Success(overrun) => r := if overrun then Failure(EBudget) else Success(());
    }

    method WriteRelease(permitId: int, expected: Option<int>) returns (r: Result<()>)
      requires db.Valid() && db.Usable() && db.pending.Some? && Writable(db.View()) && Indexed(db.View())
      modifies db`pending
      ensures db.Valid() && db.pending.Some?
      ensures match Release(old(db.View()), permitId, expected)
              case Refused(code) => r == Failure(code)
              case Done(next, _) => r == Success(()) && db.View() == next
    {
      var found := PermitAt(db.View(), permitId);
      if found.None? { return Success(()); }
      var row := found.value;
      if StaleGeneration(db.View(), row, expected) { return Failure(EBudget); }
      if row.status != Held { return Success(()); }
      var ok := Discharge(row.scopeIds, row.q, 0);
      if !ok { return Failure(EBudget); }
      db.PendingSet(PermitKey(permitId), PermitV(row.(status := Released)));
      r := Success(());
    }

    method ReleaseReservation(permitId: int, expected: Option<int>) returns (r: Result<()>)
      requires Valid()
      modifies db
      ensures db.Valid() && db.Transacts(Release(old(db.View()), permitId, expected), r)
      ensures r.Success? ==> ReleaseTold(old(db.View()), db.View(), permitId)
    {
      ReleaseIsTrue(db.View(), permitId, expected);
      var begun := Begin();
      if begun.Failure? { return Failure(begun.code); }
      var body := WriteRelease(permitId, expected);
      r := db.Finish(begun.value, body);
    }

    // ----- Generations and roots ------------------------------------------------------------

    /** Rewrites every held reservation of the root, one after the other. */
    method MoveHeldRows(root: string, generation: int)
      requires db.Valid() && db.Usable() && db.pending.Some?
      modifies db`pending
      ensures db.Valid() && db.pending.Some? && db.View() == MoveHeld(old(db.View()), root, generation)
    {
      ghost var m := db.View();
      var todo := db.View().Keys;
      while todo != {}
        invariant db.Valid() && db.pending.Some? && todo <= m.Keys
        invariant db.View() == map k | k in m :: if k in todo then m[k] else MoveHeld(m, root, generation)[k]
        decreases todo
      {
        var k :| k in todo;
        var v := db.View()[k];
        if k.PermitKey? && HeldBy(v, root) {
          db.PendingSet(k, PermitV(v.permit.(writerGeneration := generation)));
        }
        todo := todo - {k};
      }
    }

    method WriteTakeover(permitId: int, expected: int) returns (r: Result<Permit>)
      requires db.Valid() && db.Usable() && db.pending.Some? && Writable(db.View())
      modifies db`pending
      ensures db.Valid() && db.pending.Some?
      ensures match Takeover(old(db.View()), permitId, expected)
              case Refused(code) => r == Failure(code)
              case Done(next, row) => r == Success(row) && db.View() == next
    {
      var found := PermitAt(db.View(), permitId);
      if found.None? || found.value.status != Held { return Failure(EBudget); }
      var root := found.value.rootTaskId;
      if Generation(db.View(), root) != expected { return Failure(EBudget); }
      var stale := db.Find((k: Key, v: Value) =>
        k.PermitKey? && HeldBy(v, root) && v.permit.writerGeneration != expected);
      if stale.Some? { return Failure(EBudget); }
      MoveHeldRows(root, expected + 1);
      db.PendingSet(GenerationKey(root), NumberV(expected + 1));
      r := Success(found.value.(writerGeneration := expected + 1));
    }

    method TakeoverReservation(permitId: int, expected: int) returns (r: Result<Permit>)
      requires db.Valid()
      modifies db
      ensures db.Valid() && db.Transacts(Takeover(old(db.View()), permitId, expected), r)
      ensures r.Success? ==> TakeoverTold(old(db.View()), db.View(), permitId, expected, r.value)
    {
      TakeoverIsTrue(db.View(), permitId, expected);
      var begun := Begin();
      if begun.Failure? { return Failure(begun.code); }
      var body := WriteTakeover(permitId, expected);
      r := db.Finish(begun.value, body);
    }

    method BumpWriterGeneration(root: string) returns (r: Result<int>)
      requires db.Valid()
      modifies db
      ensures db.Valid() && db.Transacts(Bump(old(db.View()), root), r)
      ensures r.Success? ==> BumpTold(old(db.View()), db.View(), root, r.value)
    {
      BumpIsTrue(db.View(), root);
      var begun := Begin();
      if begun.Failure? { return Failure(begun.code); }
      var n := Generation(db.View(), root) + 1;
      db.PendingSet(GenerationKey(root), NumberV(n));
      r := db.Commit(begun.value, n);
    }

    method EnsureRootScope(root: string, cap: int) returns (r: Result<Scope>)
      requires db.Valid()
      modifies db
      ensures db.Valid() && db.Transacts(EnsureRoot(old(db.View()), root, cap), r)
      ensures r.Success? ==> EnsureRootTold(old(db.View()), db.View(), root, cap, r.value)
    {
      EnsureRootIsTrue(db.View(), root, cap);
      var begun := Begin();
      if begun.Failure? { return Failure(begun.code); }
      var existing := ScopeAt(db.View(), RootScope(root));
      if existing.Some? {
        r := db.Commit(begun.value, existing.value);
        return;
      }
      if cap < 0 {
        db.Abort(begun.value);
        return Failure(EBudget);
      }
      var row := Scope(root, None, None, cap, 0, 0);
      db.PendingSet(ScopeKey(RootScope(root)), ScopeV(row));
      r := db.Commit(begun.value, row);
    }

    // ----- Creating children ----------------------------------------------------------------

    /** Walks the ancestor scopes; stops at one that is missing or cannot afford the cap. */
    method CheckAncestors(ids: seq<ScopeId>, cap: Option<int>) returns (ok: bool)
      ensures ok == CapFits(db.View(), ids, cap)
    {
      for i := 0 to |ids|
        invariant CapFits(db.View(), ids[..i], cap)
      {
        var s := ScopeAt(db.View(), ids[i]);
        if s.None? || (cap.Some? && (cap.value < 0 || cap.value > s.value.cap - s.value.settled - s.value.held)) {
          assert ids[i] in ids;
          return false;
        }
        assert ids[..i + 1] == ids[..i] + [ids[i]];
      }
      assert ids[..|ids|] == ids;
      ok := true;
    }

    /** What refuses a creation before anything is written, or the existing record. */
    method Screen(input: CreateInput) returns (early: Option<CreateResult>)
      requires db.Valid() && Writable(db.View()) && Indexed(db.View())
      ensures early.Some? ==> CreateChild(db.View(), input) == Done(db.View(), early.value)
      ensures early.None? ==>
                && FindCreation(db.View(), input.creationId).None?
                && input.generationDepth <= input.generationLimit
                && |ActiveOfParent(db.View(), input.parentKey)| < input.maxFanOut
                && |ActiveOfRoot(db.View(), input.rootTaskId)| < input.maxFanOut
                && ScopeAt(db.View(), RootScope(input.rootTaskId)).Some?
                && CapFits(db.View(), Ancestors(db.View(), input.parentKey, input.rootTaskId), input.childCap)
    {
      ghost var m := db.View();
      var hit := db.Find((k: Key, v: Value) => k.ChildKey? && v.TaskV? && v.task.creationId == input.creationId);
      forall k | hit.None? && k in m ensures !(k.ChildKey? && m[k].TaskV? && m[k].task.creationId == input.creationId) {
        assert k in db.View();
      }
      CreationFound(m, input.creationId, hit);
      if hit.Some? {
        var existing := db.View()[hit.value].task;
        return Some(if existing.inputHash == input.inputHash then Existing(existing) else Conflict(existing));
      }
      if input.generationDepth > input.generationLimit { return Some(GenerationLimit); }
      var ofParent := CountActive((t: Task) => t.parentKey == input.parentKey);
      var ofRoot := CountActive((t: Task) => t.rootTaskId == input.rootTaskId);
      assert ActiveWhere(m, (t: Task) => t.parentKey == input.parentKey) == ActiveOfParent(m, input.parentKey);
      assert ActiveWhere(m, (t: Task) => t.rootTaskId == input.rootTaskId) == ActiveOfRoot(m, input.rootTaskId);
      if ofParent >= input.maxFanOut || ofRoot >= input.maxFanOut { return Some(FanOutLimit); }
      if ScopeAt(db.View(), RootScope(input.rootTaskId)).None? { return Some(OutOfBudget); }
      var fits := CheckAncestors(Ancestors(db.View(), input.parentKey, input.rootTaskId), input.childCap);
      early := if fits then None else Some(OutOfBudget);
    }

    method CountActive(test: Task -> bool) returns (n: nat)
      ensures n == |ActiveWhere(db.View(), test)|
    {
      var counted := (k: Key, v: Value) => k.ChildKey? && v.TaskV? && Active(v.task.state) && test(v.task);
      n := db.Count(counted);
      assert ActiveWhere(db.View(), test) == db.Where(counted);
    }

    method WriteChild(input: CreateInput) returns (r: Result<CreateResult>)
      requires db.Valid() && db.Usable() && db.pending.Some? && Writable(db.View()) && Indexed(db.View())
      modifies db`pending
      ensures db.Valid() && db.pending.Some?
      ensures match CreateChild(old(db.View()), input)
              case Refused(code) => r == Failure(code)
              case Done(next, value) => r == Success(value) && db.View() == next
    {
      ghost var m := db.View();
      var early := Screen(input);
      if early.Some? { return Success(early.value); }
      if SessionAt(db.View(), input.childKey).Some? { return Failure(EStorageFault); }
      if WorkspaceKey(input.workspaceId) in db.View() { return Failure(EStorageFault); }
      var record := NewTask(db.View(), input);
      var scope := NewScope(db.View(), input, input.childCap.GetOr(0));
      var forked := Ledgers.WriteFork(db, input.parentKey, input.boundarySeq, input.childKey);
      if forked.Failure? { return Failure(forked.code); }
      WriteRows(m, input, record, scope);
      r := Success(Created(record));
    }

    /** The child's own rows, next to its session. */
    method WriteRows(ghost m: Table, input: CreateInput, record: Task, scope: Scope)
      requires db.Valid() && db.Usable() && db.pending.Some?
      requires record == NewTask(m, input) && scope == NewScope(m, input, input.childCap.GetOr(0))
      modifies db`pending
      ensures db.Valid() && db.pending.Some? && db.View() == WithChild(m, old(db.View()), input)
    {
      if input.childCap.Some? { db.PendingSet(ScopeKey(ChildScope(input.childKey)), ScopeV(scope)); }
      db.PendingSet(ChildKey(input.childKey), TaskV(record));
      db.PendingSet(WorkspaceKey(input.workspaceId), WorkspaceV(input.childKey, input.path));
      db.PendingSet(ChildFormatKey, NumberV(FORMAT));
    }

    method CreateDelegatedChild(input: CreateInput) returns (r: Result<CreateResult>)
      requires Valid()
      modifies db
      ensures db.Valid() && db.Transacts(CreateChild(old(db.View()), input), r)
      ensures r.Success? ==> CreateTold(old(db.View()), db.View(), input, r.value)
    {
      CreateIsTrue(db.View(), input);
      var begun := Begin();
      if begun.Failure? { return Failure(begun.code); }
      var body := WriteChild(input);
      r := db.Finish(begun.value, body);
    }

    // ----- Attempts and states --------------------------------------------------------------

    method WriteAttempt(cas: Cas, nextAttemptId: string, startedAt: int) returns (result: Option<Task>)
      requires db.Valid() && db.Usable() && db.pending.Some? && Writable(db.View())
      modifies db`pending
      ensures db.Valid() && db.pending.Some?
      ensures BeginAttempt(old(db.View()), cas, nextAttemptId, startedAt) == Done(db.View(), result)
    {
      var found := TaskAt(db.View(), cas.childKey);
      if found.None? || found.value.creationId != cas.creationId { return None; }
      var row := found.value;
      if row.creationPhase == BeingCreated && row.attemptId == nextAttemptId
         && row.creationRevision == cas.expectedRevision + 1
      {
        return found;
      }
      if nextAttemptId == "" || nextAttemptId == cas.attemptId || !Matches(row, cas, Deferred) { return None; }
      row := row.(attemptId := nextAttemptId, creationPhase := BeingCreated,
                  creationRevision := row.creationRevision + 1, attemptStartedAt := startedAt,
                  deferredFact := None, cancelledFact := None);
      db.PendingSet(ChildKey(cas.childKey), TaskV(row));
      result := Some(row);
    }

    method BeginChildAttempt(cas: Cas, nextAttemptId: string, startedAt: int) returns (r: Result<Option<Task>>)
      requires db.Valid()
      modifies db
      ensures db.Valid() && db.Transacts(BeginAttempt(old(db.View()), cas, nextAttemptId, startedAt), r)
      ensures r.Success? ==> BeginTold(old(db.View()), db.View(), cas, nextAttemptId, startedAt, r.value)
    {
      BeginIsTrue(db.View(), cas, nextAttemptId, startedAt);
      var begun := Begin();
      if begun.Failure? { return Failure(begun.code); }
      var result := WriteAttempt(cas, nextAttemptId, startedAt);
      r := db.Commit(begun.value, result);
    }

    method WriteDeferral(cas: Cas, at: int) returns (r: Result<(string, int, int)>)
      requires db.Valid() && db.Usable() && db.pending.Some? && Writable(db.View())
      modifies db`pending
      ensures db.Valid() && db.pending.Some?
      ensures match DeferAttempt(old(db.View()), cas, at)
              case Refused(code) => r == Failure(code)
              case Done(next, fact) => r == Success(fact) && db.View() == next
    {
      var row := TaskAt(db.View(), cas.childKey);
      if row.Some? && SameAttempt(row.value, cas) && row.value.creationPhase == Deferred
         && row.value.deferredFact.Some? {
        return Success(row.value.deferredFact.value);
      }
      if row.None? || !Matches(row.value, cas, BeingCreated) { return Failure(ECas); }
      var fact := (cas.attemptId, cas.expectedRevision + 1, at);
      db.PendingSet(ChildKey(cas.childKey),
        TaskV(row.value.(creationPhase := Deferred, creationRevision := fact.1, deferredFact := Some(fact))));
      r := Success(fact);
    }

    method DeferCreatingChild(cas: Cas, at: int) returns (r: Result<(string, int, int)>)
      requires db.Valid()
      modifies db
      ensures db.Valid() && db.Transacts(DeferAttempt(old(db.View()), cas, at), r)
      ensures r.Success? ==> DeferTold(old(db.View()), db.View(), cas, at, r.value)
    {
      DeferIsTrue(db.View(), cas, at);
      var begun := Begin();
      if begun.Failure? { return Failure(begun.code); }
      var body := WriteDeferral(cas, at);
      r := db.Finish(begun.value, body);
    }

    method CommitCreatingChild(cas: Cas) returns (r: Result<bool>)
      requires db.Valid()
      modifies db
      ensures db.Valid() && db.Transacts(CommitAttempt(old(db.View()), cas), r)
      ensures r.Success? ==> CommitTold(old(db.View()), db.View(), cas, r.value)
    {
      CommitIsTrue(db.View(), cas);
      var begun := Begin();
      if begun.Failure? { return Failure(begun.code); }
      var result := WriteCommitment(cas);
      r := db.Commit(begun.value, result);
    }

    method WriteCommitment(cas: Cas) returns (committed: bool)
      requires db.Valid() && db.Usable() && db.pending.Some? && Writable(db.View())
      modifies db`pending
      ensures db.Valid() && db.pending.Some?
      ensures CommitAttempt(old(db.View()), cas) == Done(db.View(), committed)
    {
      var row := TaskAt(db.View(), cas.childKey);
      if row.Some? && SameAttempt(row.value, cas) && row.value.creationPhase == Committed { return true; }
      if row.None? || !Matches(row.value, cas, BeingCreated) { return false; }
      db.PendingSet(ChildKey(cas.childKey),
        TaskV(row.value.(creationPhase := Committed, creationRevision := row.value.creationRevision + 1)));
      committed := true;
    }

    method WriteCancellation(cas: Cas, openFailed: bool, at: int) returns (r: Result<(string, int, bool, int)>)
      requires db.Valid() && db.Usable() && db.pending.Some? && Writable(db.View())
      modifies db`pending
      ensures db.Valid() && db.pending.Some?
      ensures match CancelAttempt(old(db.View()), cas, openFailed, at)
              case Refused(code) => r == Failure(code)
              case Done(next, fact) => r == Success(fact) && db.View() == next
    {
      var row := TaskAt(db.View(), cas.childKey);
      if row.Some? && SameAttempt(row.value, cas) && row.value.creationPhase == CreationCancelled
         && row.value.cancelledFact.Some?
      {
        return Success(row.value.cancelledFact.value);
      }
      if row.None? || !Matches(row.value, cas, BeingCreated) { return Failure(ECas); }
      var fact := (cas.attemptId, cas.expectedRevision + 1, openFailed, at);
      var next := row.value.(
        creationPhase := CreationCancelled, creationRevision := fact.1, cancelledFact := Some(fact));
      if row.value.state == Creating {
        next := next.(state := if openFailed then Failed else Cancelled, stateRevision := row.value.stateRevision + 1);
      }
      db.PendingSet(ChildKey(cas.childKey), TaskV(next));
      r := Success(fact);
    }

    method CancelCreatingChild(cas: Cas, openFailed: bool, at: int) returns (r: Result<(string, int, bool, int)>)
      requires db.Valid()
      modifies db
      ensures db.Valid() && db.Transacts(CancelAttempt(old(db.View()), cas, openFailed, at), r)
      ensures r.Success? ==> CancelTold(old(db.View()), db.View(), cas, openFailed, at, r.value)
    {
      CancelIsTrue(db.View(), cas, openFailed, at);
      var begun := Begin();
      if begun.Failure? { return Failure(begun.code); }
      var body := WriteCancellation(cas, openFailed, at);
      r := db.Finish(begun.value, body);
    }

    method WriteState(child: string, revision: int, next: TaskState) returns (ok: bool)
      requires db.Valid() && db.Usable() && db.pending.Some? && Writable(db.View())
      modifies db`pending
      ensures db.Valid() && db.pending.Some?
      ensures CasState(old(db.View()), child, revision, next) == Done(db.View(), ok)
    {
      var row := TaskAt(db.View(), child);
      if row.None? || row.value.stateRevision != revision { return false; }
      if !MayMove(row.value.state, next) { return false; }
      db.PendingSet(ChildKey(child), TaskV(row.value.(state := next, stateRevision := revision + 1)));
      ok := true;
    }

    method CasTaskState(child: string, revision: int, next: TaskState) returns (r: Result<bool>)
      requires db.Valid()
      modifies db
      ensures db.Valid() && db.Transacts(CasState(old(db.View()), child, revision, next), r)
      ensures r.Success? ==> CasTold(old(db.View()), db.View(), child, revision, next, r.value)
    {
      CasIsTrue(db.View(), child, revision, next);
      var begun := Begin();
      if begun.Failure? { return Failure(begun.code); }
      var ok := WriteState(child, revision, next);
      r := db.Commit(begun.value, ok);
    }
  }

  function ActiveWhere(m: Table, test: Task -> bool): set<Key> {
    set k | k in m && IsTask(m, k) && Active(m[k].task.state) && test(m[k].task)
  }

  /** What the operations rely on holds in every reachable table. */
  lemma ReachableIsIndexed(m: Table, rules: Rules)
    requires Runs.WorldSound(m, rules)
    ensures Indexed(m)
  {
    forall p | PermitAt(m, p).Some? ensures Distinct(PermitAt(m, p).value.scopeIds) {
      assert Conservation.PermitSound(m, p, PermitAt(m, p).value);
    }
    forall k, k' | IsTask(m, k) && IsTask(m, k') && m[k].task.creationId == m[k'].task.creationId ensures k == k' {
      assert TaskAt(m, k.child).Some? && TaskAt(m, k'.child).Some?;
    }
  }

  lemma CreationFound(m: Table, creationId: string, hit: Option<Key>)
    requires Indexed(m)
    requires hit.Some? ==> IsTask(m, hit.value) && m[hit.value].task.creationId == creationId
    requires hit.None? ==> forall k | k in m :: !(k.ChildKey? && m[k].TaskV? && m[k].task.creationId == creationId)
    ensures FindCreation(m, creationId) == if hit.Some? then Some(m[hit.value].task) else None
  {
  }

  lemma PriorFound(m: Table, root: string, effect: string, hit: Option<Key>)
    requires Indexed(m)
    requires hit.Some? ==>
               hit.value in m && hit.value.PermitKey? && m[hit.value].PermitV?
               && m[hit.value].permit.rootTaskId == root && m[hit.value].permit.effectId == effect
    requires hit.None? ==> forall k | k in m ::
               !(k.PermitKey? && m[k].PermitV? && m[k].permit.rootTaskId == root && m[k].permit.effectId == effect)
    ensures FindPermit(m, root, effect) == if hit.Some? then Some(hit.value.permit) else None
  {
    if hit.Some? { assert IsPermitFor(m, hit.value.permit, root, effect); }
    var found := FindPermit(m, root, effect);
    if found.Some? { assert IsPermitFor(m, found.value, root, effect) && PermitKey(found.value) in m; }
  }
}
