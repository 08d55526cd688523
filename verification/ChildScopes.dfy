/** The scopes a delegated child spends from: its cap holds over every run, and one tree is charged. */
module ChildScopes {
  import opened Wrappers
  import opened Store
  import opened Journals
  import opened LedgerSteps
  import opened LedgerRuns
  import opened Budget
  import opened Conservation
  import opened BudgetRuns
  import opened Children
  import opened Runs
  import opened History
  import opened Answers

  // ----- Scopes stay ------------------------------------------------------------------------

  /** No scope disappears, changes its place or its cap. */
  ghost predicate KeepsScopes(m: Table, m': Table) {
    forall id :: ScopeAt(m, id).Some? ==>
      ScopeAt(m', id).Some? && SameScope(ScopeAt(m, id).value, ScopeAt(m', id).value)
  }

  lemma StepKeepsScopes(m: Table, rules: Rules, op: Op)
    requires WorldSound(m, rules)
    ensures KeepsScopes(m, After(m, rules, op))
  {
    var m' := After(m, rules, op);
    if IsBudgetOp(op) {
      BudgetOpScopes(m, rules, op);
    } else if op.CreateOp? {
      CreationKeepsScopes(m, rules, op.input);
    } else {
      if IsLedgerOp(op) { LedgerOpRows(m, rules, op); } else { TaskOpRows(m, rules, op); }
      SameBudgetRows(m, m');
    }
  }

  lemma CreationKeepsScopes(m: Table, rules: Rules, input: CreateInput)
    requires TasksSound(m)
    ensures KeepsScopes(m, After(m, rules, CreateOp(input)))
  {
    if Creates(m, input) {
      var forked := CreateSteps(m, rules, input);
      CreateScopes(m, forked, input);
    } else {
      NothingCreated(m, rules, input);
    }
  }

  lemma {:induction false} RunKeepsScopes(m: Table, rules: Rules, ops: seq<Op>)
    requires WorldSound(m, rules) && PermittedRun(m, rules, ops)
    ensures KeepsScopes(m, Run(m, rules, ops))
    decreases |ops|
  {
    if ops != [] {
      var next := After(m, rules, ops[0]);
      StepKeepsScopes(m, rules, ops[0]);
      StepKeeps(m, rules, ops[0]);
      RunKeepsScopes(next, rules, ops[1..]);
      var end := Run(next, rules, ops[1..]);
      forall id | ScopeAt(m, id).Some? ensures
        ScopeAt(end, id).Some? && SameScope(ScopeAt(m, id).value, ScopeAt(end, id).value)
      {
        assert ScopeAt(next, id).Some?;
      }
    }
  }

  // ----- A child's cap ----------------------------------------------------------------------

  /** A child created with a cap lists a scope of its own that has this cap, and spends from it. */
  lemma CappedAtCreation(m: Table, rules: Rules, input: CreateInput)
    requires WorldSound(m, rules) && Creates(m, input) && input.childCap.Some?
    ensures
      var m' := After(m, rules, CreateOp(input));
      var own := ChildScope(input.childKey);
      && TaskAt(m', input.childKey).Some? && own in TaskAt(m', input.childKey).value.ancestorScopeIds
      && TaskAt(m', input.childKey).value.budgetScopeId == own
      && ScopeAt(m', own).Some? && ScopeAt(m', own).value.cap == input.childCap.value
  {
    CreateForks(m, rules, input);
    NewTaskIsTrue(m, input);
    ChildRowsAreTrue(m, input, Session(Some(Fork(input.parentKey, input.boundarySeq)), input.boundarySeq));
  }

  /**
   * Whatever runs after a child was created with a cap: a reservation that is granted over the scopes the
   * child lists leaves the child's own scope at or under this cap.
   */
  lemma ChildCapHolds(m: Table, rules: Rules, input: CreateInput, ops: seq<Op>, request: ReserveInput)
    requires WorldSound(m, rules) && Creates(m, input) && input.childCap.Some?
    requires PermittedRun(After(m, rules, CreateOp(input)), rules, ops)
    requires
      var later := Run(After(m, rules, CreateOp(input)), rules, ops);
      && TaskAt(later, input.childKey).Some?
      && request.scopeIds == TaskAt(later, input.childKey).value.ancestorScopeIds
      && Reserve(later, request).Done? && Reserve(later, request).value.Reserved?
      && !Reserve(later, request).value.existing
    ensures
      var Done(end, _) := Reserve(Run(After(m, rules, CreateOp(input)), rules, ops), request);
      var own := ScopeAt(end, ChildScope(input.childKey));
      own.Some? && own.value.cap == input.childCap.value && own.value.settled + own.value.held <= input.childCap.value
  {
    var m1 := After(m, rules, CreateOp(input));
    var later := Run(m1, rules, ops);
    CappedAtCreation(m, rules, input);
    StepKeeps(m, rules, CreateOp(input));
    RunKeepsScopes(m1, rules, ops);
    RunAdvances(m1, rules, ops);
    assert SameCreation(TaskAt(m1, input.childKey).value, TaskAt(later, input.childKey).value);
    GrantedWithinCap(later, request, ChildScope(input.childKey));
  }

  lemma GrantedWithinCap(m: Table, request: ReserveInput, id: ScopeId)
    requires id in request.scopeIds
    requires Reserve(m, request).Done? && Reserve(m, request).value.Reserved? && !Reserve(m, request).value.existing
    ensures
      var Done(m', _) := Reserve(m, request);
      && ScopeAt(m, id).Some? && ScopeAt(m', id).Some? && SameScope(ScopeAt(m, id).value, ScopeAt(m', id).value)
      && ScopeAt(m', id).value.settled + ScopeAt(m', id).value.held <= ScopeAt(m, id).value.cap
  {
    ReserveIsTrue(m, request);
    GrantMovesRows(m, request);
    assert HasRoom(m, id, request.q);
  }

  // ----- One tree ---------------------------------------------------------------------------

  /** Every task lists scopes of its own root only. */
  ghost predicate OneRoot(m: Table) {
    forall c :: TaskAt(m, c).Some? ==> OfOneRoot(m, TaskAt(m, c).value)
  }

  ghost predicate OfOneRoot(m: Table, t: Task) {
    forall id | id in t.ancestorScopeIds :: OfRoot(m, id, t.rootTaskId)
  }

  /** The request names the root of its parent, if that is a task. */
  predicate NamesParentsRoot(m: Table, input: CreateInput) {
    TaskAt(m, input.parentKey).Some? ==> TaskAt(m, input.parentKey).value.rootTaskId == input.rootTaskId
  }

  /** A new child lists scopes of one root if and only if its request names the root of its parent. */
  lemma NewTaskOfOneRootExactly(m: Table, rules: Rules, input: CreateInput)
    requires WorldSound(m, rules) && OneRoot(m) && Creates(m, input)
    ensures OfOneRoot(After(m, rules, CreateOp(input)), NewTask(m, input)) <==> NamesParentsRoot(m, input)
  {
    if NamesParentsRoot(m, input) {
      SameRootIsOneRoot(m, rules, input);
    } else {
      ParentsRootIsForeign(m, rules, input);
    }
  }

  lemma ParentsRootIsForeign(m: Table, rules: Rules, input: CreateInput)
    requires WorldSound(m, rules) && OneRoot(m) && Creates(m, input) && !NamesParentsRoot(m, input)
    ensures !OfOneRoot(After(m, rules, CreateOp(input)), NewTask(m, input))
  {
    var parent := TaskAt(m, input.parentKey).value;
    var root := RootScope(parent.rootTaskId);
    NewTaskIsTrue(m, input);
    CreationKeepsScopes(m, rules, input);
    assert ScopesListed(m, parent) && OfOneRoot(m, parent);
    assert Above(m, input, root) && OfRoot(m, root, parent.rootTaskId);
    assert root in NewTask(m, input).ancestorScopeIds;
  }

  lemma SameRootIsOneRoot(m: Table, rules: Rules, input: CreateInput)
    requires WorldSound(m, rules) && OneRoot(m) && Creates(m, input) && NamesParentsRoot(m, input)
    ensures OfOneRoot(After(m, rules, CreateOp(input)), NewTask(m, input))
  {
    var m', t := After(m, rules, CreateOp(input)), NewTask(m, input);
    NewTaskIsTrue(m, input);
    CreateForks(m, rules, input);
    CreationKeepsScopes(m, rules, input);
    ChildRowsAreTrue(m, input, Session(Some(Fork(input.parentKey, input.boundarySeq)), input.boundarySeq));
    forall id | id in t.ancestorScopeIds ensures OfRoot(m', id, t.rootTaskId) {
      if Above(m, input, id) { AboveIsOfRoot(m, rules, input, id); }
    }
  }

  lemma AboveIsOfRoot(m: Table, rules: Rules, input: CreateInput, id: ScopeId)
    requires WorldSound(m, rules) && OneRoot(m) && NamesParentsRoot(m, input) && Above(m, input, id)
    requires ScopeAt(m, RootScope(input.rootTaskId)).Some?
    ensures OfRoot(m, id, input.rootTaskId)
  {
    if TaskAt(m, input.parentKey).Some? {
      assert ScopesListed(m, TaskAt(m, input.parentKey).value) && OfOneRoot(m, TaskAt(m, input.parentKey).value);
    }
  }

  lemma CreateKeepsOneRootExactly(m: Table, rules: Rules, input: CreateInput)
    requires WorldSound(m, rules) && OneRoot(m) && Creates(m, input)
    ensures OneRoot(After(m, rules, CreateOp(input))) <==> NamesParentsRoot(m, input)
  {
    var m' := After(m, rules, CreateOp(input));
    NewTaskOfOneRootExactly(m, rules, input);
    CreationKeepsScopes(m, rules, input);
    CreatedTasks(m, rules, input);
    if NamesParentsRoot(m, input) {
      forall c | TaskAt(m', c).Some? ensures OfOneRoot(m', TaskAt(m', c).value) {
        if c != input.childKey { assert OfOneRoot(m, TaskAt(m, c).value); }
      }
    }
  }

  lemma CreatedTasks(m: Table, rules: Rules, input: CreateInput)
    requires TasksSound(m) && Creates(m, input)
    ensures forall c :: TaskAt(After(m, rules, CreateOp(input)), c) ==
                        if c == input.childKey then Some(NewTask(m, input)) else TaskAt(m, c)
  {
    var forked := CreateSteps(m, rules, input);
    CreateRows(m, forked, input);
  }

  lemma StepKeepsOneRoot(m: Table, rules: Rules, op: Op)
    requires WorldSound(m, rules) && OneRoot(m)
    requires op.CreateOp? && Creates(m, op.input) ==> NamesParentsRoot(m, op.input)
    ensures OneRoot(After(m, rules, op))
  {
    var m' := After(m, rules, op);
    if op.CreateOp? && Creates(m, op.input) {
      CreateKeepsOneRootExactly(m, rules, op.input);
    } else {
      StepKeepsScopes(m, rules, op);
      OldTasks(m, rules, op);
      forall c | TaskAt(m', c).Some? ensures OfOneRoot(m', TaskAt(m', c).value) {
        assert OfOneRoot(m, TaskAt(m, c).value);
      }
    }
  }

  /** But for a creation, every task was there before and lists the same scopes. */
  lemma OldTasks(m: Table, rules: Rules, op: Op)
    requires !(op.CreateOp? && Creates(m, op.input))
    ensures forall c :: TaskAt(After(m, rules, op), c).Some? ==>
              TaskAt(m, c).Some? && SameCreation(TaskAt(m, c).value, TaskAt(After(m, rules, op), c).value)
  {
    var m' := After(m, rules, op);
    if IsTaskOp(op) {
      TaskOpShape(m, rules, op);
    } else if op.CreateOp? {
      NothingCreated(m, rules, op.input);
    } else {
      if IsLedgerOp(op) { LedgerOpRows(m, rules, op); } else { BudgetOpRows(m, rules, op); }
      SameTaskRows(m, m');
    }
  }

  /** Every creation of the run that goes through names its parent's root. */
  ghost predicate NamesParentsRoots(m: Table, rules: Rules, ops: seq<Op>)
    decreases |ops|
  {
    ops == []
    || (&& (ops[0].CreateOp? && Creates(m, ops[0].input) ==> NamesParentsRoot(m, ops[0].input))
        && NamesParentsRoots(After(m, rules, ops[0]), rules, ops[1..]))
  }

  /** After a run every task lists scopes of its own root only, if and only if the run is such a one. */
  lemma {:induction false} RunKeepsOneRootExactly(m: Table, rules: Rules, ops: seq<Op>)
    requires WorldSound(m, rules) && PermittedRun(m, rules, ops) && OneRoot(m)
    ensures OneRoot(Run(m, rules, ops)) <==> NamesParentsRoots(m, rules, ops)
    decreases |ops|
  {
    if ops != [] {
      var next := After(m, rules, ops[0]);
      StepKeeps(m, rules, ops[0]);
      if ops[0].CreateOp? && Creates(m, ops[0].input) && !NamesParentsRoot(m, ops[0].input) {
        CreateKeepsOneRootExactly(m, rules, ops[0].input);
        ForeignScopeStays(next, rules, ops[1..]);
      } else {
        StepKeepsOneRoot(m, rules, ops[0]);
        RunKeepsOneRootExactly(next, rules, ops[1..]);
      }
    }
  }

  /** No run repairs a task that lists a scope of another root. */
  lemma ForeignScopeStays(m: Table, rules: Rules, ops: seq<Op>)
    requires WorldSound(m, rules) && PermittedRun(m, rules, ops) && !OneRoot(m)
    ensures !OneRoot(Run(m, rules, ops))
  {
    var later := Run(m, rules, ops);
    RunAdvances(m, rules, ops);
    RunKeepsScopes(m, rules, ops);
    var c :| TaskAt(m, c).Some? && !OfOneRoot(m, TaskAt(m, c).value);
    assert ScopesListed(m, TaskAt(m, c).value);
    assert SameCreation(TaskAt(m, c).value, TaskAt(later, c).value);
  }

  /**
   * A task that lists a scope of another root can reserve nothing over its list: each such request is
   * told to be invalid, now and ever after, unless its effect had a permit before.
   */
  lemma ForeignScopeReservesNothing(
    m: Table, rules: Rules, ops: seq<Op>, c: string, id: ScopeId, request: ReserveInput)
    requires WorldSound(m, rules) && PermittedRun(m, rules, ops)
    requires TaskAt(m, c).Some? && id in TaskAt(m, c).value.ancestorScopeIds
    requires !OfRoot(m, id, TaskAt(m, c).value.rootTaskId)
    requires
      var later := Run(m, rules, ops);
      && TaskAt(later, c).Some? && request.scopeIds == TaskAt(later, c).value.ancestorScopeIds
      && request.rootTaskId == TaskAt(later, c).value.rootTaskId
      && (forall p :: !IsPermitFor(later, p, request.rootTaskId, request.effectId)) && Writable(later)
    ensures Reserve(Run(m, rules, ops), request) == Done(Run(m, rules, ops), InvalidBinding)
  {
    var later := Run(m, rules, ops);
    RunAdvances(m, rules, ops);
    RunKeepsScopes(m, rules, ops);
    assert SameCreation(TaskAt(m, c).value, TaskAt(later, c).value);
    assert ScopesListed(m, TaskAt(m, c).value);
    assert id in request.scopeIds && !OfRoot(later, id, request.rootTaskId);
    ReserveGrantsExactly(later, request);
    ReserveIsTrue(later, request);
  }
}
