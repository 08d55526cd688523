/** Delegated child tasks: creation attempts and execution states, as steps on the table. */
module Children {
  import opened Wrappers
  import opened Store
  import opened Journals
  import opened LedgerSteps

  // ----- Requests and results ---------------------------------------------------------------

  datatype CreateInput = CreateInput(
    childKey: string,
    parentKey: string,
    boundarySeq: int,
    creationId: string,
    attemptId: Option<string>,
    startedAt: int,
    rootTaskId: string,
    runtimeOwner: string,
    generationDepth: int,
    generationLimit: int,
    maxFanOut: int,
    inputHash: string,
    brief: string,
    childCap: Option<int>,
    workspaceId: string,
    path: string,
    writerRunId: string)

  datatype CreateResult =
    | Created(task: Task)
    | Existing(task: Task)
    | Conflict(task: Task)
    | GenerationLimit
    | FanOutLimit
    | OutOfBudget

  datatype Cas = Cas(childKey: string, creationId: string, attemptId: string, expectedRevision: int)

  // ----- Reading ----------------------------------------------------------------------------

  predicate IsTask(m: Table, k: Key) {
    k in m && k.ChildKey? && m[k].TaskV?
  }

  predicate Active(s: TaskState) {
    s in {Creating, Ready, Running, WaitingApproval, RecoveryPending, Cancelling}
  }

  predicate Terminal(s: TaskState) {
    s in {Completed, Failed, Cancelled}
  }

  function ActiveOfParent(m: Table, parent: string): set<Key> {
    set k | k in m && IsTask(m, k) && m[k].task.parentKey == parent && Active(m[k].task.state)
  }

  function ActiveOfRoot(m: Table, root: string): set<Key> {
    set k | k in m && IsTask(m, k) && m[k].task.rootTaskId == root && Active(m[k].task.state)
  }

  ghost function FindCreation(m: Table, creationId: string): (r: Option<Task>)
    ensures r.Some? ==> exists k :: IsTask(m, k) && m[k].task == r.value && r.value.creationId == creationId
    ensures r.None? ==> forall k :: IsTask(m, k) ==> m[k].task.creationId != creationId
  {
    if exists k :: IsTask(m, k) && m[k].task.creationId == creationId then
      var k :| IsTask(m, k) && m[k].task.creationId == creationId;
      Some(m[k].task)
    else None
  }

  /** The scopes a new child would charge: its parent's, with the root's scope always among them. */
  function Ancestors(m: Table, parentKey: string, root: string): seq<ScopeId> {
    var parent := TaskAt(m, parentKey);
    var inherited := if parent.Some? then parent.value.ancestorScopeIds else [RootScope(root)];
    var withParent :=
      if parent.Some? && parent.value.budgetScopeId !in inherited then inherited + [parent.value.budgetScopeId]
      else inherited;
    if RootScope(root) in withParent then withParent else [RootScope(root)] + withParent
  }

  /** Every ancestor scope exists and can still afford the child's cap, if it has one. */
  predicate CapFits(m: Table, ids: seq<ScopeId>, cap: Option<int>) {
    forall id | id in ids ::
      && ScopeAt(m, id).Some?
      && (cap.Some? ==>
            var s := ScopeAt(m, id).value; 0 <= cap.value <= s.cap - s.settled - s.held)
  }

  predicate Matches(row: Task, cas: Cas, phase: CreationPhase) {
    && row.creationId == cas.creationId && row.attemptId == cas.attemptId
    && row.creationPhase == phase && row.creationRevision == cas.expectedRevision
  }

  predicate SameAttempt(row: Task, cas: Cas) {
    row.creationId == cas.creationId && row.attemptId == cas.attemptId
  }

  // ----- Creation ---------------------------------------------------------------------------

  function NewTask(m: Table, input: CreateInput): Task {
    var parent := TaskAt(m, input.parentKey);
    var ancestors := Ancestors(m, input.parentKey, input.rootTaskId);
    var own := ChildScope(input.childKey);
    var inheritedScope := if parent.Some? then parent.value.budgetScopeId else RootScope(input.rootTaskId);
    Task(
      childKey := input.childKey,
      parentKey := input.parentKey,
      boundarySeq := input.boundarySeq,
      creationId := input.creationId,
      attemptId := if input.attemptId.Some? then input.attemptId.value else "legacy:" + input.writerRunId,
      creationPhase := BeingCreated,
      creationRevision := 1,
      attemptStartedAt := input.startedAt,
      deferredFact := None,
      cancelledFact := None,
      rootTaskId := input.rootTaskId,
      runtimeOwner := if parent.Some? then parent.value.runtimeOwner else input.runtimeOwner,
      generationDepth := input.generationDepth,
      generationLimit := input.generationLimit,
      inputHash := input.inputHash,
      brief := input.brief,
      budgetScopeId := if input.childCap.Some? then own else inheritedScope,
      ancestorScopeIds := if input.childCap.Some? then ancestors + [own] else ancestors,
      workspaceId := input.workspaceId,
      state := Creating,
      stateRevision := 1)
  }

  function NewScope(m: Table, input: CreateInput, cap: int): Scope {
    var parent := TaskAt(m, input.parentKey);
    Scope(input.rootTaskId, Some(input.childKey),
          Some(if parent.Some? then parent.value.budgetScopeId else RootScope(input.rootTaskId)), cap, 0, 0)
  }

  /** The rows a creation adds to the table that already has the child's session. */
  function WithChild(m: Table, forked: Table, input: CreateInput): Table {
    var scoped :=
      if input.childCap.Some?
      then forked[ScopeKey(ChildScope(input.childKey)) := ScopeV(NewScope(m, input, input.childCap.value))]
      else forked;
    scoped[ChildKey(input.childKey) := TaskV(NewTask(m, input))]
          [WorkspaceKey(input.workspaceId) := WorkspaceV(input.childKey, input.path)]
          [ChildFormatKey := NumberV(FORMAT)]
  }

  ghost function CreateChild(m: Table, input: CreateInput): Outcome<Table, CreateResult> {
    if !Writable(m) then Refused(EFormat)
    else
      match FindCreation(m, input.creationId)
      case Some(task) => Done(m, if task.inputHash == input.inputHash then Existing(task) else Conflict(task))
      case None =>
        if input.generationDepth > input.generationLimit then Done(m, GenerationLimit)
        else if |ActiveOfParent(m, input.parentKey)| >= input.maxFanOut
             || |ActiveOfRoot(m, input.rootTaskId)| >= input.maxFanOut then Done(m, FanOutLimit)
        else if ScopeAt(m, RootScope(input.rootTaskId)).None? then Done(m, OutOfBudget)
        else if !CapFits(m, Ancestors(m, input.parentKey, input.rootTaskId), input.childCap) then Done(m, OutOfBudget)
        else if SessionAt(m, input.childKey).Some? then Refused(EStorageFault)
        else if WorkspaceKey(input.workspaceId) in m then Refused(EStorageFault)
        else
          match CreateFork(m, input.parentKey, input.boundarySeq, input.childKey)
          case Refused(code) => Refused(code)
          case Done(forked, _) => Done(WithChild(m, forked, input), Created(NewTask(m, input)))
  }

  /** The task is the one that was created: only its attempt and its state may have moved. */
  predicate SameCreation(t: Task, t': Task) {
    t' == t.(attemptId := t'.attemptId, creationPhase := t'.creationPhase, creationRevision := t'.creationRevision,
             attemptStartedAt := t'.attemptStartedAt, deferredFact := t'.deferredFact,
             cancelledFact := t'.cancelledFact, state := t'.state, stateRevision := t'.stateRevision)
  }

  // ----- Attempts ---------------------------------------------------------------------------

  /** Starts the next attempt of a deferred creation; a repeated call finds it already started. */
  function BeginAttempt(m: Table, cas: Cas, nextAttemptId: string, startedAt: int): Outcome<Table, Option<Task>> {
    var row := TaskAt(m, cas.childKey);
    if !Writable(m) then Refused(EFormat)
    else if row.None? || row.value.creationId != cas.creationId then Done(m, None)
    else if row.value.creationPhase == BeingCreated && row.value.attemptId == nextAttemptId
            && row.value.creationRevision == cas.expectedRevision + 1 then Done(m, row)
    else if nextAttemptId == "" || nextAttemptId == cas.attemptId || !Matches(row.value, cas, Deferred) then
      Done(m, None)
    else
      var next := row.value.(
                    attemptId := nextAttemptId,
                    creationPhase := BeingCreated,
                    creationRevision := row.value.creationRevision + 1,
                    attemptStartedAt := startedAt,
                    deferredFact := None,
                    cancelledFact := None);
      Done(m[ChildKey(cas.childKey) := TaskV(next)], Some(next))
  }

  function DeferAttempt(m: Table, cas: Cas, at: int): Outcome<Table, (string, int, int)> {
    var row := TaskAt(m, cas.childKey);
    if !Writable(m) then Refused(EFormat)
    else if row.Some? && SameAttempt(row.value, cas) && row.value.creationPhase == Deferred
            && row.value.deferredFact.Some? then Done(m, row.value.deferredFact.value)
    else if row.None? || !Matches(row.value, cas, BeingCreated) then Refused(ECas)
    else
      var fact := (cas.attemptId, cas.expectedRevision + 1, at);
      Done(m[ChildKey(cas.childKey) := TaskV(row.value.(
               creationPhase := Deferred, creationRevision := fact.1, deferredFact := Some(fact)))], fact)
  }

  function CommitAttempt(m: Table, cas: Cas): Outcome<Table, bool> {
    var row := TaskAt(m, cas.childKey);
    if !Writable(m) then Refused(EFormat)
    else if row.Some? && SameAttempt(row.value, cas) && row.value.creationPhase == Committed then Done(m, true)
    else if row.None? || !Matches(row.value, cas, BeingCreated) then Done(m, false)
    else
      Done(m[ChildKey(cas.childKey) := TaskV(row.value.(
               creationPhase := Committed, creationRevision := row.value.creationRevision + 1))], true)
  }

  /** Cancelling also takes a task that never left `creating` out of the active states. */
  function CancelAttempt(m: Table, cas: Cas, openFailed: bool, at: int): Outcome<Table, (string, int, bool, int)> {
    var row := TaskAt(m, cas.childKey);
    if !Writable(m) then Refused(EFormat)
    else if row.Some? && SameAttempt(row.value, cas) && row.value.creationPhase == CreationCancelled
            && row.value.cancelledFact.Some? then Done(m, row.value.cancelledFact.value)
    else if row.None? || !Matches(row.value, cas, BeingCreated) then Refused(ECas)
    else
      var fact := (cas.attemptId, cas.expectedRevision + 1, openFailed, at);
      var ended := row.value.(
                     creationPhase := CreationCancelled, creationRevision := fact.1, cancelledFact := Some(fact));
      var next := if row.value.state != Creating then ended
                  else ended.(state := if openFailed then Failed else Cancelled,
                              stateRevision := row.value.stateRevision + 1);
      Done(m[ChildKey(cas.childKey) := TaskV(next)], fact)
  }

  // ----- Execution states -------------------------------------------------------------------

  /** The moves `casState` allows; repeating the current state is always one. */
  predicate MayMove(from: TaskState, to: TaskState) {
    || from == to
    || (&& !Terminal(from)
        && (from == Cancelling ==> to in {Cancelled, Failed})
        && (to == Running ==> from in {Ready, WaitingApproval, Creating}))
  }

  function CasState(m: Table, child: string, revision: int, next: TaskState): Outcome<Table, bool> {
    var row := TaskAt(m, child);
    if !Writable(m) then Refused(EFormat)
    else if row.None? || row.value.stateRevision != revision || !MayMove(row.value.state, next) then Done(m, false)
    else Done(m[ChildKey(child) := TaskV(row.value.(state := next, stateRevision := revision + 1))], true)
  }
}
