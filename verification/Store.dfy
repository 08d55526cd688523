/** The rows the persistence provider keeps in its journal, by key. */
module Store {
  import opened Wrappers

  /** A JSON value, as far as the provider looks into it. */
  datatype Data = Null | Scalar(text: string) | Array(items: seq<Data>) | Object(fields: map<string, Data>)

  // ----- Ledger rows ------------------------------------------------------------------------

  datatype Event = Event(
    id: string,
    kind: string,
    lane: Option<string>,
    register: Option<string>,
    data: Data)

  datatype Integrity = Integrity(mode: string, previousDigest: Option<string>, digest: string)

  datatype Row = Row(at: nat, event: Event, integrity: Option<Integrity>)

  datatype Fork = Fork(parent: string, boundarySeq: nat)

  datatype Session = Session(fork: Option<Fork>, lastSeq: nat)

  datatype Lease = Lease(runId: string, until: int, ttlMs: int)

  datatype Cell = Cell(register: string, key: string, at: nat, data: Data)

  const OP_STATE := "op.state"

  // ----- Child-control rows -----------------------------------------------------------------

  /** The texts `root:<task>` and `child:<session>` are told apart from each other and the rest. */
  datatype ScopeId = RootScope(task: string) | ChildScope(child: string) | OtherScope(name: string)

  datatype Scope = Scope(
    rootTaskId: string,
    child: Option<string>,
    parent: Option<ScopeId>,
    cap: int,
    settled: int,
    held: int)

  datatype PermitStatus = Held | Settled | Released | Unknown

  datatype Permit = Permit(
    rootTaskId: string,
    scopeIds: seq<ScopeId>,
    q: int,
    effectId: string,
    requestHash: string,
    writerGeneration: int,
    status: PermitStatus)

  datatype Binding = Binding(
    permitId: int,
    effectId: string,
    requestHash: string,
    writerGeneration: int,
    scopeIds: seq<ScopeId>)

  /** A recorded cost; its amount may be unknown. */
  datatype Origin = Origin(micro: Option<int>, binding: Binding)

  datatype CreationPhase = BeingCreated | Deferred | Committed | CreationCancelled

  datatype TaskState =
    | Creating | Ready | Idle | Interrupted | Running | WaitingApproval | RecoveryPending
    | Cancelling | Completed | Failed | Cancelled

  datatype Task = Task(
    childKey: string,
    parentKey: string,
    boundarySeq: int,
    creationId: string,
    attemptId: string,
    creationPhase: CreationPhase,
    creationRevision: int,
    attemptStartedAt: int,
    deferredFact: Option<(string, int, int)>,            // attempt, revision, time
    cancelledFact: Option<(string, int, bool, int)>,     // attempt, revision, whether the open failed, time
    rootTaskId: string,
    runtimeOwner: string,
    generationDepth: int,
    generationLimit: int,
    inputHash: string,
    brief: string,                                       // kind, text, directory, actor and isolation
    budgetScopeId: ScopeId,
    ancestorScopeIds: seq<ScopeId>,
    workspaceId: string,
    state: TaskState,
    stateRevision: int)

  // ----- Keys and values --------------------------------------------------------------------

  /** A key is the JSON text of a list of parts; the first part names the kind. */
  datatype Key =
    | SessionKey(session: string)
    | LeaseKey(session: string)
    | EventKey(session: string, at: nat)
    | RegisterKey(session: string, register: string, cell: string)
    | ChildKey(child: string)
    | ScopeKey(scope: ScopeId)
    | PermitKey(permit: int)
    | OriginKey(session: string, costSeq: int)
    | GenerationKey(root: string)
    | PermitCounterKey
    | ChildFormatKey
    | WorkspaceKey(workspace: string)
    | MetadataKey(owner: string, name: string, entry: string)
    | RecoveryKey

  datatype Value =
    | SessionV(session: Session)
    | LeaseV(lease: Lease)
    | RowV(row: Row)
    | CellV(cell: Cell)
    | TaskV(task: Task)
    | ScopeV(scope: Scope)
    | PermitV(permit: Permit)
    | OriginV(origin: Origin)
    | NumberV(number: int)
    | WorkspaceV(child: string, path: string)
    | DataV(data: Data)

  type Table = map<Key, Value>

  // A row of the wrong kind reads as absent; no operation writes one.

  function SessionAt(m: Table, s: string): Option<Session> {
    var k := SessionKey(s);
    if k in m && m[k].SessionV? then Some(m[k].session) else None
  }

  function LeaseAt(m: Table, s: string): Option<Lease> {
    var k := LeaseKey(s);
    if k in m && m[k].LeaseV? then Some(m[k].lease) else None
  }

  function RowAt(m: Table, s: string, n: nat): Option<Row> {
    var k := EventKey(s, n);
    if k in m && m[k].RowV? then Some(m[k].row) else None
  }

  function CellAt(m: Table, s: string, register: string, cell: string): Option<Cell> {
    var k := RegisterKey(s, register, cell);
    if k in m && m[k].CellV? then Some(m[k].cell) else None
  }

  function TaskAt(m: Table, child: string): Option<Task> {
    var k := ChildKey(child);
    if k in m && m[k].TaskV? then Some(m[k].task) else None
  }

  function ScopeAt(m: Table, id: ScopeId): Option<Scope> {
    var k := ScopeKey(id);
    if k in m && m[k].ScopeV? then Some(m[k].scope) else None
  }

  function PermitAt(m: Table, p: int): Option<Permit> {
    var k := PermitKey(p);
    if k in m && m[k].PermitV? then Some(m[k].permit) else None
  }

  function OriginAt(m: Table, s: string, n: int): Option<Origin> {
    var k := OriginKey(s, n);
    if k in m && m[k].OriginV? then Some(m[k].origin) else None
  }

  function NumberAt(m: Table, k: Key, default: int): int {
    if k in m && m[k].NumberV? then m[k].number else default
  }

  /** A task's writer generation starts at one. */
  function Generation(m: Table, root: string): int {
    NumberAt(m, GenerationKey(root), 1)
  }

  function PermitCounter(m: Table): int {
    NumberAt(m, PermitCounterKey, 0)
  }

  const FORMAT := 4

  /** Child control refuses to write rows of a newer format. */
  predicate Writable(m: Table) {
    NumberAt(m, ChildFormatKey, FORMAT) <= FORMAT
  }
}
