/** Concrete tables on which a promise one might expect of the code does not hold. */
module Findings {
  import opened Wrappers
  import opened Store
  import opened Journals
  import opened LedgerSteps
  import opened LedgerRuns
  import opened Budget
  import opened Conservation
  import opened BudgetRuns
  import opened Children
  import opened Runs
  import opened Writers
  import opened History
  import opened FanOut

  const RULES := Rules((e: Event) => "cell", (r: string, d: Data) => d == Null)

  function Write(data: Data): CommitInput {
    CommitInput("run", [Event("id", "x", None, Some("note"), data)], None, None, None, None)
  }

  const OPEN := OpenOp("s", "run", 100, 0, 0)
  const WRITE := CommitOp("s", Write(Scalar("v")), 0)
  const ERASE := CommitOp("s", Write(Null), 0)
  const DISCARD := DiscardOp("s", "run", None, 0)

  /** The session is open to the run, at this number, with this number on its cell. */
  ghost predicate Wrote(m: Table, last: nat, at: Option<nat>) {
    && LeaseAt(m, "s") == Some(Lease("run", 100, 100))
    && SessionAt(m, "s") == Some(Session(None, last))
    && CellNumber(m, "s", "note", "cell") == at
  }

  lemma WriteOnce(m: Table, last: nat, at: Option<nat>, data: Data)
    requires Wrote(m, last, at)
    ensures
      var op := CommitOp("s", Write(data), 0);
      && WritesCell(m, RULES, op, "s", "note", "cell")
      && Wrote(After(m, RULES, op), last + 1, if data == Null then None else Some(last + 1))
  {
    var op := CommitOp("s", Write(data), 0);
    assert LastNaming(RULES, op.tx.events, "note", "cell") == 1;
    CommittedCell(m, RULES, op, "s", "note", "cell");
    CommitLast(m, RULES, op, "s");
  }

  lemma OpenOnce(m: Table)
    requires SessionAt(m, "s").None? && LeaseAt(m, "s").None? && CellAt(m, "s", "note", "cell").None?
    ensures Wrote(After(m, RULES, OPEN), 0, None)
  {
  }

  /**
   * Expecting an absent cell does not notice writes that were erased again: the cell is absent, is
   * written, is erased, and the expectation still holds.
   */
  lemma AbsentCellHidesWrites()
    ensures
      var m0 := After(map[], RULES, OPEN);
      var m1 := After(m0, RULES, WRITE);
      var m2 := After(m1, RULES, ERASE);
      && WritesCell(m0, RULES, WRITE, "s", "note", "cell") && WritesCell(m1, RULES, ERASE, "s", "note", "cell")
      && ExpectationMet(m0, "s", Some(RegisterExpectation("note", "cell", None)))
      && ExpectationMet(m2, "s", Some(RegisterExpectation("note", "cell", None)))
  {
    OpenOnce(map[]);
    var m0 := After(map[], RULES, OPEN);
    WriteOnce(m0, 0, None, Scalar("v"));
    WriteOnce(After(m0, RULES, WRITE), 1, Some(1), Null);
  }

  /**
   * Expecting a number does not notice a write after a discard: numbers start again from one, and the
   * new cell has the number of the old.
   */
  lemma DiscardHidesWrites()
    ensures
      var m1 := After(After(map[], RULES, OPEN), RULES, WRITE);
      var empty := After(m1, RULES, DISCARD);
      var m2 := After(empty, RULES, OPEN);
      && CellNumber(m1, "s", "note", "cell") == Some(1) && Permitted(m1, DISCARD)
      && WritesCell(m2, RULES, WRITE, "s", "note", "cell")
      && ExpectationMet(After(m2, RULES, WRITE), "s", Some(RegisterExpectation("note", "cell", Some(1))))
  {
    OpenOnce(map[]);
    var m0 := After(map[], RULES, OPEN);
    WriteOnce(m0, 0, None, Scalar("v"));
    var m1 := After(m0, RULES, WRITE);
    OpenRows(m0);
    OnlySession(m0);
    assert Hold(m1, "s", "run", None, 0).Some?;
    OpenOnce(After(m1, RULES, DISCARD));
    WriteOnce(After(After(m1, RULES, DISCARD), RULES, OPEN), 0, None, Scalar("v"));
  }

  /** No session is a fork, and nothing refers to `s`. */
  ghost predicate Unreferred(m: Table) {
    && (forall t :: ForkOf(m, t) == None) && TaskAt(m, "s").None? && ScopeAt(m, ChildScope("s")).None?
  }

  lemma OpenRows(m0: Table)
    requires m0 == After(map[], RULES, OPEN)
    ensures Unreferred(m0)
  {
  }

  lemma OnlySession(m0: Table)
    requires Unreferred(m0)
    ensures Permitted(After(m0, RULES, WRITE), DISCARD)
  {
    var m1 := After(m0, RULES, WRITE);
    LedgerOpRows(m0, RULES, WRITE);
    SameBudgetRows(m0, m1);
    SameTaskRows(m0, m1);
    forall k | k in m1 && k.SessionKey? && m1[k].SessionV? ensures m1[k].session.fork.None? {
      OneUnforked(m0, k.session);
      assert SessionAt(m1, k.session) == Some(m1[k].session);
    }
  }

  lemma OneUnforked(m0: Table, s: string)
    requires forall t :: ForkOf(m0, t) == None
    ensures ForkOf(After(m0, RULES, WRITE), s) == None
  {
    CommitTable(m0, RULES, WRITE);
    AppendEventsKeepSessions(m0, RULES, "s", Last(m0, "s"), WRITE.tx.events, None, s);
    assert ForkOf(m0, s) == None && ForkOf(m0, "s") == None;
  }

  /** A repair after a damaged tail rewrites an op.state cell and leaves its number. */
  lemma RepairRewritesCell(m: Table, c: string, at: nat, control: Data, phase: Data)
    requires CellAt(m, "s", OP_STATE, c) == Some(Cell(OP_STATE, c, at, Object(map[])))
    ensures
      var m' := After(m, RULES, RecoverOp(Null, control, phase));
      && CellAt(m', "s", OP_STATE, c) ==
           Some(Cell(OP_STATE, c, at, Object(map["control" := control, "phase" := phase])))
      && ExpectationMet(m', "s", Some(RegisterExpectation(OP_STATE, c, Some(at))))
  {
    assert map[]["control" := control]["phase" := phase] == map["control" := control, "phase" := phase];
  }

  /** And such a cell is two calls away. */
  lemma OpCellReachable()
    ensures
      var tx := CommitInput("run", [Event("id", "x", None, None, Null)], None, None, None,
                            Some(OpWrite("main", Object(map[]))));
      CellAt(After(After(map[], RULES, OPEN), RULES, CommitOp("s", tx, 0)), "s", OP_STATE, "main") ==
        Some(Cell(OP_STATE, "main", 1, Object(map[])))
  {
    OpenOnce(map[]);
  }

  /** Discarding a session that others fork from lets a later fork close a cycle. */
  lemma DiscardedParentClosesCycle()
    ensures
      var open := OpenOp("a", "run", 100, 0, 0);
      var fork, discard, back := ForkOp("a", 0, "b"), DiscardOp("a", "run", None, 0), ForkOp("b", 0, "a");
      var m1 := After(After(map[], RULES, open), RULES, fork);
      var m2 := After(After(m1, RULES, discard), RULES, back);
      && !Childless(m1, "a")
      && ForkOf(m2, "a") == Some(Fork("b", 0)) && ForkOf(m2, "b") == Some(Fork("a", 0))
      && !Acyclic(m2)
  {
    var m0 := After(map[], RULES, OpenOp("a", "run", 100, 0, 0));
    var m1 := After(m0, RULES, ForkOp("a", 0, "b"));
    assert m1[SessionKey("b")] == SessionV(Session(Some(Fork("a", 0)), 0));
    var d := After(m1, RULES, DiscardOp("a", "run", None, 0));
    assert Hold(m1, "a", "run", None, 0).Some?;
    assert SessionAt(d, "a").None? && SessionAt(d, "b").Some?;
    var m2 := After(d, RULES, ForkOp("b", 0, "a"));
    assert ForkOf(m2, "a") == Some(Fork("b", 0)) && ForkOf(m2, "b") == Some(Fork("a", 0));
    forall rank ensures !ForksRanked(m2, rank) {
    }
  }

  // ----- Runs -------------------------------------------------------------------------------

  lemma RunOfMore(m: Table, ops: seq<Op>, op: Op)
    ensures Run(m, RULES, ops + [op]) == After(Run(m, RULES, ops), RULES, op)
  {
    RunStep(m, RULES, ops + [op], |ops|);
    assert (ops + [op])[..|ops|] == ops && (ops + [op])[..|ops| + 1] == ops + [op];
  }

  lemma {:induction false} PermittedWithoutDiscards(m: Table, ops: seq<Op>)
    requires forall op | op in ops :: !op.DiscardOp?
    ensures PermittedRun(m, RULES, ops)
    decreases |ops|
  {
    if ops != [] { PermittedWithoutDiscards(After(m, RULES, ops[0]), ops[1..]); }
  }

  lemma SoundWithoutDiscards(ops: seq<Op>)
    requires forall op | op in ops :: !op.DiscardOp?
    ensures PermittedRun(map[], RULES, ops) && WorldSound(Run(map[], RULES, ops), RULES)
  {
    PermittedWithoutDiscards(map[], ops);
    EmptyIsSound(RULES);
    RunKeeps(map[], RULES, ops);
  }

  lemma {:induction false} NothingSettled(m: Table, ops: seq<Op>)
    requires forall op | op in ops :: !op.SettleOp?
    ensures NoDoubleOverrun(m, RULES, ops)
    decreases |ops|
  {
    if ops != [] { NothingSettled(After(m, RULES, ops[0]), ops[1..]); }
  }

  // ----- Settling an overrun permit twice ---------------------------------------------------

  const IDS := [RootScope("r")]

  function Request(effect: string): ReserveInput {
    ReserveInput("r", IDS, 5, effect, "h", 1)
  }

  /** One root with a cap of 100, this much of it held, and permits for these effects only. */
  ghost predicate Reserving(m: Table, permits: int, held: int, effects: set<string>) {
    && Writable(m) && Generation(m, "r") == 1 && PermitCounter(m) == permits
    && ScopeAt(m, RootScope("r")) == Some(Scope("r", None, None, 100, 0, held))
    && (forall p :: PermitAt(m, p).Some? ==> PermitAt(m, p).value.effectId in effects)
    && (forall s, n :: OriginAt(m, s, n).None?)
  }

  lemma ReserveOne(m: Table, permits: int, held: int, effects: set<string>, effect: string)
    requires Reserving(m, permits, held, effects) && held <= 95 && effect !in effects
    ensures
      var m' := After(m, RULES, ReserveOp(Request(effect)));
      && Reserving(m', permits + 1, held + 5, effects + {effect})
      && PermitAt(m', permits + 1) == Some(Permit("r", IDS, 5, effect, "h", 1, Held))
      && forall p | p != permits + 1 :: PermitAt(m', p) == PermitAt(m, p)
  {
    var n := permits + 1;
    NewPermitRows(m, n, Request(effect));
    ChargeAt(m, IDS, 5, 0);
    assert FindPermit(m, "r", effect).None?;
    assert After(m, RULES, ReserveOp(Request(effect))) == NewPermit(m, n, Request(effect));
  }

  const FIRST := SettleInput(1, None, "s", 1, Some(7))
  const SECOND := SettleInput(1, None, "s", 2, Some(3))

  /** Two permits of 5 each, the second held, the first in this status; and the root's balance. */
  ghost predicate TwoPermits(m: Table, first: PermitStatus, settled: int, held: int) {
    && Writable(m)
    && PermitAt(m, 1) == Some(Permit("r", IDS, 5, "e1", "h", 1, first))
    && PermitAt(m, 2) == Some(Permit("r", IDS, 5, "e2", "h", 1, Held))
    && ScopeAt(m, RootScope("r")) == Some(Scope("r", None, None, 100, settled, held))
    && OriginAt(m, "s", 2).None?
  }

  lemma EmptyRoot()
    ensures Reserving(After(map[], RULES, EnsureRootOp("r", 100)), 0, 0, {})
  {
  }

  const TWO_RESERVED := [EnsureRootOp("r", 100), ReserveOp(Request("e1")), ReserveOp(Request("e2"))]

  lemma TwoPermitsReachable()
    ensures
      var m := Run(map[], RULES, TWO_RESERVED);
      TwoPermits(m, Held, 0, 10) && OriginAt(m, "s", 1).None?
  {
    RunOfMore(map[], [], TWO_RESERVED[0]);
    RunOfMore(map[], TWO_RESERVED[..1], TWO_RESERVED[1]);
    RunOfMore(map[], TWO_RESERVED[..2], TWO_RESERVED[2]);
    assert TWO_RESERVED[..2] + [TWO_RESERVED[2]] == TWO_RESERVED;
    EmptyRoot();
    var m1 := After(map[], RULES, EnsureRootOp("r", 100));
    ReserveOne(m1, 0, 0, {}, "e1");
    ReserveOne(After(m1, RULES, ReserveOp(Request("e1"))), 1, 5, {} + {"e1"}, "e2");
  }

  lemma FirstCostRows(m: Table)
    requires TwoPermits(m, Held, 0, 10) && OriginAt(m, "s", 1).None?
    ensures Settle(m, FIRST).Done? && Settle(m, FIRST).value
    ensures TwoPermits(Settle(m, FIRST).table, Unknown, 7, 5)
  {
    RecordedRows(m, PermitAt(m, 1).value, FIRST);
    assert Writable(Recorded(m, PermitAt(m, 1).value, FIRST)) by {
      assert ChildFormatKey in Recorded(m, PermitAt(m, 1).value, FIRST) <==> ChildFormatKey in m;
    }
  }

  lemma SecondCostRows(m: Table)
    requires TwoPermits(m, Unknown, 7, 5)
    ensures Settle(m, SECOND).Done?
    ensures
      var m' := Settle(m, SECOND).table;
      && PermitAt(m', 2) == PermitAt(m, 2)
      && ScopeAt(m', RootScope("r")) == Some(Scope("r", None, None, 100, 10, 0))
  {
    RecordedRows(m, PermitAt(m, 1).value, SECOND);
  }

  /**
   * A permit that a first cost overran can be charged again: the second cost takes the reserved
   * amount from the hold of the other permit, which is still held.
   */
  lemma SecondCostTakesAnotherHold(m: Table)
    requires Balanced(m) && HeldConserved(m)
    requires TwoPermits(m, Held, 0, 10) && OriginAt(m, "s", 1).None?
    ensures Settle(m, FIRST).Done? && Settle(Settle(m, FIRST).table, SECOND).Done?
    ensures
      var paid := Settle(m, FIRST).table;
      var again := Settle(paid, SECOND).table;
      && HeldConserved(paid) && !HeldConserved(again)
      && PermitAt(again, 2) == PermitAt(m, 2)
      && ScopeAt(again, RootScope("r")).Some? && ScopeAt(again, RootScope("r")).value.held == 0
  {
    FirstCostRows(m);
    assert PermitSound(m, 1, PermitAt(m, 1).value);
    NotCostedNotPaid(m, 1);
    SettleKeeps(m, FIRST);
    SettleKeepsHeldExactly(m, FIRST);
    RecordedPaid(m, FIRST);
    var paid := Settle(m, FIRST).table;
    SecondCostRows(paid);
    SettleKeepsHeldExactly(paid, SECOND);
  }

  /** A permitted run from the empty table after which a held permit is no longer held by its scope. */
  lemma OverrunLosesHold()
    ensures
      var ops := TWO_RESERVED + [SettleOp(FIRST)] + [SettleOp(SECOND)];
      var m := Run(map[], RULES, ops);
      && PermittedRun(map[], RULES, ops) && WorldSound(m, RULES)
      && HeldConserved(Run(map[], RULES, TWO_RESERVED + [SettleOp(FIRST)]))
      && PermitAt(m, 2).Some? && PermitAt(m, 2).value.status == Held && PermitAt(m, 2).value.q == 5
      && !HeldConserved(m)
      && ScopeAt(m, RootScope("r")).Some? && ScopeAt(m, RootScope("r")).value.held == 0
  {
    SoundWithoutDiscards(TWO_RESERVED + [SettleOp(FIRST)] + [SettleOp(SECOND)]);
    FirstThreeKeepHeld();
    TwoPermitsReachable();
    RunOfMore(map[], TWO_RESERVED, SettleOp(FIRST));
    RunOfMore(map[], TWO_RESERVED + [SettleOp(FIRST)], SettleOp(SECOND));
    TwoCosts(Run(map[], RULES, TWO_RESERVED));
  }

  lemma SettleTable(m: Table, settlement: SettleInput)
    requires Settle(m, settlement).Done?
    ensures After(m, RULES, SettleOp(settlement)) == Settle(m, settlement).table
  {
  }

  lemma TwoCosts(m: Table)
    requires Balanced(m) && HeldConserved(m)
    requires TwoPermits(m, Held, 0, 10) && OriginAt(m, "s", 1).None?
    ensures
      var paid := After(m, RULES, SettleOp(FIRST));
      var again := After(paid, RULES, SettleOp(SECOND));
      && HeldConserved(paid) && !HeldConserved(again)
      && PermitAt(again, 2) == PermitAt(m, 2)
      && ScopeAt(again, RootScope("r")).Some? && ScopeAt(again, RootScope("r")).value.held == 0
  {
    SecondCostTakesAnotherHold(m);
    SettleTable(m, FIRST);
    SettleTable(Settle(m, FIRST).table, SECOND);
  }

  lemma FirstThreeKeepHeld()
    ensures WorldSound(Run(map[], RULES, TWO_RESERVED), RULES) && HeldConserved(Run(map[], RULES, TWO_RESERVED))
  {
    EmptyIsSound(RULES);
    SoundWithoutDiscards(TWO_RESERVED);
    NothingSettled(map[], TWO_RESERVED);
    RunKeepsHeld(map[], RULES, TWO_RESERVED);
  }

  // ----- Calls that come too early ----------------------------------------------------------

  /** Releasing a permit that does not exist yet is accepted, and takes effect when delivered again. */
  lemma EarlyReleaseRepeats()
    ensures
      var m := After(map[], RULES, EnsureRootOp("r", 100));
      var release := ReleaseOp(1, None);
      var later := After(m, RULES, ReserveOp(Request("e1")));
      && Accepted(m, release) && After(m, RULES, release) == m
      && After(later, RULES, release) != later
  {
    EmptyRoot();
    var m := After(map[], RULES, EnsureRootOp("r", 100));
    ReserveOne(m, 0, 0, {}, "e1");
    ReleaseChanges(After(m, RULES, ReserveOp(Request("e1"))), 1);
  }

  lemma ReleaseChanges(m: Table, p: int)
    requires Writable(m) && PermitAt(m, p).Some? && PermitAt(m, p).value.status == Held
    requires Affordable(m, PermitAt(m, p).value.scopeIds, PermitAt(m, p).value.q)
    ensures After(m, RULES, ReleaseOp(p, None)) != m
  {
    ReleaseShape(m, p, PermitAt(m, p).value);
    assert PermitAt(After(m, RULES, ReleaseOp(p, None)), p) != PermitAt(m, p);
  }

  /** The task is deferred, or being created, by this attempt at this revision. */
  ghost predicate Attempting(m: Table, c: string, id: string, attempt: string, phase: CreationPhase, revision: int) {
    && Writable(m) && TaskAt(m, c).Some?
    && var row := TaskAt(m, c).value;
       && row.creationId == id && row.attemptId == attempt && row.creationPhase == phase
       && row.creationRevision == revision && (phase == Deferred ==> row.deferredFact.Some?)
  }

  lemma BeginAndDefer(m: Table, c: string, id: string, a: string, b: string, revision: int)
    requires Attempting(m, c, id, a, Deferred, revision) && b != "" && b != a
    ensures
      var begun := After(m, RULES, BeginOp(Cas(c, id, a, revision), b, 0));
      && Attempting(begun, c, id, b, BeingCreated, revision + 1)
      && Attempting(After(begun, RULES, DeferOp(Cas(c, id, b, revision + 1), 0)), c, id, b, Deferred, revision + 2)
  {
  }

  lemma BirthTask(m: Table, tasks: map<string, (TaskState, int)>, c: string)
    requires Family(m, tasks) && c !in tasks && c != "p"
    requires forall d | d in tasks :: !Active(tasks[d].0)
    ensures Attempting(After(m, RULES, CreateOp(Birth(c))), c, c, "x", BeingCreated, 1)
  {
    BirthRows(m, tasks, c);
    CreatedAttempt(m, Birth(c));
  }

  lemma CreatedAttempt(m: Table, input: CreateInput)
    requires TaskAt(m, input.childKey).None? && TaskAt(After(m, RULES, CreateOp(input)), input.childKey).Some?
    requires input.attemptId.Some? && Writable(After(m, RULES, CreateOp(input)))
    ensures Attempting(After(m, RULES, CreateOp(input)), input.childKey, input.creationId, input.attemptId.value,
                       BeingCreated, 1)
  {
    if Creates(m, input) {
      var forked := CreateFork(m, input.parentKey, input.boundarySeq, input.childKey).table;
      CreateForks(m, RULES, input);
      CreateRows(m, forked, input);
    } else {
      NothingCreated(m, RULES, input);
    }
  }

  /** A deferred task is four calls away. */
  lemma DeferredReachable()
    ensures
      var parent := After(After(map[], RULES, EnsureRootOp("r", 100)), RULES, OpenOp("p", "run", 100, 0, 0));
      var born := After(parent, RULES, CreateOp(Birth("a")));
      Attempting(After(born, RULES, DeferOp(Cas("a", "a", "x", 1), 0)), "a", "a", "x", Deferred, 2)
  {
    FirstParent();
    var parent := After(After(map[], RULES, EnsureRootOp("r", 100)), RULES, OpenOp("p", "run", 100, 0, 0));
    BirthTask(parent, map[], "a");
  }

  /**
   * Deferring a deferred task at a later revision is accepted, and takes effect when delivered again once
   * the same attempt has been begun anew at that revision.
   */
  lemma EarlyDeferralRepeats(m: Table, c: string, id: string, a: string, b: string, revision: int)
    requires Attempting(m, c, id, a, Deferred, revision) && a != "" && b != "" && a != b
    ensures
      var early := DeferOp(Cas(c, id, a, revision + 3), 0);
      var m1 := After(m, RULES, BeginOp(Cas(c, id, a, revision), b, 0));
      var m2 := After(m1, RULES, DeferOp(Cas(c, id, b, revision + 1), 0));
      var later := After(m2, RULES, BeginOp(Cas(c, id, b, revision + 2), a, 0));
      && Accepted(m, early) && After(m, RULES, early) == m
      && After(later, RULES, early) != later
  {
    BeginAndDefer(m, c, id, a, b, revision);
    var m1 := After(m, RULES, BeginOp(Cas(c, id, a, revision), b, 0));
    var m2 := After(m1, RULES, DeferOp(Cas(c, id, b, revision + 1), 0));
    BeginAndDefer(m2, c, id, b, a, revision + 2);
    DeferralChanges(After(m2, RULES, BeginOp(Cas(c, id, b, revision + 2), a, 0)), c, id, a, revision + 3);
  }

  lemma DeferralChanges(m: Table, c: string, id: string, a: string, revision: int)
    requires Attempting(m, c, id, a, BeingCreated, revision)
    ensures After(m, RULES, DeferOp(Cas(c, id, a, revision), 0)) != m
  {
    assert TaskAt(After(m, RULES, DeferOp(Cas(c, id, a, revision), 0)), c) != TaskAt(m, c);
  }

  // ----- Re-entry past the fan-out limit ----------------------------------------------------

  /** Of the sessions `p` and these tasks, all of one parent and root; with their states and revisions. */
  ghost predicate Family(m: Table, tasks: map<string, (TaskState, int)>) {
    && Writable(m) && ScopeAt(m, RootScope("r")).Some? && "p" !in tasks
    && SessionAt(m, "p") == Some(Session(None, 0))
    && (forall c :: TaskAt(m, c).Some? <==> c in tasks)
    && (forall c | TaskAt(m, c).Some? ::
          var t := TaskAt(m, c).value;
          t.parentKey == "p" && t.rootTaskId == "r" && t.creationId == c && t.state == tasks[c].0
          && t.stateRevision == tasks[c].1)
    && (forall c | c != "p" :: SessionAt(m, c).Some? <==> c in tasks)
    && (forall w :: WorkspaceKey(w) in m <==> w in tasks)
  }

  function Birth(c: string): CreateInput {
    CreateInput(c, "p", 0, c, Some("x"), 0, "r", "o", 1, 1, 1, "h", "b", None, c, "/", "run")
  }

  lemma NoneActive(m: Table, tasks: map<string, (TaskState, int)>)
    requires Family(m, tasks) && forall c | c in tasks :: !Active(tasks[c].0)
    ensures ActiveOfParent(m, "p") == {} && ActiveOfRoot(m, "r") == {}
  {
    forall k ensures k !in ActiveOfParent(m, "p") && k !in ActiveOfRoot(m, "r") { TaskKey(m, k); }
  }

  lemma BirthRows(m: Table, tasks: map<string, (TaskState, int)>, c: string)
    requires Family(m, tasks) && c !in tasks && c != "p"
    requires forall d | d in tasks :: !Active(tasks[d].0)
    ensures Family(After(m, RULES, CreateOp(Birth(c))), tasks[c := (Creating, 1)])
  {
    var input := Birth(c);
    NoneActive(m, tasks);
    forall k ensures IsTask(m, k) ==> m[k].task.creationId != c { TaskKey(m, k); }
    assert FindCreation(m, c).None?;
    assert TaskAt(m, "p").None?;
    assert Ancestors(m, "p", "r") == [RootScope("r")];
    var forked := CreateFork(m, "p", 0, c).table;
    assert After(m, RULES, CreateOp(input)) == WithChild(m, forked, input);
    CreateRows(m, forked, input);
    BirthKeepsFamily(m, tasks, c, forked);
  }

  lemma BirthKeepsFamily(m: Table, tasks: map<string, (TaskState, int)>, c: string, forked: Table)
    requires Family(m, tasks) && c !in tasks && c != "p"
    requires forked == m[SessionKey(c) := SessionV(Session(Some(Fork("p", 0)), 0))]
    ensures Family(WithChild(m, forked, Birth(c)), tasks[c := (Creating, 1)])
  {
    BirthShape(m, c, forked);
  }

  lemma BirthShape(m: Table, c: string, forked: Table)
    requires forked == m[SessionKey(c) := SessionV(Session(Some(Fork("p", 0)), 0))]
    ensures
      var m' := WithChild(m, forked, Birth(c));
      && (Writable(m) ==> Writable(m')) && ScopeAt(m', RootScope("r")) == ScopeAt(m, RootScope("r"))
      && (forall d :: TaskAt(m', d) == if d == c then Some(NewTask(m, Birth(c))) else TaskAt(m, d))
      && (forall d :: SessionAt(m', d) == if d == c then Some(Session(Some(Fork("p", 0)), 0)) else SessionAt(m, d))
      && (forall w :: WorkspaceKey(w) in m' <==> w == c || WorkspaceKey(w) in m)
  {
  }

  lemma CasRows(m: Table, tasks: map<string, (TaskState, int)>, c: string, next: TaskState)
    requires Family(m, tasks) && c in tasks && MayMove(tasks[c].0, next)
    ensures Family(After(m, RULES, CasOp(c, tasks[c].1, next)), tasks[c := (next, tasks[c].1 + 1)])
  {
    var m' := After(m, RULES, CasOp(c, tasks[c].1, next));
    assert TaskAt(m, c).Some?;
    var moved := TaskAt(m, c).value.(state := next, stateRevision := tasks[c].1 + 1);
    forall d ensures TaskAt(m', d) == if d == c then Some(moved) else TaskAt(m, d) {}
    forall d ensures SessionAt(m', d) == SessionAt(m, d) {}
    forall w ensures WorkspaceKey(w) in m' <==> WorkspaceKey(w) in m {}
    assert ScopeAt(m', RootScope("r")) == ScopeAt(m, RootScope("r"));
  }

  lemma FirstParent()
    ensures Family(After(After(map[], RULES, EnsureRootOp("r", 100)), RULES, OpenOp("p", "run", 100, 0, 0)), map[])
  {
  }

  /** A second child is let in while the first is idle. */
  const ONE_IDLE := [
    EnsureRootOp("r", 100), OpenOp("p", "run", 100, 0, 0),
    CreateOp(Birth("a")), CasOp("a", 1, Idle), CreateOp(Birth("b"))]

  lemma OneIdleRows()
    ensures Family(Run(map[], RULES, ONE_IDLE), map["a" := (Idle, 2)]["b" := (Creating, 1)])
  {
    RunOfMore(map[], [], ONE_IDLE[0]);
    RunOfMore(map[], ONE_IDLE[..1], ONE_IDLE[1]);
    FirstParent();
    var m2 := Run(map[], RULES, ONE_IDLE[..2]);
    assert ONE_IDLE[..1] + [ONE_IDLE[1]] == ONE_IDLE[..2];
    OneIdleRun(m2);
    BirthAndRest(m2);
  }

  lemma BirthAndRest(m: Table)
    requires Family(m, map[])
    ensures Family(After(After(After(m, RULES, ONE_IDLE[2]), RULES, ONE_IDLE[3]), RULES, ONE_IDLE[4]),
                   map["a" := (Idle, 2)]["b" := (Creating, 1)])
  {
    BirthRows(m, map[], "a");
    var born := After(m, RULES, ONE_IDLE[2]);
    CasRows(born, map["a" := (Creating, 1)], "a", Idle);
    assert map["a" := (Creating, 1)]["a" := (Idle, 2)] == map["a" := (Idle, 2)];
    BirthRows(After(born, RULES, ONE_IDLE[3]), map["a" := (Idle, 2)], "b");
  }

  lemma OneIdleRun(m2: Table)
    requires m2 == Run(map[], RULES, ONE_IDLE[..2])
    ensures Run(map[], RULES, ONE_IDLE) ==
            After(After(After(m2, RULES, ONE_IDLE[2]), RULES, ONE_IDLE[3]), RULES, ONE_IDLE[4])
  {
    RunStep(map[], RULES, ONE_IDLE, 2);
    RunStep(map[], RULES, ONE_IDLE, 3);
    RunStep(map[], RULES, ONE_IDLE, 4);
    assert ONE_IDLE[..5] == ONE_IDLE;
  }

  lemma {:induction false} AdmitsAtRest(m: Table, ops: seq<Op>, max: nat)
    requires forall op | op in ops :: (op.CreateOp? ==> op.input.maxFanOut <= max) && (op.CasOp? ==> !Active(op.next))
    ensures Admits(m, RULES, ops, max)
    decreases |ops|
  {
    if ops != [] { AdmitsAtRest(After(m, RULES, ops[0]), ops[1..], max); }
  }

  /** Two children are active after a run that created both under a limit of one. */
  lemma ReentryReachable()
    ensures
      var m := Run(map[], RULES, ONE_IDLE);
      && PermittedRun(map[], RULES, ONE_IDLE) && WorldSound(m, RULES) && WithinFanOut(m, 1)
      && !WithinFanOut(After(m, RULES, CasOp("a", 2, Ready)), 1)
  {
    var m := Run(map[], RULES, ONE_IDLE);
    SoundWithoutDiscards(ONE_IDLE);
    OneIdleAdmitted();
    OneIdleRows();
    OneIdleOverfills(m);
  }

  lemma OneIdleAdmitted()
    ensures WithinFanOut(Run(map[], RULES, ONE_IDLE), 1)
  {
    EmptyIsSound(RULES);
    PermittedWithoutDiscards(map[], ONE_IDLE);
    AdmitsAtRest(map[], ONE_IDLE, 1);
    EmptyWithin();
    RunKeepsFanOut(map[], RULES, ONE_IDLE, 1);
  }

  lemma EmptyWithin()
    ensures WithinFanOut(map[], 1)
  {
    assert forall p :: ActiveOfParent(map[], p) == {} && ActiveOfRoot(map[], p) == {};
  }

  lemma OneIdleOverfills(m: Table)
    requires Family(m, map["a" := (Idle, 2)]["b" := (Creating, 1)]) && WithinFanOut(m, 1)
    ensures !WithinFanOut(After(m, RULES, CasOp("a", 2, Ready)), 1)
  {
    assert TaskAt(m, "a").Some? && TaskAt(m, "b").Some?;
    TaskKey(m, ChildKey("b"));
    assert ChildKey("b") in ActiveOfParent(m, "p");
    ReentryExceedsFanOut(m, "a", 1);
  }

  /** With the limit reached, taking one idle task back to `ready` exceeds it. */
  lemma ReentryExceedsFanOut(m: Table, child: string, max: nat)
    requires WithinFanOut(m, max) && Writable(m)
    requires TaskAt(m, child).Some? && TaskAt(m, child).value.state == Idle && Full(m, child, max)
    ensures !WithinFanOut(After(m, RULES, CasOp(child, TaskAt(m, child).value.stateRevision, Ready)), max)
  {
    CasKeepsFanOutExactly(m, child, TaskAt(m, child).value.stateRevision, Ready, max);
  }

  // ----- A child in another tree ------------------------------------------------------------

  /** A child of the task `a` that names another root. */
  function Foreign(): CreateInput {
    CreateInput("b", "a", 0, "b", Some("x"), 0, "q", "o", 1, 1, 9, "h", "b", None, "b", "/", "run")
  }

  /** The task `a` of the root `r` is there, and the root `q` is. */
  ghost predicate TwoTrees(m: Table) {
    && Family(m, map["a" := (Creating, 1)]) && ScopeAt(m, RootScope("q")).Some?
    && TaskAt(m, "a").value.ancestorScopeIds == [RootScope("r")] && TaskAt(m, "a").value.budgetScopeId == RootScope("r")
  }

  lemma TwoTreesReachable()
    ensures
      var parent := After(After(map[], RULES, EnsureRootOp("r", 100)), RULES, OpenOp("p", "run", 100, 0, 0));
      TwoTrees(After(After(parent, RULES, CreateOp(Birth("a"))), RULES, EnsureRootOp("q", 100)))
  {
    FirstParent();
    var parent := After(After(map[], RULES, EnsureRootOp("r", 100)), RULES, OpenOp("p", "run", 100, 0, 0));
    var born := After(parent, RULES, CreateOp(Birth("a")));
    BirthRows(parent, map[], "a");
    BornLists(parent, "a");
    SecondRoot(born);
  }

  lemma BornLists(m: Table, c: string)
    requires Family(m, map[]) && Family(After(m, RULES, CreateOp(Birth(c))), map[c := (Creating, 1)])
    ensures
      var t := TaskAt(After(m, RULES, CreateOp(Birth(c))), c).value;
      t.ancestorScopeIds == [RootScope("r")] && t.budgetScopeId == RootScope("r")
  {
    assert TaskAt(m, c).None? && TaskAt(m, "p").None?;
    if Creates(m, Birth(c)) {
      var forked := CreateFork(m, "p", 0, c).table;
      CreateForks(m, RULES, Birth(c));
      CreateRows(m, forked, Birth(c));
    } else {
      NothingCreated(m, RULES, Birth(c));
    }
  }

  lemma SecondRoot(m: Table)
    requires Family(m, map["a" := (Creating, 1)])
    requires TaskAt(m, "a").value.ancestorScopeIds == [RootScope("r")]
    requires TaskAt(m, "a").value.budgetScopeId == RootScope("r")
    ensures TwoTrees(After(m, RULES, EnsureRootOp("q", 100)))
  {
  }

  /** Nothing refuses it, and it lists a scope of the other tree. */
  lemma ForeignChildIsCreated(m: Table)
    requires TwoTrees(m)
    ensures Creates(m, Foreign()) && NewTask(m, Foreign()).rootTaskId == "q"
    ensures RootScope("r") in NewTask(m, Foreign()).ancestorScopeIds
  {
    assert TaskAt(m, "a").Some? && TaskAt(m, "b").None? && SessionAt(m, "a").Some? && SessionAt(m, "b").None?;
    assert Ancestors(m, "a", "q") == [RootScope("q")] + [RootScope("r")];
    NoneOfParent(m);
    forall k ensures IsTask(m, k) ==> m[k].task.creationId != "b" { TaskKey(m, k); }
    assert FindCreation(m, "b").None?;
    assert WorkspaceKey("b") !in m;
  }

  lemma NoneOfParent(m: Table)
    requires Family(m, map["a" := (Creating, 1)])
    ensures ActiveOfParent(m, "a") == {} && ActiveOfRoot(m, "q") == {}
  {
    forall k ensures k !in ActiveOfParent(m, "a") && k !in ActiveOfRoot(m, "q") { TaskKey(m, k); }
  }
}
