/** How many tasks of one parent, or of one root, may be active at once. */
module FanOut {
  import opened Wrappers
  import opened Store
  import opened Journals
  import opened LedgerSteps
  import opened LedgerRuns
  import opened Children
  import opened Runs
  import opened History

  ghost predicate WithinFanOut(m: Table, max: nat) {
    forall p :: |ActiveOfParent(m, p)| <= max && |ActiveOfRoot(m, p)| <= max
  }

  lemma {:induction false} SubsetCardinality<T>(a: set<T>, b: set<T>)
    requires a <= b
    ensures |a| <= |b|
    decreases b
  {
    if a != {} {
      var x :| x in a;
      SubsetCardinality(a - {x}, b - {x});
    }
  }

  lemma TaskKey(m: Table, k: Key)
    ensures IsTask(m, k) <==> k.ChildKey? && TaskAt(m, k.child).Some?
    ensures IsTask(m, k) ==> m[k].task == TaskAt(m, k.child).value
  {
  }

  /** Every active task was active before, under the same parent and root. */
  ghost predicate NoneActivated(m: Table, m': Table) {
    forall c :: TaskAt(m', c).Some? && Active(TaskAt(m', c).value.state) ==>
      && TaskAt(m, c).Some? && Active(TaskAt(m, c).value.state)
      && TaskAt(m, c).value.parentKey == TaskAt(m', c).value.parentKey
      && TaskAt(m, c).value.rootTaskId == TaskAt(m', c).value.rootTaskId
  }

  lemma NoneActivatedKeeps(m: Table, m': Table, max: nat)
    requires WithinFanOut(m, max) && NoneActivated(m, m')
    ensures WithinFanOut(m', max)
  {
    forall p ensures |ActiveOfParent(m', p)| <= max && |ActiveOfRoot(m', p)| <= max {
      forall k ensures (k in ActiveOfParent(m', p) ==> k in ActiveOfParent(m, p))
        && (k in ActiveOfRoot(m', p) ==> k in ActiveOfRoot(m, p))
      {
        TaskKey(m, k);
        TaskKey(m', k);
      }
      SubsetCardinality(ActiveOfParent(m', p), ActiveOfParent(m, p));
      SubsetCardinality(ActiveOfRoot(m', p), ActiveOfRoot(m, p));
    }
  }

  /** One task became active; every other task is as it was. */
  ghost predicate OneActivated(m: Table, m': Table, c: string) {
    && TaskAt(m', c).Some? && Active(TaskAt(m', c).value.state)
    && (TaskAt(m, c).Some? ==> !Active(TaskAt(m, c).value.state))
    && forall d | d != c :: TaskAt(m', d) == TaskAt(m, d)
  }

  lemma OneActivatedCounts(m: Table, m': Table, c: string, p: string)
    requires OneActivated(m, m', c)
    ensures |ActiveOfParent(m', p)| == |ActiveOfParent(m, p)| + if p == TaskAt(m', c).value.parentKey then 1 else 0
    ensures |ActiveOfRoot(m', p)| == |ActiveOfRoot(m, p)| + if p == TaskAt(m', c).value.rootTaskId then 1 else 0
  {
    OneActivatedMembers(m, m', c, p);
    var t := TaskAt(m', c).value;
    AddOne(ActiveOfParent(m, p), ActiveOfParent(m', p), ChildKey(c), p == t.parentKey);
    AddOne(ActiveOfRoot(m, p), ActiveOfRoot(m', p), ChildKey(c), p == t.rootTaskId);
  }

  lemma AddOne<T>(a: set<T>, b: set<T>, x: T, added: bool)
    requires x !in a && forall k :: k in b <==> k in a || (k == x && added)
    ensures |b| == |a| + if added then 1 else 0
  {
    assert b == if added then a + {x} else a;
  }

  lemma OneActivatedMembers(m: Table, m': Table, c: string, p: string)
    requires OneActivated(m, m', c)
    ensures ChildKey(c) !in ActiveOfParent(m, p) && ChildKey(c) !in ActiveOfRoot(m, p)
    ensures forall k :: k in ActiveOfParent(m', p) <==>
              k in ActiveOfParent(m, p) || (k == ChildKey(c) && p == TaskAt(m', c).value.parentKey)
    ensures forall k :: k in ActiveOfRoot(m', p) <==>
              k in ActiveOfRoot(m, p) || (k == ChildKey(c) && p == TaskAt(m', c).value.rootTaskId)
  {
    forall k ensures
      && (k in ActiveOfParent(m', p) <==>
            k in ActiveOfParent(m, p) || (k == ChildKey(c) && p == TaskAt(m', c).value.parentKey))
      && (k in ActiveOfRoot(m', p) <==>
            k in ActiveOfRoot(m, p) || (k == ChildKey(c) && p == TaskAt(m', c).value.rootTaskId))
    {
      TaskKey(m, k);
      TaskKey(m', k);
    }
    TaskKey(m, ChildKey(c));
  }

  // ----- Steps ------------------------------------------------------------------------------

  lemma CreateKeepsFanOut(m: Table, rules: Rules, input: CreateInput, max: nat)
    requires TasksSound(m) && WithinFanOut(m, max) && input.maxFanOut <= max
    ensures WithinFanOut(After(m, rules, CreateOp(input)), max)
  {
    if Creates(m, input) {
      var forked := CreateSteps(m, rules, input);
      var m' := WithChild(m, forked, input);
      CreateActivates(m, forked, input);
      RoomForOne(m, input);
      forall p ensures |ActiveOfParent(m', p)| <= max && |ActiveOfRoot(m', p)| <= max {
        OneActivatedCounts(m, m', input.childKey, p);
      }
    } else {
      NothingCreated(m, rules, input);
    }
  }

  lemma RoomForOne(m: Table, input: CreateInput)
    requires Creates(m, input)
    ensures |ActiveOfParent(m, input.parentKey)| < input.maxFanOut
    ensures |ActiveOfRoot(m, input.rootTaskId)| < input.maxFanOut
  {
  }

  lemma CreateActivates(m: Table, forked: Table, input: CreateInput)
    requires TaskAt(m, input.childKey).None? && forall c :: TaskAt(forked, c) == TaskAt(m, c)
    ensures OneActivated(m, WithChild(m, forked, input), input.childKey)
    ensures TaskAt(WithChild(m, forked, input), input.childKey) == Some(NewTask(m, input))
  {
    CreateRows(m, forked, input);
  }

  /** A state change that brings a task back among the active ones. */
  predicate Reenters(m: Table, child: string, revision: int, next: TaskState) {
    && CasState(m, child, revision, next).Done? && CasState(m, child, revision, next).value
    && !Active(TaskAt(m, child).value.state) && Active(next)
  }

  predicate Full(m: Table, child: string, max: nat)
    requires TaskAt(m, child).Some?
  {
    || |ActiveOfParent(m, TaskAt(m, child).value.parentKey)| == max
    || |ActiveOfRoot(m, TaskAt(m, child).value.rootTaskId)| == max
  }

  /**
   * A state change keeps the fan-out limit, except precisely when it takes an idle or interrupted
   * task back to an active state while its parent or its root is already at the limit.
   */
  lemma CasKeepsFanOutExactly(m: Table, child: string, revision: int, next: TaskState, max: nat)
    requires WithinFanOut(m, max)
    ensures WithinFanOut(TableOf(CasState(m, child, revision, next), m), max) <==>
            !(Reenters(m, child, revision, next) && Full(m, child, max))
    ensures Reenters(m, child, revision, next) ==> TaskAt(m, child).value.state in {Idle, Interrupted}
  {
    var m' := TableOf(CasState(m, child, revision, next), m);
    if Reenters(m, child, revision, next) {
      var row := TaskAt(m, child).value;
      forall p ensures
        && |ActiveOfParent(m', p)| == |ActiveOfParent(m, p)| + (if p == row.parentKey then 1 else 0)
        && |ActiveOfRoot(m', p)| == |ActiveOfRoot(m, p)| + (if p == row.rootTaskId then 1 else 0)
      {
        OneActivatedCounts(m, m', child, p);
      }
    } else {
      NoneActivatedKeeps(m, m', max);
    }
  }

  lemma TaskOpKeepsFanOut(m: Table, rules: Rules, op: Op, max: nat)
    requires WithinFanOut(m, max) && IsTaskOp(op)
    requires op.CasOp? ==> !(Reenters(m, op.child, op.revision, op.next) && Full(m, op.child, max))
    ensures WithinFanOut(After(m, rules, op), max)
  {
    if op.CasOp? {
      CasKeepsFanOutExactly(m, op.child, op.revision, op.next, max);
    } else {
      NoneActivatedKeeps(m, After(m, rules, op), max);
    }
  }

  lemma StepKeepsFanOut(m: Table, rules: Rules, op: Op, max: nat)
    requires WorldSound(m, rules) && WithinFanOut(m, max)
    requires op.CreateOp? ==> op.input.maxFanOut <= max
    requires op.CasOp? ==> !(Reenters(m, op.child, op.revision, op.next) && Full(m, op.child, max))
    ensures WithinFanOut(After(m, rules, op), max)
  {
    var m' := After(m, rules, op);
    if op.CreateOp? {
      CreateKeepsFanOut(m, rules, op.input, max);
    } else if IsTaskOp(op) {
      TaskOpKeepsFanOut(m, rules, op, max);
    } else {
      if IsLedgerOp(op) { LedgerOpRows(m, rules, op); } else { BudgetOpRows(m, rules, op); }
      SameTaskRows(m, m');
      NoneActivatedKeeps(m, m', max);
    }
  }

  /** The run creates under one limit and never overfills it by re-entry. */
  ghost predicate Admits(m: Table, rules: Rules, ops: seq<Op>, max: nat)
    decreases |ops|
  {
    ops == [] ||
    (&& (ops[0].CreateOp? ==> ops[0].input.maxFanOut <= max)
     && (ops[0].CasOp? ==>
           !(Reenters(m, ops[0].child, ops[0].revision, ops[0].next) && Full(m, ops[0].child, max)))
     && Admits(After(m, rules, ops[0]), rules, ops[1..], max))
  }

  /** With a fixed limit, no parent and no root ever has more active tasks than it. */
  lemma {:induction false} RunKeepsFanOut(m: Table, rules: Rules, ops: seq<Op>, max: nat)
    requires WorldSound(m, rules) && PermittedRun(m, rules, ops)
    requires WithinFanOut(m, max) && Admits(m, rules, ops, max)
    ensures WithinFanOut(Run(m, rules, ops), max)
    decreases |ops|
  {
    if ops != [] {
      StepKeepsFanOut(m, rules, ops[0], max);
      StepKeeps(m, rules, ops[0]);
      RunKeepsFanOut(After(m, rules, ops[0]), rules, ops[1..], max);
    }
  }
}
