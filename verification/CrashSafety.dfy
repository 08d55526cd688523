/** The provider's invariants survive a crash in the middle of any operation. */
module CrashSafety {
  import opened Wrappers
  import opened Store
  import opened JournalTail
  import opened Recovery
  import opened LedgerSteps
  import opened Conservation
  import opened Runs
  import opened FanOut

  /** A repair rewrites no row but the audit and the program counters of open operations. */
  lemma RepairKeepsWorld(m: Table, rules: Rules, audit: Data, control: Data, phase: Data)
    requires WorldSound(m, rules)
    ensures
      var m' := Fenced(LedgerRepair(audit, control, phase), m);
      && WorldSound(m', rules) && (HeldConserved(m) ==> HeldConserved(m'))
      && forall max: nat | WithinFanOut(m, max) :: WithinFanOut(m', max)
  {
    var op := RecoverOp(audit, control, phase);
    StepKeeps(m, rules, op);
    if HeldConserved(m) { StepKeepsHeld(m, rules, op); }
    forall max: nat | WithinFanOut(m, max) ensures WithinFanOut(After(m, rules, op), max) {
      StepKeepsFanOut(m, rules, op, max);
    }
  }

  /**
   * A crash during one operation, at any byte of its record: if the file opens again, every
   * invariant of the ledger, the budgets and the tasks holds, and the table is the one before the
   * operation, the one after it, or the repaired one before it.
   */
  lemma CrashDuringOperation(
    c: Codec<Key, Value>, rules: Rules, bytes: seq<byte>, frames: seq<Frame<Key, Value>>, f: Frame<Key, Value>,
    op: Op, n: nat, audit: Data, control: Data, phase: Data, outcome: Result<Opened<Key, Value>>)
    requires Lawful(c) && Clean(c, bytes, frames) && NextFrame(c, frames, f)
    requires WorldSound(Replay(frames), rules) && Permitted(Replay(frames), op)
    requires Apply(Replay(frames), f.changes) == After(Replay(frames), rules, op)
    requires n <= |Record(c, f)|
    requires Opens(c, LedgerRepair(audit, control, phase), bytes + Record(c, f)[..n], outcome)
    ensures outcome.Success? ==>
              && WorldSound(outcome.value.data, rules)
              && outcome.value.data in {
                   Replay(frames), After(Replay(frames), rules, op),
                   Fenced(LedgerRepair(audit, control, phase), Replay(frames))}
    ensures HeldConserved(Replay(frames)) && (op.SettleOp? ==> !DoubleOverrun(Replay(frames), op.settlement)) ==>
              outcome.Success? ==> HeldConserved(outcome.value.data)
    ensures outcome.Success? ==>
              forall max: nat | WithinFanOut(Replay(frames), max) && Admits(Replay(frames), rules, [op], max) ::
                WithinFanOut(outcome.value.data, max)
    ensures outcome.Failure? ==> frames == []
  {
    var m := Replay(frames);
    CrashAtomicity(c, LedgerRepair(audit, control, phase), bytes, frames, f, n, outcome);
    StepKeeps(m, rules, op);
    if HeldConserved(m) && (op.SettleOp? ==> !DoubleOverrun(m, op.settlement)) { StepKeepsHeld(m, rules, op); }
    forall max: nat | WithinFanOut(m, max) && Admits(m, rules, [op], max)
      ensures WithinFanOut(After(m, rules, op), max)
    {
      StepKeepsFanOut(m, rules, op, max);
    }
    RepairKeepsWorld(m, rules, audit, control, phase);
  }
}
