/** Any number of crashes and reopenings: what was acknowledged stays, and takes effect once. */
module Lives {
  import opened Wrappers
  import opened Store
  import opened JournalTail
  import opened Recovery
  import opened LedgerSteps
  import opened Runs
  import opened Writers
  import opened History
  import opened CrashSafety

  /**
   * From one opening to the next: the operations that were acknowledged, then one whose record stopped
   * after `n` bytes, and what the next opening found.
   */
  datatype Life = Life(
    acked: seq<Op>,
    bytes: seq<byte>,                    // the file after the acknowledged operations
    frames: seq<Frame<Key, Value>>,
    op: Op,
    f: Frame<Key, Value>,
    n: nat,
    repair: Op,
    reopened: Opened<Key, Value>)

  ghost predicate Lived(c: Codec<Key, Value>, rules: Rules, m: Table, life: Life) {
    && PermittedRun(m, rules, life.acked)
    && Clean(c, life.bytes, life.frames) && Replay(life.frames) == Run(m, rules, life.acked)
    && Permitted(Replay(life.frames), life.op)
    && NextFrame(c, life.frames, life.f)
    && Apply(Replay(life.frames), life.f.changes) == After(Replay(life.frames), rules, life.op)
    && life.n <= |Record(c, life.f)| && life.repair.RecoverOp?
    && Opens(c, LedgerRepair(life.repair.audit, life.repair.control, life.repair.phase),
             life.bytes + Record(c, life.f)[..life.n], Success(life.reopened))
  }

  /** One life after the other, each on what the last opening found. */
  ghost predicate Lives(c: Codec<Key, Value>, rules: Rules, m: Table, lives: seq<Life>)
    decreases |lives|
  {
    lives == [] || (Lived(c, rules, m, lives[0]) && Lives(c, rules, lives[0].reopened.data, lives[1..]))
  }

  function End(m: Table, lives: seq<Life>): Table {
    if lives == [] then m else lives[|lives| - 1].reopened.data
  }

  /** The acknowledged operations of every life in order; of each interrupted one, itself, a repair or nothing. */
  ghost predicate Woven(lives: seq<Life>, ops: seq<Op>)
    decreases |lives|
  {
    if lives == [] then ops == []
    else
      exists rest, tail :: WovenFirst(lives[0], tail) && ops == lives[0].acked + tail + rest && Woven(lives[1..], rest)
  }

  predicate WovenFirst(life: Life, tail: seq<Op>) {
    tail == [] || tail == [life.op] || tail == [life.repair]
  }

  lemma {:induction false} PermittedAppend(m: Table, rules: Rules, a: seq<Op>, b: seq<Op>)
    ensures PermittedRun(m, rules, a + b) <==> PermittedRun(m, rules, a) && PermittedRun(Run(m, rules, a), rules, b)
    decreases |a|
  {
    if a == [] {
      assert a + b == b;
    } else {
      assert (a + b)[1..] == a[1..] + b;
      PermittedAppend(After(m, rules, a[0]), rules, a[1..], b);
    }
  }

  lemma RunOfOne(m: Table, rules: Rules, op: Op)
    ensures Run(m, rules, [op]) == After(m, rules, op)
    ensures PermittedRun(m, rules, [op]) <==> Permitted(m, op)
  {
    assert [op][1..] == [];
  }

  /** One life, interruption and reopening included, is a run. */
  lemma LifeIsRun(c: Codec<Key, Value>, rules: Rules, m: Table, life: Life) returns (tail: seq<Op>)
    requires Lawful(c) && WorldSound(m, rules) && Lived(c, rules, m, life)
    ensures WovenFirst(life, tail)
    ensures PermittedRun(m, rules, life.acked + tail) && Run(m, rules, life.acked + tail) == life.reopened.data
    ensures WorldSound(life.reopened.data, rules)
  {
    assert PermittedRun(m, rules, life.acked) && Permitted(Run(m, rules, life.acked), life.op);
    LifeEnds(c, rules, m, life);
    tail := TailIsRun(rules, Run(m, rules, life.acked), life);
    RunAppend(m, rules, life.acked, tail);
    PermittedAppend(m, rules, life.acked, tail);
  }

  lemma LifeEnds(c: Codec<Key, Value>, rules: Rules, m: Table, life: Life)
    requires Lawful(c) && WorldSound(m, rules) && Lived(c, rules, m, life)
    ensures WorldSound(life.reopened.data, rules)
    ensures
      var table := Run(m, rules, life.acked);
      life.reopened.data in {table, After(table, rules, life.op), After(table, rules, life.repair)}
  {
    RunKeeps(m, rules, life.acked);
    Interrupted(c, rules, life);
  }

  lemma Interrupted(c: Codec<Key, Value>, rules: Rules, life: Life)
    requires Lawful(c) && WorldSound(Replay(life.frames), rules)
    requires Clean(c, life.bytes, life.frames) && NextFrame(c, life.frames, life.f)
    requires Permitted(Replay(life.frames), life.op) && life.n <= |Record(c, life.f)| && life.repair.RecoverOp?
    requires Apply(Replay(life.frames), life.f.changes) == After(Replay(life.frames), rules, life.op)
    requires Opens(c, LedgerRepair(life.repair.audit, life.repair.control, life.repair.phase),
                   life.bytes + Record(c, life.f)[..life.n], Success(life.reopened))
    ensures WorldSound(life.reopened.data, rules)
    ensures
      var table := Replay(life.frames);
      life.reopened.data in {table, After(table, rules, life.op), After(table, rules, life.repair)}
  {
    CrashDuringOperation(
      c, rules, life.bytes, life.frames, life.f, life.op, life.n,
      life.repair.audit, life.repair.control, life.repair.phase, Success(life.reopened));
    RepairStep(Replay(life.frames), rules, life.repair);
  }

  lemma RepairStep(m: Table, rules: Rules, op: Op)
    requires op.RecoverOp?
    ensures After(m, rules, op) == Fenced(LedgerRepair(op.audit, op.control, op.phase), m)
  {
  }

  lemma TailIsRun(rules: Rules, table: Table, life: Life) returns (tail: seq<Op>)
    requires Permitted(table, life.op) && life.repair.RecoverOp?
    requires life.reopened.data in {table, After(table, rules, life.op), After(table, rules, life.repair)}
    ensures WovenFirst(life, tail)
    ensures PermittedRun(table, rules, tail) && Run(table, rules, tail) == life.reopened.data
  {
    RunOfOne(table, rules, life.op);
    RunOfOne(table, rules, life.repair);
    tail :=
      if life.reopened.data == table then []
      else if life.reopened.data == After(table, rules, life.op) then [life.op]
      else [life.repair];
  }

  lemma EndOfRest(m: Table, lives: seq<Life>)
    requires lives != []
    ensures End(lives[0].reopened.data, lives[1..]) == End(m, lives)
  {
  }

  /** Any number of lives is one permitted run, which holds every acknowledged operation in order. */
  lemma {:induction false} LivesAreOneRun(c: Codec<Key, Value>, rules: Rules, m: Table, lives: seq<Life>)
    returns (ops: seq<Op>)
    requires Lawful(c) && WorldSound(m, rules) && Lives(c, rules, m, lives)
    ensures Woven(lives, ops) && PermittedRun(m, rules, ops) && End(m, lives) == Run(m, rules, ops)
    ensures WorldSound(End(m, lives), rules)
    decreases |lives|
  {
    if lives == [] {
      ops := [];
    } else {
      var tail := LifeIsRun(c, rules, m, lives[0]);
      var rest := LivesAreOneRun(c, rules, lives[0].reopened.data, lives[1..]);
      EndOfRest(m, lives);
      ops := lives[0].acked + tail + rest;
      RunAppend(m, rules, lives[0].acked + tail, rest);
      PermittedAppend(m, rules, lives[0].acked + tail, rest);
      WovenMore(lives, tail, rest);
    }
  }

  lemma WovenMore(lives: seq<Life>, tail: seq<Op>, rest: seq<Op>)
    requires lives != [] && WovenFirst(lives[0], tail) && Woven(lives[1..], rest)
    ensures Woven(lives, lives[0].acked + tail + rest)
  {
  }

  /**
   * An acknowledged operation that took effect, or found what it asked for already so, survives every
   * later crash: after any number of lives its delivery again changes nothing, and no record it left has
   * gone or moved back.
   */
  lemma AcknowledgedSurvives(
    c: Codec<Key, Value>, rules: Rules, m: Table, lives: seq<Life>, k: nat)
    requires Lawful(c) && WorldSound(m, rules) && Lives(c, rules, m, lives) && lives != []
    requires k < |lives[0].acked| && Redeliverable(lives[0].acked[k])
    requires
      var before, op := Run(m, rules, lives[0].acked[..k]), lives[0].acked[k];
      After(before, rules, op) != before || (Accepted(before, op) && !Anticipates(before, op))
    ensures
      var op, end := lives[0].acked[k], End(m, lives);
      && After(end, rules, op) == end
      && Advances(Run(m, rules, lives[0].acked[..k + 1]), end)
  {
    var acked, op := lives[0].acked, lives[0].acked[k];
    var ops := LivesAreOneRun(c, rules, m, lives);
    var rest, tail :| WovenFirst(lives[0], tail) && ops == acked + tail + rest && Woven(lives[1..], rest);
    Around(acked, k, tail, rest);
    RunStep(m, rules, acked, k);
    SurvivesRun(m, rules, acked[..k], op, acked[k + 1..] + tail + rest);
  }

  lemma Around(acked: seq<Op>, k: nat, tail: seq<Op>, rest: seq<Op>)
    requires k < |acked|
    ensures acked + tail + rest == acked[..k] + ([acked[k]] + (acked[k + 1..] + tail + rest))
  {
  }

  /** The same within one run. */
  lemma SurvivesRun(m: Table, rules: Rules, earlier: seq<Op>, op: Op, later: seq<Op>)
    requires WorldSound(m, rules) && PermittedRun(m, rules, earlier + ([op] + later)) && Redeliverable(op)
    requires
      var before := Run(m, rules, earlier);
      After(before, rules, op) != before || (Accepted(before, op) && !Anticipates(before, op))
    ensures
      var end := Run(m, rules, earlier + ([op] + later));
      After(end, rules, op) == end && Advances(After(Run(m, rules, earlier), rules, op), end)
  {
    var before := Run(m, rules, earlier);
    RunAppend(m, rules, earlier, [op] + later);
    PermittedAppend(m, rules, earlier, [op] + later);
    RunKeeps(m, rules, earlier);
    RunAppend(before, rules, [op], later);
    PermittedAppend(before, rules, [op], later);
    RunOfOne(before, rules, op);
    StepKeeps(before, rules, op);
    EffectAtMostOnce(before, rules, op, later);
    RunAdvances(After(before, rules, op), rules, later);
  }
}
