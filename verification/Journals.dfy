/** The journal: a map whose changes are appended to a file, one record a transaction. */
module Journals {
  import opened Wrappers
  import opened JournalTail
  import opened Recovery

  /** What a transaction callback comes to: a new map and a value, or a refusal that changes nothing. */
  datatype Outcome<+M, +R> = Done(table: M, value: R) | Refused(code: Code)

  /** An append of `f`, which leads to `next`, to the clean file `base`; `n` bytes of it arrived. */
  ghost predicate Uncertain<K, V>(
    c: Codec<K, V>, disk: seq<byte>, frames: seq<Frame<K, V>>, next: map<K, V>, base: seq<byte>, f: Frame<K, V>, n: nat)
  {
    && Clean(c, base, frames) && NextFrame(c, frames, f) && Apply(Replay(frames), f.changes) == next
    && n <= |Record(c, f)| && disk == base + Record(c, f)[..n]
  }

  /** The file is a clean one and a part of the record that leads to `next`. */
  ghost predicate Torn<K(!new), V(!new)>(c: Codec<K, V>, disk: seq<byte>, frames: seq<Frame<K, V>>, next: map<K, V>) {
    exists base, f, n :: Uncertain(c, disk, frames, next, base, f, n)
  }

  // ----- Changes of one transaction ---------------------------------------------------------

  /** Halfway from one map to another: the keys in `todo` still have their old values. */
  ghost predicate Between<K, V>(before: map<K, V>, after: map<K, V>, todo: set<K>, m: map<K, V>) {
    && m.Keys == (before.Keys * todo) + (after.Keys - todo)
    && forall k | k in m :: m[k] == if k in todo then before[k] else after[k]
  }

  lemma BetweenStep<K, V>(before: map<K, V>, after: map<K, V>, todo: set<K>, m: map<K, V>, k: K)
    requires Between(before, after, todo, m) && k in todo
    ensures k in after ==> Between(before, after, todo - {k}, m[k := after[k]])
    ensures k !in after ==> Between(before, after, todo - {k}, m - {k})
    ensures k in before && k in after && before[k] == after[k] ==> Between(before, after, todo - {k}, m)
  {
  }

  /** The changes that lead from one map to another; none exactly when the maps agree. */
  method Diff<K(==), V(==)>(before: map<K, V>, after: map<K, V>) returns (changes: seq<Change<K, V>>)
    ensures Apply(before, changes) == after
    ensures changes == [] <==> before == after
  {
    changes := [];
    var todo, gone := after.Keys, before.Keys - after.Keys;
    ghost var rest := before.Keys + after.Keys;
    while todo != {}
      invariant todo <= after.Keys && rest == todo + gone
      invariant Between(before, after, rest, Apply(before, changes))
      invariant changes != [] ==> before != after
      decreases todo
    {
      var k :| k in todo;
      BetweenStep(before, after, rest, Apply(before, changes), k);
      if k !in before || before[k] != after[k] {
        ApplyAppend(before, changes, Put(k, after[k]));
        changes := changes + [Put(k, after[k])];
      }
      todo, rest := todo - {k}, rest - {k};
    }
    while gone != {}
      invariant gone <= before.Keys - after.Keys
      invariant Between(before, after, gone, Apply(before, changes))
      invariant changes != [] ==> before != after
      decreases gone
    {
      var k :| k in gone;
      BetweenStep(before, after, gone, Apply(before, changes), k);
      ApplyAppend(before, changes, Remove(k));
      changes := changes + [Remove(k)];
      gone := gone - {k};
    }
    assert Apply(before, changes) == after;
  }

  // ----- Opening ----------------------------------------------------------------------------

  method ReplayFrames<K(==), V>(frames: seq<Frame<K, V>>) returns (data: map<K, V>)
    ensures data == Replay(frames)
  {
    data := map[];
    for i := 0 to |frames|
      invariant data == Replay(frames[..i])
    {
      var changes := frames[i].changes;
      ghost var start := data;
      for j := 0 to |changes|
        invariant data == Apply(start, changes[..j])
      {
        ApplyAppend(start, changes[..j], changes[j]);
        assert changes[..j + 1] == changes[..j] + [changes[j]];
        match changes[j] {
          case Remove(key) => data := data - {key};
          case Put(key, value) => data := data[key := value];
        }
      }
      assert changes[..|changes|] == changes;
      ReplayAppend(frames[..i], frames[i]);
      assert frames[..i + 1] == frames[..i] + [frames[i]];
    }
    assert frames[..|frames|] == frames;
  }

  /** The audit entry followed by the fenced cells, as the changes of one frame. */
  method RepairChanges<K(==), V(==)>(r: Repair<K, V>, data: map<K, V>) returns (changes: seq<Change<K, V>>)
    ensures Apply(data, changes) == Fenced(r, data)
  {
    changes := [Put(r.auditKey, r.audit)];
    assert changes == [] + [Put(r.auditKey, r.audit)];
    ApplyAppend(data, [], Put(r.auditKey, r.audit));
    var todo := data.Keys;
    while todo != {}
      invariant todo <= data.Keys
      invariant Apply(data, changes).Keys == data.Keys + {r.auditKey}
      invariant Apply(data, changes)[r.auditKey] == r.audit
      invariant forall k | k in data && k != r.auditKey ::
          Apply(data, changes)[k] == if k in todo then data[k] else Fenced(r, data)[k]
      decreases todo
    {
      var k :| k in todo;
      if k != r.auditKey {
        var fenced := r.fence(k, data[k]);
        if fenced.Some? {
          ApplyAppend(data, changes, Put(k, fenced.value));
          changes := changes + [Put(k, fenced.value)];
        }
      }
      todo := todo - {k};
    }
  }

  /** Reads a journal file back, repairing a damaged tail or a missing final newline. */
  method Restore<K(==, !new), V(==, !new)>(c: Codec<K, V>, r: Repair<K, V>, bytes: seq<byte>)
    returns (outcome: Result<Opened<K, V>>)
    ensures Opens(c, r, bytes, outcome)
  {
    var tail, revision, previous := ReadJournalTail(c, bytes);
    if tail.Failure? { return Failure(tail.code); }
    var t := tail.value;
    var data := ReplayFrames(t.frames);
    if t.badOffset.None? {
      var whole := if Terminated(bytes) then bytes else bytes + [NEWLINE];
      return Success(Opened(whole, t.frames, data));
    }
    var changes := RepairChanges(r, data);
    var frame := Frame(revision + 1, previous, changes, c.digest(changes, revision + 1, previous));
    KeptPrefixClean(c, bytes, t);
    assert RepairFrame(c, r, t.frames, frame);
    outcome := Success(
      Opened(bytes[..t.badOffset.value] + Record(c, frame), t.frames + [frame], Fenced(r, data)));
  }

  // ----- Callbacks --------------------------------------------------------------------------

  /**
   * A transaction callback: decisions and writes that depend on what it reads, inner transactions
   * whose failure it may catch, and an end.
   */
  datatype Script<!K, !V> =
    | Return
    | Throw
    | Test(question: map<K, V> -> bool, yes: Script<K, V>, no: Script<K, V>)
    | Write(key: K, value: map<K, V> -> V, next: Script<K, V>)
    | Erase(key: K, next: Script<K, V>)
    | Inner(body: Script<K, V>, next: Script<K, V>, caught: Script<K, V>)

  /** The callback's meaning on a plain map: what it leaves, or nothing if it throws. */
  function Meaning<K, V>(s: Script<K, V>, m: map<K, V>): Option<map<K, V>>
    decreases s
  {
    match s
    case Return => Some(m)
    case Throw => None
    case Test(question, yes, no) => Meaning(if question(m) then yes else no, m)
    case Write(key, value, next) => Meaning(next, m[key := value(m)])
    case Erase(key, next) => Meaning(next, m - {key})
    case Inner(body, next, caught) =>
      match Meaning(body, m)
      case Some(m') => Meaning(next, m')
      case None => Meaning(caught, m)
  }

  // ----- The journal ------------------------------------------------------------------------

  class Journal<K(==, !new), V(==, !new)> {
    const codec: Codec<K, V>
    var disk: seq<byte>
    var data: map<K, V>
    var pending: Option<map<K, V>>
    var closed: bool
    var poisoned: bool
    var revision: nat
    var previous: Option<string>
    ghost var frames: seq<Frame<K, V>>
    ghost var attempted: map<K, V> // what the write that failed was to commit

    /** The file means the map in memory; after an uncertain write it means that map or the next. */
    ghost predicate Valid()
      reads this
    {
      && Lawful(codec)
      && revision == |frames| && previous == LastDigest(frames) && Replay(frames) == data
      && (!poisoned && revision <= MAX_SAFE_INTEGER ==> Clean(codec, disk, frames))
      && (poisoned && revision < MAX_SAFE_INTEGER ==> Torn(codec, disk, frames, attempted))
    }

    predicate Usable()
      reads this
    {
      !closed && !poisoned
    }

    function Refusal(): Code
      reads this
    {
      if closed then EClosed else EStorageFault
    }

    /** What reads see: the innermost open transaction, else the committed map. */
    function View(): map<K, V>
      reads this
    {
      if pending.Some? then pending.value else data
    }

    constructor (codec: Codec<K, V>, start: Opened<K, V>)
      requires Lawful(codec) && Replay(start.frames) == start.data
      requires |start.frames| <= MAX_SAFE_INTEGER ==> Clean(codec, start.bytes, start.frames)
      ensures Valid() && Usable() && pending.None?
      ensures data == start.data && disk == start.bytes && frames == start.frames
    {
      this.codec := codec;
      disk, data, frames, attempted := start.bytes, start.data, start.frames, map[];
      pending, closed, poisoned := None, false, false;
      revision, previous := |start.frames|, LastDigest(start.frames);
    }

    /** Everything but the open transaction is as it was. */
    twostate predicate DurableUnchanged()
      reads this
    {
      unchanged(`disk, `data, `closed, `poisoned, `revision, `previous, `frames, `attempted)
    }

    /** What running a callback with this outcome does, at any nesting depth. */
    twostate predicate Transacts<R>(step: Outcome<map<K, V>, R>, new r: Result<R>)
      reads this
    {
      if !old(Usable()) then r == Failure(old(Refusal())) && DurableUnchanged() && unchanged(`pending)
      else match step
        case Refused(code) => r == Failure(code) && DurableUnchanged() && unchanged(`pending)
        case Done(next, value) =>
          if old(pending.Some?) then r == Success(value) && pending == Some(next) && DurableUnchanged()
          else
            && pending.None? && closed == old(closed)
            && if r.Success? then r.value == value && data == next && !poisoned && old(frames) <= frames
               else
                 && r.code == EWrite && poisoned && attempted == next
                 && data == old(data) && frames == old(frames)
    }

    method Begin() returns (r: Result<Option<map<K, V>>>)
      requires Valid()
      modifies `pending
      ensures Valid()
      ensures Usable() ==> r == Success(old(pending)) && pending == Some(old(View()))
      ensures !Usable() ==> r == Failure(Refusal()) && pending == old(pending)
    {
      if !Usable() { return Failure(Refusal()); }
      r := Success(pending);
      pending := Some(View());
    }

    method PendingSet(key: K, value: V)
      requires Valid() && Usable() && pending.Some?
      modifies `pending
      ensures Valid() && pending == Some(old(View())[key := value])
    {
      pending := Some(pending.value[key := value]);
    }

    method PendingDelete(key: K)
      requires Valid() && Usable() && pending.Some?
      modifies `pending
      ensures Valid() && pending == Some(old(View()) - {key})
    {
      pending := Some(pending.value - {key});
    }

    /** A throwing callback: the enclosing transaction is again what it was. */
    method Abort(outer: Option<map<K, V>>)
      requires Valid()
      modifies `pending
      ensures Valid() && pending == outer
    {
      pending := outer;
    }

    /** Writes a record; any part of it may arrive before the file system reports an error. */
    method WriteRecord(f: Frame<K, V>) returns (ok: bool)
      requires Valid() && Usable()
      requires Follows(frames, f) && f.digest == codec.digest(f.changes, f.revision, f.previous)
      modifies `disk, `poisoned, `attempted
      ensures ok ==> disk == old(disk) + Record(codec, f) && !poisoned
      ensures !ok ==> poisoned && Valid() && attempted == Apply(data, f.changes)
    {
      var bytes := Record(codec, f);
      var offset := 0;
      ok := *;  // the first write may fail with nothing written
      while ok && offset < |bytes|
        invariant 0 <= offset <= |bytes| && disk == old(disk) + bytes[..offset] && !poisoned
      {
        var n :| 1 <= n <= |bytes| - offset;
        assert bytes[..offset + n] == bytes[..offset] + bytes[offset..offset + n];
        disk := disk + bytes[offset..offset + n];
        offset := offset + n;
        ok := *;
      }
      assert bytes[..|bytes|] == bytes;
      if ok { ok := *; }  // the file system may still fail to make the bytes durable
      if !ok {
        poisoned, attempted := true, Apply(data, f.changes);
        if revision < MAX_SAFE_INTEGER {
          assert Uncertain(codec, disk, frames, attempted, old(disk), f, offset);
        }
      }
    }

    /** Appends one record for the changes that lead to `next`; keeps the old map if that fails. */
    method Append(next: map<K, V>, changes: seq<Change<K, V>>) returns (ok: bool)
      requires Valid() && Usable() && Apply(data, changes) == next
      modifies `disk, `data, `poisoned, `revision, `previous, `frames, `attempted
      ensures Valid()
      ensures ok ==> !poisoned && data == next && old(frames) <= frames
      ensures !ok ==> poisoned && attempted == next && data == old(data) && frames == old(frames)
    {
      var frame := Frame(revision + 1, previous, changes, codec.digest(changes, revision + 1, previous));
      ok := WriteRecord(frame);
      if ok {
        ReplayAppend(frames, frame);
        if revision < MAX_SAFE_INTEGER { AppendReadsBack(codec, old(disk), frames, frame); }
        revision, previous := revision + 1, Some(frame.digest);
        frames := frames + [frame];
        data := next;
      }
    }

    /** A callback that returned: its map replaces the enclosing one, or is committed as one record. */
    method Commit<R>(outer: Option<map<K, V>>, value: R) returns (r: Result<R>)
      requires Valid() && Usable() && pending.Some?
      modifies this
      ensures Valid() && closed == old(closed)
      ensures outer.Some? ==> r == Success(value) && pending == old(pending) && DurableUnchanged()
      ensures outer.None? ==> pending.None?
      ensures outer.None? && r.Success? ==>
                r.value == value && !poisoned && data == old(pending.value) && old(frames) <= frames
      ensures outer.None? && r.Failure? ==>
                && r.code == EWrite && poisoned && attempted == old(pending.value)
                && data == old(data) && frames == old(frames)
    {
      if outer.Some? { return Success(value); }
      var next := pending.value;
      pending := None;
      var changes := Diff(data, next);
      if changes != [] {
        var ok := Append(next, changes);
        if !ok { return Failure(EWrite); }
      }
      r := Success(value);
    }

    /** The end of a callback: an error it threw undoes its writes, a result commits them. */
    method Finish<R>(outer: Option<map<K, V>>, body: Result<R>) returns (r: Result<R>)
      requires Valid() && Usable() && pending.Some?
      modifies this
      ensures Valid() && closed == old(closed)
      ensures body.Failure? ==> r == body && pending == outer && DurableUnchanged()
      ensures body.Success? && outer.Some? ==> r == body && pending == old(pending) && DurableUnchanged()
      ensures body.Success? && outer.None? ==> pending.None?
      ensures body.Success? && outer.None? && r.Success? ==>
                r == body && !poisoned && data == old(pending.value) && old(frames) <= frames
      ensures body.Success? && outer.None? && r.Failure? ==>
                && r.code == EWrite && poisoned && attempted == old(pending.value)
                && data == old(data) && frames == old(frames)
    {
      match body
      case Failure(_) =>
        Abort(outer);
        r := body;
      case Success(value) =>
        r := Commit(outer, value);
    }

    /** A single write outside a transaction is a transaction of its own. */
    method Set(key: K, value: V) returns (r: Result<()>)
      requires Valid()
      modifies this
      ensures Valid() && Transacts(Done(old(View())[key := value], ()), r)
    {
      if Usable() && pending.Some? {
        PendingSet(key, value);
        return Success(());
      }
      var begun := Begin();
      if begun.Failure? { return Failure(begun.code); }
      PendingSet(key, value);
      r := Commit(begun.value, ());
    }

    method Delete(key: K) returns (r: Result<()>)
      requires Valid()
      modifies this
      ensures Valid() && Transacts(Done(old(View()) - {key}, ()), r)
    {
      if Usable() && pending.Some? {
        PendingDelete(key);
        return Success(());
      }
      var begun := Begin();
      if begun.Failure? { return Failure(begun.code); }
      PendingDelete(key);
      r := Commit(begun.value, ());
    }

    /** Runs a callback to its end inside the open transaction. */
    method Execute(s: Script<K, V>) returns (ok: bool)
      requires Valid() && Usable() && pending.Some?
      modifies this
      ensures Valid() && pending.Some? && DurableUnchanged()
      ensures ok == Meaning(s, old(View())).Some?
      ensures ok ==> pending == Meaning(s, old(View()))
      decreases s, 0
    {
      match s {
        case Return => ok := true;
        case Throw => ok := false;
        case Test(question, yes, no) =>
          if question(View()) { ok := Execute(yes); } else { ok := Execute(no); }
        case Write(key, value, next) =>
          PendingSet(key, value(View()));
          ok := Execute(next);
        case Erase(key, next) =>
          PendingDelete(key);
          ok := Execute(next);
        case Inner(body, next, caught) =>
          var inner := Transaction(body);
          if inner.Success? { ok := Execute(next); } else { ok := Execute(caught); }
      }
    }

    /** A transaction at any depth does to the map exactly what its callback means. */
    method Transaction(s: Script<K, V>) returns (r: Result<()>)
      requires Valid()
      modifies this
      ensures Valid()
      ensures Transacts(
                match Meaning(s, old(View())) case Some(m) => Done(m, ()) case None => Refused(EThrown), r)
      decreases s, 1
    {
      var begun := Begin();
      if begun.Failure? { return Failure(begun.code); }
      var ok := Execute(s);
      if !ok {
        Abort(begun.value);
        return Failure(EThrown);
      }
      r := Commit(begun.value, ());
    }

    method Close()
      requires Valid()
      modifies `closed
      ensures Valid() && closed
    {
      closed := true;
    }

    /** Some entry that satisfies a test, if there is one. The order of entries is left open. */
    method Find(test: (K, V) -> bool) returns (hit: Option<K>)
      ensures hit.Some? ==> hit.value in View() && test(hit.value, View()[hit.value])
      ensures hit.None? ==> forall k | k in View() :: !test(k, View()[k])
    {
      var view := View();
      var todo := view.Keys;
      while todo != {}
        invariant todo <= view.Keys
        invariant forall k | k in view.Keys - todo :: !test(k, view[k])
        decreases todo
      {
        var k :| k in todo;
        if test(k, view[k]) { return Some(k); }
        todo := todo - {k};
      }
      hit := None;
    }

    function Where(test: (K, V) -> bool): set<K>
      reads this
    {
      set k | k in View() && test(k, View()[k])
    }

    /** How many entries satisfy a test. */
    method Count(test: (K, V) -> bool) returns (n: nat)
      ensures n == |Where(test)|
    {
      var view := View();
      var todo := view.Keys;
      ghost var found: set<K> := {};
      n := 0;
      while todo != {}
        invariant todo <= view.Keys
        invariant found == set k | k in view && k !in todo && test(k, view[k])
        invariant n == |found|
        decreases todo
      {
        var k :| k in todo;
        if test(k, view[k]) {
          n := n + 1;
          found := found + {k};
        }
        todo := todo - {k};
      }
      assert found == Where(test);
    }
  }
}
