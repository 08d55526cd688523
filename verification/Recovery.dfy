/** What a journal file means, what a crash leaves of it, and what reopening makes of the remains. */
module Recovery {
  import opened Wrappers
  import opened JournalTail

  // ----- The map a list of frames stands for ------------------------------------------------

  function ApplyOne<K, V>(m: map<K, V>, change: Change<K, V>): map<K, V> {
    match change
    case Put(key, value) => m[key := value]
    case Remove(key) => m - {key}
  }

  function Apply<K, V>(m: map<K, V>, changes: seq<Change<K, V>>): map<K, V> {
    if changes == [] then m
    else ApplyOne(Apply(m, changes[..|changes| - 1]), changes[|changes| - 1])
  }

  function Replay<K, V>(frames: seq<Frame<K, V>>): map<K, V> {
    if frames == [] then map[]
    else Apply(Replay(frames[..|frames| - 1]), frames[|frames| - 1].changes)
  }

  lemma ApplyAppend<K, V>(m: map<K, V>, changes: seq<Change<K, V>>, change: Change<K, V>)
    ensures Apply(m, changes + [change]) == ApplyOne(Apply(m, changes), change)
  {
    assert (changes + [change])[..|changes|] == changes;
  }

  lemma ReplayAppend<K, V>(frames: seq<Frame<K, V>>, f: Frame<K, V>)
    ensures Replay(frames + [f]) == Apply(Replay(frames), f.changes)
  {
    assert (frames + [f])[..|frames|] == frames;
  }

  // ----- Files ------------------------------------------------------------------------------

  /** An undamaged file whose last line is terminated, holding exactly these frames. */
  ghost predicate Clean<K, V>(c: Codec<K, V>, bytes: seq<byte>, frames: seq<Frame<K, V>>) {
    Terminated(bytes) && TailOf(c, bytes) == Success(Tail(frames, None))
  }

  ghost predicate NextFrame<K, V>(c: Codec<K, V>, frames: seq<Frame<K, V>>, f: Frame<K, V>) {
    ValidFrame(c, f) && Follows(frames, f)
  }

  /** The bytes one commit appends. */
  function Record<K, V>(c: Codec<K, V>, f: Frame<K, V>): seq<byte> {
    c.encode(f) + [NEWLINE]
  }

  /** Reading on, from a line boundary. */
  lemma ScanAfter<K, V>(c: Codec<K, V>, prefix: seq<byte>, line: seq<byte>, bytes: seq<byte>, t: Tail<K, V>)
    requires Terminated(prefix) && Lines(bytes) == [line]
    requires Scan(c, Lines(prefix), 0, Tail([], None)) == Success(t)
    ensures Scan(c, Lines(prefix + bytes), 0, Tail([], None)) == ScanLine(c, line, |prefix|, t)
  {
    LinesConcat(prefix, bytes);
    LinesWidth(prefix);
    ScanConcat(c, Lines(prefix), [line], 0, Tail([], None));
    ScanCons(c, line, [], |prefix|, t);
    assert [line] + [] == [line];
  }

  /** A whole frame after a clean file, with or without its newline, extends the history. */
  lemma AppendReadsBack<K(!new), V(!new)>(
    c: Codec<K, V>, bytes: seq<byte>, frames: seq<Frame<K, V>>, f: Frame<K, V>)
    requires Lawful(c) && NextFrame(c, frames, f)
    requires Terminated(bytes) && Scan(c, Lines(bytes), 0, Tail([], None)) == Success(Tail(frames, None))
    ensures Clean(c, bytes + Record(c, f), frames + [f])
    ensures TailOf(c, bytes + c.encode(f)) == Success(Tail(frames + [f], None))
    ensures !Terminated(bytes + c.encode(f))
  {
    var line := c.encode(f);
    LinesSingle(line);
    ScanAfter(c, bytes, line, Record(c, f), Tail(frames, None));
    ScanAfter(c, bytes, line, line, Tail(frames, None));
  }

  /** A proper part of a frame is damage, unless nothing of it was written. */
  lemma TornReadsBack<K(!new), V(!new)>(
    c: Codec<K, V>, bytes: seq<byte>, frames: seq<Frame<K, V>>, f: Frame<K, V>, n: nat)
    requires Lawful(c) && ValidFrame(c, f) && Clean(c, bytes, frames)
    requires 0 < n < |c.encode(f)|
    ensures TailOf(c, bytes + c.encode(f)[..n]) ==
            if frames == [] then Failure(EStorageFault) else Success(Tail(frames, Some(|bytes|)))
  {
    var line := c.encode(f)[..n];
    assert c.parse(line) == Junk;
    LinesSingle(line);
    ScanAfter(c, bytes, line, line, Tail(frames, None));
  }

  /**
   * Any prefix of one appended record: the file reads as before, as after, or as a damaged tail
   * that starts exactly where the append started.
   */
  lemma CrashedAppend<K(!new), V(!new)>(
    c: Codec<K, V>, bytes: seq<byte>, frames: seq<Frame<K, V>>, f: Frame<K, V>, n: nat)
    requires Lawful(c) && Clean(c, bytes, frames) && NextFrame(c, frames, f)
    requires n <= |Record(c, f)|
    ensures
      var torn := bytes + Record(c, f)[..n];
      var k := |c.encode(f)|;
      TailOf(c, torn) ==
      if n == 0 then Success(Tail(frames, None))
      else if n >= k then Success(Tail(frames + [f], None))
      else if frames == [] then Failure(EStorageFault)
      else Success(Tail(frames, Some(|bytes|)))
  {
    var k := |c.encode(f)|;
    if n == 0 {
      assert bytes + Record(c, f)[..n] == bytes;
    } else if n < k {
      assert Record(c, f)[..n] == c.encode(f)[..n];
      TornReadsBack(c, bytes, frames, f, n);
    } else {
      AppendReadsBack(c, bytes, frames, f);
      if n == k {
        assert Record(c, f)[..n] == c.encode(f);
      } else {
        assert Record(c, f)[..n] == Record(c, f);
      }
    }
  }

  // ----- Repair -----------------------------------------------------------------------------

  /** What a repair writes: one audit entry, and a replacement for every value to be fenced. */
  datatype Repair<!K, !V> = Repair(auditKey: K, audit: V, fence: (K, V) -> Option<V>)

  predicate Fences<K, V>(r: Repair<K, V>, m: map<K, V>, k: K) {
    k in m && k != r.auditKey && r.fence(k, m[k]).Some?
  }

  /** The map after a repair: the audit is recorded, fenced cells are replaced, the rest is kept. */
  function Fenced<K, V>(r: Repair<K, V>, m: map<K, V>): map<K, V> {
    map k | k in m.Keys + {r.auditKey} ::
      if k == r.auditKey then r.audit
      else if Fences(r, m, k) then r.fence(k, m[k]).value
      else m[k]
  }

  lemma TakeConcat<T>(a: seq<T>, b: seq<T>, n: nat)
    requires n <= |b|
    ensures (a + b)[..|a| + n] == a + b[..n]
  {
  }

  lemma SplitFirst(bytes: seq<byte>) returns (line: seq<byte>, rest: seq<byte>)
    requires |Lines(bytes)| > 1
    ensures bytes == line + [NEWLINE] + rest && NEWLINE !in line
    ensures Lines(bytes) == [line] + Lines(rest)
  {
    var e := LineEnd(bytes);
    line, rest := bytes[..e], bytes[e + 1..];
  }

  lemma {:induction false} TakeLines(bytes: seq<byte>, n: nat)
    requires n < |Lines(bytes)|
    ensures
      var w := Width(Lines(bytes)[..n]);
      w <= |bytes| && Terminated(bytes[..w]) && Lines(bytes[..w]) == Lines(bytes)[..n]
    decreases n
  {
    if n == 0 {
      assert Lines(bytes)[..0] == [];
    } else {
      var line, rest := SplitFirst(bytes);
      TakeLines(rest, n - 1);
      TakeLineMore(line, rest, Lines(rest), n - 1);
    }
  }

  lemma TakeLineMore(line: seq<byte>, rest: seq<byte>, lines: seq<seq<byte>>, n: nat)
    requires NEWLINE !in line && n <= |lines| && Width(lines[..n]) <= |rest|
    requires Terminated(rest[..Width(lines[..n])]) && Lines(rest[..Width(lines[..n])]) == lines[..n]
    ensures
      var bytes, more := line + [NEWLINE] + rest, ([line] + lines)[..n + 1];
      var w := Width(more);
      w <= |bytes| && Terminated(bytes[..w]) && Lines(bytes[..w]) == more
  {
    var taken := lines[..n];
    TakeConcat([line], lines, n);
    OneLineMore(line, rest[..Width(taken)], taken);
    TakeConcat(line + [NEWLINE], rest, Width(taken));
  }

  lemma OneLineMore(line: seq<byte>, head: seq<byte>, lines: seq<seq<byte>>)
    requires NEWLINE !in line && Terminated(head) && Lines(head) == lines
    ensures Width([line] + lines) == |line| + 1 + Width(lines)
    ensures Terminated(line + [NEWLINE] + head) && Lines(line + [NEWLINE] + head) == [line] + lines
  {
    assert ([line] + lines)[1..] == lines;
    LinesCons(line, head);
  }

  /** The part before the damage is itself a clean file with the same frames. */
  lemma KeptPrefixClean<K, V>(c: Codec<K, V>, bytes: seq<byte>, t: Tail<K, V>)
    requires TailOf(c, bytes) == Success(t) && t.badOffset.Some?
    ensures t.badOffset.value <= |bytes| && t.frames != []
    ensures
      var kept := bytes[..t.badOffset.value];
      Terminated(kept) && Scan(c, Lines(kept), 0, Tail([], None)) == Success(Tail(t.frames, None))
  {
    TailReaderAcceptsExactly(c, bytes);
    var lines := Lines(bytes);
    TakeLines(bytes, |t.frames|);
    var kept := lines[..|t.frames|];
    assert Intact(c, kept, t.frames);
    assert Reads(c, [], Tail([], None));
    ScanReads(c, [], kept, Tail([], None));
    assert [] + kept == kept;
    var whole := Tail(t.frames, None);
    assert kept[..|kept|] == kept;
    assert Reads(c, kept, whole);
    var r := Scan(c, kept, 0, Tail([], None));
    assert r.Success?;
    IntactUnique(c, kept, r.value.frames, t.frames);
  }

  /**
   * Replacing the damaged tail by one more frame gives a clean file: the old frames and that one.
   * A second opening therefore finds nothing to repair.
   */
  lemma RepairReadsBack<K(!new), V(!new)>(
    c: Codec<K, V>, bytes: seq<byte>, t: Tail<K, V>, f: Frame<K, V>)
    requires Lawful(c) && TailOf(c, bytes) == Success(t) && t.badOffset.Some?
    requires NextFrame(c, t.frames, f)
    ensures t.badOffset.value <= |bytes|
    ensures Clean(c, bytes[..t.badOffset.value] + Record(c, f), t.frames + [f])
  {
    KeptPrefixClean(c, bytes, t);
    AppendReadsBack(c, bytes[..t.badOffset.value], t.frames, f);
  }

  // ----- Opening ----------------------------------------------------------------------------

  /** The file and the map an opening ends with. */
  datatype Opened<K, V> = Opened(bytes: seq<byte>, frames: seq<Frame<K, V>>, data: map<K, V>)

  /** The frame that records a repair: next in the chain, and its changes apply the fences. */
  ghost predicate RepairFrame<K, V>(c: Codec<K, V>, r: Repair<K, V>, frames: seq<Frame<K, V>>, f: Frame<K, V>) {
    && Follows(frames, f)
    && f.digest == c.digest(f.changes, f.revision, f.previous)
    && Apply(Replay(frames), f.changes) == Fenced(r, Replay(frames))
  }

  /** What opening a file may produce. The order of the repair's changes is left open. */
  ghost predicate Opens<K(!new), V(!new)>(
    c: Codec<K, V>, r: Repair<K, V>, bytes: seq<byte>, outcome: Result<Opened<K, V>>)
  {
    match TailOf(c, bytes)
    case Failure(code) => outcome == Failure(code)
    case Success(t) =>
      && outcome.Success?
      && if t.badOffset.None? then
           outcome.value == Opened(if Terminated(bytes) then bytes else bytes + [NEWLINE], t.frames, Replay(t.frames))
         else
           exists f: Frame<K, V> :: RepairFrame(c, r, t.frames, f)
             && t.badOffset.value <= |bytes|
             && outcome.value == Opened(
                  bytes[..t.badOffset.value] + Record(c, f), t.frames + [f], Fenced(r, Replay(t.frames)))
  }

  /** Every successful opening leaves a clean file that means the map in memory. */
  lemma OpenedIsClean<K(!new), V(!new)>(
    c: Codec<K, V>, r: Repair<K, V>, bytes: seq<byte>, outcome: Result<Opened<K, V>>)
    requires Lawful(c) && Opens(c, r, bytes, outcome) && outcome.Success?
    requires |outcome.value.frames| <= MAX_SAFE_INTEGER
    ensures Clean(c, outcome.value.bytes, outcome.value.frames)
    ensures Replay(outcome.value.frames) == outcome.value.data
  {
    var t := TailOf(c, bytes).value;
    if t.badOffset.None? {
      if !Terminated(bytes) { LinesTerminate(bytes); }
    } else {
      var f: Frame<K, V> :| RepairFrame(c, r, t.frames, f)
        && t.badOffset.value <= |bytes|
        && outcome.value == Opened(
             bytes[..t.badOffset.value] + Record(c, f), t.frames + [f], Fenced(r, Replay(t.frames)));
      RepairReadsBack(c, bytes, t, f);
      ReplayAppend(t.frames, f);
    }
  }

  /** Repair is idempotent: opening what an opening left changes neither the file nor the map. */
  lemma ReopeningIsIdentity<K(!new), V(!new)>(
    c: Codec<K, V>, r: Repair<K, V>, r': Repair<K, V>, bytes: seq<byte>,
    first: Result<Opened<K, V>>, second: Result<Opened<K, V>>)
    requires Lawful(c) && Opens(c, r, bytes, first) && first.Success?
    requires |first.value.frames| <= MAX_SAFE_INTEGER
    requires Opens(c, r', first.value.bytes, second)
    ensures second == first
  {
    OpenedIsClean(c, r, bytes, first);
  }

  /**
   * Crash atomicity. However much of one more commit reached the disk, reopening yields the map
   * before it, the map after it, or the map before it with the repair recorded, and it refuses only
   * when the file held no frame yet.
   */
  lemma CrashAtomicity<K(!new), V(!new)>(
    c: Codec<K, V>, r: Repair<K, V>, bytes: seq<byte>, frames: seq<Frame<K, V>>, f: Frame<K, V>, n: nat,
    outcome: Result<Opened<K, V>>)
    requires Lawful(c) && Clean(c, bytes, frames) && NextFrame(c, frames, f)
    requires n <= |Record(c, f)|
    requires Opens(c, r, bytes + Record(c, f)[..n], outcome)
    ensures
      var before, after := Replay(frames), Apply(Replay(frames), f.changes);
      var k := |c.encode(f)|;
      if n == 0 then outcome.Success? && outcome.value.data == before
      else if n >= k then outcome.Success? && outcome.value.data == after
      else if frames == [] then outcome == Failure(EStorageFault)
      else outcome.Success? && outcome.value.data == Fenced(r, before)
  {
    CrashedAppend(c, bytes, frames, f, n);
    ReplayAppend(frames, f);
  }
}
