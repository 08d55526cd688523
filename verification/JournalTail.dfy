/** The journal file: frames, lines, and the reader that separates a valid prefix from a damaged tail. */
module JournalTail {
  import opened Wrappers

  type byte = x: int | 0 <= x < 256

  const NEWLINE: byte := 10
  const MAX_SAFE_INTEGER := 9_007_199_254_740_991

  datatype Change<+K, +V> = Put(key: K, value: V) | Remove(key: K)

  datatype Frame<+K, +V> = Frame(
    revision: int,
    previous: Option<string>,
    changes: seq<Change<K, V>>,
    digest: string)

  /** What parsing one line as JSON yields, as far as the reader distinguishes it. */
  datatype Parsed<+K, +V> =
    | Junk                          // not JSON, or JSON that is not an object
    | Headerless                    // an object without a version
    | Foreign                       // an object with another version
    | Malformed                     // version 1, with fields of the wrong shape
    | Candidate(frame: Frame<K, V>) // version 1, well-shaped

  /** The JSON text of frames and the checksum are parameters of the model. */
  datatype Codec<!K, !V> = Codec(
    encode: Frame<K, V> -> seq<byte>,
    parse: seq<byte> -> Parsed<K, V>,
    digest: (seq<Change<K, V>>, int, Option<string>) -> string)

  predicate ValidFrame<K, V>(c: Codec<K, V>, f: Frame<K, V>) {
    && 0 < f.revision <= MAX_SAFE_INTEGER
    && f.digest == c.digest(f.changes, f.revision, f.previous)
  }

  /** A valid frame is one line of text, reads back as itself, and is not JSON when cut short. */
  ghost predicate Lawful<K(!new), V(!new)>(c: Codec<K, V>) {
    forall f: Frame<K, V> | ValidFrame(c, f) ::
      && c.encode(f) != [] && NEWLINE !in c.encode(f)
      && c.parse(c.encode(f)) == Candidate(f)
      && forall n | 0 <= n < |c.encode(f)| :: c.parse(c.encode(f)[..n]) == Junk
  }

  ghost predicate InjectiveDigest<K(!new), V(!new)>(c: Codec<K, V>) {
    forall x: seq<Change<K, V>>, r: int, p: Option<string>, x': seq<Change<K, V>>, r': int, p': Option<string>
      | c.digest(x, r, p) == c.digest(x', r', p')
      :: x == x' && r == r' && p == p'
  }

  // ----- Lines ------------------------------------------------------------------------------

  /** The index of the first newline at or after `from`, or the end of the bytes. */
  function LineEnd(b: seq<byte>, from: nat := 0): (e: nat)
    requires from <= |b|
    ensures from <= e <= |b|
    ensures forall k :: from <= k < e ==> b[k] != NEWLINE
    ensures e < |b| ==> b[e] == NEWLINE
    decreases |b| - from
  {
    if from == |b| || b[from] == NEWLINE then from else LineEnd(b, from + 1)
  }

  function Lines(b: seq<byte>): seq<seq<byte>>
    decreases |b|
  {
    if b == [] then []
    else
      var e := LineEnd(b);
      if e == |b| then [b] else [b[..e]] + Lines(b[e + 1..])
  }

  predicate Terminated(b: seq<byte>) {
    b == [] || b[|b| - 1] == NEWLINE
  }

  /** The bytes that a list of terminated lines occupies. */
  function Width(lines: seq<seq<byte>>): nat {
    if lines == [] then 0 else |lines[0]| + 1 + Width(lines[1..])
  }

  lemma LineEndUnique(b: seq<byte>, e: nat)
    requires e <= |b| && forall k :: 0 <= k < e ==> b[k] != NEWLINE
    requires e < |b| ==> b[e] == NEWLINE
    ensures LineEnd(b) == e
  {
  }

  lemma Associative<T>(a: seq<T>, b: seq<T>, c: seq<T>)
    ensures a + b + c == a + (b + c)
  {
  }

  lemma LinesCons(line: seq<byte>, rest: seq<byte>)
    requires NEWLINE !in line
    ensures Lines(line + [NEWLINE] + rest) == [line] + Lines(rest)
  {
    var b := line + [NEWLINE] + rest;
    LineEndUnique(b, |line|);
    assert b[..|line|] == line && b[|line| + 1..] == rest;
  }

  lemma FirstLine(a: seq<byte>) returns (line: seq<byte>, rest: seq<byte>)
    requires Terminated(a) && a != []
    ensures a == line + [NEWLINE] + rest && NEWLINE !in line && Terminated(rest)
  {
    var e := LineEnd(a);
    line, rest := a[..e], a[e + 1..];
  }

  /** Cutting a file at a line boundary cuts its list of lines. */
  lemma {:induction false} LinesConcat(a: seq<byte>, b: seq<byte>)
    requires Terminated(a)
    ensures Lines(a + b) == Lines(a) + Lines(b)
    decreases |a|
  {
    if a == [] {
      assert a + b == b;
    } else {
      var line, rest := FirstLine(a);
      LinesConcat(rest, b);
      LinesCons(line, rest);
      Associative(line + [NEWLINE], rest, b);
      LinesCons(line, rest + b);
      Associative([line], Lines(rest), Lines(b));
    }
  }

  lemma {:induction false} LinesWidth(a: seq<byte>)
    requires Terminated(a)
    ensures Width(Lines(a)) == |a|
    decreases |a|
  {
    if a != [] {
      var line, rest := FirstLine(a);
      LinesWidth(rest);
      LinesCons(line, rest);
      assert Lines(a)[1..] == Lines(rest);
    }
  }

  lemma LinesSingle(l: seq<byte>)
    requires NEWLINE !in l
    ensures Lines(l + [NEWLINE]) == [l]
    ensures l != [] ==> Lines(l) == [l]
  {
    LinesCons(l, []);
    assert l + [NEWLINE] + [] == l + [NEWLINE];
    LineEndUnique(l, |l|);
  }

  /** A missing final newline does not change the lines. */
  lemma {:induction false} LinesTerminate(b: seq<byte>)
    requires !Terminated(b)
    ensures Lines(b + [NEWLINE]) == Lines(b)
    decreases |b|
  {
    var e := LineEnd(b);
    var t := b + [NEWLINE];
    assert t[..e] == b[..e];
    LineEndUnique(t, e);
    if e == |b| {
      assert t[e + 1..] == [];
      assert b[..e] == b;
    } else {
      assert t[e + 1..] == b[e + 1..] + [NEWLINE];
      LinesTerminate(b[e + 1..]);
    }
  }

  // ----- Reading the tail -------------------------------------------------------------------

  datatype Verdict<+K, +V> = FormatFault | Invalid | Checked(frame: Frame<K, V>)

  function Judge<K, V>(c: Codec<K, V>, line: seq<byte>, first: bool): Verdict<K, V> {
    match c.parse(line)
    case Headerless => if first then FormatFault else Invalid
    case Foreign => FormatFault
    case Candidate(f) => if ValidFrame(c, f) then Checked(f) else Invalid
    case _ => Invalid
  }

  datatype Tail<+K, +V> = Tail(frames: seq<Frame<K, V>>, badOffset: Option<nat>)

  function LastDigest<K, V>(frames: seq<Frame<K, V>>): Option<string> {
    if frames == [] then None else Some(frames[|frames| - 1].digest)
  }

  predicate Follows<K, V>(frames: seq<Frame<K, V>>, f: Frame<K, V>) {
    f.revision == |frames| + 1 && f.previous == LastDigest(frames)
  }

  /** One line, at byte `offset`, given what was read before it. */
  function ScanLine<K, V>(c: Codec<K, V>, line: seq<byte>, offset: nat, t: Tail<K, V>): Result<Tail<K, V>> {
    match Judge(c, line, offset == 0)
    case FormatFault => Failure(EFormat)
    case Invalid => Success(if t.badOffset.None? then t.(badOffset := Some(offset)) else t)
    case Checked(f) =>
      if t.badOffset.Some? || !Follows(t.frames, f) then Failure(EStorageFault)
      else Success(t.(frames := t.frames + [f]))
  }

  function Scan<K, V>(c: Codec<K, V>, lines: seq<seq<byte>>, offset: nat, t: Tail<K, V>): Result<Tail<K, V>> {
    if lines == [] then Success(t)
    else
      match ScanLine(c, lines[0], offset, t)
      case Failure(code) => Failure(code)
      case Success(t') => Scan(c, lines[1..], offset + |lines[0]| + 1, t')
  }

  /** A damaged file must keep at least one valid frame. */
  function Conclude<K, V>(r: Result<Tail<K, V>>): Result<Tail<K, V>> {
    if r.Success? && r.value.badOffset.Some? && r.value.frames == [] then Failure(EStorageFault) else r
  }

  function TailOf<K, V>(c: Codec<K, V>, bytes: seq<byte>): Result<Tail<K, V>> {
    Conclude(Scan(c, Lines(bytes), 0, Tail([], None)))
  }

  /** Walks the bytes line by line; reports the frames, the chain head and where damage begins. */
  method ReadJournalTail<K, V>(c: Codec<K, V>, bytes: seq<byte>)
    returns (r: Result<Tail<K, V>>, revision: nat, previous: Option<string>)
    ensures r == TailOf(c, bytes)
    ensures r.Success? ==> revision == |r.value.frames| && previous == LastDigest(r.value.frames)
  {
    var frames: seq<Frame<K, V>> := [];
    var badOffset: Option<nat> := None;
    revision, previous := 0, None;
    var offset := 0;
    ghost var at := 0;
    assert bytes[0..] == bytes;
    while offset < |bytes|
      invariant 0 <= offset <= |bytes|
      invariant offset < |bytes| ==> at == offset
      invariant Scan(c, Lines(bytes[offset..]), at, Tail(frames, badOffset)) ==
                Scan(c, Lines(bytes), 0, Tail([], None))
      invariant revision == |frames| && previous == LastDigest(frames)
    {
      var newline := LineEnd(bytes, offset);
      var end := if newline == |bytes| then newline else newline + 1;
      var line := bytes[offset..newline];
      ghost var step := ScanLine(c, line, offset, Tail(frames, badOffset));
      ScanOn(c, bytes, offset, newline, end, Tail(frames, badOffset));
      match Judge(c, line, offset == 0) {
        case FormatFault => return Failure(EFormat), revision, previous;
        case Invalid =>
          if badOffset.None? { badOffset := Some(offset); }
        case Checked(frame) =>
          if badOffset.Some? { return Failure(EStorageFault), revision, previous; }
          if frame.revision != revision + 1 || frame.previous != previous {
            return Failure(EStorageFault), revision, previous;
          }
          frames := frames + [frame];
          revision, previous := revision + 1, Some(frame.digest);
      }
      assert step == Success(Tail(frames, badOffset));
      offset, at := end, newline + 1;
    }
    if badOffset.Some? && frames == [] { return Failure(EStorageFault), revision, previous; }
    r := Success(Tail(frames, badOffset));
  }

  lemma ScanCons<K, V>(c: Codec<K, V>, line: seq<byte>, rest: seq<seq<byte>>, offset: nat, t: Tail<K, V>)
    ensures
      var step := ScanLine(c, line, offset, t);
      Scan(c, [line] + rest, offset, t) ==
      if step.Failure? then step else Scan(c, rest, offset + |line| + 1, step.value)
  {
    assert ([line] + rest)[1..] == rest;
  }

  /** The scan of the rest of the bytes goes on behind the next line. */
  lemma ScanOn<K, V>(c: Codec<K, V>, b: seq<byte>, offset: nat, newline: nat, end: nat, t: Tail<K, V>)
    requires offset < |b| && newline == LineEnd(b, offset)
    requires end == if newline == |b| then newline else newline + 1
    ensures
      var step := ScanLine(c, b[offset..newline], offset, t);
      Scan(c, Lines(b[offset..]), offset, t) ==
      if step.Failure? then step else Scan(c, Lines(b[end..]), newline + 1, step.value)
  {
    LinesStep(b, offset, newline, end);
    ScanCons(c, b[offset..newline], Lines(b[end..]), offset, t);
  }

  lemma LinesStep(b: seq<byte>, offset: nat, newline: nat, end: nat)
    requires offset < |b| && newline == LineEnd(b, offset)
    requires end == if newline == |b| then newline else newline + 1
    ensures Lines(b[offset..]) == [b[offset..newline]] + Lines(b[end..])
  {
    var line, rest := b[offset..newline], b[end..];
    assert NEWLINE !in line;
    if newline < |b| {
      assert b[offset..] == line + [NEWLINE] + rest;
      LinesCons(line, rest);
    } else {
      assert b[offset..] == line && rest == [];
      LinesSingle(line);
    }
  }

  lemma {:induction false} ScanConcat<K, V>(
    c: Codec<K, V>, a: seq<seq<byte>>, b: seq<seq<byte>>, offset: nat, t: Tail<K, V>)
    ensures
      Scan(c, a + b, offset, t) ==
      match Scan(c, a, offset, t)
      case Failure(code) => Failure(code)
      case Success(t') => Scan(c, b, offset + Width(a), t')
    decreases |a|
  {
    if a == [] {
      assert a + b == b;
    } else {
      assert (a + b)[1..] == a[1..] + b;
      match ScanLine(c, a[0], offset, t) {
        case Failure(_) =>
        case Success(t') => ScanConcat(c, a[1..], b, offset + |a[0]| + 1, t');
      }
    }
  }

  // ----- What the reader accepts ------------------------------------------------------------

  ghost predicate Chained<K, V>(c: Codec<K, V>, frames: seq<Frame<K, V>>) {
    forall i :: 0 <= i < |frames| ==> ValidFrame(c, frames[i]) && Follows(frames[..i], frames[i])
  }

  /** The first `|frames|` lines are exactly these frames, chained; every other line is invalid. */
  ghost predicate Intact<K, V>(c: Codec<K, V>, lines: seq<seq<byte>>, frames: seq<Frame<K, V>>) {
    && |frames| <= |lines|
    && (forall i :: 0 <= i < |frames| ==> Judge(c, lines[i], i == 0) == Checked(frames[i]))
    && (forall i :: |frames| <= i < |lines| ==> Judge(c, lines[i], i == 0) == Invalid)
    && Chained(c, frames)
  }

  ghost predicate Reads<K, V>(c: Codec<K, V>, lines: seq<seq<byte>>, t: Tail<K, V>) {
    && Intact(c, lines, t.frames)
    && t.badOffset == if |t.frames| == |lines| then None else Some(Width(lines[..|t.frames|]))
  }

  lemma {:induction false} WidthConcat(a: seq<seq<byte>>, b: seq<seq<byte>>)
    ensures Width(a + b) == Width(a) + Width(b)
    ensures Width(a) >= |a|
    decreases |a|
  {
    if a == [] {
      assert a + b == b;
    } else {
      assert (a + b)[1..] == a[1..] + b;
      WidthConcat(a[1..], b);
    }
  }

  /** Reading one more line, in the terms of `Reads`. */
  lemma ReadsStep<K, V>(c: Codec<K, V>, lines: seq<seq<byte>>, line: seq<byte>, t: Tail<K, V>)
    requires Reads(c, lines, t)
    ensures
      match ScanLine(c, line, Width(lines), t)
      case Success(t') => Reads(c, lines + [line], t')
      case Failure(_) => forall t' :: !Reads(c, lines + [line], t')
  {
    WidthConcat(lines, []);
    var more := lines + [line];
    assert lines[..|lines|] == lines == more[..|lines|];
    assert Width(lines) == 0 <==> lines == [];
    var verdict := Judge(c, line, lines == []);
    match ScanLine(c, line, Width(lines), t) {
      case Success(t') =>
        assert more[..|t.frames|] == lines[..|t.frames|];
        if verdict.Checked? { ChainedOn(c, t.frames, verdict.frame); }
      case Failure(_) =>
        forall t' ensures !Reads(c, more, t') {
          if Reads(c, more, t') { RefusedNotIntact(c, lines, line, t, t'); }
        }
    }
  }

  lemma ChainedOn<K, V>(c: Codec<K, V>, frames: seq<Frame<K, V>>, f: Frame<K, V>)
    requires Chained(c, frames) && ValidFrame(c, f) && Follows(frames, f)
    ensures Chained(c, frames + [f])
  {
    var more := frames + [f];
    assert more[..|frames|] == frames;
    forall i | 0 <= i < |frames| ensures more[..i] == frames[..i] {}
  }

  lemma RefusedNotIntact<K, V>(
    c: Codec<K, V>, lines: seq<seq<byte>>, line: seq<byte>, t: Tail<K, V>, t': Tail<K, V>)
    requires Reads(c, lines, t) && Reads(c, lines + [line], t')
    ensures ScanLine(c, line, Width(lines), t).Success?
  {
    WidthConcat(lines, []);
    var n := IntactPrefix(c, lines, [line], t'.frames);
    IntactUnique(c, lines, t.frames, t'.frames[..n]);
    assert (lines + [line])[|lines|] == line;
  }

  lemma IntactPrefix<K, V>(
    c: Codec<K, V>, a: seq<seq<byte>>, b: seq<seq<byte>>, frames: seq<Frame<K, V>>) returns (n: nat)
    requires Intact(c, a + b, frames)
    ensures n == if |frames| <= |a| then |frames| else |a|
    ensures Intact(c, a, frames[..n])
  {
    n := if |frames| <= |a| then |frames| else |a|;
    assert forall i :: 0 <= i < |a| ==> (a + b)[i] == a[i];
    forall i | 0 <= i < n ensures frames[..n][..i] == frames[..i] {}
  }

  lemma {:induction false} ScanReads<K, V>(c: Codec<K, V>, done: seq<seq<byte>>, lines: seq<seq<byte>>, t: Tail<K, V>)
    requires Reads(c, done, t)
    ensures
      match Scan(c, lines, Width(done), t)
      case Success(t') => Reads(c, done + lines, t')
      case Failure(_) => forall t' :: !Reads(c, done + lines, t')
    decreases |lines|
  {
    if lines == [] {
      assert done + lines == done;
    } else {
      var line := lines[0];
      ReadsStep(c, done, line, t);
      WidthConcat(done, [line]);
      assert done + lines == (done + [line]) + lines[1..];
      match ScanLine(c, line, Width(done), t) {
        case Success(t') => ScanReads(c, done + [line], lines[1..], t');
        case Failure(_) =>
          forall t' ensures !Reads(c, done + lines, t') {
            if Reads(c, done + lines, t') { ReadsPrefix(c, done + [line], lines[1..], t'); }
          }
      }
    }
  }

  lemma ReadsPrefix<K, V>(c: Codec<K, V>, a: seq<seq<byte>>, b: seq<seq<byte>>, t: Tail<K, V>)
    requires Reads(c, a + b, t)
    ensures exists t' :: Reads(c, a, t')
  {
    var n := IntactPrefix(c, a, b, t.frames);
    var t' := Tail(t.frames[..n], if n == |a| then None else Some(Width(a[..n])));
    assert Reads(c, a, t');
  }

  /**
   * The reader accepts a file exactly when its lines are chained valid frames followed by invalid
   * lines only, with no foreign header, and at least one frame unless the file is empty.
   */
  lemma TailReaderAcceptsExactly<K, V>(c: Codec<K, V>, bytes: seq<byte>)
    ensures TailOf(c, bytes).Success? <==>
              exists frames :: Intact(c, Lines(bytes), frames) && (frames == [] ==> bytes == [])
    ensures TailOf(c, bytes).Success? ==> Reads(c, Lines(bytes), TailOf(c, bytes).value)
  {
    var lines := Lines(bytes);
    assert Reads(c, [], Tail([], None));
    ScanReads(c, [], lines, Tail([], None));
    assert [] + lines == lines;
    var r := Scan(c, lines, 0, Tail([], None));
    assert bytes == [] <==> lines == [];
    if r.Success? {
      var t := r.value;
      assert Reads(c, lines, t);
      assert t.badOffset.None? <==> |t.frames| == |lines|;
      assert Intact(c, lines, t.frames);
      forall frames | Intact(c, lines, frames) ensures frames == t.frames {
        IntactUnique(c, lines, frames, t.frames);
      }
      if TailOf(c, bytes).Success? {
        assert Intact(c, Lines(bytes), t.frames) && (t.frames == [] ==> bytes == []);
        assert exists frames :: Intact(c, Lines(bytes), frames) && (frames == [] ==> bytes == []);
      } else {
        assert t.frames == [] && bytes != [];
        assert !exists frames :: Intact(c, Lines(bytes), frames) && (frames == [] ==> bytes == []);
      }
    } else {
      forall frames ensures !Intact(c, lines, frames) {
        var t := Tail(frames, if |frames| >= |lines| then None else Some(Width(lines[..|frames|])));
        assert !Reads(c, lines, t);
      }
    }
  }

  lemma IntactUnique<K, V>(c: Codec<K, V>, lines: seq<seq<byte>>, f: seq<Frame<K, V>>, g: seq<Frame<K, V>>)
    requires Intact(c, lines, f) && Intact(c, lines, g)
    ensures f == g
  {
    assert |f| < |lines| ==> Judge(c, lines[|f|], |f| == 0) == Invalid;
    assert |g| < |lines| ==> Judge(c, lines[|g|], |g| == 0) == Invalid;
    forall i | 0 <= i < |f| ensures f[i] == g[i] {
      assert Judge(c, lines[i], i == 0) == Checked(f[i]) == Checked(g[i]);
    }
  }

  /** No line that carries a checksum-valid frame is ever cut off with the tail. */
  lemma NoValidFrameDiscarded<K, V>(c: Codec<K, V>, bytes: seq<byte>, i: nat)
    requires TailOf(c, bytes).Success? && i < |Lines(bytes)|
    requires Judge(c, Lines(bytes)[i], i == 0).Checked?
    ensures i < |TailOf(c, bytes).value.frames|
    ensures TailOf(c, bytes).value.frames[i] == Judge(c, Lines(bytes)[i], i == 0).frame
  {
    TailReaderAcceptsExactly(c, bytes);
  }

  lemma ChainedPrefix<K, V>(c: Codec<K, V>, f: seq<Frame<K, V>>)
    requires Chained(c, f) && f != []
    ensures
      var n := |f| - 1;
      Chained(c, f[..n]) && ValidFrame(c, f[n]) && f[n].revision == |f| && f[n].previous == LastDigest(f[..n])
  {
    var n := |f| - 1;
    forall i | 0 <= i < n ensures f[..n][..i] == f[..i] {}
    assert Follows(f[..n], f[n]);
  }

  /** The last digest of a chain determines the whole history. */
  lemma {:induction false} LastDigestDeterminesHistory<K(!new), V(!new)>(
    c: Codec<K, V>, f: seq<Frame<K, V>>, g: seq<Frame<K, V>>)
    requires InjectiveDigest(c)
    requires Chained(c, f) && Chained(c, g)
    requires LastDigest(f) == LastDigest(g)
    ensures f == g
    decreases |f|
  {
    if f != [] {
      var n, m := |f| - 1, |g| - 1;
      ChainedPrefix(c, f);
      ChainedPrefix(c, g);
      assert f[n] == g[m];
      LastDigestDeterminesHistory(c, f[..n], g[..m]);
      assert f == f[..n] + [f[n]];
      assert g == g[..m] + [g[m]];
    }
  }
}
