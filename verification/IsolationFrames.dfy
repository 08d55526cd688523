/** Length-prefixed frames between the host and an isolated hook runner. */
module IsolationFrames {
  import opened Wrappers

  newtype byte = x: int | 0 <= x < 256

  const MAX_FRAME: nat := 1_048_576
  const MAX_QUEUED: nat := 2 * MAX_FRAME

  // ----- Big-endian lengths -----------------------------------------------------------------

  function BigEndian(n: nat): (b: seq<byte>)
    requires n < 0x1_0000_0000
    ensures |b| == 4
  {
    [(n / 0x100_0000) as byte, (n / 0x1_0000 % 256) as byte, (n / 256 % 256) as byte, (n % 256) as byte]
  }

  function ReadLength(b: seq<byte>): (n: nat)
    requires |b| >= 4
  {
    ((b[0] as int * 256 + b[1] as int) * 256 + b[2] as int) * 256 + b[3] as int
  }

  lemma LengthRoundTrip(n: nat, rest: seq<byte>)
    requires n < 0x1_0000_0000
    ensures ReadLength(BigEndian(n) + rest) == n
    ensures
      var b := BigEndian(n);
      b[0] as int * 0x100_0000 + b[1] as int * 0x1_0000 + b[2] as int * 0x100 + b[3] as int == n
  {
    var b := BigEndian(n) + rest;
    assert b[0] == BigEndian(n)[0] && b[1] == BigEndian(n)[1] && b[2] == BigEndian(n)[2] && b[3] == BigEndian(n)[3];
    var low := n / 256;
    var mid := low / 256;
    assert mid / 256 == n / 0x100_0000 && mid == n / 0x1_0000;
  }

  /** The four bytes of a length are the only ones that read as it. */
  lemma LengthIsInjective(b: seq<byte>)
    requires |b| == 4
    ensures ReadLength(b) < 0x1_0000_0000 && BigEndian(ReadLength(b)) == b
  {
    var n := ReadLength(b);
    var low := (b[0] as int * 256 + b[1] as int) * 256 + b[2] as int;
    var mid := b[0] as int * 256 + b[1] as int;
    assert n == low * 256 + b[3] as int && low == mid * 256 + b[2] as int;
    assert n / 256 == low && n % 256 == b[3] as int;
    assert low / 256 == mid && low % 256 == b[2] as int;
    assert mid / 256 == b[0] as int && mid % 256 == b[1] as int;
    assert n / 0x1_0000 == mid && n / 0x100_0000 == b[0] as int;
  }

  function Frame(body: seq<byte>): seq<byte>
    requires |body| <= MAX_FRAME
  {
    BigEndian(|body|) + body
  }

  /** Writes a frame into a fresh buffer; refuses one that is too long or would overfill the queue. */
  method Send(body: seq<byte>, queued: nat) returns (output: array?<byte>)
    ensures output == null <==> |body| > MAX_FRAME || queued + |body| + 4 > MAX_QUEUED
    ensures output != null ==> |body| <= 1024 * 1024 && queued + |body| + 4 <= 2 * 1024 * 1024
    ensures output != null ==> fresh(output) && output[..] == Frame(body)
  {
    if |body| > MAX_FRAME || queued + |body| + 4 > MAX_QUEUED { return null; }
    output := new byte[|body| + 4];
    var n := |body|;
    output[0], output[1] := (n / 0x100_0000) as byte, (n / 0x1_0000 % 256) as byte;
    output[2], output[3] := (n / 256 % 256) as byte, (n % 256) as byte;
    for i := 0 to |body|
      modifies output
      invariant output[..i + 4] == BigEndian(|body|) + body[..i]
    {
      output[i + 4] := body[i];
      assert output[..i + 5] == output[..i + 4] + [output[i + 4]];
    }
    assert output[..] == output[..|body| + 4] && body[..|body|] == body;
  }

  // ----- Reading ----------------------------------------------------------------------------

  /** Where a reader stands: waiting with what it has not used yet, or gone. */
  datatype Reader<S> = Waiting(state: S, buffered: seq<byte>) | Exited

  /** What parsing and dispatching one message does to the runner; None when either throws. */
  type Handler<!S> = (S, seq<byte>) -> Option<S>

  /** Uses up every complete frame. */
  function Drain<S>(handle: Handler<S>, state: S, bytes: seq<byte>): Reader<S>
    decreases |bytes|
  {
    if |bytes| < 4 then Waiting(state, bytes)
    else
      var length := ReadLength(bytes);
      if length > MAX_FRAME then Exited
      else if |bytes| < length + 4 then Waiting(state, bytes)
      else
        match handle(state, bytes[4..length + 4])
        case None => Exited
        case Some(next) => Drain(handle, next, bytes[length + 4..])
  }

  class FrameReader<S> {
    const handle: Handler<S>
    var state: S
    var buffered: seq<byte>
    var exitCode: Option<int>

    constructor (handle: Handler<S>, state: S)
      ensures this.handle == handle && this.state == state && buffered == [] && exitCode == None
    {
      this.handle, this.state, buffered, exitCode := handle, state, [], None;
    }

    ghost function View(): Reader<S>
      reads this
    {
      if exitCode.Some? then Exited else Waiting(state, buffered)
    }

    /** One chunk from the pipe. */
    method Data(chunk: seq<byte>)
      requires exitCode.None?
      modifies this
      ensures View() == Drain(handle, old(state), old(buffered) + chunk)
      ensures exitCode in {None, Some(70)}
    {
      buffered := buffered + chunk;
      while |buffered| >= 4
        invariant exitCode.None?
        invariant Drain(handle, old(state), old(buffered) + chunk) == Drain(handle, state, buffered)
        decreases |buffered|
      {
        var length := ReadLength(buffered);
        if length > MAX_FRAME {
          exitCode := Some(70);
          return;
        }
        if |buffered| < length + 4 { break; }
        var bytes := buffered[4..length + 4];
        buffered := buffered[length + 4..];
        match handle(state, bytes) {
          case None =>
            exitCode := Some(70);
            return;
          case Some(next) => state := next;
        }
      }
    }

    /** The end of the pipe: clean only between frames. */
    method End()
      requires exitCode.None?
      modifies this`exitCode
      ensures exitCode == Some(if buffered == [] then 0 else 70)
    {
      exitCode := Some(if |buffered| == 0 then 0 else 70);
    }

    /**
     * A whole life of the runner: it exits with 0 exactly when its input, however it was split, is a
     * sequence of whole frames whose messages were all handled; and then it has handled those.
     */
    method Serve(chunks: seq<seq<byte>>) returns (code: int)
      requires exitCode.None? && buffered == []
      modifies this
      ensures exitCode == Some(code) && code in {0, 70}
      ensures code == 0 <==> exists bodies :: WasServed(handle, old(state), Concat(chunks), bodies)
      ensures forall bodies | WasServed(handle, old(state), Concat(chunks), bodies) ::
                HandleAll(handle, old(state), bodies) == Some(state)
    {
      ghost var start := state;
      for n := 0 to |chunks|
        invariant exitCode.None? && View() == Feed(handle, Waiting(start, []), chunks[..n])
      {
        assert chunks[..n + 1][..n] == chunks[..n];
        Data(chunks[n]);
        if exitCode.Some? {
          code := 70;
          FeedFrom(handle, Waiting(start, []), chunks, n + 1);
          break;
        }
      }
      if exitCode.None? {
        End();
        code := exitCode.value;
        assert chunks[..|chunks|] == chunks;
      }
      ChunksDoNotMatter(handle, start, chunks);
      CleanEndExactly(handle, start, Concat(chunks));
    }
  }

  /** The input is the frames of these messages, and each of them is handled. */
  ghost predicate WasServed<S>(handle: Handler<S>, state: S, bytes: seq<byte>, bodies: seq<seq<byte>>) {
    Sendable(bodies) && bytes == Wire(bodies) && HandleAll(handle, state, bodies).Some?
  }

  // ----- Chunking does not matter -----------------------------------------------------------

  /** Reading on from where a reader stands. */
  function Continue<S>(handle: Handler<S>, r: Reader<S>, chunk: seq<byte>): Reader<S> {
    match r
    case Exited => Exited
    case Waiting(state, buffered) => Drain(handle, state, buffered + chunk)
  }

  function Feed<S>(handle: Handler<S>, r: Reader<S>, chunks: seq<seq<byte>>): Reader<S> {
    if chunks == [] then r
    else Continue(handle, Feed(handle, r, chunks[..|chunks| - 1]), chunks[|chunks| - 1])
  }

  function Concat<T>(parts: seq<seq<T>>): seq<T> {
    if parts == [] then [] else Concat(parts[..|parts| - 1]) + parts[|parts| - 1]
  }

  lemma {:induction false} DrainInTwo<S>(handle: Handler<S>, state: S, a: seq<byte>, b: seq<byte>)
    ensures Drain(handle, state, a + b) == Continue(handle, Drain(handle, state, a), b)
    decreases |a|
  {
    if |a| >= 4 {
      var length := ReadLength(a);
      assert ReadLength(a + b) == length;
      if length <= MAX_FRAME && |a| >= length + 4 {
        var next := handle(state, a[4..length + 4]);
        assert (a + b)[4..length + 4] == a[4..length + 4];
        assert (a + b)[length + 4..] == a[length + 4..] + b;
        if next.Some? { DrainInTwo(handle, next.value, a[length + 4..], b); }
      }
    }
  }

  /** However the input is split, the reader ends where one read of the whole would leave it. */
  lemma {:induction false} ChunksDoNotMatter<S>(handle: Handler<S>, state: S, chunks: seq<seq<byte>>)
    ensures Feed(handle, Waiting(state, []), chunks) == Drain(handle, state, Concat(chunks))
    decreases |chunks|
  {
    if chunks != [] {
      var n := |chunks| - 1;
      ChunksDoNotMatter(handle, state, chunks[..n]);
      DrainInTwo(handle, state, Concat(chunks[..n]), chunks[n]);
    }
  }

  // ----- Round trip -------------------------------------------------------------------------

  ghost predicate Sendable(bodies: seq<seq<byte>>) {
    forall i :: 0 <= i < |bodies| ==> |bodies[i]| <= MAX_FRAME
  }

  function Wire(bodies: seq<seq<byte>>): seq<byte>
    requires Sendable(bodies)
  {
    if bodies == [] then [] else Frame(bodies[0]) + Wire(bodies[1..])
  }

  /** The messages one after the other, or None once one is refused. */
  function HandleAll<S>(handle: Handler<S>, state: S, bodies: seq<seq<byte>>): Option<S> {
    if bodies == [] then Some(state)
    else
      match handle(state, bodies[0])
      case None => None
      case Some(next) => HandleAll(handle, next, bodies[1..])
  }

  /** The beginning of a frame that is not complete: no length yet, or less than it announces. */
  predicate Incomplete(rest: seq<byte>) {
    |rest| < 4 || (ReadLength(rest) <= MAX_FRAME && |rest| < ReadLength(rest) + 4)
  }

  /** A frame at the front is read back as its body and what follows it. */
  lemma FrameAtFront(body: seq<byte>, more: seq<byte>)
    requires |body| <= MAX_FRAME
    ensures
      var bytes := Frame(body) + more;
      && |bytes| == |body| + 4 + |more| && ReadLength(bytes) == |body|
      && bytes[4..|body| + 4] == body && bytes[|body| + 4..] == more
  {
    assert Frame(body) + more == BigEndian(|body|) + (body + more);
    LengthRoundTrip(|body|, body + more);
  }

  /** Bytes that announce no more than they hold begin with a frame. */
  lemma FrontIsFrame(bytes: seq<byte>)
    requires |bytes| >= 4 && ReadLength(bytes) <= MAX_FRAME && |bytes| >= ReadLength(bytes) + 4
    ensures bytes == Frame(bytes[4..ReadLength(bytes) + 4]) + bytes[ReadLength(bytes) + 4..]
  {
    LengthIsInjective(bytes[..4]);
    var length := ReadLength(bytes);
    assert BigEndian(length) == bytes[..4];
    assert bytes == bytes[..4] + bytes[4..length + 4] + bytes[length + 4..];
  }

  /** What was sent is dispatched, each message once and in order, and only an unfinished frame is left. */
  lemma {:induction false} SentIsDispatched<S>(
    handle: Handler<S>, state: S, bodies: seq<seq<byte>>, rest: seq<byte>)
    requires Sendable(bodies) && Incomplete(rest)
    ensures Drain(handle, state, Wire(bodies) + rest)
         == match HandleAll(handle, state, bodies) case None => Exited case Some(next) => Waiting(next, rest)
    decreases |bodies|
  {
    if bodies == [] {
      assert Wire(bodies) + rest == rest;
    } else {
      var body, more := bodies[0], Wire(bodies[1..]) + rest;
      assert Wire(bodies) + rest == Frame(body) + more;
      FrameAtFront(body, more);
      var next := handle(state, body);
      if next.Some? { SentIsDispatched(handle, next.value, bodies[1..], rest); }
    }
  }

  /** A reader that is gone stays gone. */
  lemma {:induction false} FeedFrom<S>(handle: Handler<S>, r: Reader<S>, chunks: seq<seq<byte>>, n: nat)
    requires n <= |chunks| && Feed(handle, r, chunks[..n]).Exited?
    ensures Feed(handle, r, chunks).Exited?
    decreases |chunks|
  {
    if n == |chunks| {
      assert chunks[..n] == chunks;
    } else {
      var last := |chunks| - 1;
      assert chunks[..last][..n] == chunks[..n];
      FeedFrom(handle, r, chunks[..last], n);
    }
  }

  /** Nothing is left over exactly when the bytes are the frames of handled messages. */
  lemma CleanEndExactly<S>(handle: Handler<S>, state: S, bytes: seq<byte>)
    ensures
      var r := Drain(handle, state, bytes);
      && ((r.Waiting? && r.buffered == []) <==> exists bodies :: WasServed(handle, state, bytes, bodies))
      && (forall bodies | WasServed(handle, state, bytes, bodies) ::
            r.Waiting? && HandleAll(handle, state, bodies) == Some(r.state))
  {
    var r := Drain(handle, state, bytes);
    forall bodies | WasServed(handle, state, bytes, bodies) ensures
      r.Waiting? && r.buffered == [] && HandleAll(handle, state, bodies) == Some(r.state)
    {
      assert bytes + [] == bytes;
      SentIsDispatched(handle, state, bodies, []);
    }
    if r.Waiting? && r.buffered == [] {
      var bodies := DispatchedWasSent(handle, state, bytes);
      assert Wire(bodies) + [] == Wire(bodies);
      assert WasServed(handle, state, bytes, bodies);
    }
  }

  /** Every prefix of a frame but the whole is incomplete. */
  lemma PrefixIsIncomplete(body: seq<byte>, k: nat)
    requires |body| <= MAX_FRAME && k < |Frame(body)|
    ensures Incomplete(Frame(body)[..k])
  {
    if k >= 4 {
      LengthRoundTrip(|body|, body);
      assert ReadLength(Frame(body)[..k]) == ReadLength(Frame(body));
    }
  }

  lemma OneMoreFrame(body: seq<byte>, rest: seq<seq<byte>>, buffered: seq<byte>)
    requires |body| <= MAX_FRAME && Sendable(rest)
    ensures Sendable([body] + rest) && ([body] + rest)[1..] == rest
    ensures Wire([body] + rest) + buffered == Frame(body) + (Wire(rest) + buffered)
  {
    assert ([body] + rest)[1..] == rest;
  }

  /** A reader that still waits has dispatched exactly the frames its input begins with. */
  lemma {:induction false} DispatchedWasSent<S>(handle: Handler<S>, state: S, bytes: seq<byte>)
    returns (bodies: seq<seq<byte>>)
    requires Drain(handle, state, bytes).Waiting?
    ensures
      var r := Drain(handle, state, bytes);
      && Sendable(bodies) && Incomplete(r.buffered)
      && bytes == Wire(bodies) + r.buffered && HandleAll(handle, state, bodies) == Some(r.state)
    decreases |bytes|
  {
    bodies := [];
    if |bytes| >= 4 && |bytes| >= ReadLength(bytes) + 4 {
      var length := ReadLength(bytes);
      var body, more := bytes[4..length + 4], bytes[length + 4..];
      var next := handle(state, body);
      var rest := DispatchedWasSent(handle, next.value, more);
      bodies := [body] + rest;
      FrontIsFrame(bytes);
      OneMoreFrame(body, rest, Drain(handle, state, bytes).buffered);
    }
  }
}
