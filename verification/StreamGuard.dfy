/** The guard on an inference stream: whatever the source does, the output is one legal sequence. */
module StreamGuard {
  import opened Wrappers

  // ----- Events -----------------------------------------------------------------------------

  datatype ErrorCode =
    | AUTH | RATE_LIMIT | QUOTA | OVERFLOW | TIMEOUT | NO_MODEL | NO_ADAPTER | FORMAT | TRANSPORT
    | CONTRACT_MISMATCH | ABORTED

  datatype ErrorReport = ErrorReport(
    code: ErrorCode,
    reason: string,
    message: string,
    retryable: bool,
    retryAfterMs: Option<int>,
    requestId: Option<string>,
    response: Option<string>,
    timing: Option<string>)

  datatype Event =
    | Sent(stamp: string)
    | Usage(tokens: string)
    | Finished(result: string, timing: Option<string>)
    | Error(report: ErrorReport)
    | Content(kind: string, payload: string) // deltas, tool calls, deviations, media

  /** Whether a response or timing record has the shape the ledger accepts. */
  datatype Schemas = Schemas(response: string -> bool, timing: string -> bool)

  /**
   * What a source throws. The name of some things cannot be read as text, and trying raises something in
   * its turn: a TypeError for null, undefined, a symbol or what has no primitive form; anything for a getter.
   */
  datatype Thrown = Nameless(raises: Thrown) | Named(name: string)

  const NULL := Nameless(Named("TypeError"))

  datatype Ending = Returns | Throws(what: Thrown)

  /** A stream as its consumer meets it. */
  datatype Source = Source(events: seq<Event>, ending: Ending)

  // ----- Errors -----------------------------------------------------------------------------

  datatype Rule = Fixed(retryable: bool) | ByAdapter

  function Retryable(code: ErrorCode): Rule {
    match code
    case RATE_LIMIT => ByAdapter
    case TIMEOUT => ByAdapter
    case TRANSPORT => ByAdapter
    case _ => Fixed(false)
  }

  const MESSAGE_BOUND := 512

  function Bounded(message: string): string {
    if |message| <= MESSAGE_BOUND then message else message[..MESSAGE_BOUND]
  }

  function Keep(value: Option<string>, ok: string -> bool): Option<string> {
    if value.Some? && ok(value.value) then value else None
  }

  /** Retryability as the code allows, an abort as an abort, a wait only where waiting helps. */
  function NormalizeError(c: Schemas, e: ErrorReport): ErrorReport {
    var rule := Retryable(e.code);
    var retryable := if rule.ByAdapter? then e.retryable else rule.retryable;
    ErrorReport(
      e.code,
      if e.code == ABORTED then "aborted" else e.reason,
      Bounded(e.message),
      retryable,
      if retryable then e.retryAfterMs else None,
      if e.requestId == Some("") then None else e.requestId,
      Keep(e.response, c.response),
      Keep(e.timing, c.timing))
  }

  const DEFAULT_BACKOFF := 500

  function RetryHint(code: ErrorCode): (bool, int) {
    var rule := Retryable(code);
    var retryable := rule.ByAdapter? || rule.retryable;
    (retryable,
     if !retryable then 0 else match code case RATE_LIMIT => 1000 case TIMEOUT => 2000 case _ => DEFAULT_BACKOFF)
  }

  /** A permanent failure is never offered for a retry, by the hint or by a normalised event. */
  lemma HintsAgreeWithEvents(c: Schemas, e: ErrorReport)
    ensures NormalizeError(c, e).retryable ==> RetryHint(e.code).0
    ensures !RetryHint(e.code).0 ==> NormalizeError(c, e).retryAfterMs.None?
    ensures RetryHint(e.code).0 <==> RetryHint(e.code).1 > 0
    ensures NormalizeError(c, NormalizeError(c, e)) == NormalizeError(c, e)
  {
  }

  function Normalized(c: Schemas, e: Event): Event {
    match e
    case Error(f) => Error(NormalizeError(c, f))
    case Finished(result, timing) => Finished(result, Keep(timing, c.timing))
    case _ => e
  }

  function Fail(message: string): Event {
    Error(ErrorReport(TRANSPORT, "error", message, true, None, None, None, None))
  }

  // ----- The guard --------------------------------------------------------------------------

  datatype State = State(seenSent: bool, seenUsage: bool, terminal: bool, pending: Option<string>)

  /** One event of the source: the next state, and what is passed on. */
  function Step(c: Schemas, g: State, e: Event): (State, seq<Event>) {
    if g.terminal then (g, [])
    else if !g.seenSent then
      match e
      case Error(_) => (g.(terminal := true), [Normalized(c, e)])
      case Sent(_) => (g.(seenSent := true), [e])
      case _ => (g.(terminal := true), [Fail("missing sent")])
    else
      match e
      case Sent(_) => (g.(terminal := true), [Fail("duplicate sent")])
      case Error(_) => (g.(terminal := true), [Normalized(c, e)])
      case Finished(_, _) =>
        (g.(terminal := true),
         [if g.seenUsage && g.pending.None? then Normalized(c, e) else Fail(g.pending.GetOr("done without usage"))])
      case Usage(_) =>
        if g.seenUsage then (g.(pending := Some("duplicate usage")), []) else (g.(seenUsage := true), [e])
      case Content(_, _) =>
        if g.seenUsage then (g.(pending := Some("event after usage")), []) else (g, [e])
  }

  function Walk(c: Schemas, events: seq<Event>): (State, seq<Event>) {
    if events == [] then (State(false, false, false, None), [])
    else
      var (g, out) := Walk(c, events[..|events| - 1]);
      var (g', more) := Step(c, g, events[|events| - 1]);
      (g', out + more)
  }

  /** What the guard adds when the source ends without a terminal event, unless the guard itself throws. */
  function Closing(g: State, ending: Ending): seq<Event> {
    if g.terminal then []
    else
      match ending
      case Throws(Named(name)) => [Fail("source threw: " + name)]
      case Throws(Nameless(_)) => []
      case Returns => [Fail(if g.seenSent then "stream ended without terminal event" else "missing sent")]
  }

  function Guarded(c: Schemas, events: seq<Event>, ending: Ending): seq<Event> {
    var (g, out) := Walk(c, events);
    out + Closing(g, ending)
  }

  /** The guard throws out of its own handler. */
  predicate Escapes(c: Schemas, events: seq<Event>, ending: Ending) {
    ending.Throws? && ending.what.Nameless? && !Walk(c, events).0.terminal
  }

  /** The guarded stream, again as a consumer meets it. */
  function Guard(c: Schemas, s: Source): Source {
    Source(Guarded(c, s.events, s.ending),
           if Escapes(c, s.events, s.ending) then Throws(s.ending.what.raises) else Returns)
  }

  /** The stream loop and its handler. */
  method GuardSequence(c: Schemas, events: seq<Event>, ending: Ending) returns (out: seq<Event>, escaped: bool)
    ensures out == Guarded(c, events, ending) && escaped == Escapes(c, events, ending)
    ensures Legal(out) <==> !escaped
  {
    out := [];
    var seenSent, seenUsage, terminal := false, false, false;
    var pending: Option<string> := None;
    for i := 0 to |events|
      invariant (State(seenSent, seenUsage, terminal, pending), out) == Walk(c, events[..i])
    {
      var ev := events[i];
      assert events[..i + 1][..i] == events[..i];
      assert out + [] == out;
      if terminal { continue; }
      if !seenSent {
        if ev.Error? {
          out := out + [Normalized(c, ev)];
          terminal := true;
          continue;
        }
        if !ev.Sent? {
          out := out + [Fail("missing sent")];
          terminal := true;
          continue;
        }
        seenSent := true;
        out := out + [ev];
        continue;
      }
      match ev {
        case Sent(_) =>
          out := out + [Fail("duplicate sent")];
          terminal := true;
        case Error(_) =>
          out := out + [Normalized(c, ev)];
          terminal := true;
        case Finished(_, _) =>
          terminal := true;
          out := out + [if seenUsage && pending.None? then Normalized(c, ev)
                        else Fail(pending.GetOr("done without usage"))];
        case Usage(_) =>
          if seenUsage {
            pending := Some("duplicate usage");
          } else {
            seenUsage := true;
            out := out + [ev];
          }
        case Content(_, _) =>
          if seenUsage { pending := Some("event after usage"); } else { out := out + [ev]; }
      }
    }
    assert events[..|events|] == events;
    escaped := !terminal && ending.Throws? && ending.what.Nameless?;
    out := out + Closing(State(seenSent, seenUsage, terminal, pending), ending);
    GuardedIsLegal(c, events, ending);
  }

  // ----- The grammar ------------------------------------------------------------------------

  predicate AllContent(events: seq<Event>) {
    forall e | e in events :: e.Content?
  }

  /** `sent` and content, then possibly `usage`. */
  predicate Opening(events: seq<Event>, usage: bool) {
    && events != [] && events[0].Sent?
    && if usage then |events| >= 2 && events[|events| - 1].Usage? && AllContent(events[1..|events| - 1])
       else AllContent(events[1..])
  }

  /** `error`; or `sent X* error`; or `sent X* usage error`; or `sent X* usage done`. */
  predicate Legal(events: seq<Event>) {
    && events != []
    && var last, before := events[|events| - 1], events[..|events| - 1];
       || (last.Error? && (before == [] || Opening(before, false) || Opening(before, true)))
       || (last.Finished? && Opening(before, true))
  }

  ghost predicate Consistent(g: State, out: seq<Event>) {
    if g.terminal then Legal(out)
    else if !g.seenSent then out == [] && !g.seenUsage && g.pending.None?
    else Opening(out, g.seenUsage) && (g.pending.Some? ==> g.seenUsage)
  }

  lemma StepConsistent(c: Schemas, g: State, out: seq<Event>, e: Event)
    requires Consistent(g, out)
    ensures Consistent(Step(c, g, e).0, out + Step(c, g, e).1)
  {
    var more := Step(c, g, e).1;
    if more != [] {
      assert (out + more)[..|out|] == out;
      if out != [] && !g.terminal && !g.seenUsage {
        assert (out + more)[1..|out|] == out[1..];
        if e.Content? { assert (out + more)[1..] == out[1..] + [e]; }
      }
    } else {
      assert out + more == out;
    }
  }

  lemma {:induction false} WalkConsistent(c: Schemas, events: seq<Event>)
    ensures Consistent(Walk(c, events).0, Walk(c, events).1)
    decreases |events|
  {
    if events != [] {
      var n := |events| - 1;
      WalkConsistent(c, events[..n]);
      StepConsistent(c, Walk(c, events[..n]).0, Walk(c, events[..n]).1, events[n]);
    }
  }

  /**
   * For every source, finite or throwing, the output is one legal sequence, if and only if the source
   * did not throw, before a terminal event, something whose name cannot be read as text.
   */
  lemma GuardedIsLegal(c: Schemas, events: seq<Event>, ending: Ending)
    ensures Legal(Guarded(c, events, ending)) <==> !Escapes(c, events, ending)
    ensures Guard(c, Source(events, ending)).ending == Returns <==> !Escapes(c, events, ending)
  {
    WalkConsistent(c, events);
    var (g, out) := Walk(c, events);
    if g.terminal || Escapes(c, events, ending) {
      assert out + [] == out;
    } else {
      assert (out + Closing(g, ending))[..|out|] == out;
    }
    if !g.terminal && out != [] { OpeningIsOpen(out, g.seenUsage); }
  }

  lemma OpeningIsOpen(events: seq<Event>, usage: bool)
    requires Opening(events, usage)
    ensures !Legal(events)
  {
    if |events| > 1 && !usage { assert events[1..][|events| - 2] in events[1..]; }
  }

  /** Throwing null after `sent` leaves the consumer with an exception and no terminal event. */
  lemma NamelessThrowEscapes(c: Schemas, stamp: string)
    ensures Guard(c, Source([Sent(stamp)], Throws(NULL))) == Source([Sent(stamp)], Throws(Named("TypeError")))
    ensures !Legal([Sent(stamp)])
  {
    WalkOpening(c, [Sent(stamp)], false);
    assert [Sent(stamp)] + [] == [Sent(stamp)];
  }

  // ----- Legal sequences pass ---------------------------------------------------------------

  function NormalizedAll(c: Schemas, events: seq<Event>): (out: seq<Event>)
    ensures |out| == |events|
    ensures forall i :: 0 <= i < |out| ==> out[i] == Normalized(c, events[i])
  {
    if events == [] then []
    else NormalizedAll(c, events[..|events| - 1]) + [Normalized(c, events[|events| - 1])]
  }

  lemma OpeningPrefix(events: seq<Event>, usage: bool)
    requires Opening(events, usage) && |events| > 1
    ensures Opening(events[..|events| - 1], false)
    ensures !usage ==> events[|events| - 1].Content?
  {
    var n := |events| - 1;
    if usage {
      assert events[..n][1..] == events[1..n];
    } else {
      assert events[..n][1..] == events[1..][..n - 1];
      assert events[n] == events[1..][n - 1];
    }
  }

  lemma {:induction false} WalkOpening(c: Schemas, events: seq<Event>, usage: bool)
    requires Opening(events, usage)
    ensures Walk(c, events) == (State(true, usage, false, None), events)
    decreases |events|
  {
    var n := |events| - 1;
    assert events == events[..n] + [events[n]];
    if n == 0 {
      assert events[..0] == [];
    } else {
      OpeningPrefix(events, usage);
      WalkOpening(c, events[..n], false);
    }
  }

  lemma OpeningNormalized(c: Schemas, events: seq<Event>, usage: bool)
    requires Opening(events, usage)
    ensures NormalizedAll(c, events) == events
  {
    forall i | 0 <= i < |events| ensures Normalized(c, events[i]) == events[i] {
      if 0 < i && !usage { assert events[i] in events[1..]; }
      if 0 < i < |events| - 1 && usage { assert events[i] in events[1..|events| - 1]; }
    }
  }

  lemma WalkLegal(c: Schemas, events: seq<Event>)
    requires Legal(events)
    ensures Walk(c, events).0.terminal && Walk(c, events).1 == NormalizedAll(c, events)
  {
    var n := |events| - 1;
    var before, last := events[..n], events[n];
    if before == [] {
      assert Walk(c, before) == (State(false, false, false, None), []);
    } else {
      var usage := last.Finished? || Opening(before, true);
      WalkOpening(c, before, usage);
      OpeningNormalized(c, before, usage);
    }
  }

  lemma {:induction false} WalkAfterTerminal(c: Schemas, events: seq<Event>, rest: seq<Event>)
    requires Walk(c, events).0.terminal
    ensures Walk(c, events + rest) == Walk(c, events)
    decreases |rest|
  {
    if rest == [] {
      assert events + rest == events;
    } else {
      var n := |rest| - 1;
      assert (events + rest)[..|events| + n] == events + rest[..n];
      WalkAfterTerminal(c, events, rest[..n]);
      assert (events + rest)[|events| + n] == rest[n];
      assert Walk(c, events).1 + [] == Walk(c, events).1;
    }
  }

  /** A legal sequence passes unchanged up to normalisation, whatever the source says afterwards. */
  lemma LegalPasses(c: Schemas, events: seq<Event>, rest: seq<Event>, ending: Ending)
    requires Legal(events)
    ensures Guard(c, Source(events + rest, ending)) == Source(NormalizedAll(c, events), Returns)
  {
    WalkLegal(c, events);
    WalkAfterTerminal(c, events, rest);
  }

  predicate SameKind(e: Event, f: Event) {
    && (e.Sent? <==> f.Sent?) && (e.Usage? <==> f.Usage?) && (e.Finished? <==> f.Finished?)
    && (e.Error? <==> f.Error?) && (e.Content? <==> f.Content?)
  }

  lemma OpeningByKind(events: seq<Event>, like: seq<Event>, usage: bool)
    requires |events| == |like| && forall i :: 0 <= i < |like| ==> SameKind(events[i], like[i])
    requires Opening(like, usage)
    ensures Opening(events, usage)
  {
    var end := if usage then |like| - 1 else |like|;
    assert like[1..] == like[1..|like|] && events[1..] == events[1..|like|];
    assert AllContent(like[1..end]);
    forall e | e in events[1..end] ensures e.Content? {
      var i :| 0 <= i < end - 1 && events[1..end][i] == e;
      assert like[1..end][i] in like[1..end] && SameKind(events[i + 1], like[i + 1]);
    }
  }

  lemma NormalizedKeepsKind(c: Schemas, e: Event)
    ensures SameKind(e, Normalized(c, e))
  {
  }

  lemma LegalByKind(events: seq<Event>, like: seq<Event>)
    requires |events| == |like| && forall i :: 0 <= i < |like| ==> SameKind(events[i], like[i])
    requires Legal(like)
    ensures Legal(events)
  {
    var n := |events| - 1;
    var before, likeBefore := events[..n], like[..n];
    assert SameKind(events[n], like[n]);
    assert forall i :: 0 <= i < n ==> SameKind(before[i], likeBefore[i]);
    if Opening(likeBefore, false) { OpeningByKind(before, likeBefore, false); }
    if Opening(likeBefore, true) { OpeningByKind(before, likeBefore, true); }
  }

  /** Normalising changes no event's kind, so it cannot make a sequence legal. */
  lemma NormalizingKeepsGrammar(c: Schemas, events: seq<Event>)
    requires Legal(NormalizedAll(c, events))
    ensures Legal(events)
  {
    forall i | 0 <= i < |events| ensures SameKind(events[i], NormalizedAll(c, events)[i]) {
      NormalizedKeepsKind(c, events[i]);
    }
    LegalByKind(events, NormalizedAll(c, events));
  }

  /** The legal sequences are exactly those the guard leaves alone, up to normalisation. */
  lemma PassesExactlyLegal(c: Schemas, events: seq<Event>, ending: Ending)
    ensures Guard(c, Source(events, ending)) == Source(NormalizedAll(c, events), Returns) <==> Legal(events)
  {
    GuardedIsLegal(c, events, ending);
    if Legal(events) {
      LegalPasses(c, events, [], ending);
      assert events + [] == events;
    } else if Guard(c, Source(events, ending)) == Source(NormalizedAll(c, events), Returns) {
      NormalizingKeepsGrammar(c, events);
    }
  }

  /** The one error text that is not bounded: the name of what the source threw. */
  predicate LongThrow(c: Schemas, events: seq<Event>, ending: Ending) {
    && ending.Throws? && ending.what.Named? && !Walk(c, events).0.terminal
    && |ending.what.name| > MESSAGE_BOUND - |"source threw: "|
  }

  ghost predicate AllNormal(c: Schemas, events: seq<Event>) {
    forall e | e in events :: Normalized(c, e) == e
  }

  predicate KnownFailure(pending: Option<string>) {
    pending in {None, Some("duplicate usage"), Some("event after usage")}
  }

  lemma StepNormal(c: Schemas, g: State, e: Event)
    requires KnownFailure(g.pending)
    ensures KnownFailure(Step(c, g, e).0.pending) && AllNormal(c, Step(c, g, e).1)
  {
  }

  /** Events the guard has passed on are normal. */
  lemma {:induction false} WalkNormal(c: Schemas, events: seq<Event>)
    ensures AllNormal(c, Walk(c, events).1) && KnownFailure(Walk(c, events).0.pending)
    decreases |events|
  {
    if events != [] {
      var n := |events| - 1;
      WalkNormal(c, events[..n]);
      StepNormal(c, Walk(c, events[..n]).0, events[n]);
    }
  }

  lemma NormalIsFixed(c: Schemas, events: seq<Event>)
    requires AllNormal(c, events)
    ensures NormalizedAll(c, events) == events
  {
    forall i | 0 <= i < |events| ensures Normalized(c, events[i]) == events[i] { assert events[i] in events; }
  }

  /**
   * Guarding twice is guarding once, except precisely when the source threw, before any terminal
   * event, something whose name is too long for the bound on messages or cannot be read as text.
   */
  lemma GuardIsIdempotent(c: Schemas, s: Source)
    ensures Guard(c, Guard(c, s)) == Guard(c, s)
            <==> !LongThrow(c, s.events, s.ending) && !Escapes(c, s.events, s.ending)
  {
    var once := Guard(c, s);
    GuardedIsLegal(c, s.events, s.ending);
    if Escapes(c, s.events, s.ending) {
      EscapeIsCaught(c, s);
    } else {
      LegalPasses(c, once.events, [], once.ending);
      assert once.events + [] == once.events;
      NormalizedOnce(c, s);
    }
  }

  /** A second guard turns what escaped the first into an error event, or lets something else escape. */
  lemma EscapeIsCaught(c: Schemas, s: Source)
    requires Escapes(c, s.events, s.ending)
    ensures Guard(c, Guard(c, s)) ==
            match s.ending.what.raises
            case Named(name) => Source(Guard(c, s).events + [Fail("source threw: " + name)], Returns)
            case Nameless(raised) => Source(Guard(c, s).events, Throws(raised))
  {
    WalkConsistent(c, s.events);
    var (g, out) := Walk(c, s.events);
    assert out + [] == out;
    if out != [] {
      WalkOpening(c, out, g.seenUsage);
    } else {
      assert Walk(c, out) == (State(false, false, false, None), []);
    }
  }

  lemma NormalizedOnce(c: Schemas, s: Source)
    requires !Escapes(c, s.events, s.ending)
    ensures NormalizedAll(c, Guard(c, s).events) == Guard(c, s).events <==> !LongThrow(c, s.events, s.ending)
  {
    var once := Guarded(c, s.events, s.ending);
    WalkNormal(c, s.events);
    var (g, out) := Walk(c, s.events);
    if LongThrow(c, s.events, s.ending) {
      LongTextIsCut(c, "source threw: " + s.ending.what.name);
      assert once[|out|] == Fail("source threw: " + s.ending.what.name);
    } else {
      ClosingNormal(c, g, s.ending);
      NormalIsFixed(c, once);
    }
  }

  lemma LongTextIsCut(c: Schemas, text: string)
    requires |text| > MESSAGE_BOUND
    ensures Normalized(c, Fail(text)) != Fail(text)
  {
    assert |Bounded(text)| < |text|;
  }

  lemma ClosingNormal(c: Schemas, g: State, ending: Ending)
    requires ending.Throws? && ending.what.Named? && !g.terminal ==>
               |ending.what.name| <= MESSAGE_BOUND - |"source threw: "|
    ensures AllNormal(c, Closing(g, ending))
  {
  }
}
