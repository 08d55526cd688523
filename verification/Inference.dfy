/** One inference as an event stream: sent first, one terminal last, one numbering of tool calls. */
module Inference {
  import opened Wrappers

  // ----- Events -----------------------------------------------------------------------------

  /** What an adapter reports. */
  datatype Incoming =
    | Delta(thinking: bool, text: string)
    | ToolCallEnd(call: string)
    | ToolCallDelta(text: string)
    | UsageReport(tokens: string)
    | DoneReport(result: string)
    | ErrorReport(code: string)
    | Passing(kind: string, payload: string)

  /** What the facade emits. A deviation reports text that looked like a call and was not read as one. */
  datatype Outgoing =
    | Sent
    | Prose(thinking: bool, text: string)
    | Call(ordinal: nat, native: bool, text: string)
    | Deviation(sample: string)
    | CallDelta(text: string)
    | Usage(tokens: string)
    | Finished(result: string)
    | Failed(code: string)
    | Passed(kind: string, payload: string)

  datatype Ending = Returns | Throws(aborted: bool)

  predicate Terminal(e: Outgoing) {
    e.Finished? || e.Failed?
  }

  // ----- The decode chain -------------------------------------------------------------------

  /** What the chain makes of some prose: its next state, the events, the next ordinal, and the text used up. */
  datatype Decoded<S> = Decoded(state: S, events: seq<Outgoing>, next: nat, used: string)

  /**
   * The chain that reads tool calls out of prose. It may hold text back; `held` is that text. It
   * numbers the calls it finds from the given ordinal on. `spells` relates text to the events the
   * chain's rules make of it: mostly the text itself, but also a call, or reasoning without its tags.
   */
  datatype Decoder<!S> = Decoder(
    start: S,
    held: S -> string,
    step: (S, bool, string, nat) -> Decoded<S>,
    finish: (S, nat) -> Decoded<S>,
    ghost spells: (string, seq<Outgoing>) -> bool)

  predicate FromChain(e: Outgoing) {
    e.Prose? || e.Deviation? || (e.Call? && !e.native)
  }

  /** The events that come from the chain. */
  function ProseOf(events: seq<Outgoing>): seq<Outgoing> {
    if events == [] then []
    else
      var last := events[|events| - 1];
      ProseOf(events[..|events| - 1]) + if FromChain(last) then [last] else []
  }

  function Ordinals(events: seq<Outgoing>): seq<nat> {
    if events == [] then []
    else
      var last := events[|events| - 1];
      Ordinals(events[..|events| - 1]) + if last.Call? then [last.ordinal] else []
  }

  function Count(from: nat, to: nat): seq<nat>
    requires from <= to
  {
    if from == to then [] else Count(from, to - 1) + [to - 1]
  }

  ghost predicate Sound<S>(r: Decoded<S>, n: nat) {
    && (forall e | e in r.events :: FromChain(e))
    && r.next >= n && Ordinals(r.events) == Count(n, r.next)
  }

  /** A step loses and invents no text, and its events spell what it used up. */
  ghost predicate StepLaw<S>(d: Decoder<S>, s: S, thinking: bool, text: string, n: nat) {
    var r := d.step(s, thinking, text, n);
    Sound(r, n) && r.used + d.held(r.state) == d.held(s) + text && d.spells(r.used, r.events)
  }

  /** A finish emits what is held, and nothing where nothing is. */
  ghost predicate FinishLaw<S>(d: Decoder<S>, s: S, n: nat) {
    var r := d.finish(s, n);
    && Sound(r, n) && r.used == d.held(s) && d.held(r.state) == "" && d.spells(r.used, r.events)
    && (d.held(s) == "" ==> r.events == [])
  }

  ghost predicate AppendLaw<S>(d: Decoder<S>, a: string, x: seq<Outgoing>, b: string, y: seq<Outgoing>) {
    d.spells(a, x) && d.spells(b, y) ==> d.spells(a + b, x + y)
  }

  ghost predicate Lawful<S(!new)>(d: Decoder<S>) {
    && d.held(d.start) == "" && d.spells("", [])
    && (forall s, thinking, text, n :: StepLaw(d, s, thinking, text, n))
    && (forall s, n :: FinishLaw(d, s, n))
    && (forall a, x, b, y :: AppendLaw(d, a, x, b, y))
  }

  // ----- The facade -------------------------------------------------------------------------

  datatype Stream<S> = Stream(sent: bool, terminal: bool, ordinal: nat, chain: S, outcome: Option<string>)

  function Lead<S>(st: Stream<S>): seq<Outgoing> {
    if st.sent then [] else [Sent]
  }

  /** Prose goes into the chain; anything else ends the run of prose and flushes it. */
  function Chain<S>(d: Decoder<S>, st: Stream<S>, ev: Incoming): Decoded<S> {
    if ev.Delta? then d.step(st.chain, ev.thinking, ev.text, st.ordinal) else d.finish(st.chain, st.ordinal)
  }

  /** What an event that is not prose puts on the stream itself. A `done` is kept for the very end. */
  function Own(ev: Incoming, ordinal: nat): seq<Outgoing> {
    match ev
    case Delta(_, _) => []
    case ToolCallEnd(call) => [Call(ordinal, true, call)]
    case ToolCallDelta(text) => [CallDelta(text)]
    case UsageReport(tokens) => [Usage(tokens)]
    case DoneReport(_) => []
    case ErrorReport(code) => [Failed(code)]
    case Passing(kind, payload) => [Passed(kind, payload)]
  }

  function Moved<S>(st: Stream<S>, ev: Incoming, r: Decoded<S>): Stream<S> {
    Stream(true, ev.DoneReport? || ev.ErrorReport?, r.next + (if ev.ToolCallEnd? then 1 else 0), r.state,
           if ev.DoneReport? then Some(ev.result) else st.outcome)
  }

  /** One adapter event. Nothing is read once a terminal event has been. */
  function Step<S>(d: Decoder<S>, st: Stream<S>, ev: Incoming): (Stream<S>, seq<Outgoing>) {
    if st.terminal then (st, [])
    else
      var r := Chain(d, st, ev);
      (Moved(st, ev, r), Lead(st) + r.events + Own(ev, r.next))
  }

  function Walk<S>(d: Decoder<S>, events: seq<Incoming>): (Stream<S>, seq<Outgoing>) {
    if events == [] then (Stream(false, false, 0, d.start, None), [])
    else
      var (st, out) := Walk(d, events[..|events| - 1]);
      var (st', more) := Step(d, st, events[|events| - 1]);
      (st', out + more)
  }

  /** What leaves the chain after the loop. A throwing adapter's held text is not flushed. */
  function Drained<S>(d: Decoder<S>, st: Stream<S>, ending: Ending): Decoded<S> {
    if ending.Returns? then d.finish(st.chain, st.ordinal) else Decoded(st.chain, [], st.ordinal, "")
  }

  function Closing<S>(d: Decoder<S>, st: Stream<S>, ending: Ending): seq<Outgoing> {
    if st.terminal then (if st.outcome.Some? then [Finished(st.outcome.value)] else [])
    else
      Lead(st) + Drained(d, st, ending).events
      + [Failed(if ending.Throws? && ending.aborted then "ABORTED" else "TRANSPORT")]
  }

  function Emitted<S>(d: Decoder<S>, events: seq<Incoming>, ending: Ending): seq<Outgoing> {
    var (st, out) := Walk(d, events);
    out + Closing(d, st, ending)
  }

  lemma Regroup<T>(a: seq<T>, b: seq<T>, c: seq<T>, e: seq<T>)
    ensures a + (b + c + e) == a + b + c + e
  {
  }

  /** The body of the stream loop. */
  method ReadOne<S>(d: Decoder<S>, st: Stream<S>, ev: Incoming) returns (st': Stream<S>, out: seq<Outgoing>)
    requires !st.terminal
    ensures (st', out) == Step(d, st, ev)
  {
    var terminal, outcome := false, st.outcome;
    out := [];
    if !st.sent { out := out + [Sent]; }
    var r := if ev.Delta? then d.step(st.chain, ev.thinking, ev.text, st.ordinal) else d.finish(st.chain, st.ordinal);
    var ordinal := r.next;
    out := out + r.events;
    ghost var prose := out;
    assert prose == Lead(st) + r.events;
    match ev {
      case Delta(_, _) =>
      case ToolCallEnd(call) =>
        out := out + [Call(ordinal, true, call)];
        ordinal := ordinal + 1;
      case ToolCallDelta(text) => out := out + [CallDelta(text)];
      case UsageReport(tokens) => out := out + [Usage(tokens)];
      case DoneReport(result) => terminal, outcome := true, Some(result);
      case ErrorReport(code) => terminal, out := true, out + [Failed(code)];
      case Passing(kind, payload) => out := out + [Passed(kind, payload)];
    }
    assert out == prose + Own(ev, r.next);
    st' := Stream(true, terminal, ordinal, r.state, outcome);
  }

  /** The stream loop and what follows it. */
  method RunInference<S>(d: Decoder<S>, events: seq<Incoming>, ending: Ending) returns (out: seq<Outgoing>)
    ensures out == Emitted(d, events, ending)
  {
    out := [];
    var st := Stream(false, false, 0, d.start, None);
    var i := 0;
    while i < |events| && !st.terminal
      invariant 0 <= i <= |events|
      invariant (st, out) == Walk(d, events[..i])
    {
      assert events[..i + 1][..i] == events[..i];
      var next, more := ReadOne(d, st, events[i]);
      st, out, i := next, out + more, i + 1;
    }
    assert events == events[..i] + events[i..];
    if st.terminal { WalkAfterTerminal(d, events[..i], events[i..]); } else { assert events[..i] == events; }
    out := out + Closing(d, st, ending);
  }

  lemma {:induction false} WalkAfterTerminal<S>(d: Decoder<S>, events: seq<Incoming>, rest: seq<Incoming>)
    requires Walk(d, events).0.terminal
    ensures Walk(d, events + rest) == Walk(d, events)
    decreases |rest|
  {
    if rest == [] {
      assert events + rest == events;
    } else {
      var n := |rest| - 1;
      assert (events + rest)[..|events| + n] == events + rest[..n];
      WalkAfterTerminal(d, events, rest[..n]);
      assert Walk(d, events).1 + [] == Walk(d, events).1;
    }
  }

  // ----- Sent first, one terminal last ------------------------------------------------------

  ghost predicate NoTerminal(events: seq<Outgoing>) {
    forall e | e in events :: !Terminal(e)
  }

  /** Nothing yet, or `sent` first; and terminal events only at the end. */
  ghost predicate Framed<S>(st: Stream<S>, out: seq<Outgoing>) {
    && (st.sent <==> out != []) && (st.sent ==> out[0].Sent?)
    && (!st.terminal ==> st.outcome.None? && NoTerminal(out))
    && (st.terminal ==> st.sent)
    && (st.terminal && st.outcome.Some? ==> NoTerminal(out))
    && (st.terminal && st.outcome.None? ==> out[|out| - 1].Failed? && NoTerminal(out[..|out| - 1]))
  }

  lemma ChainIsLawful<S(!new)>(d: Decoder<S>, st: Stream<S>, ev: Incoming)
    requires Lawful(d)
    ensures
      var r := Chain(d, st, ev);
      && Sound(r, st.ordinal)
      && r.used + d.held(r.state) == d.held(st.chain) + (if ev.Delta? then ev.text else "")
      && d.spells(r.used, r.events)
      && (!ev.Delta? ==> d.held(r.state) == "" && (d.held(st.chain) == "" ==> r.events == []))
  {
    if ev.Delta? {
      assert StepLaw(d, st.chain, ev.thinking, ev.text, st.ordinal);
    } else {
      assert FinishLaw(d, st.chain, st.ordinal);
      assert d.held(st.chain) + "" == d.held(st.chain);
    }
  }

  lemma DrainedIsLawful<S(!new)>(d: Decoder<S>, st: Stream<S>, ending: Ending)
    requires Lawful(d)
    ensures Sound(Drained(d, st, ending), st.ordinal)
  {
    if ending.Returns? { assert FinishLaw(d, st.chain, st.ordinal); }
  }

  lemma StepFramed<S(!new)>(d: Decoder<S>, st: Stream<S>, out: seq<Outgoing>, ev: Incoming)
    requires Lawful(d) && Framed(st, out)
    ensures Framed(Step(d, st, ev).0, out + Step(d, st, ev).1)
  {
    if st.terminal {
      assert out + [] == out;
    } else {
      var r := Chain(d, st, ev);
      ChainIsLawful(d, st, ev);
      var quiet := out + Lead(st) + r.events;
      Quiet(out, Lead(st), r.events);
      Regroup(out, Lead(st), r.events, Own(ev, r.next));
      assert quiet[0].Sent?;
      OwnFramed(quiet, Moved(st, ev, r), ev, r.next);
    }
  }

  lemma OwnFramed<S>(quiet: seq<Outgoing>, st: Stream<S>, ev: Incoming, ordinal: nat)
    requires NoTerminal(quiet) && quiet != [] && quiet[0].Sent?
    requires st.sent && (st.terminal <==> ev.DoneReport? || ev.ErrorReport?) && (st.outcome.Some? <==> ev.DoneReport?)
    ensures Framed(st, quiet + Own(ev, ordinal))
  {
    var all := quiet + Own(ev, ordinal);
    assert all[0] == quiet[0] && all[..|quiet|] == quiet;
  }

  lemma {:induction false} WalkFramed<S(!new)>(d: Decoder<S>, events: seq<Incoming>)
    requires Lawful(d)
    ensures Framed(Walk(d, events).0, Walk(d, events).1)
    decreases |events|
  {
    if events != [] {
      var n := |events| - 1;
      WalkFramed(d, events[..n]);
      StepFramed(d, Walk(d, events[..n]).0, Walk(d, events[..n]).1, events[n]);
    }
  }

  /** For every adapter stream: `sent` first, exactly one terminal event, and it is the last. */
  lemma SentFirstTerminalLast<S(!new)>(d: Decoder<S>, events: seq<Incoming>, ending: Ending)
    requires Lawful(d)
    ensures
      var out := Emitted(d, events, ending);
      && out != [] && out[0].Sent? && Terminal(out[|out| - 1])
      && NoTerminal(out[..|out| - 1])
  {
    WalkFramed(d, events);
    var (st, out) := Walk(d, events);
    var all := Emitted(d, events, ending);
    if st.terminal {
      if st.outcome.Some? { assert all[..|out|] == out; } else { assert all == out; }
    } else {
      DrainedIsLawful(d, st, ending);
      var r := Drained(d, st, ending);
      var quiet := out + Lead(st) + r.events;
      var last := Failed(if ending.Throws? && ending.aborted then "ABORTED" else "TRANSPORT");
      assert quiet != [] && quiet[0].Sent?;
      Quiet(out, Lead(st), r.events);
      Regroup(out, Lead(st), r.events, [last]);
      assert all[..|quiet|] == quiet && all[|quiet|] == last;
    }
  }

  lemma Quiet(a: seq<Outgoing>, b: seq<Outgoing>, c: seq<Outgoing>)
    requires NoTerminal(a) && NoTerminal(b) && NoTerminal(c)
    ensures NoTerminal(a + b + c)
  {
  }

  // ----- One numbering ----------------------------------------------------------------------

  lemma {:induction false} OrdinalsConcat(a: seq<Outgoing>, b: seq<Outgoing>)
    ensures Ordinals(a + b) == Ordinals(a) + Ordinals(b)
    decreases |b|
  {
    if b == [] {
      assert a + b == a;
    } else {
      var n := |b| - 1;
      assert (a + b)[..|a| + n] == a + b[..n];
      OrdinalsConcat(a, b[..n]);
    }
  }

  lemma {:induction false} CountConcat(a: nat, b: nat, c: nat)
    requires a <= b <= c
    ensures Count(a, b) + Count(b, c) == Count(a, c)
    decreases c
  {
    if b < c {
      CountConcat(a, b, c - 1);
      assert Count(a, b) + (Count(b, c - 1) + [c - 1]) == (Count(a, b) + Count(b, c - 1)) + [c - 1];
    }
  }

  lemma OrdinalOfOne(e: Outgoing)
    ensures Ordinals([e]) == if e.Call? then [e.ordinal] else []
  {
    assert [e][..0] == [];
  }

  lemma OrdinalsOfThree(a: seq<Outgoing>, b: seq<Outgoing>, c: seq<Outgoing>)
    ensures Ordinals(a + b + c) == Ordinals(a) + Ordinals(b) + Ordinals(c)
  {
    OrdinalsConcat(a, b);
    OrdinalsConcat(a + b, c);
  }

  lemma LeadHasNoCall<S>(st: Stream<S>)
    ensures Ordinals(Lead(st)) == [] && ProseOf(Lead(st)) == []
  {
    OrdinalOfOne(Sent);
    ProseOfOne(Sent);
  }

  lemma OneOfOwn(e: Outgoing)
    requires !FromChain(e)
    ensures Ordinals([e]) == (if e.Call? then [e.ordinal] else []) && ProseOf([e]) == []
  {
    OrdinalOfOne(e);
    ProseOfOne(e);
  }

  lemma OwnIsOneCallOrNone(ev: Incoming, ordinal: nat)
    ensures Ordinals(Own(ev, ordinal)) == Count(ordinal, ordinal + if ev.ToolCallEnd? then 1 else 0)
    ensures ProseOf(Own(ev, ordinal)) == []
  {
    var own := Own(ev, ordinal);
    assert Count(ordinal, ordinal) == [] && Count(ordinal, ordinal + 1) == [ordinal];
    if own != [] { OneOfOwn(own[0]); }
  }

  /** A step's calls continue the numbering. */
  lemma StepOrdinals<S(!new)>(d: Decoder<S>, st: Stream<S>, ev: Incoming)
    requires Lawful(d)
    ensures
      var (st', more) := Step(d, st, ev);
      st'.ordinal >= st.ordinal && Ordinals(more) == Count(st.ordinal, st'.ordinal)
  {
    if !st.terminal {
      var r := Chain(d, st, ev);
      var own := Own(ev, r.next);
      ChainIsLawful(d, st, ev);
      LeadHasNoCall(st);
      OwnIsOneCallOrNone(ev, r.next);
      OrdinalsOfThree(Lead(st), r.events, own);
      CountConcat(st.ordinal, r.next, Step(d, st, ev).0.ordinal);
    }
  }

  lemma {:induction false} WalkOrdinals<S(!new)>(d: Decoder<S>, events: seq<Incoming>)
    requires Lawful(d)
    ensures Ordinals(Walk(d, events).1) == Count(0, Walk(d, events).0.ordinal)
    decreases |events|
  {
    if events != [] {
      var n := |events| - 1;
      WalkOrdinals(d, events[..n]);
      var (st, out) := Walk(d, events[..n]);
      var (st', more) := Step(d, st, events[n]);
      StepOrdinals(d, st, events[n]);
      OrdinalsConcat(out, more);
      CountConcat(0, st.ordinal, st'.ordinal);
    }
  }

  /** Native calls and calls read out of prose share the numbers 0, 1, 2, ... in emission order. */
  lemma OrdinalsAreConsecutive<S(!new)>(d: Decoder<S>, events: seq<Incoming>, ending: Ending)
    requires Lawful(d)
    ensures exists n :: Ordinals(Emitted(d, events, ending)) == Count(0, n)
  {
    var (st, out) := Walk(d, events);
    var close := Closing(d, st, ending);
    WalkOrdinals(d, events);
    OrdinalsConcat(out, close);
    var next := ClosingOrdinals(d, st, ending);
    CountConcat(0, st.ordinal, next);
  }

  lemma ClosingOrdinals<S(!new)>(d: Decoder<S>, st: Stream<S>, ending: Ending) returns (next: nat)
    requires Lawful(d)
    ensures next >= st.ordinal && Ordinals(Closing(d, st, ending)) == Count(st.ordinal, next)
  {
    next := st.ordinal;
    if st.terminal {
      if st.outcome.Some? { OrdinalOfOne(Finished(st.outcome.value)); }
    } else {
      var r := Drained(d, st, ending);
      var close := Closing(d, st, ending);
      var last := close[|close| - 1];
      DrainedIsLawful(d, st, ending);
      LeadHasNoCall(st);
      OrdinalOfOne(last);
      OrdinalsOfThree(Lead(st), r.events, [last]);
      next := r.next;
    }
  }

  // ----- Held text --------------------------------------------------------------------------

  /** All the prose the adapter has reported. */
  function Received(events: seq<Incoming>): string {
    if events == [] then ""
    else
      var last := events[|events| - 1];
      Received(events[..|events| - 1]) + if last.Delta? then last.text else ""
  }

  lemma {:induction false} ProseConcat(a: seq<Outgoing>, b: seq<Outgoing>)
    ensures ProseOf(a + b) == ProseOf(a) + ProseOf(b)
    decreases |b|
  {
    if b == [] {
      assert a + b == a;
    } else {
      var n := |b| - 1;
      assert (a + b)[..|a| + n] == a + b[..n];
      ProseConcat(a, b[..n]);
    }
  }

  lemma ProseOfOne(e: Outgoing)
    ensures ProseOf([e]) == if FromChain(e) then [e] else []
  {
    assert [e][..0] == [];
  }

  lemma {:induction false} AllProse(events: seq<Outgoing>)
    requires forall e | e in events :: FromChain(e)
    ensures ProseOf(events) == events
    decreases |events|
  {
    if events != [] { AllProse(events[..|events| - 1]); }
  }

  /** The chain's part of a step is what the chain made of the event. */
  lemma StepProse<S(!new)>(d: Decoder<S>, st: Stream<S>, ev: Incoming)
    requires Lawful(d) && !st.terminal
    ensures ProseOf(Lead(st) + Chain(d, st, ev).events) == Chain(d, st, ev).events
    ensures ProseOf(Step(d, st, ev).1) == Chain(d, st, ev).events
  {
    var r := Chain(d, st, ev);
    ChainIsLawful(d, st, ev);
    LeadHasNoCall(st);
    OwnIsOneCallOrNone(ev, r.next);
    AllProse(r.events);
    ProseConcat(Lead(st), r.events);
    ProseConcat(Lead(st) + r.events, Own(ev, r.next));
  }

  /** The events up to the first terminal one, which is the last that is read. */
  function ReadPart<S>(d: Decoder<S>, events: seq<Incoming>): seq<Incoming> {
    if events == [] then []
    else
      var before := events[..|events| - 1];
      if Walk(d, before).0.terminal then ReadPart(d, before) else events
  }

  /** The text the chain has used up. */
  function WalkUsed<S>(d: Decoder<S>, events: seq<Incoming>): string {
    if events == [] then ""
    else
      var before, ev := events[..|events| - 1], events[|events| - 1];
      var st := Walk(d, before).0;
      WalkUsed(d, before) + if st.terminal then "" else Chain(d, st, ev).used
  }

  function EmittedUsed<S>(d: Decoder<S>, events: seq<Incoming>, ending: Ending): string {
    var st := Walk(d, events).0;
    WalkUsed(d, events) + if st.terminal then "" else Drained(d, st, ending).used
  }

  /** Text the chain still holds; after a terminal event there is none. */
  function StillHeld<S>(d: Decoder<S>, st: Stream<S>): string {
    if st.terminal then "" else d.held(st.chain)
  }

  lemma UsedMore<S(!new)>(
    d: Decoder<S>, received: string, held: string, out: seq<Outgoing>, before: string,
    said: string, used: string, kept: string, more: seq<Outgoing>)
    requires Lawful(d) && received == before + held && d.spells(before, ProseOf(out))
    requires used + kept == held + said && d.spells(used, ProseOf(more))
    ensures received + said == (before + used) + kept && d.spells(before + used, ProseOf(out + more))
  {
    assert AppendLaw(d, before, ProseOf(out), used, ProseOf(more));
    ProseConcat(out, more);
    Carry(received, before, held, said, used, kept);
  }

  lemma Carry<T>(received: seq<T>, before: seq<T>, held: seq<T>, said: seq<T>, used: seq<T>, kept: seq<T>)
    requires received == before + held && used + kept == held + said
    ensures received + said == (before + used) + kept
  {
    assert received + said == before + (held + said);
  }

  lemma StepUsed<S(!new)>(d: Decoder<S>, events: seq<Incoming>)
    requires Lawful(d) && events != []
    requires
      var before := events[..|events| - 1];
      var (st, out) := Walk(d, before);
      && !st.terminal && Received(before) == WalkUsed(d, before) + d.held(st.chain)
      && d.spells(WalkUsed(d, before), ProseOf(out))
    ensures
      var (st, out) := Walk(d, events);
      && Received(events) == WalkUsed(d, events) + StillHeld(d, st)
      && d.spells(WalkUsed(d, events), ProseOf(out))
  {
    var n := |events| - 1;
    var ev := events[n];
    var (st, out) := Walk(d, events[..n]);
    var r := Chain(d, st, ev);
    StepProse(d, st, ev);
    ChainIsLawful(d, st, ev);
    UsedMore(d, Received(events[..n]), d.held(st.chain), out, WalkUsed(d, events[..n]),
             if ev.Delta? then ev.text else "", r.used, d.held(r.state), Step(d, st, ev).1);
  }

  /** What was emitted spells, with what is held, exactly what was received. */
  lemma {:induction false} ProseConserved<S(!new)>(d: Decoder<S>, events: seq<Incoming>)
    requires Lawful(d)
    ensures
      var (st, out) := Walk(d, events);
      && Received(ReadPart(d, events)) == WalkUsed(d, events) + StillHeld(d, st)
      && d.spells(WalkUsed(d, events), ProseOf(out))
      && (!st.terminal ==> ReadPart(d, events) == events)
    decreases |events|
  {
    if events != [] {
      var before := events[..|events| - 1];
      ProseConserved(d, before);
      var (st, out) := Walk(d, before);
      if st.terminal {
        assert out + [] == out && WalkUsed(d, before) + "" == WalkUsed(d, before);
      } else {
        StepUsed(d, events);
      }
    }
  }

  /** What the end of the stream leaves behind: only a throw before a terminal event leaves held text. */
  function LeftBehind<S>(d: Decoder<S>, events: seq<Incoming>, ending: Ending): string {
    if ending.Throws? then StillHeld(d, Walk(d, events).0) else ""
  }

  /**
   * Over the whole stream, closing events included: the emitted prose spells everything the adapter
   * said but the text left behind.
   */
  lemma WholeStreamAccounted<S(!new)>(d: Decoder<S>, events: seq<Incoming>, ending: Ending)
    requires Lawful(d)
    ensures Received(ReadPart(d, events)) == EmittedUsed(d, events, ending) + LeftBehind(d, events, ending)
    ensures d.spells(EmittedUsed(d, events, ending), ProseOf(Emitted(d, events, ending)))
  {
    ProseConserved(d, events);
    var (st, out) := Walk(d, events);
    var used := WalkUsed(d, events);
    ClosingProse(d, st, ending);
    if st.terminal {
      ProseConcat(out, Closing(d, st, ending));
      assert used + "" == used && ProseOf(out) + [] == ProseOf(out);
    } else {
      var r := Drained(d, st, ending);
      DrainedUsed(d, st, ending);
      UsedMore(d, Received(events), d.held(st.chain), out, used, "", r.used, LeftBehind(d, events, ending),
               Closing(d, st, ending));
      assert Received(events) + "" == Received(events);
    }
  }

  lemma DrainedUsed<S(!new)>(d: Decoder<S>, st: Stream<S>, ending: Ending)
    requires Lawful(d) && !st.terminal
    ensures
      var r := Drained(d, st, ending);
      r.used + (if ending.Throws? then d.held(st.chain) else "") == d.held(st.chain) + "" && d.spells(r.used, r.events)
  {
    if ending.Returns? { assert FinishLaw(d, st.chain, st.ordinal); }
  }

  lemma ClosingProse<S(!new)>(d: Decoder<S>, st: Stream<S>, ending: Ending)
    requires Lawful(d)
    ensures ProseOf(Closing(d, st, ending)) == if st.terminal then [] else Drained(d, st, ending).events
  {
    var close := Closing(d, st, ending);
    if st.terminal {
      if close != [] { ProseOfOne(close[0]); }
    } else {
      DrainedIsLawful(d, st, ending);
      LeadHasNoCall(st);
      ProseBetween(Lead(st), Drained(d, st, ending).events, close[|close| - 1]);
    }
  }

  lemma ProseBetween(lead: seq<Outgoing>, prose: seq<Outgoing>, last: Outgoing)
    requires ProseOf(lead) == [] && (forall e | e in prose :: FromChain(e)) && !FromChain(last)
    ensures ProseOf(lead + prose + [last]) == prose
  {
    AllProse(prose);
    ProseOfOne(last);
    ProseConcat(lead, prose);
    ProseConcat(lead + prose, [last]);
  }

  /** All that the adapter said leaves, except precisely when it throws before a terminal event with text held. */
  lemma NothingLostExactly<S(!new)>(d: Decoder<S>, events: seq<Incoming>, ending: Ending)
    requires Lawful(d)
    ensures
      var st := Walk(d, events).0;
      EmittedUsed(d, events, ending) == Received(ReadPart(d, events))
      <==> !(ending.Throws? && !st.terminal && d.held(st.chain) != "")
  {
    WholeStreamAccounted(d, events, ending);
    var used, left := EmittedUsed(d, events, ending), LeftBehind(d, events, ending);
    assert |Received(ReadPart(d, events))| == |used| + |left|;
    if left == "" { assert used + left == used; }
  }

  /** Within one step, what is neither `sent` nor from the chain comes last. */
  predicate ReportLast(events: seq<Outgoing>) {
    forall i | 0 <= i < |events| && !events[i].Sent? && !FromChain(events[i]) :: i == |events| - 1
  }

  /**
   * When the adapter reports anything but prose, everything it said before has left and nothing stays
   * held; and all of that leaves before the report does. So no held tail can follow a call, the usage,
   * or the terminal event.
   */
  lemma HeldTextLeavesFirst<S(!new)>(d: Decoder<S>, events: seq<Incoming>, ev: Incoming)
    requires Lawful(d) && !Walk(d, events).0.terminal && !ev.Delta?
    ensures
      var (st, out) := Walk(d, events + [ev]);
      && d.held(st.chain) == "" && d.spells(Received(events), ProseOf(out))
      && out == Walk(d, events).1 + Step(d, Walk(d, events).0, ev).1
    ensures ReportLast(Step(d, Walk(d, events).0, ev).1)
  {
    ReportAccounted(d, events, ev);
    var st := Walk(d, events).0;
    ChainIsLawful(d, st, ev);
    OwnComesLast(Lead(st), Chain(d, st, ev).events, Own(ev, Chain(d, st, ev).next));
  }

  lemma WalkOneMore<S>(d: Decoder<S>, events: seq<Incoming>, ev: Incoming)
    ensures
      var (st, out) := Walk(d, events);
      Walk(d, events + [ev]) == (Step(d, st, ev).0, out + Step(d, st, ev).1)
    ensures Received(events + [ev]) == Received(events) + if ev.Delta? then ev.text else ""
  {
    assert (events + [ev])[..|events|] == events;
  }

  lemma ReportAccounted<S(!new)>(d: Decoder<S>, events: seq<Incoming>, ev: Incoming)
    requires Lawful(d) && !Walk(d, events).0.terminal && !ev.Delta?
    ensures
      var (st, out) := Walk(d, events + [ev]);
      && d.held(st.chain) == "" && d.spells(Received(events), ProseOf(out))
      && out == Walk(d, events).1 + Step(d, Walk(d, events).0, ev).1
  {
    WalkOneMore(d, events, ev);
    ProseConserved(d, events + [ev]);
    ReadThrough(d, events, ev);
    ChainIsLawful(d, Walk(d, events).0, ev);
    var used := WalkUsed(d, events + [ev]);
    assert used + "" == used && Received(events) + "" == Received(events);
  }

  lemma ReadThrough<S>(d: Decoder<S>, events: seq<Incoming>, ev: Incoming)
    requires !Walk(d, events).0.terminal
    ensures ReadPart(d, events + [ev]) == events + [ev]
  {
    assert (events + [ev])[..|events|] == events;
  }

  lemma OwnComesLast(lead: seq<Outgoing>, prose: seq<Outgoing>, own: seq<Outgoing>)
    requires (forall e | e in lead :: e.Sent?) && (forall e | e in prose :: FromChain(e)) && |own| <= 1
    ensures ReportLast(lead + prose + own)
  {
    var all := lead + prose + own;
    assert forall k | 0 <= k < |lead| :: all[k] == lead[k];
    assert forall k | |lead| <= k < |lead| + |prose| :: all[k] == prose[k - |lead|];
  }

  // ----- A chain that holds tails -----------------------------------------------------------

  function TextOf(events: seq<Outgoing>): string {
    if events == [] then ""
    else
      var last := events[|events| - 1];
      TextOf(events[..|events| - 1]) + if last.Prose? then last.text else ""
  }

  function TagAt(text: string): (i: nat)
    ensures i <= |text|
  {
    if text == "" || text[0] == '<' then 0 else 1 + TagAt(text[1..])
  }

  function Spoken(text: string): seq<Outgoing> {
    if text == "" then [] else [Prose(false, text)]
  }

  /** Holds everything from a possible opening tag on, and reads no calls. */
  ghost function TailHolder(): Decoder<string> {
    Decoder(
      "",
      (s: string) => s,
      (s: string, thinking: bool, text: string, n: nat) =>
        var all := s + text;
        Decoded(all[TagAt(all)..], Spoken(all[..TagAt(all)]), n, all[..TagAt(all)]),
      (s: string, n: nat) => Decoded("", Spoken(s), n, s),
      (text: string, events: seq<Outgoing>) => text == TextOf(events))
  }

  lemma {:induction false} TextConcat(a: seq<Outgoing>, b: seq<Outgoing>)
    ensures TextOf(a + b) == TextOf(a) + TextOf(b)
    decreases |b|
  {
    if b == [] {
      assert a + b == a;
    } else {
      var n := |b| - 1;
      assert (a + b)[..|a| + n] == a + b[..n];
      TextConcat(a, b[..n]);
    }
  }

  lemma SpokenIsItsText(text: string, n: nat)
    ensures TextOf(Spoken(text)) == text && Ordinals(Spoken(text)) == Count(n, n)
    ensures forall e | e in Spoken(text) :: FromChain(e)
  {
    if text != "" {
      assert Spoken(text)[..0] == [];
      OrdinalOfOne(Prose(false, text));
    }
  }

  lemma TailHolderIsLawful()
    ensures Lawful(TailHolder())
  {
    var d := TailHolder();
    forall s: string, thinking: bool, text: string, n: nat ensures StepLaw(d, s, thinking, text, n) {
      var all := s + text;
      SpokenIsItsText(all[..TagAt(all)], n);
      assert all[..TagAt(all)] + all[TagAt(all)..] == all;
    }
    forall s: string, n: nat ensures FinishLaw(d, s, n) {
      SpokenIsItsText(s, n);
    }
    forall a: string, x: seq<Outgoing>, b: string, y: seq<Outgoing> ensures AppendLaw(d, a, x, b, y) {
      TextConcat(x, y);
    }
  }

  /** A partial tag followed by a throw: the tag is lost, and the stream ends with the error alone. */
  lemma ThrowLosesHeldText()
    ensures
      var d, events := TailHolder(), [Delta(false, "<tool")];
      && Lawful(d) && Emitted(d, events, Throws(false)) == [Sent, Failed("TRANSPORT")]
      && EmittedUsed(d, events, Throws(false)) == "" && LeftBehind(d, events, Throws(false)) == "<tool"
  {
    TailHolderIsLawful();
    var d, ev := TailHolder(), Delta(false, "<tool");
    var start := Stream(false, false, 0, "", None);
    assert [ev][..0] == [] && Walk(d, []) == (start, []);
    assert "" + "<tool" == "<tool" && TagAt("<tool") == 0;
    assert "<tool"[..0] == "" && "<tool"[0..] == "<tool";
    assert Chain(d, start, ev) == Decoded("<tool", [], 0, "");
    assert Step(d, start, ev).1 == [Sent] && [] + [Sent] == [Sent];
    assert Step(d, start, ev).0 == Stream(true, false, 0, "<tool", None);
    assert Walk(d, [ev]) == (Stream(true, false, 0, "<tool", None), [Sent]);
  }
}
