/** The public inference: the facade's stream behind the guard, and when the guard has nothing to correct. */
module Facade {
  import opened Wrappers
  import Inference
  import StreamGuard

  /** How a failure's other fields read. */
  datatype Wording = Wording(report: string -> StreamGuard.ErrorReport)

  /** A facade event as the guard sees it. */
  function Shown(w: Wording, e: Inference.Outgoing): StreamGuard.Event {
    match e
    case Sent => StreamGuard.Sent("")
    case Prose(_, text) => StreamGuard.Content("delta", text)
    case Call(_, _, text) => StreamGuard.Content("call", text)
    case CallDelta(text) => StreamGuard.Content("call-delta", text)
    case Deviation(sample) => StreamGuard.Content("deviation", sample)
    case Usage(tokens) => StreamGuard.Usage(tokens)
    case Finished(result) => StreamGuard.Finished(result, None)
    case Failed(code) => StreamGuard.Error(w.report(code))
    case Passed(kind, payload) => StreamGuard.Content(kind, payload)
  }

  function ShownAll(w: Wording, events: seq<Inference.Outgoing>): (shown: seq<StreamGuard.Event>)
    ensures |shown| == |events|
    ensures forall i :: 0 <= i < |events| ==> shown[i] == Shown(w, events[i])
  {
    seq(|events|, i requires 0 <= i < |events| => Shown(w, events[i]))
  }

  /** What `infer` hands out for an adapter's stream. */
  function Infer<S>(
    d: Inference.Decoder<S>, c: StreamGuard.Schemas, w: Wording, events: seq<Inference.Incoming>,
    ending: Inference.Ending): StreamGuard.Source
  {
    StreamGuard.Guard(c, StreamGuard.Source(ShownAll(w, Inference.Emitted(d, events, ending)), StreamGuard.Returns))
  }

  /** Prose, calls and the like: what an adapter may report before its usage. */
  predicate Talk(ev: Inference.Incoming) {
    ev.Delta? || ev.ToolCallEnd? || ev.ToolCallDelta? || ev.Passing?
  }

  /** How an orderly stream goes on after its talk. */
  predicate Orderly(tail: seq<Inference.Incoming>) {
    || tail == []
    || (|tail| == 1 && (tail[0].ErrorReport? || tail[0].UsageReport?))
    || (|tail| == 2 && tail[0].UsageReport? && (tail[1].ErrorReport? || tail[1].DoneReport?))
  }

  predicate IsContent(e: Inference.Outgoing) {
    Inference.FromChain(e) || e.Call? || e.CallDelta? || e.Passed?
  }

  ghost predicate AllContent(events: seq<Inference.Outgoing>) {
    forall e | e in events :: IsContent(e)
  }

  /** `sent`, then content only. */
  ghost predicate Spoken(out: seq<Inference.Outgoing>) {
    out != [] && out[0].Sent? && AllContent(out[1..])
  }

  ghost predicate Speaking<S>(st: Inference.Stream<S>, out: seq<Inference.Outgoing>) {
    !st.terminal && st.outcome.None? && (st.sent <==> out != []) && (out != [] ==> Spoken(out))
  }

  lemma SpeakOn(out: seq<Inference.Outgoing>, lead: seq<Inference.Outgoing>, more: seq<Inference.Outgoing>)
    requires if out == [] then lead == [Inference.Sent] else Spoken(out) && lead == []
    requires AllContent(more)
    ensures Spoken(out + lead + more)
  {
    var all := out + lead + more;
    assert (out + lead) + more == all && all[1..] == (out + lead)[1..] + more;
  }

  /** One step's events, seen from before it. */
  lemma StepParts<S(!new)>(
    d: Inference.Decoder<S>, st: Inference.Stream<S>, out: seq<Inference.Outgoing>, ev: Inference.Incoming)
    requires Inference.Lawful(d) && Speaking(st, out)
    ensures
      var r := Inference.Chain(d, st, ev);
      && Spoken(out + Inference.Lead(st) + r.events) && Inference.Step(d, st, ev).0 == Inference.Moved(st, ev, r)
      && out + Inference.Step(d, st, ev).1 == out + Inference.Lead(st) + r.events + Inference.Own(ev, r.next)
  {
    var r := Inference.Chain(d, st, ev);
    Inference.ChainIsLawful(d, st, ev);
    SpeakOn(out, Inference.Lead(st), r.events);
    Inference.Regroup(out, Inference.Lead(st), r.events, Inference.Own(ev, r.next));
  }

  lemma TalkIsContent(ev: Inference.Incoming, ordinal: nat)
    requires Talk(ev)
    ensures AllContent(Inference.Own(ev, ordinal))
  {
  }

  lemma {:induction false} TalkIsSpoken<S(!new)>(d: Inference.Decoder<S>, body: seq<Inference.Incoming>)
    requires Inference.Lawful(d) && forall e | e in body :: Talk(e)
    ensures Speaking(Inference.Walk(d, body).0, Inference.Walk(d, body).1)
    decreases |body|
  {
    if body != [] {
      var n := |body| - 1;
      TalkIsSpoken(d, body[..n]);
      var (st, out) := Inference.Walk(d, body[..n]);
      StepParts(d, st, out, body[n]);
      var r := Inference.Chain(d, st, body[n]);
      TalkIsContent(body[n], r.next);
      SpeakOn(out + Inference.Lead(st) + r.events, [], Inference.Own(body[n], r.next));
      assert out + Inference.Lead(st) + r.events + [] == out + Inference.Lead(st) + r.events;
    }
  }

  /** After the usage nothing is held, so nothing but the end can follow. */
  lemma AfterUsage<S(!new)>(d: Inference.Decoder<S>, body: seq<Inference.Incoming>, tokens: string)
    requires Inference.Lawful(d) && forall e | e in body :: Talk(e)
    ensures
      var (st, out) := Inference.Walk(d, body + [Inference.UsageReport(tokens)]);
      && !st.terminal && st.sent && st.outcome.None? && d.held(st.chain) == ""
      && out != [] && out[|out| - 1] == Inference.Usage(tokens) && Spoken(out[..|out| - 1])
  {
    TalkIsSpoken(d, body);
    var ev := Inference.UsageReport(tokens);
    var (st, out) := Inference.Walk(d, body);
    StepParts(d, st, out, ev);
    Inference.WalkOneMore(d, body, ev);
    Inference.ChainIsLawful(d, st, ev);
    var quiet := out + Inference.Lead(st) + Inference.Chain(d, st, ev).events;
    assert (quiet + [Inference.Usage(tokens)])[..|quiet|] == quiet;
  }

  // ----- Shapes -----------------------------------------------------------------------------

  /** `sent X* error`, `sent X* usage error` or `sent X* usage done`. */
  ghost predicate Turn(out: seq<Inference.Outgoing>) {
    && |out| >= 2
    && var n := |out| - 1;
       || (out[n].Failed? && Spoken(out[..n]))
       || (n >= 2 && Inference.Terminal(out[n]) && out[n - 1].Usage? && Spoken(out[..n - 1]))
  }

  lemma SpokenOpens(w: Wording, out: seq<Inference.Outgoing>)
    requires Spoken(out)
    ensures StreamGuard.Opening(ShownAll(w, out), false)
  {
    var shown := ShownAll(w, out);
    forall e | e in shown[1..] ensures e.Content? {
      var i :| 0 <= i < |shown| - 1 && shown[1..][i] == e;
      assert out[1..][i] in out[1..];
    }
  }

  lemma ShownTake(w: Wording, out: seq<Inference.Outgoing>, n: nat)
    requires n <= |out|
    ensures ShownAll(w, out)[..n] == ShownAll(w, out[..n])
  {
  }

  lemma TurnIsLegal(w: Wording, out: seq<Inference.Outgoing>)
    requires Turn(out)
    ensures StreamGuard.Legal(ShownAll(w, out))
  {
    var n := |out| - 1;
    var shown := ShownAll(w, out);
    ShownTake(w, out, n);
    if out[n].Failed? && Spoken(out[..n]) {
      SpokenOpens(w, out[..n]);
    } else {
      ShownTake(w, out, n - 1);
      SpokenOpens(w, out[..n - 1]);
      assert shown[..n][1..n - 1] == shown[..n - 1][1..];
    }
  }

  lemma EndsInFailure(quiet: seq<Inference.Outgoing>, code: string)
    requires Spoken(quiet)
    ensures Turn(quiet + [Inference.Failed(code)])
  {
    assert (quiet + [Inference.Failed(code)])[..|quiet|] == quiet;
  }

  lemma EndsAfterUsage(out: seq<Inference.Outgoing>, last: Inference.Outgoing)
    requires out != [] && out[|out| - 1].Usage? && Spoken(out[..|out| - 1]) && Inference.Terminal(last)
    ensures Turn(out + [last])
  {
    var all := out + [last];
    assert all[..|out| - 1] == out[..|out| - 1];
  }

  // ----- Orderly adapters -------------------------------------------------------------------

  lemma TalkThenEnd<S(!new)>(d: Inference.Decoder<S>, body: seq<Inference.Incoming>, ending: Inference.Ending)
    requires Inference.Lawful(d) && forall e | e in body :: Talk(e)
    ensures Turn(Inference.Emitted(d, body, ending))
  {
    TalkIsSpoken(d, body);
    Inference.DrainedIsLawful(d, Inference.Walk(d, body).0, ending);
    var (st, out) := Inference.Walk(d, body);
    var r := Inference.Drained(d, st, ending);
    SpeakOn(out, Inference.Lead(st), r.events);
    var last := Inference.Failed(if ending.Throws? && ending.aborted then "ABORTED" else "TRANSPORT");
    Inference.Regroup(out, Inference.Lead(st), r.events, [last]);
    EndsInFailure(out + Inference.Lead(st) + r.events, last.code);
  }

  lemma TalkThenError<S(!new)>(
    d: Inference.Decoder<S>, body: seq<Inference.Incoming>, code: string, ending: Inference.Ending)
    requires Inference.Lawful(d) && forall e | e in body :: Talk(e)
    ensures
      var (st, out) := Inference.Walk(d, body + [Inference.ErrorReport(code)]);
      st.terminal && st.outcome.None? && Turn(out)
  {
    TalkIsSpoken(d, body);
    var ev := Inference.ErrorReport(code);
    var (st, out) := Inference.Walk(d, body);
    StepParts(d, st, out, ev);
    Inference.WalkOneMore(d, body, ev);
    EndsInFailure(out + Inference.Lead(st) + Inference.Chain(d, st, ev).events, code);
  }

  lemma UsageThenEnd<S(!new)>(
    d: Inference.Decoder<S>, body: seq<Inference.Incoming>, tokens: string, ending: Inference.Ending)
    requires Inference.Lawful(d) && forall e | e in body :: Talk(e)
    ensures Turn(Inference.Emitted(d, body + [Inference.UsageReport(tokens)], ending))
  {
    AfterUsage(d, body, tokens);
    var (st, out) := Inference.Walk(d, body + [Inference.UsageReport(tokens)]);
    if ending.Returns? { assert Inference.FinishLaw(d, st.chain, st.ordinal); }
    var last := Inference.Failed(if ending.Throws? && ending.aborted then "ABORTED" else "TRANSPORT");
    assert Inference.Closing(d, st, ending) == [last];
    EndsAfterUsage(out, last);
  }

  lemma UsageThenTerminal<S(!new)>(
    d: Inference.Decoder<S>, body: seq<Inference.Incoming>, tokens: string, ev: Inference.Incoming,
    ending: Inference.Ending)
    requires Inference.Lawful(d) && (forall e | e in body :: Talk(e)) && (ev.ErrorReport? || ev.DoneReport?)
    ensures
      var (st, out) := Inference.Walk(d, body + [Inference.UsageReport(tokens)] + [ev]);
      st.terminal && Turn(out + Inference.Closing(d, st, ending))
  {
    AfterUsage(d, body, tokens);
    var (st, out) := Inference.Walk(d, body + [Inference.UsageReport(tokens)]);
    Inference.WalkOneMore(d, body + [Inference.UsageReport(tokens)], ev);
    Inference.ChainIsLawful(d, st, ev);
    var more := Inference.Step(d, st, ev).1;
    match ev
    case ErrorReport(code) =>
      assert more == [Inference.Failed(code)] && out + more + [] == out + more;
      EndsAfterUsage(out, Inference.Failed(code));
    case DoneReport(result) =>
      assert more == [] && out + [] == out;
      EndsAfterUsage(out, Inference.Finished(result));
  }

  lemma Emits<S(!new)>(
    d: Inference.Decoder<S>, body: seq<Inference.Incoming>, tail: seq<Inference.Incoming>,
    rest: seq<Inference.Incoming>, ending: Inference.Ending)
    requires Inference.Lawful(d) && (forall e | e in body :: Talk(e)) && Orderly(tail)
    requires rest == [] || (tail != [] && !tail[|tail| - 1].UsageReport?)
    ensures Turn(Inference.Emitted(d, body + tail + rest, ending))
  {
    assert rest == [] ==> body + tail + rest == body + tail;
    if tail == [] {
      assert body + tail == body;
      TalkThenEnd(d, body, ending);
    } else if |tail| == 1 && tail[0].UsageReport? {
      assert tail == [Inference.UsageReport(tail[0].tokens)];
      UsageThenEnd(d, body, tail[0].tokens, ending);
    } else {
      if |tail| == 1 {
        assert tail == [Inference.ErrorReport(tail[0].code)];
        TalkThenError(d, body, tail[0].code, ending);
        assert Inference.Walk(d, body + tail).1 + [] == Inference.Walk(d, body + tail).1;
      } else {
        assert body + tail == body + [Inference.UsageReport(tail[0].tokens)] + [tail[1]];
        UsageThenTerminal(d, body, tail[0].tokens, tail[1], ending);
      }
      Inference.WalkAfterTerminal(d, body + tail, rest);
    }
  }

  /**
   * The guard corrects nothing of what the facade makes of an orderly adapter: talk, then at most one
   * usage, then an error, a `done` after a usage, an early end or a throw; and, after a terminal event,
   * anything at all. Text that was held back cannot spoil this, for it leaves before the usage does.
   */
  lemma OrderlyTurnsPass<S(!new)>(
    d: Inference.Decoder<S>, c: StreamGuard.Schemas, w: Wording,
    body: seq<Inference.Incoming>, tail: seq<Inference.Incoming>, rest: seq<Inference.Incoming>,
    ending: Inference.Ending)
    requires Inference.Lawful(d) && (forall e | e in body :: Talk(e)) && Orderly(tail)
    requires rest == [] || (tail != [] && !tail[|tail| - 1].UsageReport?)
    ensures Infer(d, c, w, body + tail + rest, ending)
         == StreamGuard.Source(
              StreamGuard.NormalizedAll(c, ShownAll(w, Inference.Emitted(d, body + tail + rest, ending))),
              StreamGuard.Returns)
  {
    Emits(d, body, tail, rest, ending);
    var out := Inference.Emitted(d, body + tail + rest, ending);
    TurnIsLegal(w, out);
    StreamGuard.PassesExactlyLegal(c, ShownAll(w, out), StreamGuard.Returns);
  }

  /** And whatever the adapter does, what is handed out is one legal sequence and nothing is thrown. */
  lemma InferIsLegal<S>(
    d: Inference.Decoder<S>, c: StreamGuard.Schemas, w: Wording,
    events: seq<Inference.Incoming>, ending: Inference.Ending)
    ensures StreamGuard.Legal(Infer(d, c, w, events, ending).events)
    ensures Infer(d, c, w, events, ending).ending == StreamGuard.Returns
  {
    StreamGuard.GuardedIsLegal(c, ShownAll(w, Inference.Emitted(d, events, ending)), StreamGuard.Returns);
  }
}
