/** What the facade passes on of an adapter's reports, and how its stream ends. */
module InferenceLaws {
  import opened Wrappers
  import opened Inference

  /** The emitted event is this report: the same content, whatever number a call gets. */
  predicate Carries(ev: Incoming, e: Outgoing) {
    match ev
    case Delta(_, _) => false
    case ToolCallEnd(call) => e.Call? && e.native && e.text == call
    case ToolCallDelta(text) => e == CallDelta(text)
    case UsageReport(tokens) => e == Usage(tokens)
    case DoneReport(result) => e == Finished(result)
    case ErrorReport(code) => e == Failed(code)
    case Passing(kind, payload) => e == Passed(kind, payload)
  }

  /** The reports that are not prose. */
  function Reports(events: seq<Incoming>): seq<Incoming> {
    if events == [] then []
    else
      var n := |events| - 1;
      Reports(events[..n]) + if events[n].Delta? then [] else [events[n]]
  }

  /** The emitted events that are neither `sent` nor read out of prose. */
  function PassedOn(out: seq<Outgoing>): seq<Outgoing> {
    if out == [] then []
    else
      var n := |out| - 1;
      PassedOn(out[..n]) + if out[n].Sent? || FromChain(out[n]) then [] else [out[n]]
  }

  ghost predicate CarriesAll(ins: seq<Incoming>, outs: seq<Outgoing>) {
    |ins| == |outs| && forall i | 0 <= i < |ins| :: Carries(ins[i], outs[i])
  }

  lemma {:induction false} PassedConcat(a: seq<Outgoing>, b: seq<Outgoing>)
    ensures PassedOn(a + b) == PassedOn(a) + PassedOn(b)
    decreases |b|
  {
    if b == [] {
      assert a + b == a;
    } else {
      var n := |b| - 1;
      assert (a + b)[..|a| + n] == a + b[..n];
      PassedConcat(a, b[..n]);
    }
  }

  lemma {:induction false} QuietPassesNothing(out: seq<Outgoing>)
    requires forall e | e in out :: e.Sent? || FromChain(e)
    ensures PassedOn(out) == []
    decreases |out|
  {
    if out != [] { QuietPassesNothing(out[..|out| - 1]); }
  }

  lemma OnePassed(e: Outgoing)
    requires !e.Sent? && !FromChain(e)
    ensures PassedOn([e]) == [e]
  {
    assert [e][..0] == [];
  }

  /** What a step passes on: its report, but for a `done`, which waits for the end. */
  lemma StepPasses<S(!new)>(d: Decoder<S>, st: Stream<S>, ev: Incoming)
    requires Lawful(d) && !st.terminal
    ensures
      var passed := PassedOn(Step(d, st, ev).1);
      if ev.Delta? || ev.DoneReport? then passed == [] else |passed| == 1 && Carries(ev, passed[0])
  {
    var r := Chain(d, st, ev);
    ChainIsLawful(d, st, ev);
    LeadAndProse(Lead(st), r.events);
    PassedConcat(Lead(st) + r.events, Own(ev, r.next));
    OwnPasses(ev, r.next);
    assert [] + PassedOn(Own(ev, r.next)) == PassedOn(Own(ev, r.next));
  }

  lemma OwnPasses(ev: Incoming, n: nat)
    ensures
      var passed := PassedOn(Own(ev, n));
      if ev.Delta? || ev.DoneReport? then passed == [] else |passed| == 1 && Carries(ev, passed[0])
  {
    var own := Own(ev, n);
    if own != [] {
      assert own == [own[0]];
      OnePassed(own[0]);
    }
  }

  lemma LeadAndProse(lead: seq<Outgoing>, prose: seq<Outgoing>)
    requires (forall e | e in lead :: e.Sent?) && forall e | e in prose :: FromChain(e)
    ensures PassedOn(lead + prose) == []
  {
    QuietPassesNothing(lead + prose);
  }

  /** After some reports: all of them have been passed on, but for a `done` that was read last. */
  ghost predicate HasPassedOn<S>(st: Stream<S>, ins: seq<Incoming>, out: seq<Outgoing>) {
    var passed := PassedOn(out);
    if st.terminal && st.outcome.Some? then
      ins != [] && ins[|ins| - 1] == DoneReport(st.outcome.value) && CarriesAll(ins[..|ins| - 1], passed)
    else
      && st.outcome.None? && CarriesAll(ins, passed)
      && (st.terminal ==> ins != [] && ins[|ins| - 1].ErrorReport?)
  }

  lemma {:induction false} WalkPasses<S(!new)>(d: Decoder<S>, events: seq<Incoming>)
    requires Lawful(d)
    ensures
      var (st, out) := Walk(d, events);
      HasPassedOn(st, Reports(ReadPart(d, events)), out) && (!st.terminal ==> ReadPart(d, events) == events)
    decreases |events|
  {
    if events != [] {
      var n := |events| - 1;
      WalkPasses(d, events[..n]);
      var (st, out) := Walk(d, events[..n]);
      if st.terminal {
        assert out + [] == out;
      } else {
        StepPasses(d, st, events[n]);
        OneMoreReport(st, Step(d, st, events[n]).0, Reports(events[..n]), out, events[n], Step(d, st, events[n]).1);
      }
    }
  }

  lemma OneMoreReport<S>(
    st: Stream<S>, st': Stream<S>, ins: seq<Incoming>, out: seq<Outgoing>, ev: Incoming, more: seq<Outgoing>)
    requires HasPassedOn(st, ins, out) && !st.terminal
    requires st'.terminal == (ev.DoneReport? || ev.ErrorReport?)
    requires st'.outcome == if ev.DoneReport? then Some(ev.result) else st.outcome
    requires
      var passed := PassedOn(more);
      if ev.Delta? || ev.DoneReport? then passed == [] else |passed| == 1 && Carries(ev, passed[0])
    ensures HasPassedOn(st', ins + (if ev.Delta? then [] else [ev]), out + more)
  {
    PassedConcat(out, more);
    assert (ins + [ev])[..|ins|] == ins && ins + [] == ins && PassedOn(out) + [] == PassedOn(out);
  }

  /** The events that end the stream. */
  lemma ClosingPasses<S(!new)>(d: Decoder<S>, st: Stream<S>, ending: Ending)
    requires Lawful(d)
    ensures PassedOn(Closing(d, st, ending)) ==
            if st.terminal then (if st.outcome.Some? then [Finished(st.outcome.value)] else [])
            else [Failed(if ending == Throws(true) then "ABORTED" else "TRANSPORT")]
  {
    var close := Closing(d, st, ending);
    if st.terminal {
      if close != [] { OnePassed(close[0]); }
    } else {
      DrainedIsLawful(d, st, ending);
      FailurePasses(Lead(st), Drained(d, st, ending).events, if ending == Throws(true) then "ABORTED" else "TRANSPORT");
    }
  }

  lemma FailurePasses(lead: seq<Outgoing>, prose: seq<Outgoing>, code: string)
    requires (forall e | e in lead :: e.Sent?) && forall e | e in prose :: FromChain(e)
    ensures PassedOn(lead + prose + [Failed(code)]) == [Failed(code)]
  {
    LeadAndProse(lead, prose);
    OnePassed(Failed(code));
    PassedConcat(lead + prose, [Failed(code)]);
  }

  /**
   * Over the whole stream: every report but prose, up to the first terminal one, is passed on once and in
   * order. If the adapter gave no terminal one, a failure follows: as aborted if it threw when aborted,
   * as a transport failure otherwise.
   */
  lemma ReportsPassOn<S(!new)>(d: Decoder<S>, events: seq<Incoming>, ending: Ending)
    requires Lawful(d)
    ensures
      var ins, outs := Reports(ReadPart(d, events)), PassedOn(Emitted(d, events, ending));
      if exists ev :: ev in ins && (ev.DoneReport? || ev.ErrorReport?) then CarriesAll(ins, outs)
      else
        && |outs| == |ins| + 1 && CarriesAll(ins, outs[..|ins|])
        && outs[|ins|] == Failed(if ending == Throws(true) then "ABORTED" else "TRANSPORT")
  {
    var (st, out) := Walk(d, events);
    var ins := Reports(ReadPart(d, events));
    WalkPasses(d, events);
    ClosingPasses(d, st, ending);
    PassedConcat(out, Closing(d, st, ending));
    TerminalIsLast(d, events);
    EndsWell(st, ins, PassedOn(out), PassedOn(Closing(d, st, ending)), ending);
  }

  lemma EndsWell<S>(st: Stream<S>, ins: seq<Incoming>, passed: seq<Outgoing>, close: seq<Outgoing>, ending: Ending)
    requires if st.terminal && st.outcome.Some?
             then ins != [] && ins[|ins| - 1] == DoneReport(st.outcome.value) && CarriesAll(ins[..|ins| - 1], passed)
             else CarriesAll(ins, passed) && (st.terminal ==> ins != [] && ins[|ins| - 1].ErrorReport?)
    requires close == if st.terminal then (if st.outcome.Some? then [Finished(st.outcome.value)] else [])
                      else [Failed(if ending == Throws(true) then "ABORTED" else "TRANSPORT")]
    requires !st.terminal ==> forall ev | ev in ins :: !ev.DoneReport? && !ev.ErrorReport?
    ensures
      var outs := passed + close;
      if exists ev :: ev in ins && (ev.DoneReport? || ev.ErrorReport?) then CarriesAll(ins, outs)
      else
        && |outs| == |ins| + 1 && CarriesAll(ins, outs[..|ins|])
        && outs[|ins|] == Failed(if ending == Throws(true) then "ABORTED" else "TRANSPORT")
  {
    if st.terminal { assert ins[|ins| - 1] in ins; } else { assert (passed + close)[..|ins|] == passed; }
  }

  /** No terminal report is among those read while the stream is open. */
  lemma {:induction false} TerminalIsLast<S>(d: Decoder<S>, events: seq<Incoming>)
    ensures !Walk(d, events).0.terminal ==>
              forall ev | ev in Reports(events) :: !ev.DoneReport? && !ev.ErrorReport?
    ensures !Walk(d, events).0.terminal ==> ReadPart(d, events) == events
    decreases |events|
  {
    if events != [] { TerminalIsLast(d, events[..|events| - 1]); }
  }
}
