/** What the guard keeps of a source, and what it may say in its place. */
module GuardLaws {
  import opened Wrappers
  import opened StreamGuard

  // ----- One error --------------------------------------------------------------------------

  /** Failures that lift by themselves; whether one may be repeated again only its adapter knows. */
  const PASSING := {RATE_LIMIT, TIMEOUT, TRANSPORT}

  /**
   * A normalised error says nothing its adapter did not: it may be retried only if both the adapter and
   * its kind allow it, names a wait only then, and its message is a beginning of the adapter's.
   */
  lemma NormalizedSaysNoMore(c: Schemas, e: ErrorReport)
    ensures
      var n := NormalizeError(c, e);
      && n.code == e.code
      && n.reason == (if e.code == ABORTED then "aborted" else e.reason)
      && (n.retryable <==> e.retryable && e.code in PASSING)
      && n.retryAfterMs == (if n.retryable then e.retryAfterMs else None)
      && n.message <= e.message && |n.message| <= 512 && (n.message != e.message ==> |n.message| == 512)
      && n.requestId == (if e.requestId == Some("") then None else e.requestId)
      && (n.response == e.response || (n.response.None? && !c.response(e.response.value)))
      && (n.response.Some? ==> c.response(n.response.value))
      && (n.timing == e.timing || (n.timing.None? && !c.timing(e.timing.value)))
      && (n.timing.Some? ==> c.timing(n.timing.value))
  {
  }

  /** The hint offers a retry for just the same kinds, after these many milliseconds. */
  lemma HintTable(code: ErrorCode)
    ensures RetryHint(code).0 <==> code in PASSING
    ensures RetryHint(RATE_LIMIT).1 == 1000 && RetryHint(TIMEOUT).1 == 2000 && RetryHint(TRANSPORT).1 == 500
    ensures code !in PASSING ==> RetryHint(code).1 == 0
  {
  }

  // ----- What is kept -----------------------------------------------------------------------

  ghost predicate OpeningOrNone(events: seq<Event>) {
    events == [] || Opening(events, false) || Opening(events, true)
  }

  /** The first `k` events are the longest beginning that is one of a legal sequence before its end. */
  ghost predicate LongestOpening(events: seq<Event>, k: nat) {
    && k <= |events| && OpeningOrNone(events[..k])
    && (k < |events| ==> !OpeningOrNone(events[..k + 1]))
  }

  /** Events that settle a stream's outcome: after `sent` a second one or a terminal one, before it any. */
  predicate Decides(e: Event, k: nat) {
    k == 0 || e.Sent? || e.Error? || e.Finished?
  }

  /** The event at `j` is the first one from `k` on that settles the outcome. */
  ghost predicate FirstDecides(events: seq<Event>, k: nat, j: nat) {
    && k <= j < |events| && Decides(events[j], k)
    && forall i | k <= i < j :: !Decides(events[i], k)
  }

  predicate Complaint(e: Event) {
    e.Error? && e == Fail(e.report.message)
  }

  /**
   * The outcome: the source's own error, or its own `done` where that completes a legal sequence; a
   * complaint of the guard otherwise.
   */
  ghost predicate Outcome(c: Schemas, events: seq<Event>, k: nat, e: Event) {
    if exists j: nat :: FirstDecides(events, k, j) then
      var j: nat :| FirstDecides(events, k, j);
      if events[j].Error? || (events[j].Finished? && j == k && k > 0 && Opening(events[..k], true))
      then e == Normalized(c, events[j])
      else Complaint(e)
    else Complaint(e)
  }

  /** Where the guard stands after these events, in terms of the events alone. */
  ghost predicate Standing(c: Schemas, events: seq<Event>, g: State, out: seq<Event>, k: nat) {
    && LongestOpening(events, k)
    && (k > 0 ==> events[0].Sent?)
    && if g.terminal then
         && |out| == k + 1 && out[..k] == events[..k]
         && (exists j: nat :: FirstDecides(events, k, j)) && Outcome(c, events, k, out[k])
       else
         && out == events[..k] && (g.seenSent <==> k > 0)
         && (forall i | k <= i < |events| :: !Decides(events[i], k))
         && (k > 0 ==> Opening(events[..k], g.seenUsage))
         && (g.pending.Some? <==> k < |events|) && (g.pending.Some? ==> g.seenUsage)
  }

  lemma OneOpening(events: seq<Event>)
    requires Opening(events, true)
    ensures !Opening(events, false)
  {
    assert events[1..][|events| - 2] in events[1..];
  }

  /** What may follow an opening for it to stay one. */
  lemma OpeningGrows(events: seq<Event>, e: Event)
    requires events == [] || Opening(events, false) || Opening(events, true)
    ensures OpeningOrNone(events + [e]) <==>
            if events == [] then e.Sent? else Opening(events, false) && (e.Content? || e.Usage?)
    ensures events != [] && Opening(events, false) && e.Content? ==> Opening(events + [e], false)
    ensures events != [] && Opening(events, false) && e.Usage? ==> Opening(events + [e], true)
    ensures events == [] && e.Sent? ==> Opening(events + [e], false)
  {
    var all := events + [e];
    if events != [] {
      assert all[1..] == events[1..] + [e] && all[1..|all| - 1] == events[1..];
      if Opening(events, true) { OneOpening(events); }
      if Opening(all, false) { assert all[1..][|all| - 2] in all[1..]; }
      if Opening(events, true) { assert events[1..][|events| - 2] == events[|events| - 1]; }
    }
  }

  lemma {:induction false} WalkStands(c: Schemas, events: seq<Event>) returns (k: nat)
    ensures Standing(c, events, Walk(c, events).0, Walk(c, events).1, k)
    decreases |events|
  {
    if events == [] {
      k := 0;
    } else {
      var n := |events| - 1;
      k := WalkStands(c, events[..n]);
      k := StepStands(c, events[..n], events[n], k);
      assert events[..n] + [events[n]] == events;
    }
  }

  lemma StepStands(c: Schemas, events: seq<Event>, e: Event, k: nat) returns (k': nat)
    requires Standing(c, events, Walk(c, events).0, Walk(c, events).1, k)
    ensures Standing(c, events + [e], Walk(c, events + [e]).0, Walk(c, events + [e]).1, k')
  {
    var (g, out) := Walk(c, events);
    var all := events + [e];
    assert all[..|events|] == events;
    assert Walk(c, all) == (Step(c, g, e).0, out + Step(c, g, e).1);
    assert all[..k] == events[..k];
    k' := k;
    if g.terminal {
      StaysDecided(c, events, e, k, out[k]);
      assert out + [] == out && (k < |events| ==> all[..k + 1] == events[..k + 1]);
      FirstIsUnique(events, k);
    } else {
      OpeningGrows(events[..k], e);
      if k == |events| && (if k == 0 then e.Sent? else !g.seenUsage && (e.Content? || e.Usage?)) {
        k' := k + 1;
        assert all[..k + 1] == all;
      } else {
        Undecided(c, events, e, k, g, out);
      }
    }
  }

  lemma FirstIsUnique(events: seq<Event>, k: nat)
    ensures forall i, j | FirstDecides(events, k, i) && FirstDecides(events, k, j) :: i == j
  {
  }

  lemma StaysDecided(c: Schemas, events: seq<Event>, e: Event, k: nat, outcome: Event)
    requires k <= |events| && (exists j: nat :: FirstDecides(events, k, j)) && Outcome(c, events, k, outcome)
    ensures (exists j: nat :: FirstDecides(events + [e], k, j)) && Outcome(c, events + [e], k, outcome)
  {
    var all := events + [e];
    var j: nat :| FirstDecides(events, k, j);
    assert FirstDecides(all, k, j);
    FirstIsUnique(events, k);
    FirstIsUnique(all, k);
    assert all[..k] == events[..k];
  }

  lemma Undecided(c: Schemas, events: seq<Event>, e: Event, k: nat, g: State, out: seq<Event>)
    requires Standing(c, events, g, out, k) && !g.terminal
    requires !(k == |events| && (if k == 0 then e.Sent? else !g.seenUsage && (e.Content? || e.Usage?)))
    ensures Standing(c, events + [e], Step(c, g, e).0, out + Step(c, g, e).1, k)
  {
    StaysLongest(events, e, k, g.seenUsage);
    if Decides(e, k) { Decided(c, events, e, k, g, out); } else { StillUndecided(c, events, e, k, g, out); }
  }

  lemma StaysLongest(events: seq<Event>, e: Event, k: nat, usage: bool)
    requires LongestOpening(events, k) && (k > 0 ==> Opening(events[..k], usage))
    requires !(k == |events| && (if k == 0 then e.Sent? else !usage && (e.Content? || e.Usage?)))
    ensures LongestOpening(events + [e], k) && (events + [e])[..k] == events[..k]
  {
    var all := events + [e];
    OpeningGrows(events[..k], e);
    assert all[..k] == events[..k];
    if k < |events| { assert all[..k + 1] == events[..k + 1]; } else { assert all[..k + 1] == events[..k] + [e]; }
    if k > 0 && usage { OneOpening(events[..k]); }
  }

  lemma Decided(c: Schemas, events: seq<Event>, e: Event, k: nat, g: State, out: seq<Event>)
    requires Standing(c, events, g, out, k) && !g.terminal && Decides(e, k) && LongestOpening(events + [e], k)
    requires k == 0 ==> !e.Sent?
    ensures Standing(c, events + [e], Step(c, g, e).0, out + Step(c, g, e).1, k)
  {
    var all := events + [e];
    assert FirstDecides(all, k, |events|);
    FirstIsUnique(all, k);
    assert all[..k] == events[..k] && (out + Step(c, g, e).1)[..k] == out;
    if k > 0 && Opening(events[..k], true) { OneOpening(events[..k]); }
    assert Outcome(c, all, k, Step(c, g, e).1[0]);
  }

  lemma StillUndecided(c: Schemas, events: seq<Event>, e: Event, k: nat, g: State, out: seq<Event>)
    requires Standing(c, events, g, out, k) && !g.terminal && !Decides(e, k) && LongestOpening(events + [e], k)
    requires !(k == |events| && !g.seenUsage && (e.Content? || e.Usage?))
    ensures Standing(c, events + [e], Step(c, g, e).0, out + Step(c, g, e).1, k)
  {
    assert (events + [e])[..k] == events[..k] && out + [] == out;
  }

  /**
   * For every source the output is the longest opening of the source as it came, and one outcome; only a
   * throw of something that cannot be named leaves the outcome out.
   */
  lemma KeepsLongestOpening(c: Schemas, events: seq<Event>, ending: Ending) returns (k: nat)
    ensures LongestOpening(events, k)
    ensures Escapes(c, events, ending) ==> Guarded(c, events, ending) == events[..k]
    ensures !Escapes(c, events, ending) ==>
              var out := Guarded(c, events, ending);
              |out| == k + 1 && out[..k] == events[..k] && Outcome(c, events, k, out[k])
  {
    k := WalkStands(c, events);
    var (g, out) := Walk(c, events);
    assert out + [] == out;
  }
}
