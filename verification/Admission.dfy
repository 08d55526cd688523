/** How many automatic triggers a policy lets through: greedy admission, and why it is the best possible. */
module Admission {
  import opened Wrappers

  /** A moment at which a trigger would have fired, and the turns its session had completed by then. */
  datatype Candidate = Candidate(ms: int, turnsDone: int)

  /** The limits of a policy. An absent limit does not apply. */
  datatype Policy = Policy(minTurns: Option<nat>, cooldownMs: nat, perHour: Option<nat>, perSession: Option<nat>)

  const HOUR_MS := 3_600_000

  const AGH := Policy(Some(5), 120_000, Some(4), Some(10))
  const PRIME := Policy(None, 1_200_000, None, None)

  // ----- Greedy choice ----------------------------------------------------------------------

  /** The candidates later than a moment. */
  function Recent(allowed: seq<Candidate>, ms: int): nat {
    if allowed == [] then 0
    else
      var n := |allowed| - 1;
      Recent(allowed[..n], ms) + if allowed[n].ms > ms then 1 else 0
  }

  /** Whether a policy lets a candidate through after those it already has. */
  predicate Fits(p: Policy, allowed: seq<Candidate>, c: Candidate) {
    && (p.perSession.Some? ==> |allowed| < p.perSession.value)
    && (allowed != [] ==>
          var last := allowed[|allowed| - 1];
          && (p.minTurns.Some? ==> c.turnsDone - last.turnsDone >= p.minTurns.value)
          && c.ms - last.ms >= p.cooldownMs)
    && (p.perHour.Some? ==> Recent(allowed, c.ms - HOUR_MS) < p.perHour.value)
  }

  /** The positions a greedy pass picks. */
  function Greedy(p: Policy, cs: seq<Candidate>): (picks: seq<nat>)
    ensures Picks(picks, |cs|)
  {
    if cs == [] then []
    else
      var n := |cs| - 1;
      var before := Greedy(p, cs[..n]);
      if Fits(p, At(cs, before), cs[n]) then before + [n] else before
  }

  /** Increasing positions below a length. */
  predicate Picks(picks: seq<nat>, length: nat) {
    && (forall k :: 0 <= k < |picks| ==> picks[k] < length)
    && (forall j, k :: 0 <= j < k < |picks| ==> picks[j] < picks[k])
  }

  function At(cs: seq<Candidate>, picks: seq<nat>): (chosen: seq<Candidate>)
    requires Picks(picks, |cs|)
    ensures |chosen| == |picks|
    ensures forall k :: 0 <= k < |picks| ==> chosen[k] == cs[picks[k]]
  {
    seq(|picks|, k requires 0 <= k < |picks| => cs[picks[k]])
  }

  lemma AtPrefix(cs: seq<Candidate>, n: nat, picks: seq<nat>)
    requires n <= |cs| && Picks(picks, n)
    ensures At(cs[..n], picks) == At(cs, picks)
  {
  }

  /** One more candidate. */
  lemma GreedyStep(p: Policy, cs: seq<Candidate>, i: nat)
    requires i < |cs|
    ensures
      var before, after := Greedy(p, cs[..i]), Greedy(p, cs[..i + 1]);
      if Fits(p, At(cs, before), cs[i]) then after == before + [i] && At(cs, after) == At(cs, before) + [cs[i]]
      else after == before
  {
    assert cs[..i + 1][..i] == cs[..i];
    AtPrefix(cs, i, Greedy(p, cs[..i]));
    AtPrefix(cs, i + 1, Greedy(p, cs[..i]));
  }

  /** The candidates a greedy pass lets through. */
  function Admitted(p: Policy, cs: seq<Candidate>): seq<Candidate> {
    if cs == [] then []
    else
      var n := |cs| - 1;
      var before := Admitted(p, cs[..n]);
      if Fits(p, before, cs[n]) then before + [cs[n]] else before
  }

  lemma {:induction false} AdmittedIsGreedy(p: Policy, cs: seq<Candidate>)
    ensures Admitted(p, cs) == At(cs, Greedy(p, cs))
    decreases |cs|
  {
    if cs != [] {
      var n := |cs| - 1;
      AdmittedIsGreedy(p, cs[..n]);
      GreedyStep(p, cs, n);
      AtPrefix(cs, n, Greedy(p, cs[..n]));
      assert cs[..n + 1] == cs;
    }
  }

  lemma NextAdmitted(p: Policy, cs: seq<Candidate>, i: nat)
    requires i < |cs|
    ensures
      var before := Admitted(p, cs[..i]);
      Admitted(p, cs[..i + 1]) == if Fits(p, before, cs[i]) then before + [cs[i]] else before
  {
    assert cs[..i + 1][..i] == cs[..i];
  }

  lemma AghFits(allowed: seq<Candidate>, c: Candidate)
    requires |allowed| < 10
    ensures Fits(AGH, allowed, c) <==>
      && (allowed != [] ==> c.turnsDone - allowed[|allowed| - 1].turnsDone >= 5)
      && (allowed != [] ==> c.ms - allowed[|allowed| - 1].ms >= 120_000)
      && Recent(allowed, c.ms - HOUR_MS) < 4
  {
  }

  /** The pass with the four limits, stopping at the session's cap. */
  method AdmitAgh(candidates: seq<Candidate>) returns (admitted: nat)
    ensures admitted == |Admitted(AGH, candidates)|
  {
    var allowed: seq<Candidate> := [];
    var i := 0;
    while i < |candidates| && |allowed| < 10
      invariant 0 <= i <= |candidates|
      invariant allowed == Admitted(AGH, candidates[..i])
    {
      var c := candidates[i];
      NextAdmitted(AGH, candidates, i);
      AghFits(allowed, c);
      i := i + 1;
      if allowed != [] && c.turnsDone - allowed[|allowed| - 1].turnsDone < 5 { continue; }
      if allowed != [] && c.ms - allowed[|allowed| - 1].ms < 120_000 { continue; }
      if Recent(allowed, c.ms - HOUR_MS) >= 4 { continue; }
      allowed := allowed + [c];
    }
    StoppedAtEndOrCap(candidates, i);
    admitted := |allowed|;
  }

  lemma StoppedAtEndOrCap(candidates: seq<Candidate>, i: nat)
    requires i <= |candidates| && (i < |candidates| ==> |Admitted(AGH, candidates[..i])| >= 10)
    ensures Admitted(AGH, candidates[..i]) == Admitted(AGH, candidates)
  {
    if i == |candidates| {
      assert candidates[..i] == candidates;
    } else {
      FullStaysFull(AGH, candidates, i);
    }
  }

  /** Past the session's cap nothing more is picked. */
  lemma {:induction false} FullStaysFull(p: Policy, cs: seq<Candidate>, i: nat)
    requires i <= |cs|
    ensures p.perSession.Some? && |Admitted(p, cs[..i])| >= p.perSession.value
            ==> Admitted(p, cs) == Admitted(p, cs[..i])
    decreases |cs| - i
  {
    if i == |cs| {
      assert cs[..i] == cs;
    } else {
      assert cs[..i + 1][..i] == cs[..i];
      FullStaysFull(p, cs, i + 1);
    }
  }

  /** The pass with a single cooldown. */
  method AdmitPrime(candidates: seq<Candidate>) returns (allowed: nat)
    ensures allowed == |Admitted(PRIME, candidates)|
  {
    allowed := 0;
    var lastMs: Option<int> := None; // nothing admitted yet
    ghost var chosen: seq<Candidate> := [];
    for i := 0 to |candidates|
      invariant chosen == Admitted(PRIME, candidates[..i]) && |chosen| == allowed
      invariant lastMs == if chosen == [] then None else Some(chosen[|chosen| - 1].ms)
    {
      var c := candidates[i];
      NextAdmitted(PRIME, candidates, i);
      assert Fits(PRIME, chosen, c) <==> lastMs.None? || c.ms - lastMs.value >= 1_200_000;
      if lastMs.Some? && c.ms - lastMs.value < 1_200_000 { continue; }
      chosen := chosen + [c];
      allowed := allowed + 1;
      lastMs := Some(c.ms);
    }
    assert candidates[..|candidates|] == candidates;
  }

  // ----- What the limits mean ---------------------------------------------------------------

  predicate Ordered(cs: seq<Candidate>) {
    forall j, k :: 0 <= j < k < |cs| ==> cs[j].ms <= cs[k].ms && cs[j].turnsDone <= cs[k].turnsDone
  }

  /** The limits on a whole sequence: gaps between neighbours, no crowded hour, no crowded session. */
  predicate Admissible(p: Policy, chosen: seq<Candidate>) {
    && (p.perSession.Some? ==> |chosen| <= p.perSession.value)
    && (forall k :: 0 < k < |chosen| ==>
          && (p.minTurns.Some? ==> chosen[k].turnsDone - chosen[k - 1].turnsDone >= p.minTurns.value)
          && chosen[k].ms - chosen[k - 1].ms >= p.cooldownMs)
    && (p.perHour.Some? ==> forall k :: p.perHour.value <= k < |chosen| ==>
          chosen[k].ms - chosen[k - p.perHour.value].ms >= HOUR_MS)
  }

  /** In time order, the candidates later than a moment are the last ones. */
  lemma {:induction false} RecentAreLast(allowed: seq<Candidate>, ms: int, k: nat)
    requires Ordered(allowed) && k > 0
    ensures Recent(allowed, ms) < k <==> |allowed| < k || allowed[|allowed| - k].ms <= ms
    decreases |allowed|
  {
    if allowed != [] {
      var n := |allowed| - 1;
      if k > 1 { RecentAreLast(allowed[..n], ms, k - 1); }
      if allowed[n].ms <= ms { NoneRecent(allowed, ms); }
    }
  }

  lemma {:induction false} NoneRecent(allowed: seq<Candidate>, ms: int)
    requires forall k :: 0 <= k < |allowed| ==> allowed[k].ms <= ms
    ensures Recent(allowed, ms) == 0
    decreases |allowed|
  {
    if allowed != [] { NoneRecent(allowed[..|allowed| - 1], ms); }
  }

  /** Whether the next candidate fits, in terms of the last pick and the pick one hour's quota back. */
  lemma FitsByPositions(p: Policy, allowed: seq<Candidate>, c: Candidate)
    requires Ordered(allowed) && (p.perHour.Some? ==> p.perHour.value > 0)
    ensures Fits(p, allowed, c) <==>
      && (p.perSession.Some? ==> |allowed| < p.perSession.value)
      && (allowed != [] ==>
            && (p.minTurns.Some? ==> c.turnsDone - allowed[|allowed| - 1].turnsDone >= p.minTurns.value)
            && c.ms - allowed[|allowed| - 1].ms >= p.cooldownMs)
      && (p.perHour.Some? && |allowed| >= p.perHour.value ==>
            c.ms - allowed[|allowed| - p.perHour.value].ms >= HOUR_MS)
  {
    if p.perHour.Some? { RecentAreLast(allowed, c.ms - HOUR_MS, p.perHour.value); }
  }

  predicate Sensible(p: Policy) {
    p.perHour.Some? ==> p.perHour.value > 0
  }

  lemma Extends(p: Policy, allowed: seq<Candidate>, c: Candidate)
    requires Sensible(p) && Ordered(allowed) && Admissible(p, allowed) && Fits(p, allowed, c)
    ensures Admissible(p, allowed + [c])
  {
    FitsByPositions(p, allowed, c);
  }

  /** The greedy pass keeps every limit. */
  lemma {:induction false} GreedyIsAdmissible(p: Policy, cs: seq<Candidate>)
    requires Sensible(p) && Ordered(cs)
    ensures Admissible(p, At(cs, Greedy(p, cs)))
    decreases |cs|
  {
    if cs != [] {
      var n := |cs| - 1;
      var before := Greedy(p, cs[..n]);
      GreedyIsAdmissible(p, cs[..n]);
      AtPrefix(cs, n, before);
      GreedyStep(p, cs, n);
      assert cs[..n + 1] == cs;
      if Fits(p, At(cs, before), cs[n]) { Extends(p, At(cs, before), cs[n]); }
    }
  }

  lemma PicksBelowLast(picks: seq<nat>, length: nat)
    requires picks != [] && Picks(picks, length)
    ensures var last := picks[|picks| - 1]; Picks(picks, last + 1) && Picks(picks[..|picks| - 1], last)
  {
  }

  lemma PicksWithin(picks: seq<nat>, length: nat, wider: nat)
    requires Picks(picks, length) && length <= wider
    ensures Picks(picks, wider)
  {
  }

  lemma AtTake(cs: seq<Candidate>, picks: seq<nat>, m: nat)
    requires Picks(picks, |cs|) && m <= |picks|
    ensures Picks(picks[..m], |cs|) && At(cs, picks[..m]) == At(cs, picks)[..m]
  {
  }

  lemma AdmissibleTake(p: Policy, chosen: seq<Candidate>, m: nat)
    requires Admissible(p, chosen) && m <= |chosen|
    ensures Admissible(p, chosen[..m])
  {
  }

  /** Greedy stays ahead: its k-th pick comes no later than the k-th of any other admissible choice. */
  lemma {:induction false} GreedyStaysAhead(p: Policy, cs: seq<Candidate>, other: seq<nat>)
    requires Sensible(p) && Ordered(cs)
    requires Picks(other, |cs|) && Admissible(p, At(cs, other))
    ensures Ahead(Greedy(p, cs), other)
    decreases |cs|
  {
    if other != [] {
      var n, m := |cs| - 1, |other| - 1;
      PicksBelowLast(other, |cs|);
      if other[m] < n {
        PicksWithin(other, other[m] + 1, n);
        AtPrefix(cs, n, other);
        GreedyStaysAhead(p, cs[..n], other);
        GreedyStep(p, cs, n);
        assert cs[..n + 1] == cs;
        AheadExtends(Greedy(p, cs[..n]), Greedy(p, cs), other);
      } else {
        AtPrefix(cs, n, other[..m]);
        AtTake(cs, other, m);
        AdmissibleTake(p, At(cs, other), m);
        GreedyStaysAhead(p, cs[..n], other[..m]);
        AheadAtLast(p, cs, other);
      }
    }
  }

  lemma AheadAtLast(p: Policy, cs: seq<Candidate>, other: seq<nat>)
    requires Sensible(p) && Ordered(cs)
    requires Picks(other, |cs|) && Admissible(p, At(cs, other))
    requires other != [] && other[|other| - 1] == |cs| - 1
    requires Ahead(Greedy(p, cs[..|cs| - 1]), other[..|other| - 1])
    ensures Ahead(Greedy(p, cs), other)
  {
    var n := |cs| - 1;
    var before, g := Greedy(p, cs[..n]), Greedy(p, cs);
    GreedyStep(p, cs, n);
    assert cs[..n + 1] == cs;
    assert g == before || g == before + [n];
    PicksWithin(before, n, |cs|);
    if |before| == |other| - 1 { NextFits(p, cs, before, other); }
    AheadAtEnd(before, g, other);
  }

  /** At least as many picks, each no later. */
  ghost predicate Ahead(picks: seq<nat>, other: seq<nat>) {
    |other| <= |picks| && forall k :: 0 <= k < |other| ==> picks[k] <= other[k]
  }

  lemma AheadExtends(before: seq<nat>, picks: seq<nat>, other: seq<nat>)
    requires Ahead(before, other) && before <= picks
    ensures Ahead(picks, other)
  {
  }

  lemma AheadAtEnd(before: seq<nat>, picks: seq<nat>, other: seq<nat>)
    requires other != [] && Ahead(before, other[..|other| - 1])
    requires Picks(before, other[|other| - 1])
    requires before <= picks && (|before| == |other| - 1 ==> picks == before + [other[|other| - 1]])
    ensures Ahead(picks, other)
  {
    var m := |other| - 1;
    assert forall k :: 0 <= k < m ==> other[..m][k] == other[k];
  }

  /** If a choice's last pick fits after its own, it fits after picks made earlier. */
  lemma NextFits(p: Policy, cs: seq<Candidate>, before: seq<nat>, other: seq<nat>)
    requires Sensible(p) && Ordered(cs) && Picks(other, |cs|) && Admissible(p, At(cs, other))
    requires |other| > 0 && |before| == |other| - 1 && Picks(before, |cs|)
    requires Ahead(before, other[..|other| - 1])
    ensures Fits(p, At(cs, before), cs[other[|before|]])
  {
    var m := |before|;
    EarlierPicks(cs, before, other);
    FitsByPositions(p, At(cs, before), At(cs, other)[m]);
  }

  lemma EarlierPicks(cs: seq<Candidate>, before: seq<nat>, other: seq<nat>)
    requires Ordered(cs) && Picks(other, |cs|) && |other| > 0 && |before| == |other| - 1 && Picks(before, |cs|)
    requires Ahead(before, other[..|other| - 1])
    ensures
      var allowed, chosen := At(cs, before), At(cs, other);
      && Ordered(allowed)
      && forall k | 0 <= k < |before| ::
           allowed[k].ms <= chosen[k].ms && allowed[k].turnsDone <= chosen[k].turnsDone
  {
    assert forall k | 0 <= k < |before| :: other[..|other| - 1][k] == other[k];
  }

  /** No admissible choice of candidates is longer than what the greedy pass lets through. */
  lemma GreedyIsOptimal(p: Policy, cs: seq<Candidate>)
    requires Sensible(p) && Ordered(cs)
    ensures Admissible(p, Admitted(p, cs))
    ensures forall other: seq<nat> | Picks(other, |cs|) && Admissible(p, At(cs, other)) ::
              |other| <= |Admitted(p, cs)|
  {
    AdmittedIsGreedy(p, cs);
    GreedyIsAdmissible(p, cs);
    forall other: seq<nat> | Picks(other, |cs|) && Admissible(p, At(cs, other))
      ensures |other| <= |Greedy(p, cs)|
    {
      GreedyStaysAhead(p, cs, other);
    }
  }

  /** What the four limits let through: two minutes and five turns apart, four an hour, ten a session. */
  lemma AghLetsThrough(cs: seq<Candidate>)
    requires Ordered(cs)
    ensures
      var chosen := Admitted(AGH, cs);
      && |chosen| <= 10
      && (forall k | 0 < k < |chosen| ::
            chosen[k].ms - chosen[k - 1].ms >= 2 * 60 * 1000 && chosen[k].turnsDone - chosen[k - 1].turnsDone >= 5)
      && forall k | 4 <= k < |chosen| :: chosen[k].ms - chosen[k - 4].ms >= 60 * 60 * 1000
  {
    GreedyIsOptimal(AGH, cs);
  }

  /** The single cooldown: twenty minutes apart, and nothing else. */
  lemma PrimeLetsThrough(cs: seq<Candidate>, other: seq<nat>)
    requires Ordered(cs)
    ensures
      var chosen := Admitted(PRIME, cs);
      forall k | 0 < k < |chosen| :: chosen[k].ms - chosen[k - 1].ms >= 20 * 60 * 1000
    ensures
      Picks(other, |cs|) && (forall k | 0 < k < |other| :: cs[other[k]].ms - cs[other[k - 1]].ms >= 20 * 60 * 1000) ==>
        |other| <= |Admitted(PRIME, cs)|
  {
    GreedyIsOptimal(PRIME, cs);
    if Picks(other, |cs|) && forall k | 0 < k < |other| :: cs[other[k]].ms - cs[other[k - 1]].ms >= 20 * 60 * 1000 {
      assert Admissible(PRIME, At(cs, other));
    }
  }

  lemma LaterPairIsAdmissible(cs: seq<Candidate>)
    requires |cs| == 3 && cs[2].ms - cs[1].ms == 120_000 && cs[2].turnsDone - cs[1].turnsDone == 5
    ensures Picks([1, 2], 3) && Admissible(AGH, At(cs, [1, 2]))
  {
  }

  /** Out of time order the greedy pass can be beaten: one late clock reading blocks two later candidates. */
  lemma OptimalityNeedsOrder()
    ensures
      var cs := [Candidate(10_000_000, 0), Candidate(0, 5), Candidate(120_000, 10)];
      |Admitted(AGH, cs)| == 1 && Picks([1, 2], 3) && Admissible(AGH, At(cs, [1, 2]))
  {
    var cs := [Candidate(10_000_000, 0), Candidate(0, 5), Candidate(120_000, 10)];
    LaterPairIsAdmissible(cs);
    assert cs[..0] == [] && cs[..3] == cs;
    NextAdmitted(AGH, cs, 0);
    NextAdmitted(AGH, cs, 1);
    NextAdmitted(AGH, cs, 2);
  }
}
