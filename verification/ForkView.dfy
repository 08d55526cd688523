/** What a session of any fork depth sees: its ancestors' prefix, then its own events. */
module ForkView {
  import opened Wrappers
  import opened Store
  import opened LedgerSteps
  import opened LedgerRuns

  // ----- Reading rows -----------------------------------------------------------------------

  function SeqsOf(m: Table, s: string): set<nat> {
    set k | k in m && k.EventKey? && k.session == s && m[k].RowV? :: k.at
  }

  ghost function Least(ns: set<nat>): (least: nat)
    requires ns != {}
    ensures least in ns && forall n | n in ns :: least <= n
    decreases ns
  {
    var x :| x in ns;
    if ns == {x} then x
    else
      var other := Least(ns - {x});
      assert forall n | n in ns :: n == x || n in ns - {x};
      if other < x then other else x
  }

  /** The numbers in increasing order. */
  ghost function Sorted(ns: set<nat>): seq<nat>
    decreases ns
  {
    if ns == {} then [] else [Least(ns)] + Sorted(ns - {Least(ns)})
  }

  /** The rows of these numbers. */
  function RowsAt(m: Table, s: string, ns: seq<nat>): seq<Row> {
    if ns == [] then []
    else
      var rest := RowsAt(m, s, ns[1..]);
      match RowAt(m, s, ns[0])
      case Some(row) => [row] + rest
      case None => rest
  }

  predicate InRange(row: Row, from: Option<int>, to: Option<int>) {
    (from.Some? ==> row.at >= from.value) && (to.Some? ==> row.at <= to.value)
  }

  function Within(rows: seq<Row>, from: Option<int>, to: Option<int>): seq<Row> {
    if rows == [] then []
    else (if InRange(rows[0], from, to) then [rows[0]] else []) + Within(rows[1..], from, to)
  }

  /** The session's own rows in order, filtered, after what its parent shows up to the boundary. */
  ghost function Visible(m: Table, rank: map<string, nat>, s: string, from: Option<int>, to: Option<int>): seq<Row>
    requires ForksRanked(m, rank)
    decreases if s in rank then rank[s] else 0
  {
    var own := Within(RowsAt(m, s, Sorted(SeqsOf(m, s))), from, to);
    match ForkOf(m, s)
    case None => own
    case Some(f) =>
      var upTo := if to.Some? && to.value <= f.boundarySeq then to else Some(f.boundarySeq as int);
      Visible(m, rank, f.parent, from, upTo) + own
  }

  // ----- The view, number by number ---------------------------------------------------------

  /** The row a session sees under a number: its own above its base, its parent's at or below it. */
  function SeenAt(m: Table, rank: map<string, nat>, s: string, n: nat): Option<Row>
    requires ForksRanked(m, rank)
    decreases if s in rank then rank[s] else 0
  {
    match ForkOf(m, s)
    case Some(f) => if n > f.boundarySeq then RowAt(m, s, n) else SeenAt(m, rank, f.parent, n)
    case None => RowAt(m, s, n)
  }

  /** The rows are those seen at lo, lo+1, ... , hi, once each. */
  ghost predicate Shows(
    m: Table, rank: map<string, nat>, s: string, rows: seq<Row>, lo: int, hi: int)
    requires ForksRanked(m, rank)
  {
    && |rows| == (if lo <= hi then hi - lo + 1 else 0)
    && (lo <= hi ==> lo >= 0)
    && forall i | 0 <= i < |rows| :: rows[i].at == lo + i && SeenAt(m, rank, s, lo + i) == Some(rows[i])
  }

  /** Consecutive rows of one session. */
  ghost predicate Stretch(m: Table, s: string, rows: seq<Row>, lo: nat, hi: int) {
    && |rows| == (if lo <= hi then hi - lo + 1 else 0)
    && forall i | 0 <= i < |rows| :: rows[i].at == lo + i && RowAt(m, s, lo + i) == Some(rows[i])
  }

  lemma {:induction false} SortedRange(m: Table, s: string, ns: set<nat>, lo: nat, hi: int)
    requires forall n: nat :: n in ns <==> lo <= n <= hi
    requires forall n: nat | n in ns :: RowAt(m, s, n).Some? && RowAt(m, s, n).value.at == n
    ensures Stretch(m, s, RowsAt(m, s, Sorted(ns)), lo, hi)
    decreases ns
  {
    if ns == {} {
      assert lo !in ns;
    } else {
      var n := Least(ns);
      assert lo <= n <= hi && lo in ns;
      SortedRange(m, s, ns - {n}, lo + 1, hi);
      assert Sorted(ns)[1..] == Sorted(ns - {n});
    }
  }

  lemma {:induction false} WithinRun(
    m: Table, s: string, rows: seq<Row>, lo: nat, hi: int, from: Option<int>, to: Option<int>)
    requires Stretch(m, s, rows, lo, hi)
    ensures
      var first := if from.Some? && from.value > lo then from.value else lo;
      var last := if to.Some? && to.value < hi then to.value else hi;
      Stretch(m, s, Within(rows, from, to), first, last)
    decreases |rows|
  {
    if rows != [] {
      forall i | 0 <= i < |rows| - 1 ensures
        rows[1..][i].at == lo + 1 + i && RowAt(m, s, lo + 1 + i) == Some(rows[1..][i])
      {
        assert rows[1..][i] == rows[i + 1];
      }
      WithinRun(m, s, rows[1..], lo + 1, hi, from, to);
      assert rows[0].at == lo;
    }
  }

  lemma OwnRun(m: Table, rules: Rules, s: string, from: Option<int>, to: Option<int>)
    requires SessionSound(m, rules, s)
    ensures
      var own := Within(RowsAt(m, s, Sorted(SeqsOf(m, s))), from, to);
      var lo := if from.Some? && from.value > Base(m, s) + 1 then from.value else Base(m, s) + 1;
      var hi := if to.Some? && to.value < Last(m, s) then to.value else Last(m, s);
      Stretch(m, s, own, lo, hi)
  {
    forall n: nat ensures n in SeqsOf(m, s) <==> Base(m, s) + 1 <= n <= Last(m, s) {
      assert RowAt(m, s, n).Some? <==> EventKey(s, n) in m && m[EventKey(s, n)].RowV?;
    }
    SortedRange(m, s, SeqsOf(m, s), Base(m, s) + 1, Last(m, s));
    WithinRun(m, s, RowsAt(m, s, Sorted(SeqsOf(m, s))), Base(m, s) + 1, Last(m, s), from, to);
  }

  /**
   * The fork view. For any fork depth and any query range, a session shows each number of the range
   * within 1..last exactly once, in increasing order: its own event above its base, its parent's
   * event below, even where the boundary lies under the parent's own base.
   */
  lemma {:induction false} ForkViewIsComplete(
    m: Table, rules: Rules, rank: map<string, nat>, s: string, from: Option<int>, to: Option<int>)
    requires (forall t :: SessionSound(m, rules, t)) && ForksRanked(m, rank)
    ensures
      var lo := if from.Some? && from.value > 1 then from.value else 1;
      var hi := if to.Some? && to.value < Last(m, s) then to.value else Last(m, s);
      Shows(m, rank, s, Visible(m, rank, s, from, to), lo, hi)
    decreases if s in rank then rank[s] else 0
  {
    assert SessionSound(m, rules, s);
    OwnRun(m, rules, s, from, to);
    match ForkOf(m, s) {
      case None =>
      case Some(f) =>
        var upTo := if to.Some? && to.value <= f.boundarySeq then to else Some(f.boundarySeq as int);
        ForkViewIsComplete(m, rules, rank, f.parent, from, upTo);
        JoinViews(m, rank, s, f, from, to, Visible(m, rank, f.parent, from, upTo),
                  Within(RowsAt(m, s, Sorted(SeqsOf(m, s))), from, to));
    }
  }

  lemma JoinViews(
    m: Table, rank: map<string, nat>, s: string, f: Fork, from: Option<int>, to: Option<int>,
    prefix: seq<Row>, own: seq<Row>)
    requires ForksRanked(m, rank) && ForkOf(m, s) == Some(f) && f.boundarySeq <= Last(m, s)
    requires
      var lo := if from.Some? && from.value > 1 then from.value else 1;
      var hi := if to.Some? && to.value < f.boundarySeq then to.value else f.boundarySeq;
      Shows(m, rank, f.parent, prefix, lo, hi)
    requires
      var lo := if from.Some? && from.value > f.boundarySeq + 1 then from.value else f.boundarySeq + 1;
      var hi := if to.Some? && to.value < Last(m, s) then to.value else Last(m, s);
      Stretch(m, s, own, lo, hi)
    ensures
      var lo := if from.Some? && from.value > 1 then from.value else 1;
      var hi := if to.Some? && to.value < Last(m, s) then to.value else Last(m, s);
      Shows(m, rank, s, prefix + own, lo, hi)
  {
    var lo := if from.Some? && from.value > 1 then from.value else 1;
    var rows := prefix + own;
    forall i | 0 <= i < |rows| ensures rows[i].at == lo + i && SeenAt(m, rank, s, lo + i) == Some(rows[i]) {
      if i < |prefix| {
        assert rows[i] == prefix[i];
        assert SeenAt(m, rank, f.parent, lo + i) == Some(prefix[i]);
      } else {
        assert rows[i] == own[i - |prefix|];
      }
    }
  }

  // ----- History never changes --------------------------------------------------------------

  /** Sessions stay with their forks, lengthen at most, and keep every row. */
  ghost predicate Grows(m: Table, m': Table) {
    forall s | SessionAt(m, s).Some? ::
      && SessionAt(m', s).Some? && ForkOf(m', s) == ForkOf(m, s) && Last(m', s) >= Last(m, s)
      && forall n: nat | n <= Last(m, s) :: RowAt(m', s, n) == RowAt(m, s, n)
  }

  /** What a session has seen it goes on seeing, whatever its parents append later. */
  lemma {:induction false} SeenIsStable(
    m: Table, m': Table, rank: map<string, nat>, rank': map<string, nat>, s: string, n: nat)
    requires ForksRanked(m, rank) && ForksRanked(m', rank') && Grows(m, m')
    requires SessionAt(m, s).Some? && n <= Last(m, s)
    ensures SeenAt(m', rank', s, n) == SeenAt(m, rank, s, n)
    decreases if s in rank then rank[s] else 0
  {
    match ForkOf(m, s) {
      case None =>
      case Some(f) =>
        if n <= f.boundarySeq { SeenIsStable(m, m', rank, rank', f.parent, n); }
    }
  }
}
