/** Bounded reads of a session, and reading it page by page while it grows. */
module Scans {
  import opened Wrappers
  import opened Store
  import opened LedgerSteps
  import opened LedgerRuns
  import opened ForkView

  const PAGE_MAX := 500

  datatype Query = Query(
    from: Option<int>, upTo: Option<int>, lane: Option<string>, kinds: Option<seq<string>>,
    descending: bool, limit: Option<int>)

  /** The filters on lane and type; an empty lane is no filter. */
  predicate Wanted(q: Query, row: Row) {
    && (q.lane.Some? && q.lane.value != "" ==> row.event.lane.GetOr("main") == q.lane.value)
    && (q.kinds.Some? ==> row.event.kind in q.kinds.value)
  }

  function Matching(q: Query, rows: seq<Row>): seq<Row> {
    if rows == [] then [] else (if Wanted(q, rows[0]) then [rows[0]] else []) + Matching(q, rows[1..])
  }

  function Reversed(rows: seq<Row>): (r: seq<Row>)
    ensures |r| == |rows| && forall i :: 0 <= i < |r| ==> r[i] == rows[|rows| - 1 - i]
  {
    if rows == [] then [] else Reversed(rows[1..]) + [rows[0]]
  }

  function Take(rows: seq<Row>, n: nat): seq<Row> {
    if n <= |rows| then rows[..n] else rows
  }

  /** A page if the limit is within the cap; otherwise a full read, which is refused rather than cut. */
  function Page(q: Query, matching: seq<Row>): Result<seq<Row>> {
    if q.limit.Some? && 0 < q.limit.value <= PAGE_MAX then Success(Take(matching, q.limit.value))
    else if |matching| > PAGE_MAX then Failure(EScanTruncated)
    else Success(matching)
  }

  ghost function Scan(m: Table, rank: map<string, nat>, s: string, q: Query): Result<seq<Row>>
    requires ForksRanked(m, rank)
  {
    if q.upTo.None? && q.limit.None? then Failure(EScanUnbounded)
    else if q.limit.Some? && q.limit.value <= 0 then Failure(EScanUnbounded)
    else
      var ascending := Matching(q, Visible(m, rank, s, q.from, q.upTo));
      Page(q, if q.descending then Reversed(ascending) else ascending)
  }

  /** The beginning of what matches, from the end the query asks for; all of it unless a page was asked for. */
  ghost predicate UncutUnlessAsked(q: Query, all: seq<Row>, read: seq<Row>) {
    && |read| <= PAGE_MAX && |read| <= |all|
    && (|read| < |all| ==> q.limit == Some(|read|))
    && forall i {:trigger read[i]} :: 0 <= i < |read| ==> read[i] == if q.descending then all[|all| - 1 - i] else all[i]
  }

  lemma PageIsUncut(q: Query, all: seq<Row>)
    requires Page(q, if q.descending then Reversed(all) else all).Success?
    ensures UncutUnlessAsked(q, all, Page(q, if q.descending then Reversed(all) else all).value)
  {
    if q.descending { PageOfDirected(q, all, Reversed(all)); } else { PageOfDirected(q, all, all); }
  }

  lemma PageOfDirected(q: Query, all: seq<Row>, matching: seq<Row>)
    requires |matching| == |all| && Page(q, matching).Success?
    requires forall i {:trigger matching[i]} ::
               0 <= i < |all| ==> matching[i] == if q.descending then all[|all| - 1 - i] else all[i]
    ensures UncutUnlessAsked(q, all, Page(q, matching).value)
  {
    var read := Page(q, matching).value;
    assert read == matching[..|read|];
  }

  /** No read is cut without the caller having asked for a page of that size. */
  lemma NoSilentCut(m: Table, rank: map<string, nat>, s: string, q: Query)
    requires ForksRanked(m, rank) && Scan(m, rank, s, q).Success?
    ensures UncutUnlessAsked(q, Matching(q, Visible(m, rank, s, q.from, q.upTo)), Scan(m, rank, s, q).value)
  {
    PageIsUncut(q, Matching(q, Visible(m, rank, s, q.from, q.upTo)));
  }

  lemma {:induction false} MatchingHas(q: Query, rows: seq<Row>, row: Row)
    ensures row in Matching(q, rows) <==> row in rows && Wanted(q, row)
    decreases |rows|
  {
    if rows != [] {
      MatchingHas(q, rows[1..], row);
      assert rows == [rows[0]] + rows[1..];
    }
  }

  ghost predicate Rising(rows: seq<Row>) {
    forall i, j | 0 <= i < j < |rows| :: rows[i].at < rows[j].at
  }

  lemma {:induction false} MatchingRises(q: Query, rows: seq<Row>)
    requires Rising(rows)
    ensures Rising(Matching(q, rows))
    decreases |rows|
  {
    if rows != [] {
      assert Rising(rows[1..]);
      MatchingRises(q, rows[1..]);
      forall row | row in Matching(q, rows[1..]) ensures rows[0].at < row.at {
        MatchingHas(q, rows[1..], row);
        var i :| 0 <= i < |rows| - 1 && rows[1..][i] == row;
        assert rows[i + 1] == row;
      }
    }
  }

  /** The row is one a query asks for: the session's under its own number, in range, passing the filters. */
  ghost predicate Asked(m: Table, rank: map<string, nat>, s: string, q: Query, row: Row)
    requires ForksRanked(m, rank)
  {
    && 1 <= row.at <= Last(m, s) && SeenAt(m, rank, s, row.at) == Some(row)
    && InRange(row, q.from, q.upTo) && Wanted(q, row)
  }

  /**
   * A read is refused for being unbounded exactly without an end and a page size, or with a page size
   * that is not positive; and for being too long exactly where no page of at most 500 was asked for and
   * more than 500 events are.
   */
  lemma ReadRefusedExactly(m: Table, rank: map<string, nat>, s: string, q: Query)
    requires ForksRanked(m, rank)
    ensures
      var read, all := Scan(m, rank, s, q), Matching(q, Visible(m, rank, s, q.from, q.upTo));
      var unbounded := if q.limit.Some? then q.limit.value <= 0 else q.upTo.None?;
      var long := (q.limit.Some? ==> q.limit.value > 500) && |all| > 500;
      && (unbounded ==> read == Failure(EScanUnbounded))
      && (!unbounded && long ==> read == Failure(EScanTruncated))
      && (!unbounded && !long ==> read.Success?)
  {
  }

  /** The lane of an event that names none is `main`. */
  predicate InLane(row: Row, lane: string) {
    row.event.lane == Some(lane) || (row.event.lane.None? && lane == "main")
  }

  /**
   * Without a lane filter, or with an empty one, a query asks for what the queries of all lanes ask for
   * together, and each event is asked for by those of its own lane alone.
   */
  lemma LanesPartition(m: Table, rank: map<string, nat>, s: string, q: Query, lane: string, row: Row)
    requires ForksRanked(m, rank) && lane != ""
    ensures
      var open := q.(lane := None);
      && (Asked(m, rank, s, q.(lane := Some("")), row) <==> Asked(m, rank, s, open, row))
      && (Asked(m, rank, s, q.(lane := Some(lane)), row) <==> Asked(m, rank, s, open, row) && InLane(row, lane))
  {
  }

  /** A query for two lists of types asks for what the queries for each of them ask for. */
  lemma KindsUnite(m: Table, rank: map<string, nat>, s: string, q: Query, a: seq<string>, b: seq<string>, row: Row)
    requires ForksRanked(m, rank)
    ensures
      && (Asked(m, rank, s, q.(kinds := Some(a + b)), row) <==>
          Asked(m, rank, s, q.(kinds := Some(a)), row) || Asked(m, rank, s, q.(kinds := Some(b)), row))
      && (Asked(m, rank, s, q.(kinds := Some(a)), row) <==>
          Asked(m, rank, s, q.(kinds := None), row) && row.event.kind in a)
  {
  }

  /** What the session shows and the filters pass is what the query asks for, in order. */
  lemma MatchingIsAsked(m: Table, rules: Rules, rank: map<string, nat>, s: string, q: Query)
    requires AllSound(m, rules) && ForksRanked(m, rank)
    ensures
      var all := Matching(q, Visible(m, rank, s, q.from, q.upTo));
      Rising(all) && forall row :: row in all <==> Asked(m, rank, s, q, row)
  {
    var rows := Visible(m, rank, s, q.from, q.upTo);
    VisibleRises(m, rules, rank, s, q.from, q.upTo);
    MatchingRises(q, rows);
    forall row ensures row in Matching(q, rows) <==> Asked(m, rank, s, q, row) {
      MatchingHas(q, rows, row);
      VisibleHas(m, rules, rank, s, q.from, q.upTo, row);
    }
  }

  lemma VisibleRises(m: Table, rules: Rules, rank: map<string, nat>, s: string, from: Option<int>, upTo: Option<int>)
    requires AllSound(m, rules) && ForksRanked(m, rank)
    ensures Rising(Visible(m, rank, s, from, upTo))
  {
    ForkViewIsComplete(m, rules, rank, s, from, upTo);
  }

  lemma VisibleHas(
    m: Table, rules: Rules, rank: map<string, nat>, s: string, from: Option<int>, upTo: Option<int>, row: Row)
    requires AllSound(m, rules) && ForksRanked(m, rank)
    ensures row in Visible(m, rank, s, from, upTo) <==>
            1 <= row.at <= Last(m, s) && SeenAt(m, rank, s, row.at) == Some(row) && InRange(row, from, upTo)
  {
    var rows := Visible(m, rank, s, from, upTo);
    ForkViewIsComplete(m, rules, rank, s, from, upTo);
    if row in rows {
      var i :| 0 <= i < |rows| && rows[i] == row;
      assert row.at == Low(from) + i;
    } else if 1 <= row.at <= Last(m, s) && InRange(row, from, upTo) {
      assert SeenAt(m, rank, s, row.at) == Some(rows[row.at - Low(from)]);
    }
  }

  /**
   * A read that succeeds gives events the query asks for, in the order it asks for, each once; and all of
   * them, unless the caller asked for a page of just that size.
   */
  lemma ReadGivesWhatIsAsked(m: Table, rules: Rules, rank: map<string, nat>, s: string, q: Query)
    requires AllSound(m, rules) && ForksRanked(m, rank) && Scan(m, rank, s, q).Success?
    ensures
      var read := Scan(m, rank, s, q).value;
      && (forall row | row in read :: Asked(m, rank, s, q, row))
      && (forall i, j | 0 <= i < j < |read| ::
            if q.descending then read[i].at > read[j].at else read[i].at < read[j].at)
      && (q.limit != Some(|read|) ==> forall row | Asked(m, rank, s, q, row) :: row in read)
  {
    var all, read := Matching(q, Visible(m, rank, s, q.from, q.upTo)), Scan(m, rank, s, q).value;
    NoSilentCut(m, rank, s, q);
    MatchingIsAsked(m, rules, rank, s, q);
    CutKeepsOrder(q, all, read);
  }

  lemma CutKeepsOrder(q: Query, all: seq<Row>, read: seq<Row>)
    requires UncutUnlessAsked(q, all, read) && Rising(all)
    ensures forall row | row in read :: row in all
    ensures forall i, j | 0 <= i < j < |read| ::
              if q.descending then read[i].at > read[j].at else read[i].at < read[j].at
    ensures q.limit != Some(|read|) ==> forall row | row in all :: row in read
  {
    forall i, j | 0 <= i < j < |read|
      ensures if q.descending then read[i].at > read[j].at else read[i].at < read[j].at
    {
      CutAt(q, all, read, i);
      CutAt(q, all, read, j);
    }
    forall row | row in read ensures row in all {
      var i :| 0 <= i < |read| && read[i] == row;
      CutAt(q, all, read, i);
    }
    forall row | row in all && |read| == |all| ensures row in read {
      var i :| 0 <= i < |all| && all[i] == row;
      CutAt(q, all, read, if q.descending then |all| - 1 - i else i);
    }
  }

  lemma CutAt(q: Query, all: seq<Row>, read: seq<Row>, i: nat)
    requires UncutUnlessAsked(q, all, read) && i < |read|
    ensures read[i] == if q.descending then all[|all| - 1 - i] else all[i]
  {
  }

  // ----- Reading on ------------------------------------------------------------------------

  lemma {:induction false} MatchingConcat(q: Query, a: seq<Row>, b: seq<Row>)
    ensures Matching(q, a + b) == Matching(q, a) + Matching(q, b)
    decreases |a|
  {
    if a == [] {
      assert a + b == b;
    } else {
      assert (a + b)[1..] == a[1..] + b;
      MatchingConcat(q, a[1..], b);
    }
  }

  /** Where the k-th match of some rows stands. */
  lemma {:induction false} MatchAt(q: Query, rows: seq<Row>, k: nat) returns (j: nat)
    requires k < |Matching(q, rows)|
    ensures j < |rows| && rows[j] == Matching(q, rows)[k]
    ensures Matching(q, rows[..j + 1]) == Matching(q, rows)[..k + 1]
    ensures Matching(q, rows[j + 1..]) == Matching(q, rows)[k + 1..]
    decreases |rows|
  {
    if Wanted(q, rows[0]) && k == 0 {
      j := 0;
      MatchFirst(q, rows);
    } else {
      var before := if Wanted(q, rows[0]) then k - 1 else k;
      var i := MatchAt(q, rows[1..], before);
      j := i + 1;
      MatchLater(q, rows[0], rows[1..], i, before);
      assert [rows[0]] + rows[1..] == rows;
    }
  }

  lemma MatchFirst(q: Query, rows: seq<Row>)
    requires rows != [] && Wanted(q, rows[0])
    ensures Matching(q, rows) == [rows[0]] + Matching(q, rows[1..])
    ensures Matching(q, rows[..1]) == [rows[0]]
  {
    MatchingFirst(q, rows[0], []);
    assert rows[..1] == [rows[0]] + [];
  }

  /** The match of a list with one more row in front. */
  lemma MatchLater(q: Query, row: Row, tail: seq<Row>, i: nat, k: nat)
    requires i < |tail| && k < |Matching(q, tail)| && tail[i] == Matching(q, tail)[k]
    requires Matching(q, tail[..i + 1]) == Matching(q, tail)[..k + 1]
    requires Matching(q, tail[i + 1..]) == Matching(q, tail)[k + 1..]
    ensures
      var rows, at := [row] + tail, (if Wanted(q, row) then 1 else 0) + k;
      && at < |Matching(q, rows)| && rows[i + 1] == Matching(q, rows)[at]
      && Matching(q, rows[..i + 2]) == Matching(q, rows)[..at + 1]
      && Matching(q, rows[i + 2..]) == Matching(q, rows)[at + 1..]
  {
    var head := if Wanted(q, row) then [row] else [];
    MatchingFirst(q, row, tail);
    MatchingFirst(q, row, tail[..i + 1]);
    Behind(head, Matching(q, tail), k);
    Behind([row], tail, i);
  }

  lemma Behind<T>(head: seq<T>, rest: seq<T>, k: nat)
    requires k < |rest|
    ensures (head + rest)[|head| + k] == rest[k]
    ensures (head + rest)[..|head| + k + 1] == head + rest[..k + 1]
    ensures (head + rest)[|head| + k + 1..] == rest[k + 1..]
  {
  }

  lemma MatchingFirst(q: Query, row: Row, rows: seq<Row>)
    ensures Matching(q, [row] + rows) == (if Wanted(q, row) then [row] else []) + Matching(q, rows)
  {
    assert ([row] + rows)[1..] == rows;
  }

  ghost predicate AllSound(m: Table, rules: Rules) {
    forall s :: SessionSound(m, rules, s)
  }

  function Low(from: Option<int>): int {
    if from.Some? && from.value > 1 then from.value else 1
  }

  function High(m: Table, s: string, upTo: Option<int>): int {
    if upTo.Some? && upTo.value < Last(m, s) then upTo.value else Last(m, s)
  }

  lemma VisibleLength(m: Table, rules: Rules, rank: map<string, nat>, s: string, from: Option<int>, upTo: Option<int>)
    requires AllSound(m, rules) && ForksRanked(m, rank)
    ensures |Visible(m, rank, s, from, upTo)| ==
            if Low(from) <= High(m, s, upTo) then High(m, s, upTo) - Low(from) + 1 else 0
  {
    ForkViewIsComplete(m, rules, rank, s, from, upTo);
  }

  lemma VisibleAt(
    m: Table, rules: Rules, rank: map<string, nat>, s: string, from: Option<int>, upTo: Option<int>, i: nat)
    requires AllSound(m, rules) && ForksRanked(m, rank) && i < |Visible(m, rank, s, from, upTo)|
    ensures
      var row := Visible(m, rank, s, from, upTo)[i];
      row.at == Low(from) + i && SeenAt(m, rank, s, Low(from) + i) == Some(row)
  {
    ForkViewIsComplete(m, rules, rank, s, from, upTo);
  }

  /** What a session shows from a later number on is the rest of what it shows. */
  lemma LaterFromIsSuffix(
    m: Table, rules: Rules, rank: map<string, nat>, s: string, from: Option<int>, upTo: Option<int>, j: nat)
    requires AllSound(m, rules) && ForksRanked(m, rank)
    requires j < |Visible(m, rank, s, from, upTo)|
    ensures Visible(m, rank, s, from, upTo)[j].at == Low(from) + j
    ensures Visible(m, rank, s, Some(Low(from) + j + 1), upTo) == Visible(m, rank, s, from, upTo)[j + 1..]
  {
    var later := Some(Low(from) + j + 1);
    var rows, rest := Visible(m, rank, s, from, upTo), Visible(m, rank, s, later, upTo);
    VisibleLength(m, rules, rank, s, from, upTo);
    VisibleLength(m, rules, rank, s, later, upTo);
    VisibleAt(m, rules, rank, s, from, upTo, j);
    forall i | 0 <= i < |rest| ensures rest[i] == rows[j + 1..][i] {
      VisibleAt(m, rules, rank, s, later, upTo, i);
      VisibleAt(m, rules, rank, s, from, upTo, j + 1 + i);
    }
  }

  /** A session that grows shows the same rows first. */
  lemma GrownShowsMore(
    m: Table, m': Table, rules: Rules, rank: map<string, nat>, rank': map<string, nat>, s: string,
    from: Option<int>, upTo: Option<int>)
    requires AllSound(m, rules) && ForksRanked(m, rank)
    requires AllSound(m', rules) && ForksRanked(m', rank')
    requires Grows(m, m') && SessionAt(m, s).Some?
    ensures Visible(m, rank, s, from, upTo) <= Visible(m', rank', s, from, upTo)
  {
    var rows, more := Visible(m, rank, s, from, upTo), Visible(m', rank', s, from, upTo);
    VisibleLength(m, rules, rank, s, from, upTo);
    VisibleLength(m', rules, rank', s, from, upTo);
    forall i | 0 <= i < |rows| ensures rows[i] == more[i] {
      SeenIsStable(m, m', rank, rank', s, Low(from) + i);
      VisibleAt(m, rules, rank, s, from, upTo, i);
      VisibleAt(m', rules, rank', s, from, upTo, i);
    }
  }

  /** A table that a page was read from, and how its forks are ranked. */
  datatype Moment = Moment(table: Table, rank: map<string, nat>)

  /**
   * One page after the other, each read from behind the last event of the one before, each at its own
   * moment. All pages are full but the last.
   */
  ghost predicate Paging(
    moments: seq<Moment>, s: string, q: Query, limit: nat, pages: seq<seq<Row>>)
    decreases |pages|
  {
    && |pages| == |moments| > 0 && 0 < limit <= PAGE_MAX && !q.descending
    && ForksRanked(moments[0].table, moments[0].rank)
    && Scan(moments[0].table, moments[0].rank, s, q.(limit := Some(limit))) == Success(pages[0])
    && if |pages| == 1 then |pages[0]| < limit
       else
         && |pages[0]| == limit
         && Paging(moments[1..], s, AfterPage(q, pages[0], limit), limit, pages[1..])
  }

  function Concat(pages: seq<seq<Row>>): seq<Row> {
    if pages == [] then [] else pages[0] + Concat(pages[1..])
  }

  ghost predicate Growing(moments: seq<Moment>, rules: Rules, s: string) {
    && (forall i :: 0 <= i < |moments| ==>
          && AllSound(moments[i].table, rules) && ForksRanked(moments[i].table, moments[i].rank)
          && SessionAt(moments[i].table, s).Some?)
    && (forall i :: 0 <= i < |moments| ==> Grows(moments[i].table, moments[|moments| - 1].table))
  }

  /**
   * Paging through a session while events are appended reads exactly what one full read at the moment
   * of the last page would: nothing at the page borders is lost or repeated.
   */
  lemma {:induction false} PagesAreOneRead(
    moments: seq<Moment>, rules: Rules, s: string, q: Query, limit: nat, pages: seq<seq<Row>>)
    requires moments != [] && Growing(moments, rules, s) && Paging(moments, s, q, limit, pages)
    ensures
      var Moment(m, rank) := moments[|moments| - 1];
      Concat(pages) == Matching(q, Visible(m, rank, s, q.from, q.upTo))
    decreases |pages|
  {
    if |pages| == 1 {
      OnlyPage(moments[0], s, q, limit, pages);
    } else {
      var rest := AfterPage(q, pages[0], limit);
      LaterMoments(moments, rules, s);
      PagesAreOneRead(moments[1..], rules, s, rest, limit, pages[1..]);
      assert OneRead(moments[1..], s, rest, pages[1..]);
      JoinFirst(moments, rules, s, q, limit, pages);
    }
  }

  /** What is still to be read behind a full page. */
  function AfterPage(q: Query, page: seq<Row>, limit: nat): Query
    requires 0 < limit == |page|
  {
    q.(from := Some(page[limit - 1].at + 1))
  }

  /** The pages are what one read at the last moment gives. */
  ghost predicate OneRead(moments: seq<Moment>, s: string, q: Query, pages: seq<seq<Row>>) {
    && moments != []
    && var Moment(m, rank) := moments[|moments| - 1];
       ForksRanked(m, rank) && Concat(pages) == Matching(q, Visible(m, rank, s, q.from, q.upTo))
  }

  lemma JoinFirst(moments: seq<Moment>, rules: Rules, s: string, q: Query, limit: nat, pages: seq<seq<Row>>)
    requires |moments| > 1 && Growing(moments, rules, s) && Paging(moments, s, q, limit, pages)
    requires OneRead(moments[1..], s, AfterPage(q, pages[0], limit), pages[1..])
    ensures OneRead(moments, s, q, pages)
  {
    FirstOfPages(moments[0], moments[|moments| - 1], rules, s, q, limit, pages);
  }

  lemma OnlyPage(moment: Moment, s: string, q: Query, limit: nat, pages: seq<seq<Row>>)
    requires ForksRanked(moment.table, moment.rank) && 0 < limit <= PAGE_MAX && !q.descending
    requires |pages| == 1 && |pages[0]| < limit
    requires Scan(moment.table, moment.rank, s, q.(limit := Some(limit))) == Success(pages[0])
    ensures Concat(pages) == Matching(q, Visible(moment.table, moment.rank, s, q.from, q.upTo))
  {
    PageRead(moment.table, moment.rank, s, q, limit);
    LastPage(Matching(q, Visible(moment.table, moment.rank, s, q.from, q.upTo)), limit, pages);
  }

  lemma FirstOfPages(
    first: Moment, last: Moment, rules: Rules, s: string, q: Query, limit: nat, pages: seq<seq<Row>>)
    requires AllSound(first.table, rules) && ForksRanked(first.table, first.rank)
    requires AllSound(last.table, rules) && ForksRanked(last.table, last.rank)
    requires Grows(first.table, last.table) && SessionAt(first.table, s).Some?
    requires |pages| > 1 && 0 < limit == |pages[0]| && limit <= PAGE_MAX && !q.descending
    requires Scan(first.table, first.rank, s, q.(limit := Some(limit))) == Success(pages[0])
    requires
      var rest := q.(from := Some(pages[0][limit - 1].at + 1));
      Concat(pages[1..]) == Matching(rest, Visible(last.table, last.rank, s, rest.from, rest.upTo))
    ensures Concat(pages) == Matching(q, Visible(last.table, last.rank, s, q.from, q.upTo))
  {
    PageRead(first.table, first.rank, s, q, limit);
    PageThenRest(first.table, last.table, rules, first.rank, last.rank, s, q, limit, pages);
  }

  lemma LastPage(all: seq<Row>, limit: nat, pages: seq<seq<Row>>)
    requires |pages| == 1 && pages[0] == Take(all, limit) && |pages[0]| < limit
    ensures Concat(pages) == all
  {
    assert pages[1..] == [];
  }

  lemma PageThenRest(
    m: Table, m': Table, rules: Rules, rank: map<string, nat>, rank': map<string, nat>, s: string, q: Query,
    limit: nat, pages: seq<seq<Row>>)
    requires AllSound(m, rules) && ForksRanked(m, rank)
    requires AllSound(m', rules) && ForksRanked(m', rank')
    requires Grows(m, m') && SessionAt(m, s).Some? && |pages| > 1 && 0 < limit == |pages[0]|
    requires pages[0] == Take(Matching(q, Visible(m, rank, s, q.from, q.upTo)), limit)
    requires
      var rest := q.(from := Some(pages[0][limit - 1].at + 1));
      Concat(pages[1..]) == Matching(rest, Visible(m', rank', s, rest.from, rest.upTo))
    ensures Concat(pages) == Matching(q, Visible(m', rank', s, q.from, q.upTo))
  {
    var rest := q.(from := Some(pages[0][limit - 1].at + 1));
    PageAndRest(m, m', rules, rank, rank', s, q, limit);
    SameFilters(q, rest, Visible(m', rank', s, rest.from, q.upTo));
  }

  lemma PageRead(m: Table, rank: map<string, nat>, s: string, q: Query, limit: nat)
    requires ForksRanked(m, rank) && 0 < limit <= PAGE_MAX && !q.descending
    ensures Scan(m, rank, s, q.(limit := Some(limit)))
         == Success(Take(Matching(q, Visible(m, rank, s, q.from, q.upTo)), limit))
  {
    SameFilters(q, q.(limit := Some(limit)), Visible(m, rank, s, q.from, q.upTo));
  }

  lemma LaterMoments(moments: seq<Moment>, rules: Rules, s: string)
    requires |moments| > 1 && Growing(moments, rules, s)
    ensures Growing(moments[1..], rules, s) && moments[1..][|moments| - 2] == moments[|moments| - 1]
  {
  }

  lemma {:induction false} SameFilters(q: Query, q': Query, rows: seq<Row>)
    requires q'.lane == q.lane && q'.kinds == q.kinds
    ensures Matching(q', rows) == Matching(q, rows)
    decreases |rows|
  {
    if rows != [] { SameFilters(q, q', rows[1..]); }
  }

  /** A full page, and what follows its last event later, are together what is read later at once. */
  lemma PageAndRest(
    m: Table, m': Table, rules: Rules, rank: map<string, nat>, rank': map<string, nat>, s: string, q: Query, limit: nat)
    requires AllSound(m, rules) && ForksRanked(m, rank)
    requires AllSound(m', rules) && ForksRanked(m', rank')
    requires Grows(m, m') && SessionAt(m, s).Some?
    requires 0 < limit <= |Matching(q, Visible(m, rank, s, q.from, q.upTo))|
    ensures
      var page := Matching(q, Visible(m, rank, s, q.from, q.upTo))[..limit];
      Matching(q, Visible(m', rank', s, q.from, q.upTo))
        == page + Matching(q, Visible(m', rank', s, Some(page[limit - 1].at + 1), q.upTo))
  {
    var rows, more := Visible(m, rank, s, q.from, q.upTo), Visible(m', rank', s, q.from, q.upTo);
    var j := MatchAt(q, rows, limit - 1);
    GrownShowsMore(m, m', rules, rank, rank', s, q.from, q.upTo);
    LaterFromIsSuffix(m, rules, rank, s, q.from, q.upTo, j);
    LaterFromIsSuffix(m', rules, rank', s, q.from, q.upTo, j);
    MatchingOn(q, rows, more, j + 1);
  }

  /** The matches of some rows are those of the first of them, as shown earlier, and of the rest. */
  lemma MatchingOn(q: Query, rows: seq<Row>, more: seq<Row>, i: nat)
    requires i <= |rows| <= |more| && rows == more[..|rows|]
    ensures Matching(q, more) == Matching(q, rows[..i]) + Matching(q, more[i..])
  {
    assert more[..i] == rows[..i] && more == more[..i] + more[i..];
    MatchingConcat(q, more[..i], more[i..]);
  }
}
