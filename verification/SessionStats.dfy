/** One pass over a session's events, and what its counters count. */
module SessionStats {
  import opened Wrappers
  import opened Admission

  // ----- Events -----------------------------------------------------------------------------

  datatype GoalCommand = StartGoal | EndGoal

  /** The events the pass looks at. A tool error carries its normalised key. */
  datatype Kind =
    | TurnStart
    | TurnEnd
    | StepStart
    | CompactionEnd
    | CompactionFailed
    | UserMessage(command: Option<GoalCommand>)
    | ToolError(key: string)
    | Other

  datatype Event = Event(id: int, ms: int, kind: Kind)

  /** A stretch of events that the pass groups errors over. */
  datatype Scope = Turn | Goal

  predicate Starts(scope: Scope, e: Event) {
    if scope.Turn? then e.kind.TurnStart? else e.kind == UserMessage(Some(StartGoal))
  }

  predicate Ends(scope: Scope, e: Event) {
    if scope.Turn? then e.kind.TurnEnd? else e.kind == UserMessage(Some(EndGoal))
  }

  /** A new turn closes the one before it; a goal stays open until it is ended. */
  predicate Closes(scope: Scope, e: Event) {
    Ends(scope, e) || (scope.Turn? && Starts(scope, e))
  }

  // ----- What is counted --------------------------------------------------------------------

  /** Whether a stretch is open after the first n events. */
  predicate IsOpen(scope: Scope, events: seq<Event>, n: nat)
    requires n <= |events|
  {
    n > 0 && (Starts(scope, events[n - 1]) || (!Ends(scope, events[n - 1]) && IsOpen(scope, events, n - 1)))
  }

  predicate Opens(scope: Scope, events: seq<Event>, i: nat)
    requires i < |events|
  {
    Starts(scope, events[i]) && (scope.Turn? || !IsOpen(scope, events, i))
  }

  /** Where a stretch that is open at a position closes: at the latest at the end. */
  function CloseAt(scope: Scope, events: seq<Event>, from: nat): (at: nat)
    requires from <= |events|
    ensures from <= at <= |events|
    ensures at == |events| || Closes(scope, events[at])
    ensures forall i :: from <= i < at ==> !Closes(scope, events[i])
    decreases |events| - from
  {
    if from == |events| || Closes(scope, events[from]) then from else CloseAt(scope, events, from + 1)
  }

  function Errors(events: seq<Event>, from: nat, till: nat, key: string): nat
    requires till <= |events|
  {
    if till <= from then 0
    else Errors(events, from, till - 1, key) + if events[till - 1].kind == ToolError(key) then 1 else 0
  }

  /** Some error occurs as often as the threshold. */
  ghost predicate Repeated(events: seq<Event>, threshold: int, from: nat, till: nat)
    requires till <= |events|
  {
    threshold >= 1 && exists key :: Errors(events, from, till, key) >= threshold
  }

  function Opened(scope: Scope, events: seq<Event>, n: nat): nat
    requires n <= |events|
  {
    if n == 0 then 0 else Opened(scope, events, n - 1) + if Opens(scope, events, n - 1) then 1 else 0
  }

  /** The stretches opened among the first n events in which some error is repeated. */
  ghost function RepeatedIn(scope: Scope, events: seq<Event>, threshold: int, n: nat): nat
    requires n <= |events|
  {
    if n == 0 then 0
    else
      RepeatedIn(scope, events, threshold, n - 1)
      + if Opens(scope, events, n - 1) && Repeated(events, threshold, n, CloseAt(scope, events, n)) then 1 else 0
  }

  // ----- One stretch at a time --------------------------------------------------------------

  /** The counters of the pass for one scope. */
  datatype Span = Span(isOpen: bool, groups: map<string, nat>, hit: bool, closed: nat, repeated: nat)

  function CountOf(groups: map<string, nat>, key: string): nat {
    if key in groups then groups[key] else 0
  }

  function Closed(s: Span): Span {
    if !s.isOpen then s else Span(false, map[], false, s.closed + 1, s.repeated + if s.hit then 1 else 0)
  }

  function Begun(s: Span): Span {
    Span(true, map[], false, s.closed, s.repeated)
  }

  function Bumped(s: Span, threshold: int, key: string): Span {
    if !s.isOpen then s
    else
      var n := CountOf(s.groups, key) + 1;
      s.(groups := s.groups[key := n], hit := s.hit || n == threshold)
  }

  function SpanStep(scope: Scope, s: Span, threshold: int, e: Event): Span {
    var s1 := if Closes(scope, e) then Closed(s) else s;
    if Starts(scope, e) && !s1.isOpen then Begun(s1)
    else if e.kind.ToolError? then Bumped(s1, threshold, e.kind.key)
    else s1
  }

  ghost predicate Quiet(scope: Scope, events: seq<Event>, from: nat, till: nat)
    requires till <= |events|
  {
    forall i :: from <= i < till ==> !Closes(scope, events[i]) && !Opens(scope, events, i)
  }

  /** The counters are right after the first n events; the open stretch began just before `from`. */
  ghost predicate Agrees(scope: Scope, events: seq<Event>, threshold: int, n: nat, s: Span, from: nat)
    requires n <= |events|
  {
    && s.isOpen == IsOpen(scope, events, n)
    && (s.isOpen ==>
          && 1 <= from <= n && Opens(scope, events, from - 1) && Quiet(scope, events, from, n)
          && (forall key :: CountOf(s.groups, key) == Errors(events, from, n, key))
          && (s.hit <==> Repeated(events, threshold, from, n)))
    && var done := if s.isOpen then from - 1 else n;
       s.closed == Opened(scope, events, done) && s.repeated == RepeatedIn(scope, events, threshold, done)
  }

  lemma {:induction false} QuietCounts(scope: Scope, events: seq<Event>, threshold: int, from: nat, till: nat)
    requires from <= till <= |events| && forall i :: from <= i < till ==> !Opens(scope, events, i)
    ensures Opened(scope, events, till) == Opened(scope, events, from)
    ensures RepeatedIn(scope, events, threshold, till) == RepeatedIn(scope, events, threshold, from)
    decreases till
  {
    if till > from { QuietCounts(scope, events, threshold, from, till - 1); }
  }

  lemma {:induction false} CloseFound(scope: Scope, events: seq<Event>, from: nat, n: nat)
    requires from <= n <= |events| && (n == |events| || Closes(scope, events[n]))
    requires forall i :: from <= i < n ==> !Closes(scope, events[i])
    ensures CloseAt(scope, events, from) == n
    decreases n - from
  {
    if from != n { CloseFound(scope, events, from + 1, n); }
  }

  /** Closing counts the stretch that was open. */
  lemma ClosedCounts(scope: Scope, events: seq<Event>, threshold: int, n: nat, s: Span, from: nat)
    requires n <= |events| && (n == |events| || Closes(scope, events[n]))
    requires Agrees(scope, events, threshold, n, s, from)
    ensures Closed(s).closed == Opened(scope, events, n)
    ensures Closed(s).repeated == RepeatedIn(scope, events, threshold, n)
    ensures !Closed(s).isOpen
  {
    if s.isOpen {
      CloseFound(scope, events, from, n);
      QuietCounts(scope, events, threshold, from, n);
    }
  }

  lemma BumpedAgrees(events: seq<Event>, threshold: int, n: nat, s: Span, from: nat, key: string)
    requires n < |events| && events[n].kind == ToolError(key) && from <= n && s.isOpen
    requires forall k :: CountOf(s.groups, k) == Errors(events, from, n, k)
    requires s.hit <==> Repeated(events, threshold, from, n)
    ensures forall k :: CountOf(Bumped(s, threshold, key).groups, k) == Errors(events, from, n + 1, k)
    ensures Bumped(s, threshold, key).hit <==> Repeated(events, threshold, from, n + 1)
  {
    assert Errors(events, from, n + 1, key) == Errors(events, from, n, key) + 1;
    assert forall k | k != key :: Errors(events, from, n + 1, k) == Errors(events, from, n, k);
    if s.hit {
      var k :| Errors(events, from, n, k) >= threshold;
      assert Errors(events, from, n + 1, k) >= threshold;
    }
    if Repeated(events, threshold, from, n + 1) && !s.hit {
      var k :| Errors(events, from, n + 1, k) >= threshold;
      assert Errors(events, from, n, k) < threshold;
    }
  }

  lemma QuietErrors(events: seq<Event>, threshold: int, from: nat, n: nat)
    requires from <= n < |events| && !events[n].kind.ToolError?
    ensures forall key :: Errors(events, from, n + 1, key) == Errors(events, from, n, key)
    ensures Repeated(events, threshold, from, n + 1) <==> Repeated(events, threshold, from, n)
  {
    if Repeated(events, threshold, from, n) {
      var k :| Errors(events, from, n, k) >= threshold;
      assert Errors(events, from, n + 1, k) >= threshold;
    }
    if Repeated(events, threshold, from, n + 1) {
      var k :| Errors(events, from, n + 1, k) >= threshold;
      assert Errors(events, from, n, k) >= threshold;
    }
  }

  /** One event keeps the counters right. */
  lemma SpanStepAgrees(scope: Scope, events: seq<Event>, threshold: int, n: nat, s: Span, from: nat)
    returns (from': nat)
    requires n < |events| && Agrees(scope, events, threshold, n, s, from)
    ensures Agrees(scope, events, threshold, n + 1, SpanStep(scope, s, threshold, events[n]), from')
    ensures s.isOpen && !Closes(scope, events[n]) ==> from' == from
  {
    var e := events[n];
    from' := if Closes(scope, e) || !s.isOpen then n + 1 else from;
    if Closes(scope, e) {
      ClosedCounts(scope, events, threshold, n, s, from);
      FreshSpan(events, threshold, n + 1);
    } else if s.isOpen {
      assert Quiet(scope, events, from, n + 1);
      if e.kind.ToolError? {
        BumpedAgrees(events, threshold, n, s, from, e.kind.key);
      } else {
        QuietErrors(events, threshold, from, n);
      }
    } else {
      FreshSpan(events, threshold, n + 1);
    }
  }

  lemma FreshSpan(events: seq<Event>, threshold: int, n: nat)
    requires n <= |events|
    ensures forall key :: Errors(events, n, n, key) == 0
    ensures !Repeated(events, threshold, n, n)
  {
  }

  // ----- Compactions ------------------------------------------------------------------------

  datatype Compaction = Compaction(id: int, steps: nat)

  function StepsIn(events: seq<Event>, from: nat, till: nat): nat
    requires till <= |events|
  {
    if till <= from then 0
    else StepsIn(events, from, till - 1) + if events[till - 1].kind.StepStart? then 1 else 0
  }

  /** The positions of the compactions among the first n events. */
  function CompactionsAt(events: seq<Event>, n: nat): (at: seq<nat>)
    requires n <= |events|
    ensures forall k :: 0 <= k < |at| ==> at[k] < n && events[at[k]].kind.CompactionEnd?
  {
    if n == 0 then []
    else CompactionsAt(events, n - 1) + if events[n - 1].kind.CompactionEnd? then [n - 1] else []
  }

  function Min(a: nat, b: nat): nat {
    if a <= b then a else b
  }

  /** The steps a turn took after a compaction in it, up to the first n events. */
  function StepsAfter(events: seq<Event>, at: nat, n: nat): nat
    requires at < |events| && n <= |events|
  {
    if IsOpen(Turn, events, at) then StepsIn(events, at + 1, Min(n, CloseAt(Turn, events, at + 1))) else 0
  }

  /** Whether a compaction belongs to the turn that is still open after n events. */
  predicate Running(events: seq<Event>, at: nat, n: nat)
    requires at < n <= |events|
  {
    IsOpen(Turn, events, at) && CloseAt(Turn, events, at + 1) >= n
  }

  ghost predicate CompactionsAgree(events: seq<Event>, n: nat, all: seq<Compaction>, running: set<nat>)
    requires n <= |events|
  {
    var at := CompactionsAt(events, n);
    && |all| == |at|
    && (forall k :: 0 <= k < |at| ==> all[k] == Compaction(events[at[k]].id, StepsAfter(events, at[k], n)))
    && (forall k :: k in running <==> 0 <= k < |at| && Running(events, at[k], n))
  }

  function Stepped(all: seq<Compaction>, running: set<nat>): (r: seq<Compaction>)
    ensures |r| == |all|
    ensures forall k :: 0 <= k < |all| ==>
              r[k] == if k in running then Compaction(all[k].id, all[k].steps + 1) else all[k]
  {
    seq(|all|, k requires 0 <= k < |all| =>
      if k in running then Compaction(all[k].id, all[k].steps + 1) else all[k])
  }

  /** Counts a step for every compaction of the open turn. */
  method CountStep(all: seq<Compaction>, running: set<nat>) returns (r: seq<Compaction>)
    ensures r == Stepped(all, running)
  {
    r := all;
    for i := 0 to |all|
      invariant |r| == |all|
      invariant forall k :: i <= k < |all| ==> r[k] == all[k]
      invariant forall k :: 0 <= k < i ==> r[k] == Stepped(all, running)[k]
    {
      if i in running { r := r[i := Compaction(all[i].id, all[i].steps + 1)]; }
    }
  }

  /** A compaction's steps grow exactly with a step of its own turn. */
  lemma StepsGrow(events: seq<Event>, at: nat, n: nat)
    requires at < n < |events|
    ensures StepsAfter(events, at, n + 1)
         == StepsAfter(events, at, n) + if events[n].kind.StepStart? && Running(events, at, n) then 1 else 0
    ensures Running(events, at, n + 1) <==> Running(events, at, n) && !Closes(Turn, events[n])
  {
    var close := CloseAt(Turn, events, at + 1);
    if close == n { assert Closes(Turn, events[n]); }
    if close >= n && Closes(Turn, events[n]) { assert close == n; }
  }

  /** The compaction at the last event read. */
  lemma StepsBegin(events: seq<Event>, n: nat)
    requires n < |events|
    ensures StepsAfter(events, n, n + 1) == 0
    ensures Running(events, n, n + 1) <==> IsOpen(Turn, events, n)
  {
  }

  /** What one event does to the compactions seen so far. */
  function CompactionsNext(all: seq<Compaction>, running: set<nat>, e: Event): seq<Compaction> {
    if e.kind.CompactionEnd? then all + [Compaction(e.id, 0)]
    else if e.kind.StepStart? then Stepped(all, running)
    else all
  }

  function RunningNext(all: seq<Compaction>, running: set<nat>, isOpen: bool, e: Event): set<nat> {
    if Closes(Turn, e) then {} else if e.kind.CompactionEnd? && isOpen then running + {|all|} else running
  }

  lemma CompactionsStep(events: seq<Event>, n: nat, all: seq<Compaction>, running: set<nat>)
    requires n < |events| && CompactionsAgree(events, n, all, running)
    ensures CompactionsAgree(events, n + 1, CompactionsNext(all, running, events[n]),
                             RunningNext(all, running, IsOpen(Turn, events, n), events[n]))
  {
    var before, after := CompactionsAt(events, n), CompactionsAt(events, n + 1);
    var next := CompactionsNext(all, running, events[n]);
    var running' := RunningNext(all, running, IsOpen(Turn, events, n), events[n]);
    forall k | 0 <= k < |before|
      ensures next[k] == Compaction(events[after[k]].id, StepsAfter(events, after[k], n + 1))
      ensures k in running' <==> Running(events, after[k], n + 1)
    {
      assert after[k] == before[k];
      StepsGrow(events, before[k], n);
    }
    StepsBegin(events, n);
  }

  /** The turns that start under a larger number than a compaction's. */
  function TurnsAfter(events: seq<Event>, id: int, n: nat): nat
    requires n <= |events|
  {
    if n == 0 then 0
    else TurnsAfter(events, id, n - 1) + if events[n - 1].kind.TurnStart? && events[n - 1].id > id then 1 else 0
  }

  // ----- Candidates -------------------------------------------------------------------------

  /** The turns ended among the first n events. */
  function Completed(events: seq<Event>, n: nat): nat
    requires n <= |events|
  {
    if n == 0 then 0
    else
      Completed(events, n - 1)
      + if events[n - 1].kind.TurnEnd? && IsOpen(Turn, events, n - 1) then 1 else 0
  }

  /** Where the turn that is open after n events began. */
  function OpenedAt(events: seq<Event>, n: nat): (at: nat)
    requires n <= |events| && IsOpen(Turn, events, n)
    ensures at < n
  {
    if Starts(Turn, events[n - 1]) then n - 1 else OpenedAt(events, n - 1)
  }

  /** The error at which the open turn becomes a repeated one. */
  ghost predicate TurnsRepeated(events: seq<Event>, threshold: int, i: nat)
    requires i < |events|
  {
    && events[i].kind.ToolError? && IsOpen(Turn, events, i)
    && !Repeated(events, threshold, OpenedAt(events, i) + 1, i)
    && Repeated(events, threshold, OpenedAt(events, i) + 1, i + 1)
  }

  /** A trigger would fire at every compaction and at the error that makes a turn a repeated one. */
  ghost function Candidates(events: seq<Event>, threshold: int, n: nat): seq<Candidate>
    requires n <= |events|
  {
    if n == 0 then []
    else
      Candidates(events, threshold, n - 1)
      + if events[n - 1].kind.CompactionEnd? || TurnsRepeated(events, threshold, n - 1)
        then [Candidate(events[n - 1].ms, Completed(events, n - 1))] else []
  }

  lemma {:induction false} OpenedAtFound(events: seq<Event>, from: nat, n: nat)
    requires 1 <= from <= n <= |events| && Opens(Turn, events, from - 1) && Quiet(Turn, events, from, n)
    ensures IsOpen(Turn, events, n) && OpenedAt(events, n) == from - 1
    decreases n
  {
    if from != n { OpenedAtFound(events, from, n - 1); }
  }

  function FailedIn(events: seq<Event>, n: nat): nat
    requires n <= |events|
  {
    if n == 0 then 0 else FailedIn(events, n - 1) + if events[n - 1].kind.CompactionFailed? then 1 else 0
  }

  // ----- The pass ---------------------------------------------------------------------------

  datatype Counts = Counts(
    turns: nat,
    repeatedTurns: nat,
    goals: nat,
    repeatedGoals: nat,
    compactionsFailed: nat,
    compactions: seq<(nat, nat)>, // remaining turns, remaining steps of its turn
    candidates: seq<Candidate>)

  ghost predicate Counted(events: seq<Event>, threshold: int, c: Counts) {
    var n := |events|;
    var at := CompactionsAt(events, n);
    && c.turns == Opened(Turn, events, n) && c.repeatedTurns == RepeatedIn(Turn, events, threshold, n)
    && c.goals == Opened(Goal, events, n) && c.repeatedGoals == RepeatedIn(Goal, events, threshold, n)
    && c.compactionsFailed == FailedIn(events, n)
    && c.candidates == Candidates(events, threshold, n)
    && |c.compactions| == |at|
    && forall k :: 0 <= k < |at| ==>
         c.compactions[k] == (TurnsAfter(events, events[at[k]].id, n), StepsAfter(events, at[k], n))
  }

  /** The variables of the pass. */
  datatype Pass = Pass(
    turn: Span, goal: Span, turns: nat, completed: nat, failed: nat,
    all: seq<Compaction>, running: set<nat>, candidates: seq<Candidate>)

  /** Whether an event makes the open turn a repeated one. */
  predicate Hits(turn: Span, threshold: int, e: Event) {
    e.kind.ToolError? && turn.isOpen && !turn.hit && Bumped(turn, threshold, e.kind.key).hit
  }

  function PassStep(p: Pass, threshold: int, e: Event): Pass {
    Pass(
      SpanStep(Turn, p.turn, threshold, e),
      SpanStep(Goal, p.goal, threshold, e),
      p.turns + (if e.kind.TurnStart? then 1 else 0),
      p.completed + (if e.kind.TurnEnd? && p.turn.isOpen then 1 else 0),
      p.failed + (if e.kind.CompactionFailed? then 1 else 0),
      CompactionsNext(p.all, p.running, e),
      RunningNext(p.all, p.running, p.turn.isOpen, e),
      p.candidates
        + (if e.kind.CompactionEnd? || Hits(p.turn, threshold, e) then [Candidate(e.ms, p.completed)] else []))
  }

  /** One candidate for each compaction and each turn that is repeated so far. */
  predicate OneEach(p: Pass) {
    && (!p.turn.isOpen ==> p.running == {})
    && |p.candidates| == |p.all| + p.turn.repeated + if p.turn.isOpen && p.turn.hit then 1 else 0
  }

  ghost predicate CountersAgree(events: seq<Event>, threshold: int, n: nat, p: Pass)
    requires n <= |events|
  {
    && p.turns == Opened(Turn, events, n) && p.completed == Completed(events, n) && p.failed == FailedIn(events, n)
    && p.candidates == Candidates(events, threshold, n)
    && CompactionsAgree(events, n, p.all, p.running)
  }

  lemma OneEachStep(p: Pass, threshold: int, e: Event)
    requires OneEach(p)
    ensures OneEach(PassStep(p, threshold, e))
  {
  }

  lemma HitsAreRepetitions(events: seq<Event>, threshold: int, n: nat, turn: Span, from: nat)
    requires n < |events| && Agrees(Turn, events, threshold, n, turn, from)
    ensures Hits(turn, threshold, events[n]) <==> TurnsRepeated(events, threshold, n)
  {
    if turn.isOpen {
      OpenedAtFound(events, from, n);
      if events[n].kind.ToolError? { BumpedAgrees(events, threshold, n, turn, from, events[n].kind.key); }
    }
  }

  lemma CountersStep(events: seq<Event>, threshold: int, n: nat, p: Pass, turnFrom: nat)
    requires n < |events| && Agrees(Turn, events, threshold, n, p.turn, turnFrom)
    requires CountersAgree(events, threshold, n, p)
    ensures CountersAgree(events, threshold, n + 1, PassStep(p, threshold, events[n]))
  {
    HitsAreRepetitions(events, threshold, n, p.turn, turnFrom);
    CompactionsStep(events, n, p.all, p.running);
  }

  /** One event of the pass. */
  method ReadEvent(p: Pass, threshold: int, e: Event) returns (r: Pass)
    requires OneEach(p)
    ensures r == PassStep(p, threshold, e)
  {
    var turn, goal, all, running, candidates := p.turn, p.goal, p.all, p.running, p.candidates;
    var turns, completed, failed := p.turns, p.completed, p.failed;
    match e.kind {
      case TurnStart =>
        turns := turns + 1;
        turn := Begun(Closed(turn));
        running := {};
      case TurnEnd =>
        if turn.isOpen { completed := completed + 1; }
        turn := Closed(turn);
        running := {};
      case StepStart =>
        if turn.isOpen { all := CountStep(all, running); }
      case CompactionEnd =>
        if turn.isOpen { running := running + {|all|}; }
        all := all + [Compaction(e.id, 0)];
        candidates := candidates + [Candidate(e.ms, completed)];
      case CompactionFailed =>
        failed := failed + 1;
      case UserMessage(command) =>
        if command == Some(StartGoal) && !goal.isOpen { goal := Begun(goal); }
        else if command == Some(EndGoal) { goal := Closed(goal); }
      case ToolError(key) =>
        var before := turn.hit;
        turn := Bumped(turn, threshold, key);
        if turn.isOpen && turn.hit && !before { candidates := candidates + [Candidate(e.ms, completed)]; }
        goal := Bumped(goal, threshold, key);
      case Other =>
    }
    assert turn == SpanStep(Turn, p.turn, threshold, e);
    assert goal == SpanStep(Goal, p.goal, threshold, e);
    assert p.running == {} ==> Stepped(p.all, p.running) == p.all;
    assert all == CompactionsNext(p.all, p.running, e);
    assert running == RunningNext(p.all, p.running, p.turn.isOpen, e);
    assert p.candidates + [] == p.candidates;
    r := Pass(turn, goal, turns, completed, failed, all, running, candidates);
  }

  method AnalyseSession(events: seq<Event>, threshold: int) returns (counts: Counts)
    ensures Counted(events, threshold, counts)
    ensures |counts.candidates| == |counts.compactions| + counts.repeatedTurns
  {
    var none := Span(false, map[], false, 0, 0);
    var p := Pass(none, none, 0, 0, 0, [], {}, []);
    ghost var turnFrom, goalFrom: nat := 0, 0;
    for i := 0 to |events|
      invariant Agrees(Turn, events, threshold, i, p.turn, turnFrom)
      invariant Agrees(Goal, events, threshold, i, p.goal, goalFrom)
      invariant CountersAgree(events, threshold, i, p) && OneEach(p)
    {
      CountersStep(events, threshold, i, p, turnFrom);
      OneEachStep(p, threshold, events[i]);
      turnFrom := SpanStepAgrees(Turn, events, threshold, i, p.turn, turnFrom);
      goalFrom := SpanStepAgrees(Goal, events, threshold, i, p.goal, goalFrom);
      p := ReadEvent(p, threshold, events[i]);
    }
    var n := |events|;
    ClosedCounts(Turn, events, threshold, n, p.turn, turnFrom);
    ClosedCounts(Goal, events, threshold, n, p.goal, goalFrom);
    var turn, goal, all := Closed(p.turn), Closed(p.goal), p.all;
    var compactions := seq(|all|, k requires 0 <= k < |all| => (TurnsAfter(events, all[k].id, n), all[k].steps));
    counts := Counts(p.turns, turn.repeated, goal.closed, goal.repeated, p.failed, compactions, p.candidates);
  }

  // ----- From the pass to the policies ------------------------------------------------------

  predicate InTimeOrder(events: seq<Event>) {
    forall i, j :: 0 <= i < j < |events| ==> events[i].ms <= events[j].ms
  }

  /** A session read in time order yields candidates in the order the policies are optimal for. */
  lemma {:induction false} CandidatesAreOrdered(events: seq<Event>, threshold: int, n: nat)
    requires n <= |events| && InTimeOrder(events)
    ensures Ordered(Candidates(events, threshold, n))
    ensures forall c :: c in Candidates(events, threshold, n) ==> c.turnsDone <= Completed(events, n)
    ensures forall c :: c in Candidates(events, threshold, n) ==> exists i | 0 <= i < n :: c.ms == events[i].ms
    decreases n
  {
    if n > 0 {
      CandidatesAreOrdered(events, threshold, n - 1);
      var before, all := Candidates(events, threshold, n - 1), Candidates(events, threshold, n);
      forall k | 0 <= k < |before| ensures before[k].ms <= events[n - 1].ms {
        assert before[k] in before;
        var i :| 0 <= i < n - 1 && before[k].ms == events[i].ms;
      }
      forall c | c in all ensures exists i | 0 <= i < n :: c.ms == events[i].ms {
        if c !in before { assert c.ms == events[n - 1].ms; }
      }
    }
  }

  /** Every session read in time order: no admissible choice of its triggers beats the greedy one. */
  lemma SessionAdmissionIsOptimal(p: Policy, events: seq<Event>, threshold: int, c: Counts)
    requires Sensible(p) && InTimeOrder(events) && Counted(events, threshold, c)
    ensures Admissible(p, Admitted(p, c.candidates))
    ensures forall other: seq<nat> | Picks(other, |c.candidates|) && Admissible(p, At(c.candidates, other)) ::
              |other| <= |Admitted(p, c.candidates)|
  {
    CandidatesAreOrdered(events, threshold, |events|);
    GreedyIsOptimal(p, c.candidates);
  }
}
