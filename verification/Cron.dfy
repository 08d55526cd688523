/** Five-field cron schedules: field parsing, matching, and the search for the next minute. */
module Cron {
  import opened Wrappers

  const MINUTE := 60_000
  const HOUR := 3_600_000
  const DAY := 86_400_000
  const HORIZON := 366 * DAY
  const LOOKBACK := 3 * HOUR

  // ----- Fields -----------------------------------------------------------------------------

  /** One comma-separated part: `*` or a start, an optional end, an optional step. */
  datatype Part = Unreadable | Part(star: bool, start: int, end: Option<int>, step: Option<int>)

  datatype CronError = BadField | OutOfRange

  datatype Parsed<+T> = Ok(value: T) | Bad(error: CronError)

  function First(p: Part, lo: int): int
    requires p.Part?
  {
    if p.star then lo else p.start
  }

  function LastOf(p: Part, hi: int): int
    requires p.Part?
  {
    if p.star then hi else if p.end.Some? then p.end.value else p.start
  }

  function StepOf(p: Part): int
    requires p.Part?
  {
    p.step.GetOr(1)
  }

  predicate InBounds(p: Part, lo: int, hi: int)
    requires p.Part?
  {
    lo <= First(p, lo) <= LastOf(p, hi) <= hi && StepOf(p) >= 1
  }

  function Nth(first: int, step: int, n: nat): int {
    first + n * step
  }

  /** The value is the first plus a whole number of steps. */
  ghost predicate OnGrid(first: int, step: int, v: int) {
    exists n: nat :: Nth(first, step, n) == v
  }

  /** The values a part stands for: from its start to its end in steps. */
  ghost predicate Selects(p: Part, lo: int, hi: int, v: int) {
    p.Part? && InBounds(p, lo, hi) && First(p, lo) <= v <= LastOf(p, hi) && OnGrid(First(p, lo), StepOf(p), v)
  }

  predicate Readable(parts: seq<Part>, lo: int, hi: int) {
    forall p | p in parts :: p.Part? && InBounds(p, lo, hi)
  }

  lemma {:induction false} NthMonotone(first: int, step: int, n: nat, k: nat)
    requires step >= 1 && n < k
    ensures Nth(first, step, k) >= Nth(first, step, n) + step
    decreases k
  {
    assert Nth(first, step, k) == Nth(first, step, k - 1) + step;
    if k > n + 1 { NthMonotone(first, step, n, k - 1); }
  }

  /** Between two neighbours of the grid there is nothing. */
  lemma GridGap(first: int, step: int, n: nat, v: int)
    requires step >= 1 && Nth(first, step, n) <= v < Nth(first, step, n) + step && OnGrid(first, step, v)
    ensures v == Nth(first, step, n)
  {
    var k: nat :| Nth(first, step, k) == v;
    if k < n { NthMonotone(first, step, k, n); }
    if k > n { NthMonotone(first, step, n, k); }
  }

  /** The error of the field's first part that cannot be read or is out of range. */
  ghost predicate FirstError(parts: seq<Part>, lo: int, hi: int, error: CronError) {
    exists i ::
      && 0 <= i < |parts| && Readable(parts[..i], lo, hi)
      && if parts[i].Part? then !InBounds(parts[i], lo, hi) && error == OutOfRange else error == BadField
  }

  /** The set of values a field selects, or the first error in it. */
  method ParseField(parts: seq<Part>, lo: int, hi: int) returns (r: Parsed<set<int>>)
    ensures r.Ok? <==> Readable(parts, lo, hi)
    ensures r.Ok? ==> forall v :: v in r.value <==> exists p :: p in parts && Selects(p, lo, hi, v)
    ensures r.Bad? ==> FirstError(parts, lo, hi, r.error)
  {
    var values: set<int> := {};
    for i := 0 to |parts|
      invariant Readable(parts[..i], lo, hi)
      invariant forall v :: v in values <==> exists p :: p in parts[..i] && Selects(p, lo, hi, v)
    {
      var p := parts[i];
      assert p in parts;
      if !p.Part? { return Bad(BadField); }
      if !InBounds(p, lo, hi) { return Bad(OutOfRange); }
      var chosen := Expand(p, lo, hi);
      assert forall q :: q in parts[..i + 1] <==> q in parts[..i] || q == p by {
        assert parts[..i + 1] == parts[..i] + [p];
      }
      values := values + chosen;
    }
    assert parts[..|parts|] == parts;
    r := Ok(values);
  }

  method Expand(p: Part, lo: int, hi: int) returns (values: set<int>)
    requires p.Part? && InBounds(p, lo, hi)
    ensures forall v :: v in values <==> Selects(p, lo, hi, v)
  {
    values := {};
    var first, last, step := First(p, lo), LastOf(p, hi), StepOf(p);
    var value := first;
    ghost var n := 0;
    while value <= last
      invariant value == Nth(first, step, n)
      invariant forall v :: v in values <==> Selects(p, lo, hi, v) && v < value
      decreases last + step - value
    {
      ExpandStep(p, lo, hi, n);
      values := values + {value};
      value, n := value + step, n + 1;
    }
  }

  lemma ExpandStep(p: Part, lo: int, hi: int, n: nat)
    requires p.Part? && InBounds(p, lo, hi) && Nth(First(p, lo), StepOf(p), n) <= LastOf(p, hi)
    ensures
      var value := Nth(First(p, lo), StepOf(p), n);
      && Nth(First(p, lo), StepOf(p), n + 1) == value + StepOf(p)
      && Selects(p, lo, hi, value)
      && forall v | Selects(p, lo, hi, v) && v < value + StepOf(p) :: v <= value
  {
    var first, step := First(p, lo), StepOf(p);
    if n > 0 { NthMonotone(first, step, 0, n); }
    forall v | Selects(p, lo, hi, v) && Nth(first, step, n) <= v < Nth(first, step, n) + step
      ensures v == Nth(first, step, n)
    {
      GridGap(first, step, n, v);
    }
  }

  // ----- Specs ------------------------------------------------------------------------------

  datatype Spec = Spec(
    minute: set<int>, hour: set<int>, day: set<int>, month: set<int>, weekday: set<int>,
    dayStar: bool, weekdayStar: bool)

  predicate StartsWithStar(parts: seq<Part>) {
    parts != [] && parts[0].Part? && parts[0].star
  }

  /** Five fields; Sunday may be written as 7. */
  method ParseCron(minute: seq<Part>, hour: seq<Part>, day: seq<Part>, month: seq<Part>, weekday: seq<Part>)
    returns (r: Parsed<Spec>)
    ensures r.Ok? <==>
            Readable(minute, 0, 59) && Readable(hour, 0, 23) && Readable(day, 1, 31) && Readable(month, 1, 12)
            && Readable(weekday, 0, 7)
    ensures r.Ok? ==>
              && (forall v :: v in r.value.minute <==> exists p :: p in minute && Selects(p, 0, 59, v))
              && (forall v :: v in r.value.hour <==> exists p :: p in hour && Selects(p, 0, 23, v))
              && (forall v :: v in r.value.day <==> exists p :: p in day && Selects(p, 1, 31, v))
              && (forall v :: v in r.value.month <==> exists p :: p in month && Selects(p, 1, 12, v))
              && (forall v | v != 0 :: v in r.value.weekday <==> exists p :: p in weekday && Selects(p, 0, 7, v))
              && (0 in r.value.weekday <==>
                    exists p :: p in weekday && (Selects(p, 0, 7, 0) || Selects(p, 0, 7, 7)))
              && r.value.dayStar == StartsWithStar(day) && r.value.weekdayStar == StartsWithStar(weekday)
    ensures r.Bad? ==>
              if !Readable(minute, 0, 59) then FirstError(minute, 0, 59, r.error)
              else if !Readable(hour, 0, 23) then FirstError(hour, 0, 23, r.error)
              else if !Readable(day, 1, 31) then FirstError(day, 1, 31, r.error)
              else if !Readable(month, 1, 12) then FirstError(month, 1, 12, r.error)
              else FirstError(weekday, 0, 7, r.error)
  {
    var minutes := ParseField(minute, 0, 59);
    if minutes.Bad? { return Bad(minutes.error); }
    var hours := ParseField(hour, 0, 23);
    if hours.Bad? { return Bad(hours.error); }
    var days := ParseField(day, 1, 31);
    if days.Bad? { return Bad(days.error); }
    var months := ParseField(month, 1, 12);
    if months.Bad? { return Bad(months.error); }
    var weekdays := ParseField(weekday, 0, 7);
    if weekdays.Bad? { return Bad(weekdays.error); }
    var sundays := if 7 in weekdays.value then weekdays.value + {0} else weekdays.value;
    r := Ok(Spec(minutes.value, hours.value, days.value, months.value, sundays,
                 StartsWithStar(day), StartsWithStar(weekday)));
  }

  // ----- Calendar and zones -----------------------------------------------------------------

  datatype Date = Date(year: int, month: int, day: int, weekday: int)

  /** The civil calendar by day number, and a zone's offset from UTC at an instant. */
  datatype Zone = Zone(civil: int -> Date, offset: int -> int, zoned: bool)

  /** Every offset is less than a day; without a zone the clock is UTC. */
  ghost predicate ValidZone(z: Zone) {
    forall t :: -DAY < z.offset(t) < DAY && (!z.zoned ==> z.offset(t) == 0)
  }

  function LocalDay(z: Zone, t: int): int {
    (t + z.offset(t)) / DAY
  }

  function LocalMinute(z: Zone, t: int): int {
    (t + z.offset(t)) % DAY / MINUTE
  }

  predicate CalendarMatches(spec: Spec, d: Date) {
    var dayHit, weekHit := d.day in spec.day, d.weekday in spec.weekday;
    d.month in spec.month && if spec.dayStar || spec.weekdayStar then dayHit && weekHit else dayHit || weekHit
  }

  /** Two instants read alike on a local clock. */
  predicate SameReading(z: Zone, t: int, u: int) {
    && LocalMinute(z, t) == LocalMinute(z, u)
    && z.civil(LocalDay(z, t)).year == z.civil(LocalDay(z, u)).year
    && z.civil(LocalDay(z, t)).month == z.civil(LocalDay(z, u)).month
    && z.civil(LocalDay(z, t)).day == z.civil(LocalDay(z, u)).day
  }

  /** No earlier minute within three hours reads the same: a repeated local time counts once. */
  predicate FirstReading(z: Zone, t: int) {
    forall k | 1 <= k <= LOOKBACK / MINUTE :: !SameReading(z, t - k * MINUTE, t)
  }

  predicate FieldsMatch(spec: Spec, z: Zone, t: int) {
    && LocalMinute(z, t) % 60 in spec.minute
    && LocalMinute(z, t) / 60 in spec.hour
    && CalendarMatches(spec, z.civil(LocalDay(z, t)))
  }

  predicate Matches(spec: Spec, z: Zone, t: int) {
    FieldsMatch(spec, z, t) && (z.zoned ==> FirstReading(z, t))
  }

  method MatchesAt(spec: Spec, z: Zone, t: int) returns (ok: bool)
    ensures ok == Matches(spec, z, t)
  {
    var date, minute := z.civil(LocalDay(z, t)), LocalMinute(z, t);
    if !(minute % 60 in spec.minute && minute / 60 in spec.hour && CalendarMatches(spec, date)) { return false; }
    if !z.zoned { return true; }
    var back := MINUTE;
    ghost var k := 1;
    while back <= LOOKBACK
      invariant k >= 1 && back == k * MINUTE
      invariant forall j | 1 <= j < k :: !SameReading(z, t - j * MINUTE, t)
    {
      if SameReading(z, t - back, t) {
        assert SameReading(z, t - k * MINUTE, t);
        return false;
      }
      back, k := back + MINUTE, k + 1;
    }
    ok := true;
  }

  /** Two matching minutes within three hours of each other never read alike on the local clock. */
  lemma RepeatedTimeFiresOnce(spec: Spec, z: Zone, t: int, u: int)
    requires z.zoned && Matches(spec, z, t) && Matches(spec, z, u)
    requires t < u <= t + LOOKBACK && (u - t) % MINUTE == 0
    ensures !SameReading(z, t, u)
  {
    var k := (u - t) / MINUTE;
    assert u - k * MINUTE == t && 1 <= k <= LOOKBACK / MINUTE;
    assert FirstReading(z, u);
  }

  /** No two days of the calendar have the same date. */
  ghost predicate Proper(z: Zone) {
    forall a, b | z.civil(a).year == z.civil(b).year && z.civil(a).month == z.civil(b).month
      && z.civil(a).day == z.civil(b).day :: a == b
  }

  function LocalClock(z: Zone, t: int): int {
    (t + z.offset(t)) / MINUTE
  }

  lemma SameReadingIsSameClock(z: Zone, t: int, u: int)
    requires Proper(z)
    ensures SameReading(z, t, u) <==> LocalClock(z, t) == LocalClock(z, u)
  {
    DayAndMinute(t + z.offset(t));
    DayAndMinute(u + z.offset(u));
  }

  lemma DayAndMinute(l: int)
    ensures l / MINUTE == l / DAY * 1440 + l % DAY / MINUTE && 0 <= l % DAY / MINUTE < 1440
  {
  }

  /** Two whole minutes of one offset bound read alike only if they are close. */
  lemma AlikeIsClose(z: Zone, t: int, u: int)
    requires Proper(z) && ValidZone(z) && SameReading(z, t, u) && t < u
    ensures u - t < z.offset(t) - z.offset(u) + MINUTE && u < t + 2 * DAY + MINUTE
  {
    SameReadingIsSameClock(z, t, u);
  }

  /** Whole minutes apart, and the same on the local clock. */
  predicate Alike(z: Zone, t: int, u: int) {
    (u - t) % MINUTE == 0 && SameReading(z, t, u)
  }

  ghost predicate Earliest(z: Zone, t: int) {
    forall u | u < t :: !Alike(z, u, t)
  }

  /** An instant is a first reading if the one before it that reads alike is more than three hours away. */
  lemma FirstReadingIsGap(z: Zone, t: int)
    ensures FirstReading(z, t) <==> forall u | t - LOOKBACK <= u < t :: !Alike(z, u, t)
  {
    if FirstReading(z, t) {
      forall u | t - LOOKBACK <= u < t ensures !Alike(z, u, t) {
        var k := (t - u) / MINUTE;
        assert (t - u) % MINUTE == 0 ==> 1 <= k <= LOOKBACK / MINUTE && t - k * MINUTE == u;
      }
    }
    if forall u | t - LOOKBACK <= u < t :: !Alike(z, u, t) {
      forall k | 1 <= k <= LOOKBACK / MINUTE ensures !SameReading(z, t - k * MINUTE, t) {
        assert !Alike(z, t - k * MINUTE, t);
      }
    }
  }

  lemma FieldsFollowReading(spec: Spec, z: Zone, t: int, u: int)
    requires Proper(z) && SameReading(z, t, u)
    ensures FieldsMatch(spec, z, t) <==> FieldsMatch(spec, z, u)
  {
  }

  /** Every reading has an earliest minute. */
  lemma {:induction false} EarliestExists(z: Zone, t: int, low: int) returns (u: int)
    requires Proper(z) && ValidZone(z) && low <= t && forall v | v < low :: !Alike(z, v, t)
    ensures u <= t && (u == t || Alike(z, u, t)) && Earliest(z, u)
    decreases t - low
  {
    if Earliest(z, t) {
      u := t;
    } else {
      var v :| v < t && Alike(z, v, t);
      forall w | w < low ensures !Alike(z, w, v) {
        if Alike(z, w, v) { AlikeAlike(z, w, v, t); }
      }
      u := EarliestExists(z, v, low);
      if u != v { AlikeAlike(z, u, v, t); }
    }
  }

  lemma AlikeAlike(z: Zone, t: int, u: int, v: int)
    requires Alike(z, t, u) && Alike(z, u, v)
    ensures Alike(z, t, v)
  {
  }

  /** Two occurrences of one reading with none between them. */
  ghost predicate Successive(z: Zone, u: int, v: int) {
    u < v && Alike(z, u, v) && forall w | u < w < v :: !Alike(z, w, v)
  }

  /** Each occurrence of the reading at `t` after the first comes within three hours of the one before. */
  ghost predicate ClosePacked(z: Zone, t: int) {
    forall u, v | Alike(z, u, t) && Alike(z, v, t) && Successive(z, u, v) :: v - u <= LOOKBACK
  }

  ghost predicate FiresOnce(spec: Spec, z: Zone, t: int) {
    forall u, v | Alike(z, u, t) && Alike(z, v, t) && Matches(spec, z, u) && Matches(spec, z, v) :: u == v
  }

  /** Of the occurrences before `v` one is the last. */
  lemma {:induction false} LastBefore(z: Zone, u: int, v: int) returns (w: int)
    requires u < v && Alike(z, u, v)
    ensures u <= w && Successive(z, w, v)
    decreases v - u
  {
    if x :| u < x < v && Alike(z, x, v) {
      w := LastBefore(z, x, v);
    } else {
      w := u;
    }
  }

  /** The earliest occurrence of a matching local time fires, in every zone. */
  lemma EarliestFires(spec: Spec, z: Zone, t: int) returns (u: int)
    requires Proper(z) && ValidZone(z) && FieldsMatch(spec, z, t)
    ensures u <= t && Alike(z, u, t) && Matches(spec, z, u) && forall v | Alike(z, v, t) :: v >= u
  {
    var low := t - 2 * DAY - MINUTE;
    forall v | v < low ensures !Alike(z, v, t) {
      if Alike(z, v, t) { AlikeIsClose(z, v, t); }
    }
    u := EarliestExists(z, t, low);
    FirstReadingIsGap(z, u);
    FieldsFollowReading(spec, z, u, t);
    forall v | Alike(z, v, t) ensures v >= u { AlikeAlike(z, v, t, u); }
  }

  /** After a gap of more than three hours the reading fires again. */
  lemma GapFiresAgain(spec: Spec, z: Zone, t: int, u: int, v: int)
    requires Proper(z) && ValidZone(z) && FieldsMatch(spec, z, t)
    requires Alike(z, u, t) && Alike(z, v, t) && Successive(z, u, v) && v - u > LOOKBACK
    ensures !FiresOnce(spec, z, t)
  {
    FirstReadingIsGap(z, v);
    FieldsFollowReading(spec, z, v, t);
    var e := EarliestFires(spec, z, t);
    assert e <= u < v && Matches(spec, z, v);
  }

  /** An occurrence within three hours of the one before does not fire. */
  lemma OnlyEarliestFires(spec: Spec, z: Zone, t: int, e: int, v: int)
    requires z.zoned && ClosePacked(z, t) && Alike(z, e, t) && Alike(z, v, t) && e < v
    ensures !Matches(spec, z, v)
  {
    assert Alike(z, t, v) && Alike(z, e, v);
    var w := LastBefore(z, e, v);
    assert Alike(z, w, t);
    FirstReadingIsGap(z, v);
  }

  /**
   * In every zone: a local time that occurs and matches the fields fires only once if and only if each of
   * its occurrences after the first comes within three hours of the one before.
   */
  lemma FiresOnceExactly(spec: Spec, z: Zone, t: int)
    requires z.zoned && Proper(z) && ValidZone(z) && FieldsMatch(spec, z, t)
    ensures FiresOnce(spec, z, t) <==> ClosePacked(z, t)
  {
    forall u, v | Alike(z, u, t) && Alike(z, v, t) && Successive(z, u, v) && v - u > LOOKBACK
      ensures !FiresOnce(spec, z, t)
    {
      GapFiresAgain(spec, z, t, u, v);
    }
    if ClosePacked(z, t) {
      forall u, v | Alike(z, u, t) && Alike(z, v, t) && Matches(spec, z, u) && Matches(spec, z, v) ensures u == v {
        if u < v { OnlyEarliestFires(spec, z, t, u, v); }
        if v < u { OnlyEarliestFires(spec, z, t, v, u); }
      }
    }
  }

  /** And then it fires at its earliest instant. */
  lemma FiresExactlyOnce(spec: Spec, z: Zone, t: int) returns (u: int)
    requires z.zoned && Proper(z) && ValidZone(z) && FieldsMatch(spec, z, t) && ClosePacked(z, t)
    ensures u <= t && Alike(z, u, t) && Matches(spec, z, u)
    ensures forall v | Alike(z, v, t) :: v >= u && (Matches(spec, z, v) ==> v == u)
  {
    FiresOnceExactly(spec, z, t);
    u := EarliestFires(spec, z, t);
  }

  /** It is enough that over any two days the clock is set back by three hours at most in all. */
  lemma SmallFallsArePacked(z: Zone, t: int)
    requires Proper(z) && ValidZone(z)
    requires forall u, v | u < v < u + 2 * DAY + MINUTE :: z.offset(u) - z.offset(v) <= LOOKBACK
    ensures ClosePacked(z, t)
  {
    forall u, v | Alike(z, u, t) && Alike(z, v, t) && Successive(z, u, v) ensures v - u <= LOOKBACK {
      AlikeIsClose(z, u, v);
      WholeMinutesWithin(v - u);
    }
  }

  lemma WholeMinutesWithin(d: int)
    requires d % MINUTE == 0 && d < LOOKBACK + MINUTE
    ensures d <= LOOKBACK
  {
  }

  /** A zone that is set back by four hours at once. */
  function FourHourFall(civil: int -> Date): Zone {
    Zone(civil, (t: int) => if t < 0 then 4 * HOUR else 0, true)
  }

  /** There a local time fires twice: three hours of looking back do not reach the first occurrence. */
  lemma LongFallFiresTwice(civil: int -> Date, spec: Spec)
    requires Proper(FourHourFall(civil)) && FieldsMatch(spec, FourHourFall(civil), 0)
    ensures
      var z := FourHourFall(civil);
      ValidZone(z) && Alike(z, -4 * HOUR, 0) && Matches(spec, z, -4 * HOUR) && Matches(spec, z, 0)
  {
    var z := FourHourFall(civil);
    SameReadingIsSameClock(z, -4 * HOUR, 0);
    FieldsFollowReading(spec, z, -4 * HOUR, 0);
    forall k | 1 <= k <= LOOKBACK / MINUTE ensures !SameReading(z, 0 - k * MINUTE, 0) {
      SameReadingIsSameClock(z, 0 - k * MINUTE, 0);
    }
    forall k | 1 <= k <= LOOKBACK / MINUTE ensures !SameReading(z, -4 * HOUR - k * MINUTE, -4 * HOUR) {
      SameReadingIsSameClock(z, -4 * HOUR - k * MINUTE, -4 * HOUR);
    }
  }

  // ----- Search -----------------------------------------------------------------------------

  /** The three UTC dates around a UTC day, or its own alone when the clock is UTC. */
  predicate SomeDateMatches(spec: Spec, z: Zone, day: int) {
    || CalendarMatches(spec, z.civil(day))
    || (z.zoned && (CalendarMatches(spec, z.civil(day - 1)) || CalendarMatches(spec, z.civil(day + 1))))
  }

  lemma LocalDayNear(z: Zone, t: int)
    requires ValidZone(z)
    ensures t / DAY - 1 <= LocalDay(z, t) <= t / DAY + 1
    ensures !z.zoned ==> LocalDay(z, t) == t / DAY
  {
  }

  /** A day whose three dates all fail holds no matching instant. */
  lemma SkippedDayHasNoMatch(spec: Spec, z: Zone, day: int, t: int)
    requires ValidZone(z) && !SomeDateMatches(spec, z, day) && t / DAY == day
    ensures !Matches(spec, z, t)
  {
    LocalDayNear(z, t);
  }

  function FirstMinute(now: int): int {
    now / MINUTE * MINUTE + MINUTE
  }

  /** The minutes the search ranges over. */
  predicate Candidate(now: int, t: int) {
    FirstMinute(now) <= t <= FirstMinute(now) + HORIZON && t % MINUTE == 0
  }

  datatype Search = NoMinute | Next(at: int) | BadSample

  function Jitter(sample: real, staggerMs: nat): int {
    (sample * staggerMs as real).Floor
  }

  /**
   * The next run: the least matching minute after `now` within the horizon, plus a stagger. Days
   * that cannot match are skipped whole; the result is as if every minute had been tried.
   */
  method NextCronRun(spec: Spec, z: Zone, now: int, staggerMs: nat, sample: real) returns (r: Search)
    requires ValidZone(z)
    ensures r.NoMinute? <==> NoneBefore(spec, z, now, FirstMinute(now) + HORIZON + 1)
    ensures !r.NoMinute? ==> (r.Next? <==> 0.0 <= sample < 1.0)
    ensures r.Next? ==> exists t ::
              && Candidate(now, t) && Matches(spec, z, t) && NoneBefore(spec, z, now, t)
              && t <= r.at && (if staggerMs == 0 then r.at == t else r.at < t + staggerMs)
              && 0.0 <= sample * staggerMs as real - (r.at - t) as real < 1.0
  {
    var last := FirstMinute(now) + HORIZON;
    var checkedDay: Option<int> := None;
    var candidate := FirstMinute(now);
    FirstMinuteIsWhole(now);
    while candidate <= last
      invariant FirstMinute(now) <= candidate && candidate % MINUTE == 0
      invariant NoneBefore(spec, z, now, candidate)
      decreases last + DAY - candidate
    {
      var day := candidate / DAY;
      if checkedDay != Some(day) {
        checkedDay := Some(day);
        if !SomeDateMatches(spec, z, day) {
          SkipDay(spec, z, now, candidate);
          candidate := (day + 1) * DAY;
          continue;
        }
      }
      var hit := MatchesAt(spec, z, candidate);
      if hit {
        assert Candidate(now, candidate);
        if !(0.0 <= sample < 1.0) { return BadSample; }
        JitterBounds(sample, staggerMs);
        return Next(candidate + Jitter(sample, staggerMs));
      }
      SkipMinute(spec, z, now, candidate);
      candidate := candidate + MINUTE;
    }
    r := NoMinute;
  }

  /** No minute of the search below `t` matches. */
  ghost predicate NoneBefore(spec: Spec, z: Zone, now: int, t: int) {
    forall u | Candidate(now, u) && u < t :: !Matches(spec, z, u)
  }

  lemma SkipDay(spec: Spec, z: Zone, now: int, t: int)
    requires ValidZone(z) && NoneBefore(spec, z, now, t) && !SomeDateMatches(spec, z, t / DAY)
    ensures
      var next := (t / DAY + 1) * DAY;
      NoneBefore(spec, z, now, next) && t < next && next % MINUTE == 0
  {
    DayEnds(t);
    forall u | Candidate(now, u) && u < (t / DAY + 1) * DAY ensures !Matches(spec, z, u) {
      if u >= t {
        SameDay(t, u);
        SkippedDayHasNoMatch(spec, z, t / DAY, u);
      }
    }
  }

  lemma DayEnds(t: int)
    ensures t < (t / DAY + 1) * DAY && (t / DAY + 1) * DAY % MINUTE == 0
  {
    assert (t / DAY + 1) * DAY == (t / DAY + 1) * 1440 * MINUTE;
  }

  lemma SameDay(t: int, u: int)
    requires t <= u < (t / DAY + 1) * DAY
    ensures u / DAY == t / DAY
  {
  }

  lemma SkipMinute(spec: Spec, z: Zone, now: int, t: int)
    requires NoneBefore(spec, z, now, t) && !Matches(spec, z, t) && t % MINUTE == 0
    ensures NoneBefore(spec, z, now, t + MINUTE) && (t + MINUTE) % MINUTE == 0
  {
    forall u | Candidate(now, u) && u < t + MINUTE ensures !Matches(spec, z, u) {
      if u >= t { WholeMinutes(t, u); }
    }
  }

  lemma WholeMinutes(t: int, u: int)
    requires t % MINUTE == 0 && u % MINUTE == 0 && t <= u < t + MINUTE
    ensures u == t
  {
  }

  lemma FirstMinuteIsWhole(now: int)
    ensures FirstMinute(now) % MINUTE == 0
  {
  }

  lemma JitterBounds(sample: real, staggerMs: nat)
    requires 0.0 <= sample < 1.0
    ensures 0 <= Jitter(sample, staggerMs)
    ensures if staggerMs == 0 then Jitter(sample, staggerMs) == 0 else Jitter(sample, staggerMs) < staggerMs
  {
    var s := staggerMs as real;
    assert 0.0 <= sample * s;
    if staggerMs > 0 { assert sample * s < 1.0 * s; }
  }

  // ----- Fixed intervals --------------------------------------------------------------------

  function NextEvery(everyMs: int, anchor: int, now: int): int
    requires everyMs > 0
  {
    if anchor > now then anchor else anchor + ((now - anchor) / everyMs + 1) * everyMs
  }

  /** The next run lies on the anchor's grid, after `now`, with no grid point between. */
  lemma NextEveryIsNext(everyMs: int, anchor: int, now: int, u: int)
    requires everyMs > 0
    ensures NextEvery(everyMs, anchor, now) > now
    ensures OnGrid(anchor, everyMs, NextEvery(everyMs, anchor, now))
    ensures OnGrid(anchor, everyMs, u) && u > now ==> u >= NextEvery(everyMs, anchor, now)
  {
    if anchor > now {
      assert Nth(anchor, everyMs, 0) == anchor;
      if OnGrid(anchor, everyMs, u) {
        var k: nat :| Nth(anchor, everyMs, k) == u;
        if k > 0 { NthMonotone(anchor, everyMs, 0, k); }
      }
    } else {
      var n := (now - anchor) / everyMs;
      assert Nth(anchor, everyMs, n) <= now < Nth(anchor, everyMs, n) + everyMs;
      assert Nth(anchor, everyMs, n + 1) == NextEvery(everyMs, anchor, now);
      if OnGrid(anchor, everyMs, u) && now < u < NextEvery(everyMs, anchor, now) {
        GridGap(anchor, everyMs, n, u);
      }
    }
  }
}
