/** What a schedule's fields mean, day field by day field, without naming how a minute is matched. */
module CronDays {
  import opened Wrappers
  import opened Cron

  const EVERY_DAY: set<int> := set d | 1 <= d <= 31
  const EVERY_WEEKDAY: set<int> := set d | 0 <= d <= 6

  /** The calendar numbers days of the month from 1 to 31 and weekdays from 0 to 6. */
  ghost predicate Civil(z: Zone) {
    forall day :: z.civil(day).day in EVERY_DAY && z.civil(day).weekday in EVERY_WEEKDAY
  }

  /** The schedule with its weekday field written as a star. */
  function AnyWeekday(spec: Spec): Spec {
    spec.(weekday := EVERY_WEEKDAY, weekdayStar := true)
  }

  /** The schedule with its day-of-month field written as a star. */
  function AnyDay(spec: Spec): Spec {
    spec.(day := EVERY_DAY, dayStar := true)
  }

  predicate BothRestricted(spec: Spec) {
    !spec.dayStar && !spec.weekdayStar
  }

  /**
   * With both day fields restricted a minute matches when either of them alone would let it; with a star
   * in one of them, when both alone would.
   */
  lemma DayFieldsCombine(spec: Spec, z: Zone, t: int)
    requires Civil(z)
    ensures BothRestricted(spec) ==>
              (Matches(spec, z, t) <==> Matches(AnyWeekday(spec), z, t) || Matches(AnyDay(spec), z, t))
    ensures !BothRestricted(spec) ==>
              (Matches(spec, z, t) <==> Matches(AnyWeekday(spec), z, t) && Matches(AnyDay(spec), z, t))
  {
    var d := z.civil(LocalDay(z, t));
    assert d.day in EVERY_DAY && d.weekday in EVERY_WEEKDAY;
  }

  /** The local time: this day, hour and minute, and less than a minute more. */
  ghost predicate Reads(z: Zone, t: int, day: int, hour: int, minute: int) {
    && 0 <= hour < 24 && 0 <= minute < 60
    && 0 <= t + z.offset(t) - (day * DAY + hour * HOUR + minute * MINUTE) < MINUTE
  }

  lemma LocalParts(z: Zone, t: int, day: int, hour: int, minute: int)
    requires Reads(z, t, day, hour, minute)
    ensures LocalDay(z, t) == day && LocalMinute(z, t) % 60 == minute && LocalMinute(z, t) / 60 == hour
  {
    var within := t + z.offset(t) - day * DAY;
    assert 0 <= within < DAY && within / MINUTE == hour * 60 + minute;
    DivisionIsUnique(t + z.offset(t), day, within);
  }

  lemma DivisionIsUnique(l: int, day: int, within: int)
    requires l == day * DAY + within && 0 <= within < DAY
    ensures l / DAY == day && l % DAY == within
  {
  }

  /** In a zone: no whole number of minutes, up to three hours, takes the clock back to the same reading. */
  ghost predicate NoneAlikeBefore(z: Zone, t: int) {
    z.zoned ==> forall u | t - 3 * 60 * 60_000 <= u < t :: !Alike(z, u, t)
  }

  /** With one day field a star, a minute matches by its minute, hour, month and the other day field. */
  lemma OneDayField(spec: Spec, z: Zone, t: int, day: int, hour: int, minute: int)
    requires Civil(z) && Reads(z, t, day, hour, minute)
    ensures
      var d := z.civil(day);
      var timely := minute in spec.minute && hour in spec.hour && d.month in spec.month && NoneAlikeBefore(z, t);
      && (Matches(AnyWeekday(spec), z, t) <==> timely && d.day in spec.day)
      && (Matches(AnyDay(spec), z, t) <==> timely && d.weekday in spec.weekday)
  {
    LocalParts(z, t, day, hour, minute);
    FirstReadingIsGap(z, t);
    assert z.civil(day).day in EVERY_DAY && z.civil(day).weekday in EVERY_WEEKDAY;
  }

  /** And so for any schedule: by either of two restricted day fields, or by both fields otherwise. */
  lemma AnySchedule(spec: Spec, z: Zone, t: int, day: int, hour: int, minute: int)
    requires Civil(z) && Reads(z, t, day, hour, minute)
    ensures
      var d := z.civil(day);
      Matches(spec, z, t) <==>
        && minute in spec.minute && hour in spec.hour && d.month in spec.month && NoneAlikeBefore(z, t)
        && (d.day in spec.day || d.weekday in spec.weekday)
        && (BothRestricted(spec) || (d.day in spec.day && d.weekday in spec.weekday))
  {
    DayFieldsCombine(spec, z, t);
    OneDayField(spec, z, t, day, hour, minute);
  }

  // ----- The next run -----------------------------------------------------------------------

  /** The first matching minute of the search. */
  ghost predicate IsNext(spec: Spec, z: Zone, now: int, t: int) {
    Candidate(now, t) && Matches(spec, z, t) && NoneBefore(spec, z, now, t)
  }

  /** The search tries every whole minute after now, up to 366 days. */
  lemma SearchedMinutes(now: int, t: int)
    ensures Candidate(now, t) ==> t > now && t % 60_000 == 0 && t <= now + 366 * 24 * 60 * 60_000 + 60_000
    ensures now < t <= now + 366 * 24 * 60 * 60_000 && t % 60_000 == 0 ==> Candidate(now, t)
  {
    assert FirstMinute(now) - MINUTE <= now < FirstMinute(now) && FirstMinute(now) % MINUTE == 0;
  }

  /** A schedule that matches wherever another does never runs later. */
  lemma {:induction false} MatchingMoreIsNeverLater(spec: Spec, more: Spec, z: Zone, now: int, t: int)
    requires IsNext(spec, z, now, t) && forall u :: Matches(spec, z, u) ==> Matches(more, z, u)
    ensures exists t' :: t' <= t && IsNext(more, z, now, t')
  {
    LeastMatch(more, z, now, t);
  }

  lemma {:induction false} LeastMatch(spec: Spec, z: Zone, now: int, t: int)
    requires Candidate(now, t) && Matches(spec, z, t)
    ensures exists t' :: t' <= t && IsNext(spec, z, now, t')
    decreases t - now
  {
    if NoneBefore(spec, z, now, t) {
      assert IsNext(spec, z, now, t);
    } else {
      var u :| Candidate(now, u) && u < t && Matches(spec, z, u);
      SearchedMinutes(now, u);
      LeastMatch(spec, z, now, u);
    }
  }

  /** With both day fields restricted, allowing more days of the month or more weekdays never makes a run later. */
  lemma MoreDaysAreNeverLater(spec: Spec, days: set<int>, weekdays: set<int>, z: Zone, now: int, t: int)
    requires Civil(z) && BothRestricted(spec) && IsNext(spec, z, now, t)
    ensures
      var more := spec.(day := spec.day + days, weekday := spec.weekday + weekdays);
      exists t' :: t' <= t && IsNext(more, z, now, t')
  {
    var more := spec.(day := spec.day + days, weekday := spec.weekday + weekdays);
    forall u | Matches(spec, z, u) ensures Matches(more, z, u) {
      ReadingExists(z, u);
      var day, hour, minute :| Reads(z, u, day, hour, minute);
      AnySchedule(spec, z, u, day, hour, minute);
      AnySchedule(more, z, u, day, hour, minute);
    }
    MatchingMoreIsNeverLater(spec, more, z, now, t);
  }

  lemma ReadingExists(z: Zone, t: int)
    ensures exists day, hour, minute :: Reads(z, t, day, hour, minute)
  {
    var l := t + z.offset(t);
    var within := l % DAY;
    assert l == l / DAY * DAY + within;
    assert 0 <= within / HOUR < 24 && within == within / HOUR * HOUR + within % HOUR;
    assert 0 <= within % HOUR / MINUTE < 60;
    assert Reads(z, t, l / DAY, within / HOUR, within % HOUR / MINUTE);
  }
}
