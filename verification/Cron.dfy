/**
 NextRun (service/backup/cron.go) and isDue (scheduler/due.go).

 Times are nanoseconds. A cron expression is given by the value sets its fields parse to; the calendar is a
 parameter that maps a time to its minute, hour, day, month and weekday.
 */
module Cron {
  import opened Prelude

  const MINUTE: int := 60_000_000_000
  const WINDOW: int := 366 * 24 * 60 * MINUTE

  datatype Civil = Civil(minute: int, hour: int, day: int, month: int, weekday: int)

  datatype Spec = Spec(
    minutes: set<int>, hours: set<int>, days: set<int>, months: set<int>, weekdays: set<int>,
    anyDay: bool, anyWeekday: bool)

  /** When both the day and the weekday are restricted, either of them is enough. */
  predicate DayMatches(s: Spec, c: Civil) {
    if s.anyDay && s.anyWeekday then true
    else if s.anyDay then c.weekday in s.weekdays
    else if s.anyWeekday then c.day in s.days
    else c.day in s.days || c.weekday in s.weekdays
  }

  predicate Matches(s: Spec, c: Civil) {
    c.month in s.months && DayMatches(s, c) && c.hour in s.hours && c.minute in s.minutes
  }

  /** A cron tick: a whole minute at which the expression matches. */
  predicate Tick(s: Spec, calendar: int -> Civil, t: int) {
    t % MINUTE == 0 && Matches(s, calendar(t))
  }

  /** A tick among the times NextRun looks at. */
  ghost predicate TickSoon(s: Spec, calendar: int -> Civil, t: int, after: int) {
    after < t < after + WINDOW && Tick(s, calendar, t)
  }

  /** A tick after a base time and not after now. */
  ghost predicate TickBy(s: Spec, calendar: int -> Civil, t: int, base: int, now: int) {
    base < t <= now && Tick(s, calendar, t)
  }

  /** The least tick strictly after a time, if it comes within 366 days. */
  ghost predicate IsNext(s: Spec, calendar: int -> Civil, after: int, next: Option<int>) {
    match next
    case Some(t) =>
      TickSoon(s, calendar, t, after) && forall u :: TickSoon(s, calendar, u, after) ==> t <= u
    case None => forall u :: !TickSoon(s, calendar, u, after)
  }

  /** The first tick at or after t, before the limit. */
  function Search(s: Spec, calendar: int -> Civil, t: int, limit: int): (next: Option<int>)
    requires t % MINUTE == 0
    ensures next.Some? ==> t <= next.value < limit && Tick(s, calendar, next.value)
    ensures forall u :: t <= u < limit && Tick(s, calendar, u) ==> next.Some? && next.value <= u
    decreases limit - t
  {
    if t >= limit then None
    else if Matches(s, calendar(t)) then Some(t)
    else
      var rest := Search(s, calendar, t + MINUTE, limit);
      assert forall u :: t < u < t + MINUTE ==> u % MINUTE != 0;
      rest
  }

  function NextRun(s: Option<Spec>, calendar: int -> Civil, after: int): Option<int> {
    if s.None? then None
    else Search(s.value, calendar, after - after % MINUTE + MINUTE, after + WINDOW)
  }

  /** An expression that does not parse has no next run; otherwise it is the least tick in the window. */
  lemma NextRunIsNext(s: Spec, calendar: int -> Civil, after: int)
    ensures IsNext(s, calendar, after, NextRun(Some(s), calendar, after))
  {
    var start := after - after % MINUTE + MINUTE;
    assert start % MINUTE == 0;
    var next := Search(s, calendar, start, after + WINDOW);
    forall u | TickSoon(s, calendar, u, after) ensures start <= u {
      if u < start {
        NoMinuteBetween(after, u);
      }
    }
  }

  lemma NoMinuteBetween(after: int, u: int)
    requires u % MINUTE == 0 && after < u
    ensures u >= after - after % MINUTE + MINUTE
  {
    assert u / MINUTE * MINUTE == u;
    assert after / MINUTE * MINUTE == after - after % MINUTE;
    assert u / MINUTE > after / MINUTE;
  }

  lemma SearchStep(s: Spec, calendar: int -> Civil, t: int, limit: int)
    requires t % MINUTE == 0 && t < limit
    ensures (t + MINUTE) % MINUTE == 0
    ensures Search(s, calendar, t, limit)
         == if Matches(s, calendar(t)) then Some(t) else Search(s, calendar, t + MINUTE, limit)
  {
  }

  /** The search minute by minute. */
  method ComputeNextRun(s: Option<Spec>, calendar: int -> Civil, after: int) returns (next: Option<int>)
    ensures next == NextRun(s, calendar, after)
  {
    if s.None? { return None; }
    var spec := s.value;
    var t := after - after % MINUTE + MINUTE;
    var limit := after + WINDOW;
    while t < limit
      invariant t % MINUTE == 0
      invariant NextRun(s, calendar, after) == Search(spec, calendar, t, limit)
      decreases limit - t
    {
      SearchStep(spec, calendar, t, limit);
      var c := calendar(t);
      if c.month !in spec.months {
        t := t + MINUTE;
        continue;
      }
      var dayMatch, weekdayMatch := c.day in spec.days, c.weekday in spec.weekdays;
      var dayOk;
      if spec.anyDay && spec.anyWeekday { dayOk := true; }
      else if spec.anyDay { dayOk := weekdayMatch; }
      else if spec.anyWeekday { dayOk := dayMatch; }
      else { dayOk := dayMatch || weekdayMatch; }
      if dayOk && c.hour in spec.hours && c.minute in spec.minutes { return Some(t); }
      t := t + MINUTE;
    }
    return None;
  }

  // ---------- isDue ----------

  function Base(last: Option<int>, created: int): int {
    if last.Some? then last.value else created
  }

  predicate IsDue(s: Option<Spec>, calendar: int -> Civil, last: Option<int>, created: int, now: int) {
    var next := NextRun(s, calendar, Base(last, created));
    next.Some? && next.value <= now
  }

  /** Whether a tick lies after the base and not after now. */
  ghost predicate TickPassed(s: Spec, calendar: int -> Civil, base: int, now: int) {
    exists t :: TickBy(s, calendar, t, base, now)
  }

  /** A task is due exactly when a tick lies between its base and now, and within 366 days of the base. */
  lemma IsDueExactly(s: Spec, calendar: int -> Civil, last: Option<int>, created: int, now: int)
    ensures var base := Base(last, created);
      IsDue(Some(s), calendar, last, created, now)
      <==> exists t :: TickBy(s, calendar, t, base, now) && t < base + WINDOW
  {
    var base := Base(last, created);
    NextRunIsNext(s, calendar, base);
    var next := NextRun(Some(s), calendar, base);
    if next.Some? && next.value <= now {
      assert TickBy(s, calendar, next.value, base, now);
    }
    forall t | TickBy(s, calendar, t, base, now) && t < base + WINDOW
      ensures next.Some? && next.value <= now
    {
      assert TickSoon(s, calendar, t, base);
    }
  }

  /**
   Its documentation says more: due when a schedule time has passed. That holds at every time exactly when
   the first tick after the base comes within 366 days, or none ever comes.
   */
  lemma IsDueAsDocumented(s: Spec, calendar: int -> Civil, last: Option<int>, created: int)
    ensures var base := Base(last, created);
      (forall now :: IsDue(Some(s), calendar, last, created, now) <==> TickPassed(s, calendar, base, now))
      <==> (NextRun(Some(s), calendar, base).Some? || forall t :: t > base ==> !Tick(s, calendar, t))
  {
    var base := Base(last, created);
    NextRunIsNext(s, calendar, base);
    var next := NextRun(Some(s), calendar, base);
    if next.Some? {
      forall now ensures IsDue(Some(s), calendar, last, created, now) <==> TickPassed(s, calendar, base, now) {
        if next.value <= now { assert TickBy(s, calendar, next.value, base, now); }
        forall t | TickBy(s, calendar, t, base, now) ensures next.value <= t {
          if t < next.value { assert TickSoon(s, calendar, t, base); }
        }
      }
    } else {
      forall t | t > base && Tick(s, calendar, t)
        ensures !(IsDue(Some(s), calendar, last, created, t) <==> TickPassed(s, calendar, base, t))
      {
        assert TickBy(s, calendar, t, base, t);
      }
      if forall t :: t > base ==> !Tick(s, calendar, t) {
        forall now ensures !TickPassed(s, calendar, base, now) {
          forall t ensures !TickBy(s, calendar, t, base, now) {}
        }
      }
    }
  }

  // ---------- an expression whose ticks are too far apart ----------

  const DAY: int := 24 * 60 * MINUTE

  /** What `0 0 29 2 *` parses to. */
  const LEAP_DAY := Spec({0}, {0}, {29}, {2}, {0, 1, 2, 3, 4, 5, 6}, false, true)

  /** 29 February comes once in 1461 days, as it does from 1901 to 2099, and its midnight once in each. */
  ghost predicate LeapDaysApart(calendar: int -> Civil) {
    forall t, u :: Tick(LEAP_DAY, calendar, t) && Tick(LEAP_DAY, calendar, u) && t < u ==> u - t >= 1461 * DAY
  }

  /**
   The UTC calendar from 1901 to 2099, for times counted from 1 March 2000: four years of 1461 days, each from
   March to February, the last with a 29 February.
   */
  function Utc(t: int): Civil {
    var inYear := DayOfYear(t / DAY % 1461);
    Civil(t / MINUTE % 60, t / (60 * MINUTE) % 24, inYear - (153 * MarchMonth(inYear) + 2) / 5 + 1,
          if MarchMonth(inYear) < 10 then MarchMonth(inYear) + 3 else MarchMonth(inYear) - 9, (t / DAY + 3) % 7)
  }

  function DayOfYear(day: int): int { day - 365 * (if day / 365 < 4 then day / 365 else 3) }

  /** The month of a day of a year, with March as month 0. */
  function MarchMonth(inYear: int): int { (5 * inYear + 2) / 153 }

  lemma LeapDayOfCycle(day: int)
    requires 0 <= day < 1461
    ensures DayOfYear(day) == 365 <==> day == 1460
  {
    assert day == day / 365 * 365 + day % 365;
  }

  lemma Midnight(t: int)
    requires t % MINUTE == 0 && t / MINUTE % 60 == 0 && t / (60 * MINUTE) % 24 == 0
    ensures t == t / DAY * DAY
  {
    var m := t / MINUTE;
    assert t == m * MINUTE && m == m / 60 * 60;
    var h := m / 60;
    assert t == h * (60 * MINUTE) && t / (60 * MINUTE) == h;
    assert h == h / 24 * 24;
    assert t == h / 24 * DAY;
  }

  lemma UtcLeapDay(t: int)
    requires Tick(LEAP_DAY, Utc, t)
    ensures t == t / DAY * DAY && t / DAY % 1461 == 1460
  {
    Midnight(t);
    var inYear := DayOfYear(t / DAY % 1461);
    assert MarchMonth(inYear) == 11 && inYear == 365;
    LeapDayOfCycle(t / DAY % 1461);
  }

  lemma SameDayOfCycle(d: int, e: int)
    requires d % 1461 == e % 1461 && d < e
    ensures e - d >= 1461
  {
    assert d == d / 1461 * 1461 + d % 1461 && e == e / 1461 * 1461 + e % 1461;
  }

  lemma UtcLeapDaysApart()
    ensures LeapDaysApart(Utc)
  {
    forall t, u | Tick(LEAP_DAY, Utc, t) && Tick(LEAP_DAY, Utc, u) && t < u ensures u - t >= 1461 * DAY {
      UtcLeapDay(t);
      UtcLeapDay(u);
      SameDayOfCycle(t / DAY, u / DAY);
    }
  }

  /** 29 February 2004, 2008, ... are ticks. */
  lemma UtcHasLeapDays(k: int)
    ensures Tick(LEAP_DAY, Utc, (1461 * k + 1460) * DAY)
  {
    var d := 1461 * k + 1460;
    WholeDay(d);
    assert d % 1461 == 1460;
    LeapDayOfCycle(1460);
    assert MarchMonth(365) == 11;
  }

  lemma WholeDay(d: int)
    ensures var t := d * DAY;
      t / DAY == d && t % MINUTE == 0 && t / MINUTE % 60 == 0 && t / (60 * MINUTE) % 24 == 0
  {
    var t := d * DAY;
    assert t == d * 24 * (60 * MINUTE) && t == d * 24 * 60 * MINUTE;
    assert t / MINUTE == d * 24 * 60 && t / (60 * MINUTE) == d * 24;
  }

  /** Less than 1095 days after one 29 February the next is more than 366 days away. */
  lemma NoLeapDaySoon(calendar: int -> Civil, tick: int, base: int)
    requires LeapDaysApart(calendar) && Tick(LEAP_DAY, calendar, tick) && tick <= base < tick + 1095 * DAY
    ensures NextRun(Some(LEAP_DAY), calendar, base).None?
  {
    NextRunIsNext(LEAP_DAY, calendar, base);
    forall t ensures !TickSoon(LEAP_DAY, calendar, t, base) {
      assert Tick(LEAP_DAY, calendar, t) && tick < t ==> t - tick >= 1461 * DAY;
    }
  }

  /** 29 February 2004 and, four years apart, those before and after it. */
  function LeapDay(k: int): int { (1461 * k + 1460) * DAY }

  lemma LeapDayAfter(k: int)
    ensures LeapDay(k + 1) == LeapDay(k) + 1461 * DAY
  {
    assert (1461 * (k + 1) + 1460) * DAY == (1461 * k + 1460) * DAY + 1461 * DAY;
  }

  /**
   So a task for every 29 February that ran on one, or up to three years later, is not due on the next, nor at
   any other time, although the next one passes.
   */
  lemma LeapDayIsMissed(k: int, last: int, created: int, now: int)
    requires LeapDay(k) <= last < LeapDay(k) + 1095 * DAY
    ensures !IsDue(Some(LEAP_DAY), Utc, Some(last), created, now)
    ensures now >= LeapDay(k + 1) ==> TickPassed(LEAP_DAY, Utc, last, now)
  {
    UtcLeapDaysApart();
    UtcHasLeapDays(k);
    UtcHasLeapDays(k + 1);
    NoLeapDaySoon(Utc, LeapDay(k), last);
    LeapDayAfter(k);
    if now >= LeapDay(k + 1) { assert TickBy(LEAP_DAY, Utc, LeapDay(k + 1), last, now); }
  }

  // ---------- what everyday expressions give ----------

  const ALL_DAYS := set d: int | 1 <= d <= 31
  const ALL_MONTHS := set k: int | 1 <= k <= 12
  const ALL_WEEKDAYS := set w: int | 0 <= w <= 6

  /** What `m h * * *`, `m h * * w`, `m h d * *` and `m h d * w` parse to. */
  function Daily(m: int, h: int): Spec {
    Spec({m}, {h}, ALL_DAYS, ALL_MONTHS, ALL_WEEKDAYS, true, true)
  }

  function Weekly(m: int, h: int, w: int): Spec {
    Spec({m}, {h}, ALL_DAYS, ALL_MONTHS, {w}, true, false)
  }

  function Monthly(m: int, h: int, d: int): Spec {
    Spec({m}, {h}, {d}, ALL_MONTHS, ALL_WEEKDAYS, false, true)
  }

  function DayOrWeekday(m: int, h: int, d: int, w: int): Spec {
    Spec({m}, {h}, {d}, ALL_MONTHS, {w}, false, false)
  }

  /** The clock shows h:m, with no seconds. */
  predicate ClockShows(t: int, m: int, h: int) { t % DAY == (60 * h + m) * MINUTE }

  predicate OnWeekday(t: int, w: int) { (t / DAY + 3) % 7 == w }

  predicate OnDay(t: int, d: int) { Utc(t).day == d }

  lemma UtcClock(t: int, m: int, h: int)
    requires 0 <= m < 60 && 0 <= h < 24
    ensures ClockShows(t, m, h) <==> t % MINUTE == 0 && t / MINUTE % 60 == m && t / (60 * MINUTE) % 24 == h
  {
    var q := t / MINUTE;
    assert t == q * MINUTE + t % MINUTE;
    assert q == q / 60 * 60 + q % 60 && t / (60 * MINUTE) == q / 60;
    assert q / 60 == q / 1440 * 24 + q / 60 % 24 && t / DAY == q / 1440;
    assert t % DAY == (q / 60 % 24 * 60 + q % 60) * MINUTE + t % MINUTE;
  }

  lemma UtcMonth(t: int)
    ensures 1 <= Utc(t).month <= 12
  {
    var day := t / DAY % 1461;
    assert 0 <= DayOfYear(day) <= 365;
    assert 0 <= MarchMonth(DayOfYear(day)) <= 11;
  }

  /** When such expressions match. */
  lemma EverydayTicks(t: int, m: int, h: int, d: int, w: int)
    requires 0 <= m < 60 && 0 <= h < 24
    ensures Tick(Daily(m, h), Utc, t) <==> ClockShows(t, m, h)
    ensures Tick(Weekly(m, h, w), Utc, t) <==> ClockShows(t, m, h) && OnWeekday(t, w)
    ensures Tick(Monthly(m, h, d), Utc, t) <==> ClockShows(t, m, h) && OnDay(t, d)
    ensures Tick(DayOrWeekday(m, h, d, w), Utc, t) <==> ClockShows(t, m, h) && (OnDay(t, d) || OnWeekday(t, w))
  {
    UtcClock(t, m, h);
    UtcMonth(t);
  }

  /** The same clock time some days later. */
  lemma DaysLater(t: int, k: int, m: int, h: int)
    requires ClockShows(t, m, h)
    ensures ClockShows(t + k * DAY, m, h) && (t + k * DAY) / DAY == t / DAY + k
  {
    assert t == t / DAY * DAY + t % DAY;
    assert t + k * DAY == (t / DAY + k) * DAY + t % DAY;
    QuotientOf(t + k * DAY, t / DAY + k, t % DAY);
  }

  lemma QuotientOf(t: int, q: int, r: int)
    requires t == q * DAY + r && 0 <= r < DAY
    ensures t / DAY == q && t % DAY == r
  {
  }

  lemma ClockComes(after: int, m: int, h: int) returns (t: int)
    requires 0 <= m < 60 && 0 <= h < 24
    ensures after < t <= after + DAY && ClockShows(t, m, h)
  {
    var time := (60 * h + m) * MINUTE;
    assert 0 <= time < DAY;
    t := after - after % DAY + time;
    assert after == after / DAY * DAY + after % DAY;
    QuotientOf(t, after / DAY, time);
    if t <= after {
      DaysLater(t, 1, m, h);
      t := t + DAY;
    }
  }

  /** A daily expression gives the next time the clock shows it, within a day. */
  lemma DailyRuns(after: int, m: int, h: int)
    requires 0 <= m < 60 && 0 <= h < 24
    ensures var next := NextRun(Some(Daily(m, h)), Utc, after);
      next.Some? && after < next.value <= after + DAY && next.value % DAY == (60 * h + m) * MINUTE
  {
    var t := ClockComes(after, m, h);
    NextRunIsNext(Daily(m, h), Utc, after);
    EverydayTicks(t, m, h, 1, 0);
    assert TickSoon(Daily(m, h), Utc, t, after);
    EverydayTicks(NextRun(Some(Daily(m, h)), Utc, after).value, m, h, 1, 0);
  }

  lemma WeekdayComes(after: int, m: int, h: int, w: int) returns (t: int)
    requires 0 <= m < 60 && 0 <= h < 24 && 0 <= w <= 6
    ensures after < t <= after + 7 * DAY && ClockShows(t, m, h) && OnWeekday(t, w)
  {
    var first := ClockComes(after, m, h);
    var k := (w - (first / DAY + 3)) % 7;
    DaysLater(first, k, m, h);
    t := first + k * DAY;
    assert k * DAY <= 6 * DAY;
  }

  /** A weekly one gives the next such time on the weekday, within seven days; 1 March 2000 is a Wednesday. */
  lemma WeeklyRuns(after: int, m: int, h: int, w: int)
    requires 0 <= m < 60 && 0 <= h < 24 && 0 <= w <= 6
    ensures var next := NextRun(Some(Weekly(m, h, w)), Utc, after);
      && next.Some? && after < next.value <= after + 7 * DAY
      && next.value % DAY == (60 * h + m) * MINUTE && (next.value / DAY + 3) % 7 == w
  {
    var t := WeekdayComes(after, m, h, w);
    NextRunIsNext(Weekly(m, h, w), Utc, after);
    EverydayTicks(t, m, h, 1, w);
    assert TickSoon(Weekly(m, h, w), Utc, t, after);
    EverydayTicks(NextRun(Some(Weekly(m, h, w)), Utc, after).value, m, h, 1, w);
  }

  predicate StartsYear(day: int) { day % 1461 in {0, 365, 730, 1095} }

  /** The year of a day, from 1 March on, and the year after it. */
  lemma YearOf(day: int) returns (start: int, next: int)
    ensures StartsYear(start) && StartsYear(next) && start <= day < next <= start + 366
  {
    var r := day % 1461;
    start := day - DayOfYear(r);
    assert r == r / 365 * 365 + r % 365;
    var j := if r / 365 < 4 then r / 365 else 3;
    assert start == day / 1461 * 1461 + 365 * j;
    RemainderOf(start, day / 1461, 365 * j);
    if j < 3 {
      next := start + 365;
      RemainderOf(next, day / 1461, 365 * j + 365);
    } else {
      next := start + 366;
      RemainderOf(next, day / 1461 + 1, 0);
    }
  }

  lemma RemainderOf(n: int, q: int, r: int)
    requires n == q * 1461 + r && 0 <= r < 1461
    ensures n % 1461 == r
  {
  }

  lemma DayInYear(start: int, i: int)
    requires StartsYear(start) && 0 <= i < 365
    ensures DayOfYear((start + i) % 1461) == i
  {
    RemainderOf(start + i, start / 1461, start % 1461 + i);
  }

  /** Both March and July have 31 days; July begins 122 days after March. */
  lemma DayOfMarchAndJuly(start: int, d: int, t: int)
    requires StartsYear(start) && 1 <= d <= 31
    ensures t / DAY == start + d - 1 ==> OnDay(t, d)
    ensures t / DAY == start + 122 + d - 1 ==> OnDay(t, d)
  {
    DayInYear(start, d - 1);
    DayInYear(start, 122 + d - 1);
    assert MarchMonth(d - 1) == 0 && MarchMonth(122 + d - 1) == 4;
  }

  lemma ClockOnDay(day: int, m: int, h: int) returns (t: int)
    requires 0 <= m < 60 && 0 <= h < 24
    ensures ClockShows(t, m, h) && t / DAY == day
  {
    t := day * DAY + (60 * h + m) * MINUTE;
    assert 0 <= (60 * h + m) * MINUTE < DAY;
    QuotientOf(t, day, (60 * h + m) * MINUTE);
  }

  lemma DaysApart(t: int, u: int)
    ensures u / DAY > t / DAY ==> u > t
    ensures u <= t ==> u / DAY <= t / DAY
    ensures u / DAY <= t / DAY + 365 ==> u < t + WINDOW
  {
    assert t == t / DAY * DAY + t % DAY && u == u / DAY * DAY + u % DAY;
  }

  lemma DayComes(after: int, m: int, h: int, d: int) returns (t: int)
    requires 0 <= m < 60 && 0 <= h < 24 && 1 <= d <= 31
    ensures after < t < after + WINDOW && ClockShows(t, m, h) && OnDay(t, d)
  {
    var start, next := YearOf(after / DAY);
    t := ClockOnDay(start + d - 1, m, h);
    DayOfMarchAndJuly(start, d, t);
    DaysApart(after, t);
    if t <= after {
      t := ClockOnDay(start + 122 + d - 1, m, h);
      DayOfMarchAndJuly(start, d, t);
      DaysApart(after, t);
      if t <= after {
        t := ClockOnDay(next + d - 1, m, h);
        DayOfMarchAndJuly(next, d, t);
        DaysApart(after, t);
      }
    }
  }

  /** A monthly one gives the next such time on the day of the month. */
  lemma MonthlyRuns(after: int, m: int, h: int, d: int)
    requires 0 <= m < 60 && 0 <= h < 24 && 1 <= d <= 31
    ensures var next := NextRun(Some(Monthly(m, h, d)), Utc, after);
      && next.Some? && after < next.value && ClockShows(next.value, m, h) && OnDay(next.value, d)
      && forall u :: after < u < next.value && ClockShows(u, m, h) ==> !OnDay(u, d)
  {
    var t := DayComes(after, m, h, d);
    var next := NextRun(Some(Monthly(m, h, d)), Utc, after);
    NextRunIsNext(Monthly(m, h, d), Utc, after);
    EverydayTicks(t, m, h, d, 0);
    assert TickSoon(Monthly(m, h, d), Utc, t, after);
    EverydayTicks(next.value, m, h, d, 0);
    forall u | after < u < next.value && ClockShows(u, m, h) ensures !OnDay(u, d) {
      EverydayTicks(u, m, h, d, 0);
      assert !TickSoon(Monthly(m, h, d), Utc, u, after);
    }
  }

  /** With both the day and the weekday given, whichever comes first. */
  lemma DayOrWeekdayRuns(after: int, m: int, h: int, d: int, w: int)
    requires 0 <= m < 60 && 0 <= h < 24 && 1 <= d <= 31 && 0 <= w <= 6
    ensures var byDay := NextRun(Some(Monthly(m, h, d)), Utc, after);
      var byWeekday := NextRun(Some(Weekly(m, h, w)), Utc, after);
      && byDay.Some? && byWeekday.Some?
      && NextRun(Some(DayOrWeekday(m, h, d, w)), Utc, after)
         == if byDay.value <= byWeekday.value then byDay else byWeekday
  {
    MonthlyRuns(after, m, h, d);
    WeeklyRuns(after, m, h, w);
    NextRunIsNext(Monthly(m, h, d), Utc, after);
    NextRunIsNext(Weekly(m, h, w), Utc, after);
    NextRunIsNext(DayOrWeekday(m, h, d, w), Utc, after);
    var byDay := NextRun(Some(Monthly(m, h, d)), Utc, after);
    var byWeekday := NextRun(Some(Weekly(m, h, w)), Utc, after);
    forall u ensures TickSoon(DayOrWeekday(m, h, d, w), Utc, u, after)
      <==> TickSoon(Monthly(m, h, d), Utc, u, after) || TickSoon(Weekly(m, h, w), Utc, u, after)
    {
      EverydayTicks(u, m, h, d, w);
    }
    var next := NextRun(Some(DayOrWeekday(m, h, d, w)), Utc, after);
    assert TickSoon(DayOrWeekday(m, h, d, w), Utc, byDay.value, after);
    assert TickSoon(DayOrWeekday(m, h, d, w), Utc, byWeekday.value, after);
  }
}
