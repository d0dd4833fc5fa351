/**
 * Python's `datetime` on the proleptic Gregorian calendar, as far as the
 * pipeline uses it: calendar dates, naive date-times with microsecond
 * resolution, `timedelta` arithmetic and comparison.  A date-time is a date
 * plus the microseconds elapsed since its midnight; `Instant` numbers every
 * microsecond on one line so that arithmetic and order can be stated there.
 */
module Calendar {
  const SECOND: int := 1_000_000
  const MINUTE: int := 60_000_000
  const HOUR: int := 3_600_000_000
  const DAY: int := 86_400_000_000

  datatype Date = Date(year: int, month: int, day: int)

  /** A naive `datetime`: `micros` counts microseconds since the date's midnight. */
  datatype DateTime = DateTime(date: Date, micros: int)

  predicate IsLeap(y: int) {
    y % 4 == 0 && (y % 100 != 0 || y % 400 == 0)
  }

  /** `calendar.monthrange(y, m)[1]` */
  function DaysInMonth(y: int, m: int): (n: int)
    requires 1 <= m <= 12
    ensures 28 <= n <= 31
    ensures m == 2 ==> (n == 29 <==> IsLeap(y))
    ensures m != 2 ==> n >= 30
  {
    if m == 2 then (if IsLeap(y) then 29 else 28)
    else if m == 4 || m == 6 || m == 9 || m == 11 then 30
    else 31
  }

  /** `DateUtils.get_days_in_year`: 366 in a leap year, otherwise 365. */
  function DaysInYear(y: int): (n: int)
    ensures n == 365 || n == 366
  {
    if IsLeap(y) then 366 else 365
  }

  /** Days of year `y` before the first of month `m` (month 13 stands for the year's end). */
  function DaysBeforeMonth(y: int, m: int): (n: int)
    requires 1 <= m <= 13
    ensures 0 <= n <= 366
  {
    var before := [0, 31, 59, 90, 120, 151, 181, 212, 243, 273, 304, 334, 365];
    before[m - 1] + (if m > 2 && IsLeap(y) then 1 else 0)
  }

  /** The month table and the year length agree: the months of a year add up to its length. */
  lemma MonthsFillYear(y: int, m: int)
    requires 1 <= m <= 12
    ensures DaysBeforeMonth(y, m + 1) == DaysBeforeMonth(y, m) + DaysInMonth(y, m)
    ensures DaysBeforeMonth(y, 13) == DaysInYear(y)
  {
  }

  function DaysBeforeYear(y: int): int {
    var x := y - 1;
    365 * x + x / 4 - x / 100 + x / 400
  }

  lemma YearStep(y: int)
    ensures DaysBeforeYear(y + 1) == DaysBeforeYear(y) + DaysInYear(y)
  {
    var x := y - 1;
    assert y / 4 == x / 4 + (if y % 4 == 0 then 1 else 0);
    assert y / 100 == x / 100 + (if y % 100 == 0 then 1 else 0);
    assert y / 400 == x / 400 + (if y % 400 == 0 then 1 else 0);
  }

  lemma {:induction false} YearsAscend(y1: int, y2: int)
    requires y1 < y2
    ensures DaysBeforeYear(y1) + DaysInYear(y1) <= DaysBeforeYear(y2)
    decreases y2 - y1
  {
    YearStep(y1);
    if y1 + 1 < y2 {
      YearsAscend(y1 + 1, y2);
    }
  }

  predicate ValidDate(d: Date) {
    1 <= d.month <= 12 && 1 <= d.day <= DaysInMonth(d.year, d.month)
  }

  predicate Valid(t: DateTime) {
    ValidDate(t.date) && 0 <= t.micros < DAY
  }

  /** `date.toordinal()`: 1 for 0001-01-01, one more for every following day. */
  function ToOrdinal(d: Date): int
    requires ValidDate(d)
  {
    DaysBeforeYear(d.year) + DaysBeforeMonth(d.year, d.month) + d.day
  }

  /** Python's comparison of dates: year, then month, then day. */
  predicate DateBefore(a: Date, b: Date) {
    a.year < b.year || (a.year == b.year && (a.month < b.month || (a.month == b.month && a.day < b.day)))
  }

  lemma MonthsAscend(y: int, m1: int, m2: int)
    requires 1 <= m1 < m2 <= 12
    ensures DaysBeforeMonth(y, m1) + DaysInMonth(y, m1) <= DaysBeforeMonth(y, m2)
  {
  }

  /** Calendar order and ordinal order are the same order. */
  lemma DateOrderIsOrdinalOrder(a: Date, b: Date)
    requires ValidDate(a) && ValidDate(b)
    ensures DateBefore(a, b) <==> ToOrdinal(a) < ToOrdinal(b)
    ensures a == b <==> ToOrdinal(a) == ToOrdinal(b)
  {
    if a.year < b.year {
      OrdinalWithinYear(a);
      YearsAscend(a.year, b.year);
    } else if b.year < a.year {
      OrdinalWithinYear(b);
      YearsAscend(b.year, a.year);
    } else if a.month < b.month {
      MonthsAscend(a.year, a.month, b.month);
    } else if b.month < a.month {
      MonthsAscend(a.year, b.month, a.month);
    }
  }

  lemma OrdinalWithinYear(d: Date)
    requires ValidDate(d)
    ensures DaysBeforeYear(d.year) < ToOrdinal(d) <= DaysBeforeYear(d.year) + DaysInYear(d.year)
  {
    MonthsFillYear(d.year, d.month);
    if d.month < 12 {
      MonthsAscend(d.year, d.month, 12);
      MonthsFillYear(d.year, 12);
    }
  }

  function NextDay(d: Date): (r: Date)
    requires ValidDate(d)
    ensures ValidDate(r)
  {
    if d.day < DaysInMonth(d.year, d.month) then Date(d.year, d.month, d.day + 1)
    else if d.month < 12 then Date(d.year, d.month + 1, 1)
    else Date(d.year + 1, 1, 1)
  }

  function PrevDay(d: Date): (r: Date)
    requires ValidDate(d)
    ensures ValidDate(r)
  {
    if d.day > 1 then Date(d.year, d.month, d.day - 1)
    else if d.month > 1 then Date(d.year, d.month - 1, DaysInMonth(d.year, d.month - 1))
    else Date(d.year - 1, 12, 31)
  }

  lemma NextDayOrdinal(d: Date)
    requires ValidDate(d)
    ensures ToOrdinal(NextDay(d)) == ToOrdinal(d) + 1
  {
    MonthsFillYear(d.year, d.month);
    if d.day == DaysInMonth(d.year, d.month) && d.month == 12 {
      YearStep(d.year);
    }
  }

  lemma PrevDayOrdinal(d: Date)
    requires ValidDate(d)
    ensures ToOrdinal(PrevDay(d)) + 1 == ToOrdinal(d)
  {
    if d.day == 1 {
      if d.month > 1 {
        MonthsFillYear(d.year, d.month - 1);
      } else {
        MonthsFillYear(d.year - 1, 12);
        YearStep(d.year - 1);
      }
    }
  }

  /** `d + timedelta(days=n)` */
  function AddDays(d: Date, n: int): (r: Date)
    requires ValidDate(d)
    ensures ValidDate(r)
    decreases if n < 0 then -n else n
  {
    if n == 0 then d
    else if n > 0 then AddDays(NextDay(d), n - 1)
    else AddDays(PrevDay(d), n + 1)
  }

  /** Adding `n` days moves the ordinal by exactly `n`. */
  lemma {:induction false} AddDaysOrdinal(d: Date, n: int)
    requires ValidDate(d)
    ensures ToOrdinal(AddDays(d, n)) == ToOrdinal(d) + n
    decreases if n < 0 then -n else n
  {
    if n > 0 {
      NextDayOrdinal(d);
      AddDaysOrdinal(NextDay(d), n - 1);
    } else if n < 0 {
      PrevDayOrdinal(d);
      AddDaysOrdinal(PrevDay(d), n + 1);
    }
  }

  /** The microsecond at which a date-time falls, counted from 0001-01-01 00:00 minus one day. */
  function Instant(t: DateTime): int
    requires Valid(t)
  {
    ToOrdinal(t.date) * DAY + t.micros
  }

  /** Python's comparison of naive date-times: by date, then by time of day. */
  predicate Before(a: DateTime, b: DateTime) {
    DateBefore(a.date, b.date) || (a.date == b.date && a.micros < b.micros)
  }

  /** Date-time order is instant order, and the instant determines the date-time. */
  lemma BeforeIsInstantOrder(a: DateTime, b: DateTime)
    requires Valid(a) && Valid(b)
    ensures Before(a, b) <==> Instant(a) < Instant(b)
    ensures a == b <==> Instant(a) == Instant(b)
  {
    DateOrderIsOrdinalOrder(a.date, b.date);
  }

  /** `t + timedelta(microseconds=delta)`, carrying whole days into the date as `datetime` does. */
  function AddMicros(t: DateTime, delta: int): (r: DateTime)
    requires Valid(t)
    ensures Valid(r)
  {
    var total := t.micros + delta;
    DateTime(AddDays(t.date, total / DAY), total % DAY)
  }

  lemma AddMicrosInstant(t: DateTime, delta: int)
    requires Valid(t)
    ensures Instant(AddMicros(t, delta)) == Instant(t) + delta
  {
    var total := t.micros + delta;
    AddDaysOrdinal(t.date, total / DAY);
  }

  /** Subtracting what was added gives back the same date-time. */
  lemma AddMicrosInverse(t: DateTime, delta: int)
    requires Valid(t)
    ensures AddMicros(AddMicros(t, delta), -delta) == t
  {
    AddMicrosInstant(t, delta);
    AddMicrosReaches(AddMicros(t, delta), t, -delta);
  }

  /** Adding `delta` reaches the one date-time that lies `delta` later. */
  lemma AddMicrosReaches(a: DateTime, b: DateTime, delta: int)
    requires Valid(a) && Valid(b) && Instant(b) == Instant(a) + delta
    ensures AddMicros(a, delta) == b
  {
    AddMicrosInstant(a, delta);
    BeforeIsInstantOrder(AddMicros(a, delta), b);
  }

  /** `datetime(y, m, d, hh, mm)` */
  function At(y: int, m: int, d: int, hh: int, mm: int): DateTime {
    DateTime(Date(y, m, d), hh * HOUR + mm * MINUTE)
  }

  function Hour(t: DateTime): int { t.micros / HOUR }
  function Minute(t: DateTime): int { t.micros % HOUR / MINUTE }
  function Second(t: DateTime): int { t.micros % MINUTE / SECOND }
  function Microsecond(t: DateTime): int { t.micros % SECOND }

  /** Index of the minute of the day, `hour * 60 + minute`. */
  function MinuteOfDay(t: DateTime): (r: int)
    requires Valid(t)
    ensures 0 <= r < 1440
  {
    t.micros / MINUTE
  }

  predicate MinuteAligned(t: DateTime) { t.micros % MINUTE == 0 }

  /** `t.replace(second=0, microsecond=0)` */
  function TruncateToMinute(t: DateTime): (r: DateTime)
    requires Valid(t)
    ensures Valid(r) && MinuteAligned(r) && r.date == t.date
    ensures Hour(r) == Hour(t) && Minute(r) == Minute(t)
    ensures Instant(t) - MINUTE < Instant(r) <= Instant(t)
  {
    DateTime(t.date, t.micros - t.micros % MINUTE)
  }

  /** The whole number of microseconds of `timedelta(hours=h)`, rounded half to even. */
  function HoursToMicros(h: real): (r: int)
    ensures -0.5 <= (r as real) - h * 3600000000.0 <= 0.5
  {
    var x := h * 3600000000.0;
    var f := x.Floor;
    var frac := x - f as real;
    if frac < 0.5 then f
    else if frac > 0.5 then f + 1
    else if f % 2 == 0 then f else f + 1
  }

  /**
   * `end - start` broken down as a `timedelta` and then as the source does:
   * whole days, then hours and minutes of the remaining seconds.
   */
  datatype Span = Span(days: int, hours: int, minutes: int)

  function TimeDiff(start: DateTime, end: DateTime): (r: Span)
    requires Valid(start) && Valid(end)
    ensures 0 <= r.hours < 24 && 0 <= r.minutes < 60
    ensures r.days * 1440 + r.hours * 60 + r.minutes == (Instant(end) - Instant(start)) / MINUTE
  {
    var diff := Instant(end) - Instant(start);
    var seconds := diff % DAY / SECOND;
    Span(diff / DAY, seconds / 3600, seconds % 3600 / 60)
  }
}
