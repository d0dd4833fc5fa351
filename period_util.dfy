/** `create_month_period`: the period covering one calendar month. */
module PeriodUtil {
  import opened Calendar
  import opened StationParams

  /** From the 1st at 00:00 to the month's last day at 23:59; never rejected by `Period`. */
  function CreateMonthPeriod(year: int, month: int): (p: Period)
    requires 1 <= month <= 12
    ensures ValidPeriod(p)
    ensures p.start.date == Date(year, month, 1) && p.start.micros == 0
    ensures p.end.date == Date(year, month, DaysInMonth(year, month))
    ensures Hour(p.end) == 23 && Minute(p.end) == 59 && Second(p.end) == 0 && Microsecond(p.end) == 0
  {
    var start := At(year, month, 1, 0, 0);
    var end := At(year, month, DaysInMonth(year, month), 23, 59);
    MonthEndsAfterStart(year, month);
    LastMinuteClock(end);
    NewPeriod(start, end).value
  }

  lemma LastMinuteClock(t: DateTime)
    requires t.micros == 23 * HOUR + 59 * MINUTE
    ensures Hour(t) == 23 && Minute(t) == 59 && Second(t) == 0 && Microsecond(t) == 0
  {
    assert t.micros == 86_340_000_000;
  }

  lemma MonthEndsAfterStart(year: int, month: int)
    requires 1 <= month <= 12
    ensures Valid(At(year, month, 1, 0, 0)) && Valid(At(year, month, DaysInMonth(year, month), 23, 59))
    ensures Instant(At(year, month, 1, 0, 0)) < Instant(At(year, month, DaysInMonth(year, month), 23, 59))
  {
    var first, last := Date(year, month, 1), Date(year, month, DaysInMonth(year, month));
    DateOrderIsOrdinalOrder(first, last);
    assert ToOrdinal(first) <= ToOrdinal(last);
  }

  /**
   * The period's end falls on the month's last day: the next day is the first
   * of the following month, and the period lasts the month's days less one
   * minute.
   */
  lemma MonthPeriodCoversMonth(year: int, month: int)
    requires 1 <= month <= 12
    ensures var p := CreateMonthPeriod(year, month);
      NextDay(p.end.date) == (if month < 12 then Date(year, month + 1, 1) else Date(year + 1, 1, 1))
    ensures var p := CreateMonthPeriod(year, month);
      TimeDiff(p.start, p.end) == Span(DaysInMonth(year, month) - 1, 23, 59)
  {
  }

  /** February ends on the 29th exactly in leap years. */
  lemma FebruaryLastDay()
    ensures CreateMonthPeriod(2024, 2).end.date.day == 29
    ensures CreateMonthPeriod(2023, 2).end.date.day == 28
    ensures CreateMonthPeriod(1900, 2).end.date.day == 28
    ensures CreateMonthPeriod(2000, 2).end.date.day == 29
  {
  }
}
