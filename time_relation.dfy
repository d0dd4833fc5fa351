/**
 * Fixed time quantities and time-of-day ranges.  A time of day is the number
 * of microseconds since midnight, as `datetime.time` orders them.
 */
module TimeRelation {
  import opened Calendar

  /** Durations in minutes. */
  const MIN_ONE_HOUR: int := 60
  const MIN_THREE_HOURS: int := 180
  const MIN_SIX_HOURS: int := 360
  const MIN_ONE_DAY: int := 1440
  const MIN_FIVE_DAYS: int := 7200
  const MIN_THIRTY_DAYS: int := 43200
  const MIN_SIXTY_DAYS: int := 86400

  /** Durations in seconds. */
  const SEC_ONE_DAY: int := 86400
  const SEC_ONE_HOUR: int := 3600
  const SEC_ONE_MINUTE: int := 60

  /** The minute constants are whole multiples of an hour, and the day agrees with the second constants. */
  lemma DurationsConsistent()
    ensures MIN_ONE_DAY == 24 * MIN_ONE_HOUR
    ensures MIN_THREE_HOURS == 3 * MIN_ONE_HOUR && MIN_SIX_HOURS == 6 * MIN_ONE_HOUR
    ensures MIN_FIVE_DAYS == 5 * MIN_ONE_DAY && MIN_THIRTY_DAYS == 30 * MIN_ONE_DAY
    ensures MIN_SIXTY_DAYS == 60 * MIN_ONE_DAY
    ensures SEC_ONE_DAY == MIN_ONE_DAY * SEC_ONE_MINUTE && SEC_ONE_HOUR == MIN_ONE_HOUR * SEC_ONE_MINUTE
  {
  }

  /** `datetime.time(h, m, s)` */
  function TimeOf(h: int, m: int, s: int): int {
    h * HOUR + m * MINUTE + s * SECOND
  }

  /** A closed range of times of day; a range whose start is after its end wraps past midnight. */
  datatype TimeRange = TimeRange(start: int, end: int) {
    predicate Contains(t: int) {
      if start <= end then start <= t <= end
      else start <= t || t <= end
    }
  }

  const DAYSIDE: TimeRange := TimeRange(TimeOf(6, 0, 0), TimeOf(17, 59, 59))
  const NIGHTSIDE: TimeRange := TimeRange(TimeOf(18, 0, 0), TimeOf(5, 59, 59))

  /** A wrapping range holds exactly the times outside the open gap between its end and its start. */
  lemma WrappingRangeIsComplement(r: TimeRange, t: int)
    requires r.start > r.end
    ensures r.Contains(t) <==> !(r.end < t < r.start)
  {
  }

  /** The night side runs from 18:00:00 to midnight and from midnight to 05:59:59. */
  lemma NightsideSpansMidnight(t: int)
    requires 0 <= t < DAY
    ensures NIGHTSIDE.Contains(t) <==> TimeOf(18, 0, 0) <= t || t <= TimeOf(5, 59, 59)
    ensures NIGHTSIDE.Contains(TimeOf(23, 59, 59)) && NIGHTSIDE.Contains(TimeOf(0, 0, 0))
    ensures !NIGHTSIDE.Contains(TimeOf(6, 0, 0)) && !NIGHTSIDE.Contains(TimeOf(17, 59, 59))
  {
  }

  /** Every whole-second time of day is on exactly one side. */
  lemma DayAndNightPartitionSeconds(t: int)
    requires 0 <= t < DAY && t % SECOND == 0
    ensures DAYSIDE.Contains(t) != NIGHTSIDE.Contains(t)
  {
  }

  /** Between 17:59:59 and 18:00:00, and between 05:59:59 and 06:00:00, a fractional second is on neither side. */
  lemma FractionalSecondsOnNeitherSide()
    ensures !DAYSIDE.Contains(TimeOf(17, 59, 59) + 500000) && !NIGHTSIDE.Contains(TimeOf(17, 59, 59) + 500000)
    ensures !DAYSIDE.Contains(TimeOf(5, 59, 59) + 1) && !NIGHTSIDE.Contains(TimeOf(5, 59, 59) + 1)
  {
  }
}
