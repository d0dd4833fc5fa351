/**
 * `DateUtils`: conversions between UT and a station's local time, which
 * shift by `timedelta(hours=time_diff)`, and the start of a day.  The day and
 * year lengths and the (days, hours, minutes) breakdown are `Calendar`'s.
 */
module TimeUtils {
  import opened Calendar
  import opened MagdasStation

  /** The station's offset as the whole microseconds `timedelta(hours=...)` keeps. */
  function OffsetMicros(s: Station): int {
    HoursToMicros(s.timeDiff)
  }

  /** `to_local_time`: UT plus the station's offset. */
  function ToLocalTime(s: Station, ut: DateTime): (lt: DateTime)
    requires Valid(ut)
    ensures Valid(lt)
    ensures Instant(lt) == Instant(ut) + OffsetMicros(s)
  {
    AddMicrosInstant(ut, OffsetMicros(s));
    AddMicros(ut, OffsetMicros(s))
  }

  /** `to_ut_time`: local time minus the station's offset. */
  function ToUtTime(s: Station, lt: DateTime): (ut: DateTime)
    requires Valid(lt)
    ensures Valid(ut)
    ensures Instant(ut) == Instant(lt) - OffsetMicros(s)
  {
    AddMicrosInstant(lt, -OffsetMicros(s));
    AddMicros(lt, -OffsetMicros(s))
  }

  /** Converting to local time and back gives the original UT, and the other way round. */
  lemma LocalUtRoundTrip(s: Station, t: DateTime)
    requires Valid(t)
    ensures ToUtTime(s, ToLocalTime(s, t)) == t
    ensures ToLocalTime(s, ToUtTime(s, t)) == t
  {
    BeforeIsInstantOrder(ToUtTime(s, ToLocalTime(s, t)), t);
    BeforeIsInstantOrder(ToLocalTime(s, ToUtTime(s, t)), t);
  }

  /** `get_day_start`: hour, minute and second set to zero; the date and the microseconds stay. */
  function DayStart(t: DateTime): (r: DateTime)
    requires Valid(t)
    ensures Valid(r) && r.date == t.date
    ensures Hour(r) == 0 && Minute(r) == 0 && Second(r) == 0
    ensures Microsecond(r) == Microsecond(t)
    ensures Instant(r) <= Instant(t) && Instant(t) - Instant(r) == t.micros - Microsecond(t)
  {
    DateTime(t.date, t.micros % SECOND)
  }
}
