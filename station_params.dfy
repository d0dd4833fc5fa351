/**
 * A validated observation period and the station it belongs to.  Building a
 * `Period` whose start is not before its end is the source's `ValueError`.
 */
module StationParams {
  import opened Wrappers
  import opened Calendar
  import opened MagdasStation
  import opened TimeUtils

  datatype Period = Period(start: DateTime, end: DateTime)

  predicate ValidPeriod(p: Period) {
    Valid(p.start) && Valid(p.end) && Instant(p.start) < Instant(p.end)
  }

  /** `Period(start, end)` with its `__post_init__` check. */
  function NewPeriod(start: DateTime, end: DateTime): (r: Result<Period, string>)
    requires Valid(start) && Valid(end)
    ensures r.Success? <==> Instant(start) < Instant(end)
    ensures r.Success? ==> ValidPeriod(r.value) && r.value.start == start && r.value.end == end
  {
    BeforeIsInstantOrder(start, end);
    if !Before(start, end) then Failure("Start time must be before end time.")
    else Success(Period(start, end))
  }

  datatype Params = Params(station: Station, period: Period)

  /** `to_ut_params`: both ends to UT, truncated to the minute; the new period is validated again. */
  function ToUtParams(p: Params): (r: Result<Params, string>)
    requires ValidPeriod(p.period)
    ensures r.Success? ==> r.value.station == p.station && ValidPeriod(r.value.period)
    ensures r.Success? ==> MinuteAligned(r.value.period.start) && MinuteAligned(r.value.period.end)
    ensures r.Success? ==>
      Instant(p.period.start) - OffsetMicros(p.station) - MINUTE < Instant(r.value.period.start) <= Instant(p.period.start) - OffsetMicros(p.station)
    ensures r.Success? ==>
      Instant(p.period.end) - OffsetMicros(p.station) - MINUTE < Instant(r.value.period.end) <= Instant(p.period.end) - OffsetMicros(p.station)
  {
    var start := TruncateToMinute(ToUtTime(p.station, p.period.start));
    var end := TruncateToMinute(ToUtTime(p.station, p.period.end));
    var period :- NewPeriod(start, end);
    Success(Params(p.station, period))
  }

  lemma InstantMinuteResidue(t: DateTime)
    requires Valid(t)
    ensures Instant(t) % MINUTE == t.micros % MINUTE
  {
    var o := ToOrdinal(t.date);
    assert Instant(t) == (o * 1440) * MINUTE + t.micros;
    WholeMinutesResidue(o * 1440, t.micros);
  }

  lemma WholeMinutesResidue(k: int, r: int)
    requires 0 <= r
    ensures (k * MINUTE + r) % MINUTE == r % MINUTE
  {
    var q, rest := r / MINUTE, r % MINUTE;
    assert k * MINUTE + r == (k + q) * MINUTE + rest;
  }

  lemma TruncateInstant(t: DateTime)
    requires Valid(t)
    ensures Instant(TruncateToMinute(t)) == Instant(t) - Instant(t) % MINUTE
  {
    InstantMinuteResidue(t);
  }

  /** Two whole-minute instants shifted by the same amount and truncated keep their distance. */
  lemma TruncatedShiftKeepsGap(x: int, y: int, o: int)
    requires x % MINUTE == 0 && y % MINUTE == 0
    ensures ((y - o) - (y - o) % MINUTE) - ((x - o) - (x - o) % MINUTE) == y - x
  {
    var k := (y - x) / MINUTE;
    assert y - o == (x - o) + k * MINUTE;
  }

  /** Truncating two date-times that lie a whole number of minutes apart keeps their distance. */
  lemma TruncatedPairKeepsGap(a: DateTime, b: DateTime, x: int, y: int, o: int)
    requires Valid(a) && Valid(b) && x % MINUTE == 0 && y % MINUTE == 0
    requires Instant(a) == x - o && Instant(b) == y - o
    ensures Instant(TruncateToMinute(b)) - Instant(TruncateToMinute(a)) == y - x
  {
    TruncateInstant(a);
    TruncateInstant(b);
    TruncatedShiftKeepsGap(x, y, o);
  }

  /**
   * For a period whose ends are whole minutes, both ends move by the same
   * offset and lose the same fraction of a minute, so the conversion always
   * succeeds and keeps the duration.
   */
  lemma ToUtParamsKeepsDuration(p: Params)
    requires ValidPeriod(p.period)
    requires MinuteAligned(p.period.start) && MinuteAligned(p.period.end)
    ensures ToUtParams(p).Success?
    ensures var q := ToUtParams(p).value.period;
      Instant(q.end) - Instant(q.start) == Instant(p.period.end) - Instant(p.period.start)
  {
    var s := ToUtTime(p.station, p.period.start);
    var e := ToUtTime(p.station, p.period.end);
    InstantMinuteResidue(p.period.start);
    InstantMinuteResidue(p.period.end);
    TruncatedPairKeepsGap(s, e, Instant(p.period.start), Instant(p.period.end), OffsetMicros(p.station));
    assert NewPeriod(TruncateToMinute(s), TruncateToMinute(e)).Success?;
  }
}
