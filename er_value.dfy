/**
 * The per-day ER of `ee_index/calc/er_value.py`: the equatorial H of a
 * station over whole days less the median of each UT day, clipped to the ER
 * limits; its splicing for EDst periods that start in the middle of a day;
 * and its night-side part.  The equatorial H of `days` days from a date-time
 * (`HComponent.interpolate_h_component`) is a parameter `hFor`.
 */
module ErValue {
  import opened Wrappers
  import opened Samples
  import opened Calendar
  import opened MagdasStation
  import opened EeEnv
  import opened TimeUtils
  import opened TimeRelation
  import opened CalcEr

  /** The equatorial H of a station for `days` days from a date-time. */
  type HSource = (DateTime, int) -> seq<Sample>

  /** `s[a:b]` for `a, b >= 0`: both ends cut off at the length, empty when `a >= b`. */
  function PySlice<T>(s: seq<T>, a: nat, b: nat): (r: seq<T>)
    ensures a <= b <= |s| ==> r == s[a..b]
    ensures b <= a ==> r == []
  {
    var hi := if b < |s| then b else |s|;
    var lo := if a < hi then a else hi;
    s[lo..hi]
  }

  /** The number of iterations of `range(days)`. */
  function Count(days: int): nat {
    if days < 0 then 0 else days
  }

  /** The medians of the consecutive 1440-minute days of `h`, one per day. */
  function DayMedians(num: Numerics, h: seq<Sample>, days: int): (r: seq<Sample>)
    ensures |r| == Count(days)
  {
    seq(Count(days), d requires 0 <= d < Count(days) =>
      num.nanMedian(PySlice(h, d * MIN_ONE_DAY, d * MIN_ONE_DAY + MIN_ONE_DAY)))
  }

  /** `np.repeat(base, k)`: every element `k` times in a row. */
  function Repeat(base: seq<Sample>, k: nat): (r: seq<Sample>)
    requires k > 0
    ensures |r| == |base| * k
  {
    seq(|base| * k, i requires 0 <= i < |base| * k => base[i / k])
  }

  /** `Er.calc_er_for_days`: H from `t` less the median of its UT day, counted from the day start of `t`, then clipped. */
  function ErForDays(th: Thresholds, num: Numerics, hFor: HSource, t: DateTime, days: int): Result<seq<Sample>, string>
    requires Valid(t)
  {
    var h := hFor(t, days);
    var base := DayMedians(num, hFor(DayStart(t), days), days);
    var er :- SubSeq(h, Repeat(base, MIN_ONE_DAY));
    Success(Clipped(th, er))
  }

  /**
   * `calc_er_base_value`: day `d` of the base values is the median of minutes
   * `1440 d` to `1440 d + 1439` of the H read from the day start, NaN exactly
   * when that day has no valid sample.
   */
  lemma DayMediansAt(num: Numerics, h: seq<Sample>, days: int, d: int)
    requires ValidNumerics(num) && |h| == Count(days) * MIN_ONE_DAY && 0 <= d < Count(days)
    ensures DayMedians(num, h, days)[d] == num.nanMedian(h[d * MIN_ONE_DAY .. (d + 1) * MIN_ONE_DAY])
    ensures DayMedians(num, h, days)[d].None? <==> AllNan(h[d * MIN_ONE_DAY .. (d + 1) * MIN_ONE_DAY])
  {
    assert (d + 1) * MIN_ONE_DAY <= Count(days) * MIN_ONE_DAY;
  }

  /**
   * With H of one value per minute, minute `i` of the ER is that minute's H
   * less the baseline of day `i / 1440`, defined exactly when both are and
   * the difference is within the ER limits.
   */
  lemma ErForDaysAt(th: Thresholds, num: Numerics, hFor: HSource, t: DateTime, days: int, i: int)
    requires Valid(t) && days >= 1
    requires |hFor(t, days)| == days * MIN_ONE_DAY && |hFor(DayStart(t), days)| == days * MIN_ONE_DAY
    ensures ErForDays(th, num, hFor, t, days).Success?
    ensures |ErForDays(th, num, hFor, t, days).value| == days * MIN_ONE_DAY
    ensures 0 <= i < days * MIN_ONE_DAY ==>
      var h := hFor(t, days)[i];
      var base := DayMedians(num, hFor(DayStart(t), days), days)[i / MIN_ONE_DAY];
      var er := ErForDays(th, num, hFor, t, days).value[i];
      (er.Some? <==> h.Some? && base.Some? && th.minEr <= h.value - base.value <= th.maxEr) &&
      (er.Some? ==> er.value == h.value - base.value)
  {
    var base := DayMedians(num, hFor(DayStart(t), days), days);
    var tiled := Repeat(base, MIN_ONE_DAY);
    if 0 <= i < days * MIN_ONE_DAY {
      SubSeqPairs(hFor(t, days), tiled, i);
    } else {
      SubSeqPairs(hFor(t, days), tiled, 0);
    }
  }

  /** `calc_er_base_value`: one median per day, appended in a loop. */
  method CalcErBaseValue(num: Numerics, hFor: HSource, t: DateTime, days: int) returns (base: seq<Sample>)
    requires Valid(t)
    ensures base == DayMedians(num, hFor(DayStart(t), days), days)
  {
    var h := hFor(DayStart(t), days);
    base := [];
    for day := 0 to Count(days)
      invariant base == DayMedians(num, h, days)[..day]
    {
      var startIndex := day * MIN_ONE_DAY;
      var endIndex := startIndex + MIN_ONE_DAY - 1;
      base := base + [num.nanMedian(PySlice(h, startIndex, endIndex + 1))];
    }
  }

  /** `calc_er_for_days`: the difference is built, then `remove_er_outliers` clips it in place. */
  method CalcErForDays(th: Thresholds, num: Numerics, hFor: HSource, t: DateTime, days: int) returns (r: Result<seq<Sample>, string>)
    requires Valid(t)
    ensures r == ErForDays(th, num, hFor, t, days)
  {
    var h := hFor(t, days);
    var base := CalcErBaseValue(num, hFor, t, days);
    var tiled := Repeat(base, MIN_ONE_DAY);
    var rough :- SubSeq(h, tiled);
    var er := new Sample[|rough|](i requires 0 <= i < |rough| => rough[i]);
    assert er[..] == rough;
    RemoveOutliers(th, er);
    return Success(er[..]);
  }

  /** `calc_er_for_min`: the one-day ER at index `hour * 60 + minute`; an index past the end raises `IndexError`. */
  function ErForMin(th: Thresholds, num: Numerics, hFor: HSource, t: DateTime, hour: int, minute: int): Result<Sample, string>
    requires Valid(t) && 0 <= hour < 24 && 0 <= minute < 60
  {
    var er :- ErForDays(th, num, hFor, t, 1);
    var index := hour * MIN_ONE_HOUR + minute;
    if index < |er| then Success(er[index]) else Failure("index out of bounds")
  }

  /** With one day of per-minute H the lookup never fails and reads minute `hour * 60 + minute` of the day from `t`. */
  lemma ErForMinReadsMinute(th: Thresholds, num: Numerics, hFor: HSource, t: DateTime, hour: int, minute: int)
    requires Valid(t) && 0 <= hour < 24 && 0 <= minute < 60
    requires |hFor(t, 1)| == MIN_ONE_DAY && |hFor(DayStart(t), 1)| == MIN_ONE_DAY
    ensures ErForMin(th, num, hFor, t, hour, minute).Success?
    ensures var h := hFor(t, 1)[hour * 60 + minute];
      var base := DayMedians(num, hFor(DayStart(t), 1), 1)[0];
      var er := ErForMin(th, num, hFor, t, hour, minute).value;
      (er.Some? <==> h.Some? && base.Some? && th.minEr <= h.value - base.value <= th.maxEr) &&
      (er.Some? ==> er.value == h.value - base.value)
  {
    ErForDaysAt(th, num, hFor, t, 1, hour * 60 + minute);
  }

  /** `calc_er_for_part_of_a_day`: the day's ER from the start's minute through `endHour:endMinute`. */
  function PartOfADay(th: Thresholds, num: Numerics, hFor: HSource, start: DateTime, endHour: nat, endMinute: nat): Result<seq<Sample>, string>
    requires Valid(start)
  {
    var allEr :- ErForDays(th, num, hFor, DayStart(start), 1);
    var startIndex := Hour(start) * MIN_ONE_HOUR + Minute(start);
    var endIndex := endHour * MIN_ONE_HOUR + endMinute;
    Success(PySlice(allEr, startIndex, endIndex + 1))
  }

  /** `calc_full_er`: nothing for zero days. */
  function FullEr(th: Thresholds, num: Numerics, hFor: HSource, start: DateTime, fullDays: int): Result<seq<Sample>, string>
    requires Valid(start)
  {
    if fullDays == 0 then Success([]) else ErForDays(th, num, hFor, start, fullDays)
  }

  /** `start + timedelta(days=days, minutes=-1)`: the last minute of the period. */
  function PeriodEnd(start: DateTime, days: int): (r: DateTime)
    requires Valid(start)
    ensures Valid(r) && Instant(r) == Instant(start) + days * DAY - MINUTE
  {
    AddMicrosInstant(start, days * DAY - MINUTE);
    AddMicros(start, days * DAY - MINUTE)
  }

  /**
   * `get_er_for_edst`: a start at midnight takes the whole days at once;
   * otherwise the rest of the first day, the whole days in between and the
   * first part of the last day, each with the baseline of its own UT day.
   */
  function ErForEdst(th: Thresholds, num: Numerics, hFor: HSource, start: DateTime, days: int): Result<seq<Sample>, string>
    requires Valid(start)
  {
    if start.micros == 0 then ErForDays(th, num, hFor, start, days)
    else
      var end := PeriodEnd(start, days);
      var headEr :- PartOfADay(th, num, hFor, start, 23, 59);
      var fullEr :- FullEr(th, num, hFor, AddMicros(DayStart(start), DAY), days - 1);
      var footEr :- PartOfADay(th, num, hFor, DayStart(end), Hour(end), Minute(end));
      Success(headEr + fullEr + footEr)
  }

  /** The equatorial H of every date-time holds one value per minute of the days asked for. */
  ghost predicate PerMinute(hFor: HSource) {
    forall t: DateTime, n: int :: n >= 0 ==> |hFor(t, n)| == n * MIN_ONE_DAY
  }

  /** `PartOfADay` for a whole-minute start and an end at or after it keeps those minutes, both ends included. */
  lemma PartOfADayLength(th: Thresholds, num: Numerics, hFor: HSource, start: DateTime, endHour: nat, endMinute: nat)
    requires Valid(start) && PerMinute(hFor)
    requires Hour(start) * 60 + Minute(start) <= endHour * 60 + endMinute < MIN_ONE_DAY
    ensures PartOfADay(th, num, hFor, start, endHour, endMinute).Success?
    ensures |PartOfADay(th, num, hFor, start, endHour, endMinute).value| == endHour * 60 + endMinute + 1 - (Hour(start) * 60 + Minute(start))
  {
    var t := DayStart(start);
    assert |hFor(t, 1)| == MIN_ONE_DAY && |hFor(DayStart(t), 1)| == MIN_ONE_DAY;
    ErForDaysAt(th, num, hFor, t, 1, 0);
  }

  lemma MicrosMinuteOfDay(t: DateTime)
    requires Valid(t)
    ensures Hour(t) * 60 + Minute(t) == t.micros / MINUTE
  {
  }

  /**
   * For a whole-minute start and at least one day, the spliced ER has one
   * value per minute of the period: `days * 1440`, whether or not the start
   * is at midnight.
   */
  lemma ErForEdstLength(th: Thresholds, num: Numerics, hFor: HSource, start: DateTime, days: int)
    requires Valid(start) && MinuteAligned(start) && days >= 1 && PerMinute(hFor)
    ensures ErForEdst(th, num, hFor, start, days).Success?
    ensures |ErForEdst(th, num, hFor, start, days).value| == days * MIN_ONE_DAY
    ensures start.micros == 0 ==> ErForEdst(th, num, hFor, start, days) == ErForDays(th, num, hFor, start, days)
  {
    if start.micros == 0 {
      assert |hFor(start, days)| == days * MIN_ONE_DAY && |hFor(DayStart(start), days)| == days * MIN_ONE_DAY;
      ErForDaysAt(th, num, hFor, start, days, 0);
    } else {
      SplicedLength(th, num, hFor, start, days);
    }
  }

  /** A start after midnight: the head to 23:59, the whole days between and the foot add up to `days * 1440`. */
  lemma SplicedLength(th: Thresholds, num: Numerics, hFor: HSource, start: DateTime, days: int)
    requires Valid(start) && MinuteAligned(start) && days >= 1 && PerMinute(hFor) && start.micros != 0
    ensures ErForEdst(th, num, hFor, start, days).Success?
    ensures |ErForEdst(th, num, hFor, start, days).value| == days * MIN_ONE_DAY
  {
    var k := start.micros / MINUTE;
    HeadLength(th, num, hFor, start);
    FootLength(th, num, hFor, start, days);
    FullErLength(th, num, hFor, AddMicros(DayStart(start), DAY), days - 1);
    assert (MIN_ONE_DAY - k) + (days - 1) * MIN_ONE_DAY + k == days * MIN_ONE_DAY;
  }

  /** The head of a start after midnight: its minutes through 23:59. */
  lemma HeadLength(th: Thresholds, num: Numerics, hFor: HSource, start: DateTime)
    requires Valid(start) && MinuteAligned(start) && PerMinute(hFor) && start.micros != 0
    ensures PartOfADay(th, num, hFor, start, 23, 59).Success?
    ensures |PartOfADay(th, num, hFor, start, 23, 59).value| == MIN_ONE_DAY - start.micros / MINUTE
  {
    MicrosMinuteOfDay(start);
    PartOfADayLength(th, num, hFor, start, 23, 59);
  }

  /** The foot of a start after midnight: the minutes of the last day before the start's time of day. */
  lemma FootLength(th: Thresholds, num: Numerics, hFor: HSource, start: DateTime, days: int)
    requires Valid(start) && MinuteAligned(start) && PerMinute(hFor) && start.micros != 0
    ensures var end := PeriodEnd(start, days);
      PartOfADay(th, num, hFor, DayStart(end), Hour(end), Minute(end)).Success? &&
      |PartOfADay(th, num, hFor, DayStart(end), Hour(end), Minute(end)).value| == start.micros / MINUTE
  {
    var end := PeriodEnd(start, days);
    var k := start.micros / MINUTE;
    assert 1 <= k < MIN_ONE_DAY;
    TimeOfDayIsInstantModDay(start);
    TimeOfDayIsInstantModDay(end);
    EndMicros(Instant(start), start.micros, days);
    assert end.micros == start.micros - MINUTE;
    MicrosMinuteOfDay(end);
    MicrosMinuteOfDay(DayStart(end));
    PartOfADayLength(th, num, hFor, DayStart(end), Hour(end), Minute(end));
  }

  /** The whole days between head and foot: none, or `fullDays * 1440` values. */
  lemma FullErLength(th: Thresholds, num: Numerics, hFor: HSource, next: DateTime, fullDays: int)
    requires Valid(next) && fullDays >= 0 && PerMinute(hFor)
    ensures FullEr(th, num, hFor, next, fullDays).Success?
    ensures |FullEr(th, num, hFor, next, fullDays).value| == fullDays * MIN_ONE_DAY
  {
    if fullDays > 0 {
      assert |hFor(next, fullDays)| == fullDays * MIN_ONE_DAY && |hFor(DayStart(next), fullDays)| == fullDays * MIN_ONE_DAY;
      ErForDaysAt(th, num, hFor, next, fullDays, 0);
    }
  }

  lemma EndMicros(instant: int, micros: int, days: int)
    requires instant % DAY == micros && MINUTE <= micros < DAY
    ensures (instant + days * DAY - MINUTE) % DAY == micros - MINUTE
  {
    var q := instant / DAY;
    assert instant + days * DAY - MINUTE == (q + days) * DAY + (micros - MINUTE);
  }

  /** `get_corresponding_local_time`: the local time of day of each minute of the days from `t`. */
  function LocalMinuteTimes(station: Station, t: DateTime, days: int): (r: seq<int>)
    requires Valid(t)
    ensures |r| == MIN_ONE_DAY * Count(days)
  {
    var local := ToLocalTime(station, t);
    seq(MIN_ONE_DAY * Count(days), i requires 0 <= i < MIN_ONE_DAY * Count(days) => AddMicros(local, i * MINUTE).micros)
  }

  /** `is_daytime`: local time between 06:00:00 and 17:59:59, both included. */
  function IsDaytime(station: Station, t: DateTime, days: int): (r: seq<bool>)
    requires Valid(t)
    ensures |r| == MIN_ONE_DAY * Count(days)
  {
    var lt := LocalMinuteTimes(station, t, days);
    seq(|lt|, i requires 0 <= i < |lt| => DAYSIDE.start <= lt[i] && lt[i] <= DAYSIDE.end)
  }

  /** `np.where(condition, np.nan, er)`: NaN wherever the condition holds. */
  function MaskOut(condition: seq<bool>, x: seq<Sample>): Result<seq<Sample>, string> {
    Select(seq(|condition|, i requires 0 <= i < |condition| => !condition[i]), x)
  }

  /** `NightEr.extract_night_er` */
  function NightErOf(th: Thresholds, num: Numerics, hFor: HSource, station: Station, t: DateTime, days: int): Result<seq<Sample>, string>
    requires Valid(t)
  {
    var er :- ErForEdst(th, num, hFor, t, days);
    MaskOut(IsDaytime(station, t, days), er)
  }

  /**
   * For a whole-minute start and at least one day the night ER has one value
   * per minute, NaN wherever the local time is on the day side and the
   * spliced ER everywhere else.
   */
  lemma NightErAtMinute(th: Thresholds, num: Numerics, hFor: HSource, station: Station, t: DateTime, days: int, i: int)
    requires Valid(t) && MinuteAligned(t) && days >= 1 && PerMinute(hFor)
    requires 0 <= i < days * MIN_ONE_DAY
    ensures ErForEdst(th, num, hFor, t, days).Success? && |ErForEdst(th, num, hFor, t, days).value| == days * MIN_ONE_DAY
    ensures |IsDaytime(station, t, days)| == days * MIN_ONE_DAY
    ensures NightErOf(th, num, hFor, station, t, days).Success?
    ensures |NightErOf(th, num, hFor, station, t, days).value| == days * MIN_ONE_DAY
    ensures IsDaytime(station, t, days)[i] ==> NightErOf(th, num, hFor, station, t, days).value[i].None?
    ensures !IsDaytime(station, t, days)[i] ==>
      NightErOf(th, num, hFor, station, t, days).value[i] == ErForEdst(th, num, hFor, t, days).value[i]
  {
    ErForEdstLength(th, num, hFor, t, days);
    var cond := IsDaytime(station, t, days);
    SelectPairs(seq(|cond|, j requires 0 <= j < |cond| => !cond[j]), ErForEdst(th, num, hFor, t, days).value, i);
  }
}
