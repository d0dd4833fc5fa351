/**
 * ER of one station over a UT period: the equatorial H less its median over
 * the period, with values outside the ER limits set to NaN, and its night-side
 * part, selected by the station's local time of each minute.
 */
module CalcEr {
  import opened Wrappers
  import opened Samples
  import opened Calendar
  import opened MagdasStation
  import opened EeEnv
  import opened TimeUtils
  import opened TimeRelation
  import opened StationParams
  import opened CalcHComponent

  /** `h_component - base` with `base = nanmedian(h_component)`. */
  function RawEr(num: Numerics, eq: seq<Sample>): (r: seq<Sample>)
    ensures |r| == |eq|
  {
    var base := num.nanMedian(eq);
    seq(|eq|, i requires 0 <= i < |eq| => Minus(eq[i], base))
  }

  /** A value above `MAX_ER` or below `MIN_ER` becomes NaN; NaN stays NaN. */
  function ClipEr(th: Thresholds, x: Sample): Sample {
    if x.Some? && (x.value > th.maxEr || x.value < th.minEr) then None else x
  }

  /** `_remove_outliers` on values. */
  function Clipped(th: Thresholds, s: seq<Sample>): (r: seq<Sample>)
    ensures |r| == |s|
    ensures forall i :: 0 <= i < |s| ==> (r[i].Some? <==> s[i].Some? && th.minEr <= s[i].value <= th.maxEr)
    ensures forall i :: 0 <= i < |s| && r[i].Some? ==> r[i] == s[i]
  {
    seq(|s|, i requires 0 <= i < |s| => ClipEr(th, s[i]))
  }

  /** The two masked assignments of `_remove_outliers`, in place: first above `MAX_ER`, then below `MIN_ER`. */
  method RemoveOutliers(th: Thresholds, a: array<Sample>)
    modifies a
    ensures a[..] == Clipped(th, old(a[..]))
  {
    for i := 0 to a.Length
      invariant forall j :: 0 <= j < i ==> a[j] == (if old(a[j]).Some? && old(a[j]).value > th.maxEr then None else old(a[j]))
      invariant forall j :: i <= j < a.Length ==> a[j] == old(a[j])
    {
      if a[i].Some? && a[i].value > th.maxEr {
        a[i] := None;
      }
    }
    for i := 0 to a.Length
      invariant forall j :: 0 <= j < i ==> a[j] == ClipEr(th, old(a[j]))
      invariant forall j :: i <= j < a.Length ==> a[j] == (if old(a[j]).Some? && old(a[j]).value > th.maxEr then None else old(a[j]))
    {
      if a[i].Some? && a[i].value < th.minEr {
        a[i] := None;
      }
    }
  }

  /** `calc_er` */
  function ErValues(env: Env, station: Station, start: DateTime, end: DateTime): Result<seq<Sample>, string>
    requires ValidEnv(env) && station in Catalog && Valid(start) && Valid(end)
  {
    var eq :- EquatorialH(env, station, start, end);
    Success(Clipped(env.th, RawEr(env.num, eq)))
  }

  /**
   * ER is defined exactly where the equatorial H and its median are and the
   * difference lies within the ER limits, and it is then that difference.
   */
  lemma ErAt(env: Env, station: Station, start: DateTime, end: DateTime, i: int)
    requires ValidEnv(env) && station in Catalog && Valid(start) && Valid(end)
    requires ErValues(env, station, start, end).Success?
    requires 0 <= i < |ErValues(env, station, start, end).value|
    ensures var eq := EquatorialH(env, station, start, end).value;
      var base := env.num.nanMedian(eq);
      var er := ErValues(env, station, start, end).value;
      |er| == |eq| && i < |eq| &&
      (er[i].Some? <==> eq[i].Some? && base.Some? && env.th.minEr <= eq[i].value - base.value <= env.th.maxEr) &&
      (er[i].Some? ==> er[i].value == eq[i].value - base.value)
  {
  }

  /** No ER value lies outside the ER limits. */
  lemma ErWithinLimits(env: Env, station: Station, start: DateTime, end: DateTime, i: int)
    requires ValidEnv(env) && station in Catalog && Valid(start) && Valid(end)
    requires ErValues(env, station, start, end).Success?
    requires 0 <= i < |ErValues(env, station, start, end).value|
    requires ErValues(env, station, start, end).value[i].Some?
    ensures env.th.minEr <= ErValues(env, station, start, end).value[i].value <= env.th.maxEr
  {
    ErAt(env, station, start, end, i);
  }

  /** One baseline for the whole period: every defined ER value sits the same distance below its equatorial H. */
  lemma ErIsOneShift(env: Env, station: Station, start: DateTime, end: DateTime, i: int, j: int)
    requires ValidEnv(env) && station in Catalog && Valid(start) && Valid(end)
    requires ErValues(env, station, start, end).Success?
    requires 0 <= i < |ErValues(env, station, start, end).value| && 0 <= j < |ErValues(env, station, start, end).value|
    requires ErValues(env, station, start, end).value[i].Some? && ErValues(env, station, start, end).value[j].Some?
    ensures var eq := EquatorialH(env, station, start, end).value;
      var er := ErValues(env, station, start, end).value;
      eq[i].Some? && eq[j].Some? && eq[i].value - er[i].value == eq[j].value - er[j].value
  {
    ErAt(env, station, start, end, i);
    ErAt(env, station, start, end, j);
  }

  /** `int((end_ut - start_ut).total_seconds() // 60) + 1`: whole minutes of the period, plus one. */
  function TotalMinutes(start: DateTime, end: DateTime): int
    requires Valid(start) && Valid(end)
  {
    (Instant(end) - Instant(start)) / MINUTE + 1
  }

  /** The local time of day, in microseconds, of the `i`-th minute after `start`. */
  function LocalTimeOf(station: Station, start: DateTime, i: int): int
    requires Valid(start)
  {
    ToLocalTime(station, AddMicros(start, i * MINUTE)).micros
  }

  /** `_get_lt_array` */
  function LocalTimes(station: Station, start: DateTime, end: DateTime): (r: seq<int>)
    requires Valid(start) && Valid(end)
    ensures |r| == if TotalMinutes(start, end) < 0 then 0 else TotalMinutes(start, end)
  {
    var n := if TotalMinutes(start, end) < 0 then 0 else TotalMinutes(start, end);
    seq(n, i requires 0 <= i < n => LocalTimeOf(station, start, i))
  }

  lemma LocalTimesPointwise(station: Station, start: DateTime, end: DateTime, lt: seq<int>)
    requires Valid(start) && Valid(end) && |lt| == TotalMinutes(start, end)
    requires forall j :: 0 <= j < |lt| ==> lt[j] == LocalTimeOf(station, start, j)
    ensures lt == LocalTimes(station, start, end)
  {
  }

  lemma LocalTimesExtend(station: Station, start: DateTime, lt: seq<int>, x: int)
    requires Valid(start)
    requires forall j :: 0 <= j < |lt| ==> lt[j] == LocalTimeOf(station, start, j)
    requires x == LocalTimeOf(station, start, |lt|)
    ensures forall j :: 0 <= j < |lt| + 1 ==> (lt + [x])[j] == LocalTimeOf(station, start, j)
  {
  }

  /** The time of day of a date-time is its instant modulo one day. */
  lemma TimeOfDayIsInstantModDay(t: DateTime)
    requires Valid(t)
    ensures t.micros == Instant(t) % DAY
  {
    var day := ToOrdinal(t.date);
    assert Instant(t) == day * DAY + t.micros;
    WholeDaysModDay(day, t.micros);
  }

  lemma WholeDaysModDay(days: int, micros: int)
    requires 0 <= micros < DAY
    ensures (days * DAY + micros) % DAY == micros
  {
  }

  /** Entry `i` of the local-time array is the start instant plus `i` minutes and the station offset, modulo a day. */
  lemma LocalTimeAt(station: Station, start: DateTime, end: DateTime, i: int)
    requires Valid(start) && Valid(end) && 0 <= i < |LocalTimes(station, start, end)|
    ensures 0 <= LocalTimes(station, start, end)[i] < DAY
    ensures LocalTimes(station, start, end)[i] == (Instant(start) + i * MINUTE + OffsetMicros(station)) % DAY
  {
    var ut := AddMicros(start, i * MINUTE);
    AddMicrosInstant(start, i * MINUTE);
    TimeOfDayIsInstantModDay(ToLocalTime(station, ut));
  }

  /** `nighttime_mask` */
  function NightMask(station: Station, start: DateTime, end: DateTime): (r: seq<bool>)
    requires Valid(start) && Valid(end)
    ensures |r| == |LocalTimes(station, start, end)|
  {
    var lt := LocalTimes(station, start, end);
    seq(|lt|, i requires 0 <= i < |lt| => NIGHTSIDE.Contains(lt[i]))
  }

  /** `extract_night_er` */
  function NightErValues(env: Env, station: Station, start: DateTime, end: DateTime): Result<seq<Sample>, string>
    requires ValidEnv(env) && station in Catalog && Valid(start) && Valid(end)
  {
    var er :- ErValues(env, station, start, end);
    Select(NightMask(station, start, end), er)
  }

  /** With a whole-minute start the H series and the local-time array have the same length. */
  lemma AlignedLengthsAgree(env: Env, station: Station, start: DateTime, end: DateTime)
    requires ValidEnv(env) && station in Catalog && Valid(start) && Valid(end) && Instant(start) < Instant(end)
    requires MinuteAligned(start) && HValues(env, station.code, start, end).Success?
    ensures |HValues(env, station.code, start, end).value| == TotalMinutes(start, end)
  {
    HValuesLength(env, station.code, start, end);
    InstantMinuteResidue(start);
    var k := Instant(start) / MINUTE;
    assert Instant(end) - Instant(start) == (Instant(end) - k * MINUTE);
    FloorShift(Instant(end), k);
  }

  lemma FloorShift(x: int, k: int)
    ensures (x - k * MINUTE) / MINUTE == x / MINUTE - k
  {
  }

  /**
   * For a period starting on a whole minute the night ER fails only when the
   * H does, has one value per minute, equals ER on the night side and is NaN
   * elsewhere.
   */
  lemma NightErAt(env: Env, station: Station, start: DateTime, end: DateTime, i: int)
    requires ValidEnv(env) && station in Catalog && Valid(start) && Valid(end) && Instant(start) < Instant(end)
    requires MinuteAligned(start)
    ensures NightErValues(env, station, start, end).Success? <==> HValues(env, station.code, start, end).Success?
    ensures NightErValues(env, station, start, end).Success? ==>
      |NightErValues(env, station, start, end).value| == TotalMinutes(start, end)
    ensures NightErValues(env, station, start, end).Success? && 0 <= i < TotalMinutes(start, end) ==>
      var night := NightErValues(env, station, start, end).value;
      var er := ErValues(env, station, start, end).value;
      |er| == |night| &&
      (NIGHTSIDE.Contains(LocalTimes(station, start, end)[i]) ==> night[i] == er[i]) &&
      (!NIGHTSIDE.Contains(LocalTimes(station, start, end)[i]) ==> night[i].None?)
  {
    if HValues(env, station.code, start, end).Success? {
      AlignedLengthsAgree(env, station, start, end);
      var er := ErValues(env, station, start, end).value;
      if 0 <= i < |er| {
        SelectPairs(NightMask(station, start, end), er, i);
      }
    }
  }

  /** `Er`: the ER calculation over one `HComponent`. */
  class Er {
    const h: HComponent

    constructor (h: HComponent)
      ensures this.h == h
    {
      this.h := h;
    }

    method CalcEr(env: Env) returns (r: Result<seq<Sample>, string>)
      requires ValidEnv(env) && h.Valid()
      ensures r == ErValues(env, h.station, h.startUt, h.endUt)
    {
      var eq :- h.ToEquatorialH(env);
      var base := env.num.nanMedian(eq);
      var rawEr := new Sample[|eq|](i requires 0 <= i < |eq| => Minus(eq[i], base));
      assert rawEr[..] == RawEr(env.num, eq);
      RemoveOutliers(env.th, rawEr);
      return Success(rawEr[..]);
    }

    method GetLtArray() returns (lt: seq<int>)
      requires h.Valid()
      ensures lt == LocalTimes(h.station, h.startUt, h.endUt)
    {
      var totalMinutes := (Instant(h.endUt) - Instant(h.startUt)) / MINUTE + 1;
      assert totalMinutes == TotalMinutes(h.startUt, h.endUt) >= 1;
      lt := [];
      for i := 0 to totalMinutes
        invariant |lt| == i
        invariant forall j :: 0 <= j < i ==> lt[j] == LocalTimeOf(h.station, h.startUt, j)
      {
        var t := ToLocalTime(h.station, AddMicros(h.startUt, i * MINUTE));
        assert t.micros == LocalTimeOf(h.station, h.startUt, i);
        LocalTimesExtend(h.station, h.startUt, lt, t.micros);
        lt := lt + [t.micros];
      }
      LocalTimesPointwise(h.station, h.startUt, h.endUt, lt);
    }

    method NighttimeMask() returns (mask: seq<bool>)
      requires h.Valid()
      ensures mask == NightMask(h.station, h.startUt, h.endUt)
    {
      var lt := GetLtArray();
      mask := seq(|lt|, i requires 0 <= i < |lt| => NIGHTSIDE.Contains(lt[i]));
    }

    method ExtractNightEr(env: Env) returns (r: Result<seq<Sample>, string>)
      requires ValidEnv(env) && h.Valid()
      ensures r == NightErValues(env, h.station, h.startUt, h.endUt)
    {
      var mask := NighttimeMask();
      var er :- CalcEr(env);
      r := Select(mask, er);
    }
  }
}
