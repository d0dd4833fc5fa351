/**
 * The H component of one station over a UT period: one day's minute file at
 * a time, sliced at the period's first and last minute and concatenated, and
 * its conversion to the dip equator.
 */
module CalcHComponent {
  import opened Wrappers
  import opened Samples
  import opened Calendar
  import opened MagdasStation
  import opened EeEnv
  import opened RawDataReader
  import opened StationParams
  import GmData

  /** `get_h_for_a_day`: column 0 of the day's file with out-of-range values set to NaN. */
  function HForADay(env: Env, code: string, date: Date): (r: Result<seq<Sample>, string>)
    requires Readable(env.archive)
    ensures r.Failure? <==> |FilesFor(env.archive, code, date)| > 1
    ensures r.Success? ==> |r.value| == ONE_DAY_MIN
    ensures |FilesFor(env.archive, code, date)| == 0 ==> r == Success(NanSeries(ONE_DAY_MIN))
    ensures r.Success? ==> GmData.WithinRawLimits(r.value, env.th)
    ensures (|FilesFor(env.archive, code, date)| == 1 && SUB in FilesFor(env.archive, code, date)[0]
             && ReadRawMin(FilesFor(env.archive, code, date)[0]).Failure?) ==> r == Success(NanSeries(ONE_DAY_MIN))
  {
    var files := FilesFor(env.archive, code, date);
    if |files| == 0 then Success(NanSeries(ONE_DAY_MIN))
    else if |files| > 1 then Failure("Multiple files found")
    else
      assert files == env.archive[(code, date)];
      match ReadRawMin(files[0])
      case Failure(_) => Success(NanSeries(ONE_DAY_MIN))
      case Success(rows) =>
        Success(seq(ONE_DAY_MIN, i requires 0 <= i < ONE_DAY_MIN =>
          Sanitize(rows[i][0], env.th.minRawH, env.th.maxRawH)))
  }

  /** The day's H is the h series `GMDataLoader` loads for the same station and day. */
  lemma HForADayIsGmH(env: Env, code: string, date: Date)
    requires Readable(env.archive)
    ensures HForADay(env, code, date).Success? <==> GmData.LoadGm(env, code, date).Success?
    ensures HForADay(env, code, date).Success? ==>
      HForADay(env, code, date).value == GmData.LoadGm(env, code, date).value.h
  {
  }

  /** Column 0 of the decoded file, sanitized: what a single decodable file yields. */
  function SanitizedH(rows: seq<seq<Float>>, th: Thresholds): (r: seq<Sample>)
    requires |rows| == ONE_DAY_MIN && forall i :: 0 <= i < ONE_DAY_MIN ==> |rows[i]| > 0
    ensures |r| == ONE_DAY_MIN
  {
    seq(ONE_DAY_MIN, i requires 0 <= i < ONE_DAY_MIN => Sanitize(rows[i][0], th.minRawH, th.maxRawH))
  }

  lemma HForADayDecoded(env: Env, code: string, date: Date)
    requires Readable(env.archive) && |FilesFor(env.archive, code, date)| == 1
    requires SUB in FilesFor(env.archive, code, date)[0]
    requires ReadRawMin(FilesFor(env.archive, code, date)[0]).Success?
    ensures var rows := ReadRawMin(FilesFor(env.archive, code, date)[0]).value;
      |rows| == ONE_DAY_MIN && (forall i :: 0 <= i < ONE_DAY_MIN ==> |rows[i]| > 0) &&
      HForADay(env, code, date) == Success(SanitizedH(rows, env.th))
  {
  }

  /** The in-place loop: every out-of-range value is overwritten with NaN, every other value kept. */
  method ClipInPlace(h: array<Float>, lo: real, hi: real)
    modifies h
    ensures forall j :: 0 <= j < h.Length ==> h[j] == (if OutOfRange(old(h[j]), lo, hi) then NaN else old(h[j]))
  {
    for i := 0 to h.Length
      invariant forall j :: 0 <= j < i ==> h[j] == (if OutOfRange(old(h[j]), lo, hi) then NaN else old(h[j]))
      invariant forall j :: i <= j < h.Length ==> h[j] == old(h[j])
    {
      if OutOfRange(h[i], lo, hi) {
        h[i] := NaN;
      }
    }
  }

  method GetHForADay(env: Env, code: string, date: Date) returns (r: Result<seq<Sample>, string>)
    requires Readable(env.archive)
    ensures r == HForADay(env, code, date)
  {
    var files := FilesFor(env.archive, code, date);
    if |files| == 0 {
      return Success(NanSeries(ONE_DAY_MIN));
    }
    if |files| > 1 {
      return Failure("Multiple files found");
    }
    assert files == env.archive[(code, date)];
    var raw := ReadRawMinData(files[0]);
    if raw.Failure? {
      return Success(NanSeries(ONE_DAY_MIN));
    }
    HForADayDecoded(env, code, date);
    var rows := raw.value;
    var h := new Float[ONE_DAY_MIN](i requires 0 <= i < ONE_DAY_MIN => rows[i][0]);
    ClipInPlace(h, env.th.minRawH, env.th.maxRawH);
    var values := seq(ONE_DAY_MIN, i requires 0 <= i < ONE_DAY_MIN reads h => ToSample(h[i]));
    forall j | 0 <= j < ONE_DAY_MIN
      ensures values[j] == SanitizedH(rows, env.th)[j]
    {
      ClipInPlaceIsSanitize(rows[j][0], env.th.minRawH, env.th.maxRawH);
    }
    assert values == SanitizedH(rows, env.th);
    r := Success(values);
  }

  /** One day's H, or the error that stopped its loading. */
  type DayResult = Result<seq<Sample>, string>

  /** Each successfully loaded day of the first `n + 1` days has 1440 minutes. */
  predicate WholeDays(days: seq<DayResult>, n: int) {
    |days| == n + 1 && forall j :: 0 <= j <= n && days[j].Success? ==> |days[j].value| == ONE_DAY_MIN
  }

  /** Start and end minutes within a day, and days `0..n` whole where they load. */
  predicate Spliceable(days: seq<DayResult>, s: int, e: int, n: int) {
    0 <= s < ONE_DAY_MIN && 0 <= e < ONE_DAY_MIN && 0 <= n && WholeDays(days, n)
  }

  /**
   * What day `k` of days `0..n` contributes: from minute `s` on the first
   * day, through minute `e` on the last, the whole day in between.
   */
  function Piece(days: seq<DayResult>, s: int, e: int, n: int, k: int): (r: Result<seq<Sample>, string>)
    requires Spliceable(days, s, e, n) && 0 <= k <= n
    ensures r.Failure? <==> days[k].Failure?
  {
    var day :- days[k];
    if k == 0 then Success(day[s..])
    else if k == n then Success(day[..e + 1])
    else Success(day)
  }

  /** The pieces of the first `k` days concatenated, or the first failure among them. */
  function Splice(days: seq<DayResult>, s: int, e: int, n: int, k: int): (r: Result<seq<Sample>, string>)
    requires Spliceable(days, s, e, n) && 0 <= k <= n + 1
  {
    if k == 0 then Success([])
    else
      var prev :- Splice(days, s, e, n, k - 1);
      var piece :- Piece(days, s, e, n, k - 1);
      Success(prev + piece)
  }

  /** Day `k` either extends the splice of the days before it by its piece or ends it with its failure. */
  lemma SpliceNext(days: seq<DayResult>, s: int, e: int, n: int, k: int)
    requires Spliceable(days, s, e, n) && 0 <= k <= n && Splice(days, s, e, n, k).Success?
    ensures Piece(days, s, e, n, k).Failure? ==> Splice(days, s, e, n, k + 1) == Piece(days, s, e, n, k).PropagateFailure()
    ensures Piece(days, s, e, n, k).Success? ==>
      Splice(days, s, e, n, k + 1) == Success(Splice(days, s, e, n, k).value + Piece(days, s, e, n, k).value)
  {
  }

  lemma {:induction false} SpliceFailurePersists(days: seq<DayResult>, s: int, e: int, n: int, k: int, k2: int)
    requires Spliceable(days, s, e, n) && 0 <= k <= k2 <= n + 1
    requires Splice(days, s, e, n, k).Failure?
    ensures Splice(days, s, e, n, k2) == Splice(days, s, e, n, k)
    decreases k2 - k
  {
    if k < k2 {
      SpliceFailurePersists(days, s, e, n, k, k2 - 1);
    }
  }

  /** The splice fails exactly when one of its days does. */
  lemma {:induction false} SpliceSucceeds(days: seq<DayResult>, s: int, e: int, n: int, k: int)
    requires Spliceable(days, s, e, n) && 0 <= k <= n + 1
    ensures Splice(days, s, e, n, k).Success? <==> forall j :: 0 <= j < k ==> days[j].Success?
  {
    if k > 0 {
      SpliceSucceeds(days, s, e, n, k - 1);
    }
  }

  /** The first `k` pieces hold `k` days less the `s` minutes before the start, and the last one ends at minute `e`. */
  lemma {:induction false} SpliceLength(days: seq<DayResult>, s: int, e: int, n: int, k: int)
    requires Spliceable(days, s, e, n) && 0 <= k <= n + 1 && n >= 1
    requires Splice(days, s, e, n, k).Success?
    ensures |Splice(days, s, e, n, k).value| ==
      if k == 0 then 0 else if k <= n then k * ONE_DAY_MIN - s else n * ONE_DAY_MIN - s + e + 1
  {
    if k > 0 {
      SpliceLength(days, s, e, n, k - 1);
    }
  }

  /** Element `m` of the splice is minute `(s + m) % 1440` of day `(s + m) / 1440`. */
  lemma {:induction false} SpliceAt(days: seq<DayResult>, s: int, e: int, n: int, k: int, m: int)
    requires Spliceable(days, s, e, n) && 0 <= k <= n + 1 && n >= 1
    requires Splice(days, s, e, n, k).Success?
    requires 0 <= m < |Splice(days, s, e, n, k).value|
    ensures 0 <= (s + m) / ONE_DAY_MIN <= n
    ensures days[(s + m) / ONE_DAY_MIN].Success?
    ensures Splice(days, s, e, n, k).value[m] == days[(s + m) / ONE_DAY_MIN].value[(s + m) % ONE_DAY_MIN]
  {
    var p := Splice(days, s, e, n, k - 1).value;
    var piece := Piece(days, s, e, n, k - 1).value;
    SpliceLength(days, s, e, n, k - 1);
    assert Splice(days, s, e, n, k).value == p + piece;
    if m < |p| {
      SpliceAt(days, s, e, n, k - 1, m);
    } else if k == 1 {
      assert (s + m) / ONE_DAY_MIN == 0;
    } else {
      assert s + m == (k - 1) * ONE_DAY_MIN + (m - |p|);
    }
  }

  /** Whole days from the start date to the end date. */
  function DaysBetween(start: DateTime, end: DateTime): int
    requires Valid(start) && Valid(end)
  {
    ToOrdinal(end.date) - ToOrdinal(start.date)
  }

  /** The H of the first `k` days of the period, counted from the start date. */
  function DaysOf(env: Env, code: string, start: Date, k: nat): (days: seq<DayResult>)
    requires Readable(env.archive) && ValidDate(start)
    ensures |days| == k
    ensures forall j :: 0 <= j < k && days[j].Success? ==> |days[j].value| == ONE_DAY_MIN
  {
    if k == 0 then [] else DaysOf(env, code, start, k - 1) + [HForADay(env, code, AddDays(start, k - 1))]
  }

  /** Entry `j` is the H of the `j`-th day after the start date. */
  lemma {:induction false} DaysOfAt(env: Env, code: string, start: Date, k: nat, j: int)
    requires Readable(env.archive) && ValidDate(start) && 0 <= j < k
    ensures DaysOf(env, code, start, k)[j] == HForADay(env, code, AddDays(start, j))
  {
    if j < k - 1 {
      DaysOfAt(env, code, start, k - 1, j);
    }
  }

  /**
   * The minutes from minute `s` of day 0 through minute `e` of day `n`: a
   * slice of the one day when `n` is 0 (empty when `e < s`), else the splice.
   */
  function Gather(days: seq<DayResult>, s: int, e: int, n: int): (r: Result<seq<Sample>, string>)
    requires Spliceable(days, s, e, n)
  {
    if n == 0 then
      var day :- days[0];
      Success(day[s..if e + 1 < s then s else e + 1])
    else Splice(days, s, e, n, n + 1)
  }

  /** Gathering fails exactly when one of the days `0..n` fails. */
  lemma GatherFails(days: seq<DayResult>, s: int, e: int, n: int)
    requires Spliceable(days, s, e, n)
    ensures Gather(days, s, e, n).Failure? <==> exists j :: 0 <= j <= n && days[j].Failure?
  {
    if n > 0 {
      SpliceSucceeds(days, s, e, n, n + 1);
    }
  }

  /** When minute `e` of day `n` is not before minute `s` of day 0, one sample per minute from one to the other. */
  lemma GatherLength(days: seq<DayResult>, s: int, e: int, n: int)
    requires Spliceable(days, s, e, n)
    requires s <= n * ONE_DAY_MIN + e && Gather(days, s, e, n).Success?
    ensures |Gather(days, s, e, n).value| == n * ONE_DAY_MIN + e - s + 1
  {
    if n > 0 {
      SpliceLength(days, s, e, n, n + 1);
    }
  }

  /** Sample `m` is minute `(s + m) % 1440` of day `(s + m) / 1440`. */
  lemma GatherAt(days: seq<DayResult>, s: int, e: int, n: int, m: int)
    requires Spliceable(days, s, e, n)
    requires Gather(days, s, e, n).Success? && 0 <= m < |Gather(days, s, e, n).value|
    ensures 0 <= (s + m) / ONE_DAY_MIN <= n && days[(s + m) / ONE_DAY_MIN].Success?
    ensures Gather(days, s, e, n).value[m] == days[(s + m) / ONE_DAY_MIN].value[(s + m) % ONE_DAY_MIN]
  {
    if n > 0 {
      SpliceAt(days, s, e, n, n + 1, m);
    } else {
      assert (s + m) / ONE_DAY_MIN == 0 && (s + m) % ONE_DAY_MIN == s + m;
    }
  }

  /** `get_h_component`: nothing when the end date precedes the start date. */
  function HValues(env: Env, code: string, start: DateTime, end: DateTime): Result<seq<Sample>, string>
    requires Readable(env.archive) && Valid(start) && Valid(end)
  {
    if DaysBetween(start, end) < 0 then Success([])
    else Gather(DaysOf(env, code, start.date, DaysBetween(start, end) + 1), MinuteOfDay(start), MinuteOfDay(end), DaysBetween(start, end))
  }

  lemma AddDaysHitsEnd(start: DateTime, end: DateTime, i: int)
    requires Valid(start) && Valid(end)
    ensures AddDays(start.date, i) == start.date <==> i == 0
    ensures AddDays(start.date, i) == end.date <==> i == DaysBetween(start, end)
  {
    AddDaysOrdinal(start.date, i);
    DateOrderIsOrdinalOrder(AddDays(start.date, i), start.date);
    DateOrderIsOrdinalOrder(AddDays(start.date, i), end.date);
  }

  /** One pass of the day loop: day `i`'s H, cut at the start minute on the start date and at the end minute on the end date. */
  method DayPiece(env: Env, code: string, start: DateTime, end: DateTime, i: int) returns (r: Result<seq<Sample>, string>)
    requires Readable(env.archive) && Valid(start) && Valid(end) && 0 <= i <= DaysBetween(start, end)
    ensures r == Piece(DaysOf(env, code, start.date, DaysBetween(start, end) + 1), MinuteOfDay(start), MinuteOfDay(end), DaysBetween(start, end), i)
  {
    var startDate, endDate := start.date, end.date;
    var startIdx, endIdx := MinuteOfDay(start), MinuteOfDay(end);
    var currentDate := AddDays(startDate, i);
    DaysOfAt(env, code, startDate, DaysBetween(start, end) + 1, i);
    var dayH :- GetHForADay(env, code, currentDate);
    AddDaysHitsEnd(start, end, i);
    if currentDate == startDate {
      r := Success(dayH[startIdx..]);
    } else if currentDate == endDate {
      r := Success(dayH[..endIdx + 1]);
    } else {
      r := Success(dayH);
    }
  }

  /** The day-by-day loop of `get_h_component` for a period spanning several dates. */
  method CollectDays(env: Env, code: string, start: DateTime, end: DateTime) returns (r: Result<seq<Sample>, string>)
    requires Readable(env.archive) && Valid(start) && Valid(end) && DaysBetween(start, end) >= 1
    ensures r == Splice(DaysOf(env, code, start.date, DaysBetween(start, end) + 1), MinuteOfDay(start), MinuteOfDay(end), DaysBetween(start, end), DaysBetween(start, end) + 1)
  {
    ghost var days := DaysOf(env, code, start.date, DaysBetween(start, end) + 1);
    ghost var s, e := MinuteOfDay(start), MinuteOfDay(end);
    var n := DaysBetween(start, end);
    assert Spliceable(days, s, e, n);
    var hValues: seq<Sample> := [];
    for i := 0 to n + 1
      invariant Splice(days, s, e, n, i) == Success(hValues)
    {
      var piece := DayPiece(env, code, start, end, i);
      SpliceNext(days, s, e, n, i);
      if piece.Failure? {
        SpliceFailurePersists(days, s, e, n, i + 1, n + 1);
        return piece.PropagateFailure();
      }
      hValues := hValues + piece.value;
    }
    return Success(hValues);
  }

  /** Multiplying the equatorial value back by the cosine gives the observed H; NaN stays NaN. */
  function Equatorial(num: Numerics, lat: real, h: seq<Sample>): (r: seq<Sample>)
    requires num.cosDeg(lat) > 0.0
    ensures |r| == |h|
    ensures forall i :: 0 <= i < |h| ==> (r[i].None? <==> h[i].None?)
    ensures forall i :: 0 <= i < |h| && r[i].Some? ==> r[i].value * num.cosDeg(lat) == h[i].value
  {
    seq(|h|, i requires 0 <= i < |h| => if h[i].Some? then Some(h[i].value / num.cosDeg(lat)) else None)
  }

  /** `to_equatorial_h` */
  function EquatorialH(env: Env, station: Station, start: DateTime, end: DateTime): (r: Result<seq<Sample>, string>)
    requires ValidEnv(env) && station in Catalog && Valid(start) && Valid(end)
    ensures r.Success? <==> HValues(env, station.code, start, end).Success?
    ensures r.Success? ==> |r.value| == |HValues(env, station.code, start, end).value|
  {
    CatalogLatitudes(station);
    var h :- HValues(env, station.code, start, end);
    Success(Equatorial(env.num, station.gmLat, h))
  }

  /** Fetching the H of a period fails exactly when one of its days has more than one file. */
  lemma HValuesFails(env: Env, code: string, start: DateTime, end: DateTime)
    requires Readable(env.archive) && Valid(start) && Valid(end)
    ensures HValues(env, code, start, end).Failure? <==>
      exists j :: 0 <= j <= DaysBetween(start, end) && |FilesFor(env.archive, code, AddDays(start.date, j))| > 1
  {
    var n := DaysBetween(start, end);
    if n >= 0 {
      var days := DaysOf(env, code, start.date, DaysBetween(start, end) + 1);
      GatherFails(days, MinuteOfDay(start), MinuteOfDay(end), n);
      if HValues(env, code, start, end).Failure? {
        var j :| 0 <= j <= n && days[j].Failure?;
        DaysOfAt(env, code, start.date, n + 1, j);
      } else {
        forall j | 0 <= j <= n
          ensures |FilesFor(env.archive, code, AddDays(start.date, j))| <= 1
        {
          DaysOfAt(env, code, start.date, n + 1, j);
        }
      }
    }
  }

  /** The H of a period has one sample per minute from the start minute through the end minute. */
  lemma HValuesLength(env: Env, code: string, start: DateTime, end: DateTime)
    requires Readable(env.archive) && Valid(start) && Valid(end) && Instant(start) < Instant(end)
    requires HValues(env, code, start, end).Success?
    ensures |HValues(env, code, start, end).value| == Instant(end) / MINUTE - Instant(start) / MINUTE + 1
  {
    DateOrderIsOrdinalOrder(start.date, end.date);
    var n := DaysBetween(start, end);
    var s, e := MinuteOfDay(start), MinuteOfDay(end);
    assert Instant(start) / MINUTE == ToOrdinal(start.date) * ONE_DAY_MIN + s;
    assert Instant(end) / MINUTE == ToOrdinal(end.date) * ONE_DAY_MIN + e;
    GatherLength(DaysOf(env, code, start.date, DaysBetween(start, end) + 1), s, e, n);
  }

  /** Sample `m` of the H of a period is minute `(s + m) % 1440` of day `(s + m) / 1440`, `s` the start minute. */
  lemma HValuesAt(env: Env, code: string, start: DateTime, end: DateTime, m: int)
    requires Readable(env.archive) && Valid(start) && Valid(end) && Instant(start) < Instant(end)
    requires HValues(env, code, start, end).Success?
    requires 0 <= m < |HValues(env, code, start, end).value|
    ensures var t := MinuteOfDay(start) + m;
      var day := HForADay(env, code, AddDays(start.date, t / ONE_DAY_MIN));
      day.Success? && HValues(env, code, start, end).value[m] == day.value[t % ONE_DAY_MIN]
  {
    DateOrderIsOrdinalOrder(start.date, end.date);
    var n, j := DaysBetween(start, end), (MinuteOfDay(start) + m) / ONE_DAY_MIN;
    GatherAt(DaysOf(env, code, start.date, DaysBetween(start, end) + 1), MinuteOfDay(start), MinuteOfDay(end), n, m);
    DaysOfAt(env, code, start.date, n + 1, j);
  }

  /** `HComponent`: a station and a UT period, fixed at construction. */
  class HComponent {
    const station: Station
    const startUt: DateTime
    const endUt: DateTime

    ghost predicate Valid() {
      station in Catalog && Calendar.Valid(startUt) && Calendar.Valid(endUt) && Instant(startUt) < Instant(endUt)
    }

    constructor (p: Params)
      requires p.station in Catalog && ValidPeriod(p.period)
      ensures Valid() && station == p.station && startUt == p.period.start && endUt == p.period.end
    {
      station := p.station;
      startUt := p.period.start;
      endUt := p.period.end;
    }

    method GetHComponent(env: Env) returns (r: Result<seq<Sample>, string>)
      requires Readable(env.archive) && Valid()
      ensures r == HValues(env, station.code, startUt, endUt)
    {
      var startDate, endDate := startUt.date, endUt.date;
      var startIdx, endIdx := MinuteOfDay(startUt), MinuteOfDay(endUt);
      DateOrderIsOrdinalOrder(startDate, endDate);
      if startDate == endDate {
        assert AddDays(startDate, 0) == startDate;
        DaysOfAt(env, station.code, startDate, 1, 0);
        var day :- GetHForADay(env, station.code, startDate);
        return Success(day[startIdx..endIdx + 1]);
      }
      r := CollectDays(env, station.code, startUt, endUt);
    }

    method ToEquatorialH(env: Env) returns (r: Result<seq<Sample>, string>)
      requires ValidEnv(env) && Valid()
      ensures r == EquatorialH(env, station, startUt, endUt)
    {
      var h :- GetHComponent(env);
      CatalogLatitudes(station);
      return Success(Equatorial(env.num, station.gmLat, h));
    }
  }
}
