/**
 * `ErBaseline`: per-station baselines (the median equatorial H of one UT
 * day) kept in a CSV file, one row per baseline date and one column per
 * station, and recalculated every ten days of a month.
 */
module ErBaseline {
  import opened Wrappers
  import opened Samples
  import opened Calendar
  import opened MagdasStation
  import opened EeEnv
  import opened CalcHComponent
  import StationParams
  import opened Lexicographic
  import opened BaselineCsv

  const UPDATE_INTERVAL_DAYS := 10

  /** `_get_baseline_date`: day 1, 11, 21 or 31 of the date's month, at midnight. */
  function BaselineDate(t: DateTime): (r: DateTime)
    requires Valid(t)
    ensures Valid(r)
  {
    var monthStart := DateTime(Date(t.date.year, t.date.month, 1), 0);
    assert Instant(t) - Instant(monthStart) == (t.date.day - 1) * DAY + t.micros;
    DayCount(t.date.day - 1, t.micros);
    var daysFromMonthStart := (Instant(t) - Instant(monthStart)) / DAY;
    var baselineDay := (daysFromMonthStart / UPDATE_INTERVAL_DAYS) * UPDATE_INTERVAL_DAYS + 1;
    var day := if baselineDay > t.date.day then (if baselineDay - UPDATE_INTERVAL_DAYS > 1 then baselineDay - UPDATE_INTERVAL_DAYS else 1) else baselineDay;
    DateTime(Date(t.date.year, t.date.month, day), 0)
  }

  /**
   * The baseline date is midnight of the last day of the same month on or
   * before the date whose day is 1 more than a multiple of ten: it is never
   * after the date and fewer than ten days before it, so the fallback branch
   * for a day past the date never changes anything.
   */
  lemma BaselineDateIsLastDecade(t: DateTime)
    requires Valid(t)
    ensures BaselineDate(t).date.year == t.date.year && BaselineDate(t).date.month == t.date.month
    ensures BaselineDate(t).micros == 0
    ensures (BaselineDate(t).date.day - 1) % UPDATE_INTERVAL_DAYS == 0
    ensures 1 <= BaselineDate(t).date.day <= t.date.day < BaselineDate(t).date.day + UPDATE_INTERVAL_DAYS
    ensures ((t.date.day - 1) / UPDATE_INTERVAL_DAYS) * UPDATE_INTERVAL_DAYS + 1 <= t.date.day
  {
    var monthStart := DateTime(Date(t.date.year, t.date.month, 1), 0);
    assert Instant(t) - Instant(monthStart) == (t.date.day - 1) * DAY + t.micros;
    DayCount(t.date.day - 1, t.micros);
  }

  lemma DayCount(days: int, micros: int)
    requires 0 <= micros < DAY
    ensures (days * DAY + micros) / DAY == days
  {
  }

  /** The three dates of the baseline test: 1 April stays, 15 April goes to the 11th, 30 April to the 21st. */
  lemma BaselineDateExamples()
    ensures BaselineDate(At(2014, 4, 1, 0, 0)) == At(2014, 4, 1, 0, 0)
    ensures BaselineDate(At(2014, 4, 15, 0, 0)) == At(2014, 4, 11, 0, 0)
    ensures BaselineDate(At(2014, 4, 30, 0, 0)) == At(2014, 4, 21, 0, 0)
  {
    BaselineDateIsLastDecade(At(2014, 4, 1, 0, 0));
    BaselineDateIsLastDecade(At(2014, 4, 15, 0, 0));
    BaselineDateIsLastDecade(At(2014, 4, 30, 0, 0));
  }

  /** The decimal digits of `n`. */
  function Decimal(n: nat): (s: string)
    ensures |s| > 0
    decreases n
  {
    var digit := "0123456789"[n % 10];
    if n < 10 then [digit] else Decimal(n / 10) + [digit]
  }

  /** `n` in decimal, zero-filled to `width` characters. */
  function Pad(n: nat, width: nat): (s: string)
    ensures |s| >= width
  {
    var digits := Decimal(n);
    if |digits| >= width then digits else seq(width - |digits|, _ => '0') + digits
  }

  /** `strftime("%Y-%m-%d")` */
  function DateString(d: Date): string {
    var year := if d.year >= 0 then Pad(d.year, 4) else "-" + Pad(-d.year, 4);
    year + "-" + Pad(if d.month >= 0 then d.month else 0, 2) + "-" + Pad(if d.day >= 0 then d.day else 0, 2)
  }

  /** The UT day `calculate_baseline` looks at: 00:00 through 23:59 of the date. */
  function BaselineDayEnd(d: Date): (end: DateTime)
    requires ValidDate(d)
    ensures Valid(end)
  {
    AddMicros(AddMicros(DateTime(d, 0), DAY), -MINUTE)
  }

  /** `calculate_baseline`: the median of the station's equatorial H over that day. */
  function CalculateBaseline(env: Env, station: Station, d: Date): Result<Sample, string>
    requires ValidEnv(env) && station in Catalog && ValidDate(d)
  {
    var eq :- EquatorialH(env, station, DateTime(d, 0), BaselineDayEnd(d));
    Success(env.num.nanMedian(eq))
  }

  /** The day runs from midnight to 23:59 of the same date, so the baseline is the median of 1440 minutes. */
  lemma BaselineCoversOneDay(env: Env, station: Station, d: Date)
    requires ValidEnv(env) && station in Catalog && ValidDate(d)
    ensures BaselineDayEnd(d) == DateTime(d, DAY - MINUTE)
    ensures EquatorialH(env, station, DateTime(d, 0), BaselineDayEnd(d)).Success? ==>
      |EquatorialH(env, station, DateTime(d, 0), BaselineDayEnd(d)).value| == 1440
  {
    var start := DateTime(d, 0);
    var next := AddMicros(start, DAY);
    AddMicrosInstant(start, DAY);
    AddMicrosInverse(start, DAY);
    assert BaselineDayEnd(d) == DateTime(d, DAY - MINUTE) by {
      AddMicrosInstant(next, -MINUTE);
      BeforeIsInstantOrder(BaselineDayEnd(d), DateTime(d, DAY - MINUTE));
    }
    if EquatorialH(env, station, start, BaselineDayEnd(d)).Success? {
      HValuesLength(env, station.code, start, BaselineDayEnd(d));
      var o := ToOrdinal(d);
      assert Instant(start) == (o * 1440) * MINUTE;
      assert Instant(BaselineDayEnd(d)) == (o * 1440 + 1439) * MINUTE;
    }
  }

  /** No catalog station is called "date". */
  lemma CatalogHasNoDate(s: Station)
    requires s in Catalog
    ensures s.code != "date"
  {
  }

  /** The loop of `load_baseline_values`, one row at a time after the header. */
  method LoadTableRows(ft: FloatText, header: seq<string>, rows: seq<seq<string>>) returns (r: Result<Values, string>)
    ensures r == LoadRows(ft, header, rows, |rows|)
  {
    var values: Values := map[];
    for i := 0 to |rows|
      invariant LoadRows(ft, header, rows, i) == Success(values)
    {
      var row := rows[i];
      LoadRowsNext(ft, header, rows, i, values);
      if row != [] {
        var entry := LoadRow(ft, header, row);
        if entry.Failure? {
          return Failure(entry.error);
        }
        values := values[entry.value.0 := entry.value.1];
      }
    }
    return Success(values);
  }

  /** The baseline file, and how floats are printed into it and read back. */
  class BaselineStore {
    var file: Option<Table>
    const ft: FloatText

    constructor (ft: FloatText, file: Option<Table>)
      ensures this.ft == ft && this.file == file
    {
      this.ft := ft;
      this.file := file;
    }

    /** `load_baseline_values`: a missing or empty file loads as no values, otherwise its rows after the header. */
    method LoadBaselineValues() returns (r: Result<Values, string>)
      ensures r == Load(ft, file)
    {
      if file.None? || |file.value| == 0 {
        return Success(map[]);
      }
      r := LoadTableRows(ft, file.value[0], file.value[1..]);
    }

    /** `save_baseline_values`: collect the station codes, then write the header and the rows in date order. */
    method SaveBaselineValues(values: Values)
      modifies this
      ensures file == Some(Render(ft, values))
    {
      var allStations := CollectStations(values);
      var fieldnames := ["date"] + Sorted(allStations);
      var rows := WriteRows(ft, fieldnames, values);
      file := Some([fieldnames] + rows);
    }

    /**
     * `get_or_calculate_baseline`: the stored baseline of the station's
     * baseline date when the file has one; otherwise it is calculated, stored
     * and the file saved again.
     */
    method GetOrCalculateBaseline(env: Env, station: Station, t: DateTime) returns (r: Result<Sample, string>)
      requires ValidEnv(env) && station in Catalog && Valid(t)
      modifies this
      ensures var key := DateString(BaselineDate(t).date);
        var loaded := Load(ft, old(file));
        if loaded.Failure? then r.Failure? && file == old(file)
        else if key in loaded.value && station.code in loaded.value[key] then
          r == Success(loaded.value[key][station.code]) && file == old(file)
        else
          r == CalculateBaseline(env, station, BaselineDate(t).date) &&
          file == (if r.Success? then Some(Render(ft, Insert(loaded.value, key, station.code, r.value))) else old(file))
    {
      var baselineDate := BaselineDate(t);
      BaselineDateIsLastDecade(t);
      var dateStr := DateString(baselineDate.date);
      var baselineValues :- LoadBaselineValues();
      if dateStr in baselineValues && station.code in baselineValues[dateStr] {
        return Success(baselineValues[dateStr][station.code]);
      }
      var baseline :- CalculateBaselineMethod(env, station, baselineDate.date);
      var stationValues: map<string, Sample> := if dateStr in baselineValues then baselineValues[dateStr] else map[];
      baselineValues := baselineValues[dateStr := stationValues[station.code := baseline]];
      SaveBaselineValues(baselineValues);
      return Success(baseline);
    }
  }

  /** The loop of `save_baseline_values` that gathers every station code. */
  method CollectStations(values: Values) returns (allStations: set<string>)
    ensures allStations == Stations(values)
  {
    allStations := {};
    var remaining := values.Keys;
    while remaining != {}
      invariant remaining <= values.Keys
      invariant allStations == StationsOf(values, values.Keys - remaining)
      decreases |remaining|
    {
      var d :| d in remaining;
      StationsOfAdd(values, values.Keys - remaining, d);
      assert values.Keys - (remaining - {d}) == (values.Keys - remaining) + {d};
      allStations := allStations + values[d].Keys;
      remaining := remaining - {d};
    }
    assert values.Keys - remaining == values.Keys;
  }

  /** The loop of `save_baseline_values` that writes one row per date, dates ascending. */
  method WriteRows(ft: FloatText, fieldnames: seq<string>, values: Values) returns (rows: Table)
    ensures [fieldnames] + rows == RenderWith(ft, fieldnames, values)
  {
    var dates := Sorted(values.Keys);
    ghost var table := RenderWith(ft, fieldnames, values);
    ghost var body := table[1..];
    assert table == [fieldnames] + body;
    rows := [];
    for i := 0 to |dates|
      invariant rows == body[..i]
    {
      assert dates[i] in dates;
      assert body[i] == RowOf(ft, fieldnames, dates[i], values[dates[i]]);
      assert body[..i + 1] == body[..i] + [body[i]];
      rows := rows + [RowOf(ft, fieldnames, dates[i], values[dates[i]])];
    }
    assert body[..|dates|] == body;
  }

  /** `calculate_baseline` as the source runs it: build the day's period, the H component, and take the median. */
  method CalculateBaselineMethod(env: Env, station: Station, d: Date) returns (r: Result<Sample, string>)
    requires ValidEnv(env) && station in Catalog && ValidDate(d)
    ensures r == CalculateBaseline(env, station, d)
  {
    var startUt := DateTime(d, 0);
    var endUt := AddMicros(AddMicros(startUt, DAY), -MINUTE);
    BaselineCoversOneDay(env, station, d);
    BeforeIsInstantOrder(startUt, endUt);
    var h := new HComponent(StationParams.Params(station, StationParams.Period(startUt, endUt)));
    var hComponent :- h.ToEquatorialH(env);
    return Success(env.num.nanMedian(hComponent));
  }
}
