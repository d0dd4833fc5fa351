/**
 * Peculiar EEJ days and their kind.  For every local date of a period the
 * best dip and off-dip EUEL are picked, the day is classified from the noon
 * peak difference, Kp and EDst, and a day that comes out peculiar is typed
 * as undeveloped or sudden from the correlation of the two unsmoothed EUEL
 * series over 09:00-14:59.
 */
module PeculiarEej {
  import opened Wrappers
  import opened Samples
  import opened Calendar
  import opened MagdasStation
  import opened EeEnv
  import opened StationParams
  import opened EejDetection
  import Region

  /** `PeculiarEejType`, with the values it is stored under. */
  datatype PeculiarEejType = Undeveloped | Sudden | Error {
    function Value(): string {
      match this
      case Undeveloped => "未発達型"
      case Sudden => "突発型"
      case Error => "エラー"
    }
  }

  /** `PeculiarEejModel`: one peculiar day of a region and its kind. */
  datatype PeculiarEejModel = PeculiarEejModel(date: Date, region: Region.Region, eejType: string)

  /** `ClassificationPeculiarEej`, whose fields are set once by the constructor. */
  datatype Classification = Classification(
    ltPeriod: Period,
    dipStations: seq<Station>,
    offdipStations: seq<Station>,
    region: Region.Region)

  /** A `Period` as its constructor admits it, over stations of the catalog. */
  predicate ValidClassification(c: Classification) {
    && ValidPeriod(c.ltPeriod)
    && (forall i :: 0 <= i < |c.dipStations| ==> c.dipStations[i] in Catalog)
    && (forall i :: 0 <= i < |c.offdipStations| ==> c.offdipStations[i] in Catalog)
  }

  // ---------------------------------------------------------------------
  // `classify_peculiar_eej_type`

  /** The correlation threshold above which a peculiar day is undeveloped. */
  const UNDEVELOPED_CORR: real := 0.6

  /** `corr > 0.6`, which a NaN correlation fails. */
  predicate CorrAbove(corr: Sample) {
    corr.Some? && corr.value > UNDEVELOPED_CORR
  }

  /** `(hours >= 9) & (hours < 15)` over the given times. */
  function HourMask(times: seq<DateTime>): (mask: seq<bool>)
    ensures |mask| == |times|
    ensures forall i :: 0 <= i < |times| ==> (mask[i] <==> 9 <= Hour(times[i]) < 15)
  {
    seq(|times|, i requires 0 <= i < |times| => 9 <= Hour(times[i]) < 15)
  }

  /**
   * `classify_peculiar_eej_type`: ERROR when no time falls in hours 9-14;
   * otherwise both series are cut to those times, which raises `IndexError`
   * when a series does not match the times in length, and the pairwise
   * correlation of what is left decides between UNDEVELOPED and SUDDEN.
   */
  function ClassifyPeculiarEejType(num: Numerics, times: seq<DateTime>, dip: seq<Sample>, offdip: seq<Sample>): (r: Result<PeculiarEejType, string>)
    ensures r == Success(Error) <==> forall i :: 0 <= i < |times| ==> !(9 <= Hour(times[i]) < 15)
    ensures r.Failure? <==>
      (exists i :: 0 <= i < |times| && 9 <= Hour(times[i]) < 15) && (|dip| != |times| || |offdip| != |times|)
    ensures r.Success? && r.value != Error ==> |dip| == |times| && |offdip| == |times|
    ensures r.Success? && r.value != Error ==>
      (r.value == Undeveloped <==>
        CorrAbove(num.corr(Compress(dip, HourMask(times), |dip|), Compress(offdip, HourMask(times), |offdip|))))
  {
    var mask := HourMask(times);
    if true !in mask then Success(Error)
    else if |dip| != |mask| || |offdip| != |mask| then Failure("boolean index did not match indexed array")
    else
      var dipNoon := Compress(dip, mask, |dip|);
      var offdipNoon := Compress(offdip, mask, |offdip|);
      if CorrAbove(num.corr(dipNoon, offdipNoon)) then Success(Undeveloped) else Success(Sudden)
  }

  /** The 1440 minutes of a local day from midnight. */
  function DayMinutes(d: Date): (times: seq<DateTime>)
    requires ValidDate(d)
    ensures |times| == ONE_DAY_MIN
  {
    seq(ONE_DAY_MIN, i requires 0 <= i < ONE_DAY_MIN => AddMicros(DateTime(d, 0), i * MINUTE))
  }

  lemma DayMinuteAt(d: Date, i: int)
    requires ValidDate(d) && 0 <= i < ONE_DAY_MIN
    ensures DayMinutes(d)[i] == DateTime(d, i * MINUTE)
    ensures 9 <= Hour(DayMinutes(d)[i]) < 15 <==> 540 <= i < 900
  {
    assert (i * MINUTE) / DAY == 0 && (i * MINUTE) % DAY == i * MINUTE;
  }

  /**
   * Over the minutes of a local day the hour mask is the noon mask of the
   * peak difference (minutes 540 through 899), so the day is never ERROR;
   * the type fails exactly when a series is not 1440 long and is otherwise
   * UNDEVELOPED exactly when the noon slices correlate above 0.6.
   */
  lemma ClassifyDay(num: Numerics, d: Date, dip: seq<Sample>, offdip: seq<Sample>)
    requires ValidDate(d)
    ensures HourMask(DayMinutes(d)) == NoonMask(d)
    ensures ClassifyPeculiarEejType(num, DayMinutes(d), dip, offdip).Success? <==>
      |dip| == ONE_DAY_MIN && |offdip| == ONE_DAY_MIN
    ensures |dip| == ONE_DAY_MIN && |offdip| == ONE_DAY_MIN ==>
      ClassifyPeculiarEejType(num, DayMinutes(d), dip, offdip).value ==
        (if CorrAbove(num.corr(dip[540..900], offdip[540..900])) then Undeveloped else Sudden)
  {
    var times := DayMinutes(d);
    var mask := HourMask(times);
    forall i | 0 <= i < ONE_DAY_MIN
      ensures mask[i] == NoonMask(d)[i]
      ensures mask[i] <==> 540 <= i < 900
    {
      DayMinuteAt(d, i);
      NoonMaskAt(d, i);
    }
    assert mask[540];
    if |dip| == ONE_DAY_MIN && |offdip| == ONE_DAY_MIN {
      CompressRange(dip, mask, |dip|, 540, 900);
      CompressRange(offdip, mask, |offdip|, 540, 900);
    }
  }

  // ---------------------------------------------------------------------
  // One local date of `aggregate_peculiar_eej_data`

  /** What one date yields before the peculiar type: the two chosen EUEL and the category. */
  datatype DayAssessment = DayAssessment(dip: EuelData, offdip: EuelData, category: EejCategory)

  /**
   * Both selectors are built (and validated), each picks its EUEL, the peak
   * difference is taken and the category follows from it, the day's maximum
   * Kp and the minimum EDst.
   */
  function Assess(env: Env, maxKp: Date -> Sample, c: Classification, d: Date): (r: Result<DayAssessment, string>)
    requires ValidEnv(env) && ValidClassification(c) && ValidDate(d)
    ensures r.Success? ==> PeakDiff(r.value.dip.values, r.value.offdip.values, d).Success?
  {
    var dipSelector :- Validated(c.dipStations, d, true);
    var offdipSelector :- Validated(c.offdipStations, d, false);
    var dip :- Selected(c.dipStations, Candidates(env, c.dipStations, d));
    var offdip :- Selected(c.offdipStations, Candidates(env, c.offdipStations, d));
    var peakDiff :- PeakDiff(dip.values, offdip.values, d);
    var category :- ClassifyEejCategory(env, maxKp(d), peakDiff, d);
    Success(DayAssessment(dip, offdip, category))
  }

  /** What one date yields: a record, no record, or the error that ends the run. */
  type Outcome = Result<Option<PeculiarEejModel>, string>

  /** One pass of the loop: no record for a day that is not peculiar, else one record with its type. */
  function DayOutcome(env: Env, maxKp: Date -> Sample, c: Classification, d: Date): (r: Outcome)
    requires ValidEnv(env) && ValidClassification(c) && ValidDate(d)
    ensures r.Success? ==> Assess(env, maxKp, c, d).Success?
    ensures r.Success? ==> (r.value.Some? <==> Assess(env, maxKp, c, d).value.category == PeculiarEej)
    ensures r.Success? && r.value.Some? ==> r.value.value.date == d && r.value.value.region == c.region
  {
    var day :- Assess(env, maxKp, c, d);
    if day.category != PeculiarEej then Success(None)
    else
      var kind :- ClassifyPeculiarEejType(env.num, DayMinutes(d), day.dip.values, day.offdip.values);
      Success(Some(PeculiarEejModel(d, c.region, kind.Value())))
  }

  /**
   * A date whose category can be assessed always gets through the type
   * classification: the chosen EUEL passed the peak difference, so both are
   * 1440 long, and a peculiar day is UNDEVELOPED or SUDDEN by the noon
   * correlation, never ERROR.
   */
  lemma PeculiarDayType(env: Env, maxKp: Date -> Sample, c: Classification, d: Date)
    requires ValidEnv(env) && ValidClassification(c) && ValidDate(d)
    requires Assess(env, maxKp, c, d).Success?
    ensures DayOutcome(env, maxKp, c, d).Success?
    ensures Assess(env, maxKp, c, d).value.category == PeculiarEej ==>
      var day := Assess(env, maxKp, c, d).value;
      DayOutcome(env, maxKp, c, d).value == Some(PeculiarEejModel(d, c.region,
        if CorrAbove(env.num.corr(day.dip.values[540..900], day.offdip.values[540..900]))
        then Undeveloped.Value() else Sudden.Value()))
  {
    var day := Assess(env, maxKp, c, d).value;
    PeakDiffUsesNoon(day.dip.values, day.offdip.values, d);
    ClassifyDay(env.num, d, day.dip.values, day.offdip.values);
  }

  /** The body of the loop for one date, with the selectors, the factory and the Kp lookup. */
  method ProcessDay(env: Env, maxKp: Date -> Sample, c: Classification, d: Date) returns (r: Outcome)
    requires ValidEnv(env) && ValidClassification(c) && ValidDate(d)
    ensures r == DayOutcome(env, maxKp, c, d)
  {
    var dipSelector :- NewSelector(c.dipStations, d, true);
    var offdipSelector :- NewSelector(c.offdipStations, d, false);
    var dip :- SelectEuelData(env, dipSelector);
    var offdip :- SelectEuelData(env, offdipSelector);
    var peakDiff :- PeakDiff(dip.values, offdip.values, d);
    var minEdst :- DailyMinEdstOf(env, d);
    var category := EejCategoryOf(peakDiff, maxKp(d), minEdst);
    if category != PeculiarEej {
      return Success(None);
    }
    var kind :- ClassifyPeculiarEejType(env.num, DayMinutes(d), dip.values, offdip.values);
    return Success(Some(PeculiarEejModel(d, c.region, kind.Value())));
  }

  // ---------------------------------------------------------------------
  // `aggregate_peculiar_eej_data`

  /** `(end.date() - start.date()).days + 1`: the local dates the period touches. */
  function DayCount(p: Period): (n: int)
    requires ValidPeriod(p)
    ensures n >= 1
  {
    assert Instant(p.start) == ToOrdinal(p.start.date) * DAY + p.start.micros;
    assert Instant(p.end) == ToOrdinal(p.end.date) * DAY + p.end.micros;
    ToOrdinal(p.end.date) - ToOrdinal(p.start.date) + 1
  }

  /** The outcome of a date, as a function of the date. */
  function DayOf(env: Env, maxKp: Date -> Sample, c: Classification): (day: Date --> Outcome)
    requires ValidEnv(env) && ValidClassification(c)
    ensures forall d :: ValidDate(d) ==> day.requires(d)
  {
    d requires ValidDate(d) => DayOutcome(env, maxKp, c, d)
  }

  /** The outcomes of `n` consecutive dates from `start`, in order. */
  function OutcomesOver(day: Date --> Outcome, start: Date, n: nat): (outs: seq<Outcome>)
    requires ValidDate(start) && forall d :: ValidDate(d) ==> day.requires(d)
    ensures |outs| == n
  {
    seq(n, i requires 0 <= i < n => day(AddDays(start, i)))
  }

  /** The outcome of every date of the period, in order. */
  function Outcomes(env: Env, maxKp: Date -> Sample, c: Classification): (outs: seq<Outcome>)
    requires ValidEnv(env) && ValidClassification(c)
    ensures |outs| == DayCount(c.ltPeriod)
  {
    OutcomesOver(DayOf(env, maxKp, c), c.ltPeriod.start.date, DayCount(c.ltPeriod))
  }

  /** The records of the first `k` outcomes, in order; the first failure ends the run. */
  function Collect(outs: seq<Outcome>, k: nat): Result<seq<PeculiarEejModel>, string>
    requires k <= |outs|
  {
    if k == 0 then Success([])
    else
      var records :- Collect(outs, k - 1);
      var out :- outs[k - 1];
      Success(records + if out.Some? then [out.value] else [])
  }

  /** What the loop of `aggregate_peculiar_eej_data` returns. */
  function Aggregated(env: Env, maxKp: Date -> Sample, c: Classification): Result<seq<PeculiarEejModel>, string>
    requires ValidEnv(env) && ValidClassification(c)
  {
    Collect(Outcomes(env, maxKp, c), DayCount(c.ltPeriod))
  }

  lemma CollectStep(outs: seq<Outcome>, i: nat, records: seq<PeculiarEejModel>)
    requires i < |outs| && Collect(outs, i) == Success(records)
    ensures outs[i].Failure? ==> Collect(outs, i + 1) == Failure(outs[i].error)
    ensures outs[i].Success? && outs[i].value.None? ==> Collect(outs, i + 1) == Success(records)
    ensures outs[i].Success? && outs[i].value.Some? ==> Collect(outs, i + 1) == Success(records + [outs[i].value.value])
  {
    assert records + [] == records;
  }

  lemma {:induction false} CollectFailurePersists(outs: seq<Outcome>, i: nat, k: nat)
    requires i <= k <= |outs| && Collect(outs, i).Failure?
    ensures Collect(outs, k) == Collect(outs, i)
    decreases k
  {
    if k > i {
      CollectFailurePersists(outs, i, k - 1);
    }
  }

  /** `ProcessDay` seen through a function `day` that agrees with the outcome of every date. */
  method ProcessDayAs(env: Env, maxKp: Date -> Sample, c: Classification, d: Date, ghost day: Date --> Outcome)
    returns (r: Outcome)
    requires ValidEnv(env) && ValidClassification(c) && ValidDate(d)
    requires forall d :: ValidDate(d) ==> day.requires(d)
    requires forall d {:trigger DayOutcome(env, maxKp, c, d)} :: ValidDate(d) ==> day(d) == DayOutcome(env, maxKp, c, d)
    ensures r == day(d)
  {
    r := ProcessDay(env, maxKp, c, d);
  }

  /**
   * The loop of `aggregate_peculiar_eej_data`, one date per pass, proved
   * against any function `day` that agrees with the outcome of every date.
   */
  method RunDays(env: Env, maxKp: Date -> Sample, c: Classification, ghost day: Date --> Outcome)
    returns (r: Result<seq<PeculiarEejModel>, string>)
    requires ValidEnv(env) && ValidClassification(c)
    requires forall d :: ValidDate(d) ==> day.requires(d)
    requires forall d {:trigger DayOutcome(env, maxKp, c, d)} :: ValidDate(d) ==> day(d) == DayOutcome(env, maxKp, c, d)
    ensures r == Collect(OutcomesOver(day, c.ltPeriod.start.date, DayCount(c.ltPeriod)), DayCount(c.ltPeriod))
  {
    var start := c.ltPeriod.start.date;
    var days := DayCount(c.ltPeriod);
    ghost var outs := OutcomesOver(day, start, days);
    var records: seq<PeculiarEejModel> := [];
    for i := 0 to days
      invariant Collect(outs, i) == Success(records)
    {
      var out := ProcessDayAs(env, maxKp, c, AddDays(start, i), day);
      assert out == outs[i];
      CollectStep(outs, i, records);
      if out.Failure? {
        CollectFailurePersists(outs, i + 1, days);
        return Failure(out.error);
      }
      if out.value.Some? {
        records := records + [out.value.value];
      }
    }
    return Success(records);
  }

  /** `aggregate_peculiar_eej_data`, with the selectors built on the classification's own station lists. */
  method AggregatePeculiarEejData(env: Env, maxKp: Date -> Sample, c: Classification) returns (r: Result<seq<PeculiarEejModel>, string>)
    requires ValidEnv(env) && ValidClassification(c)
    ensures r == Aggregated(env, maxKp, c)
  {
    r := RunDays(env, maxKp, c, DayOf(env, maxKp, c));
  }

  // ---------------------------------------------------------------------
  // What the aggregation yields

  /**
   * A successful run has passed every one of the first `k` outcomes, keeps
   * each record they produced, and has no record that none of them produced.
   */
  lemma {:induction false} CollectMembers(outs: seq<Outcome>, k: nat)
    requires k <= |outs| && Collect(outs, k).Success?
    ensures |Collect(outs, k).value| <= k
    ensures forall i :: 0 <= i < k ==> outs[i].Success?
    ensures forall i :: 0 <= i < k && outs[i].value.Some? ==> outs[i].value.value in Collect(outs, k).value
    ensures forall j :: 0 <= j < |Collect(outs, k).value| ==>
      exists i :: 0 <= i < k && outs[i] == Success(Some(Collect(outs, k).value[j]))
  {
    if k > 0 {
      CollectMembers(outs, k - 1);
      var prev := Collect(outs, k - 1).value;
      var recs := Collect(outs, k).value;
      assert recs[..|prev|] == prev;
      forall j | 0 <= j < |recs|
        ensures exists i :: 0 <= i < k && outs[i] == Success(Some(recs[j]))
      {
        if j < |prev| {
          assert recs[j] == prev[j];
        } else {
          assert outs[k - 1] == Success(Some(recs[j]));
        }
      }
    }
  }

  /** Outcome `i` of a run, when it has a record, is for the date with ordinal `base + i`. */
  predicate DatedFrom(outs: seq<Outcome>, base: int) {
    forall i :: 0 <= i < |outs| && outs[i].Success? && outs[i].value.Some? ==>
      ValidDate(outs[i].value.value.date) && ToOrdinal(outs[i].value.value.date) == base + i
  }

  /** With records dated by their position, the collected records have strictly increasing dates. */
  lemma {:induction false} CollectOrdered(outs: seq<Outcome>, k: nat, base: int)
    requires k <= |outs| && Collect(outs, k).Success? && DatedFrom(outs, base)
    ensures forall j :: 0 <= j < |Collect(outs, k).value| ==>
      ValidDate(Collect(outs, k).value[j].date) && base <= ToOrdinal(Collect(outs, k).value[j].date) < base + k
    ensures forall j, j' :: 0 <= j < j' < |Collect(outs, k).value| ==>
      ToOrdinal(Collect(outs, k).value[j].date) < ToOrdinal(Collect(outs, k).value[j'].date)
  {
    CollectMembers(outs, k);
    var recs := Collect(outs, k).value;
    forall j | 0 <= j < |recs|
      ensures ValidDate(recs[j].date) && base <= ToOrdinal(recs[j].date) < base + k
    {
      var i :| 0 <= i < k && outs[i] == Success(Some(recs[j]));
    }
    if k > 0 {
      CollectOrdered(outs, k - 1, base);
      var prev := Collect(outs, k - 1).value;
      assert recs[..|prev|] == prev;
    }
  }

  /** Outcome `i` of the period is the one of the `i`-th date after the start date. */
  lemma OutcomeAt(env: Env, maxKp: Date -> Sample, c: Classification, i: int)
    requires ValidEnv(env) && ValidClassification(c) && 0 <= i < DayCount(c.ltPeriod)
    ensures Outcomes(env, maxKp, c)[i] == DayOutcome(env, maxKp, c, AddDays(c.ltPeriod.start.date, i))
    ensures ToOrdinal(AddDays(c.ltPeriod.start.date, i)) == ToOrdinal(c.ltPeriod.start.date) + i
  {
    AddDaysOrdinal(c.ltPeriod.start.date, i);
  }

  lemma OutcomesDated(env: Env, maxKp: Date -> Sample, c: Classification)
    requires ValidEnv(env) && ValidClassification(c)
    ensures DatedFrom(Outcomes(env, maxKp, c), ToOrdinal(c.ltPeriod.start.date))
  {
    forall i | 0 <= i < DayCount(c.ltPeriod) {
      OutcomeAt(env, maxKp, c, i);
    }
  }

  /** A record of the run is that of a peculiar date. */
  lemma RecordOfPeculiarDay(env: Env, maxKp: Date -> Sample, c: Classification, i: int, rec: PeculiarEejModel)
    requires ValidEnv(env) && ValidClassification(c) && 0 <= i < DayCount(c.ltPeriod)
    requires Outcomes(env, maxKp, c)[i] == Success(Some(rec))
    ensures rec.date == AddDays(c.ltPeriod.start.date, i) && rec.region == c.region
    ensures Assess(env, maxKp, c, rec.date).Success? && Assess(env, maxKp, c, rec.date).value.category == PeculiarEej
  {
    OutcomeAt(env, maxKp, c, i);
  }

  /** Every date of a successful run was assessed, and a peculiar one has a record. */
  lemma DateOfRun(env: Env, maxKp: Date -> Sample, c: Classification, i: int)
    requires ValidEnv(env) && ValidClassification(c) && 0 <= i < DayCount(c.ltPeriod)
    requires Aggregated(env, maxKp, c).Success?
    ensures var d := AddDays(c.ltPeriod.start.date, i);
      && Assess(env, maxKp, c, d).Success?
      && (Assess(env, maxKp, c, d).value.category == PeculiarEej ==>
          exists j :: 0 <= j < |Aggregated(env, maxKp, c).value| && Aggregated(env, maxKp, c).value[j].date == d)
  {
    var outs := Outcomes(env, maxKp, c);
    var records := Aggregated(env, maxKp, c).value;
    CollectMembers(outs, DayCount(c.ltPeriod));
    OutcomeAt(env, maxKp, c, i);
    assert outs[i].Success?;
    if outs[i].value.Some? {
      var j :| 0 <= j < |records| && records[j] == outs[i].value.value;
      assert records[j].date == AddDays(c.ltPeriod.start.date, i);
    }
  }

  /**
   * `aggregate_peculiar_eej_data` visits every date from the start date to
   * the end date: a run that succeeds has assessed each of them, holds one
   * record for every peculiar date and none for any other, at most one per
   * date and in date order, each for the classification's region.
   */
  lemma AggregatedRecords(env: Env, maxKp: Date -> Sample, c: Classification)
    requires ValidEnv(env) && ValidClassification(c)
    requires Aggregated(env, maxKp, c).Success?
    ensures var records := Aggregated(env, maxKp, c).value;
      && |records| <= DayCount(c.ltPeriod)
      && (forall i :: 0 <= i < DayCount(c.ltPeriod) ==>
            var d := AddDays(c.ltPeriod.start.date, i);
            && Assess(env, maxKp, c, d).Success?
            && (Assess(env, maxKp, c, d).value.category == PeculiarEej <==> exists j :: 0 <= j < |records| && records[j].date == d))
      && (forall j :: 0 <= j < |records| ==>
            && ValidDate(records[j].date)
            && ToOrdinal(c.ltPeriod.start.date) <= ToOrdinal(records[j].date) <= ToOrdinal(c.ltPeriod.end.date)
            && records[j].region == c.region
            && Assess(env, maxKp, c, records[j].date).Success?
            && Assess(env, maxKp, c, records[j].date).value.category == PeculiarEej)
      && (forall j, j' :: 0 <= j < j' < |records| ==> ToOrdinal(records[j].date) < ToOrdinal(records[j'].date))
  {
    var outs := Outcomes(env, maxKp, c);
    var n := DayCount(c.ltPeriod);
    var records := Aggregated(env, maxKp, c).value;
    OutcomesDated(env, maxKp, c);
    CollectMembers(outs, n);
    CollectOrdered(outs, n, ToOrdinal(c.ltPeriod.start.date));
    forall j | 0 <= j < |records|
      ensures records[j].region == c.region
      ensures Assess(env, maxKp, c, records[j].date).Success?
      ensures Assess(env, maxKp, c, records[j].date).value.category == PeculiarEej
    {
      var i :| 0 <= i < n && outs[i] == Success(Some(records[j]));
      RecordOfPeculiarDay(env, maxKp, c, i, records[j]);
    }
    forall i | 0 <= i < n
      ensures var d := AddDays(c.ltPeriod.start.date, i);
        && Assess(env, maxKp, c, d).Success?
        && (Assess(env, maxKp, c, d).value.category == PeculiarEej <==> exists j :: 0 <= j < |records| && records[j].date == d)
    {
      DateOfRun(env, maxKp, c, i);
    }
  }

  // ---------------------------------------------------------------------
  // The constructor call as written

  /**
   * The loop as written builds each selector with the region as an extra
   * first argument; `BestEuelSelectorForEej.__init__` takes the stations,
   * the date and the role only, so Python raises `TypeError` on the first
   * date, before any selector exists.
   */
  function AggregateAsWritten(c: Classification): (r: Result<seq<PeculiarEejModel>, string>)
    requires ValidPeriod(c.ltPeriod)
  {
    if DayCount(c.ltPeriod) == 0 then Success([])
    else Failure("BestEuelSelectorForEej.__init__() takes 4 positional arguments but 5 were given")
  }

  /**
   * The run of the script's own entry point: January 2008 over South
   * America, ANC against EUS (its second dip station, HUA, is not in the
   * station table of this model).
   */
  function ScriptRun(): (c: Classification)
    ensures ValidPeriod(c.ltPeriod)
  {
    var start := DateTime(Date(2008, 1, 1), 0);
    var end := DateTime(Date(2008, 1, 31), 23 * HOUR + 59 * MINUTE);
    assert Instant(start) < Instant(end);
    Classification(Period(start, end), [Catalog[3]], [Catalog[10]], Region.SouthAmerica)
  }

  /**
   * As written, the script's own run raises before it records anything,
   * although its period spans 31 dates for which the corrected loop
   * assesses every day.
   */
  lemma AsWrittenRecordsNothing()
    ensures DayCount(ScriptRun().ltPeriod) == 31
    ensures AggregateAsWritten(ScriptRun()).Failure?
  {
    var c := ScriptRun();
    assert ToOrdinal(c.ltPeriod.end.date) - ToOrdinal(c.ltPeriod.start.date) == 30;
  }
}
