/**
 * EEJ detection for one local day: the dip and off-dip stations whose EUEL
 * has the fewest NaN are picked, their EUEL is freed of the night-side trend
 * and smoothed, the difference of their noon maxima is taken, and the day is
 * classified from that difference, Kp and EDst.
 */
module EejDetection {
  import opened Wrappers
  import opened Samples
  import opened Calendar
  import opened MagdasStation
  import opened EeEnv
  import opened StationParams
  import opened TimeRelation
  import opened CalcEr
  import opened CalcEdst
  import opened CalcEuel
  import opened FactoryEe
  import opened Quiet

  /** `TimeUnit.*.min` */
  const ONE_DAY_MIN: int := 1440
  const ONE_HOUR_MIN: int := 60
  const THIRTY_MINUTES_MIN: int := 30
  const FIVE_HOURS_MIN: int := 300
  const FOURTEEN_HOURS_MIN: int := 840
  const NINETEEN_HOURS_MIN: int := 1140

  /** `EEJ_THRESHOLD`, in nT. */
  const EEJ_THRESHOLD: real := 10.0

  /** `DaytimeInterval`: 09:00 through 14:59, both included. */
  const DAYTIME_START: int := TimeOf(9, 0, 0)
  const DAYTIME_END: int := TimeOf(14, 59, 0)

  predicate DaytimeContains(t: int) {
    DAYTIME_START <= t <= DAYTIME_END
  }

  // ---------------------------------------------------------------------
  // Choosing the station

  /** The role a selector asks for: dip or off-dip. */
  predicate InRole(s: Station, isDip: bool) {
    if isDip then IsDip(s) else IsOffDip(s)
  }

  function RoleError(s: Station, isDip: bool): string {
    if isDip then s.code + " is not in dip region" else s.code + " is not in off-dip region"
  }

  /** `BestEuelSelectorForEej` once its stations are validated. */
  datatype Selector = Selector(stations: seq<Station>, localDate: Date)

  /** `EuelData`: the chosen station and its EUEL. */
  datatype EuelData = EuelData(station: Station, values: seq<Sample>)

  /** The error for the first station from index `k` on without the role asked for, if there is one. */
  function FirstRoleError(stations: seq<Station>, isDip: bool, k: nat): (r: Option<string>)
    requires k <= |stations|
    ensures r.None? <==> forall i :: k <= i < |stations| ==> InRole(stations[i], isDip)
    ensures r.Some? ==> exists i :: (k <= i < |stations| && !InRole(stations[i], isDip) &&
      r.value == RoleError(stations[i], isDip) && forall j :: k <= j < i ==> InRole(stations[j], isDip))
    decreases |stations| - k
  {
    if k == |stations| then None
    else if !InRole(stations[k], isDip) then Some(RoleError(stations[k], isDip))
    else FirstRoleError(stations, isDip, k + 1)
  }

  /** What the constructor of `BestEuelSelectorForEej` yields. */
  function Validated(stations: seq<Station>, localDate: Date, isDip: bool): Result<Selector, string> {
    match FirstRoleError(stations, isDip, 0)
    case Some(e) => Failure(e)
    case None => Success(Selector(stations, localDate))
  }

  /**
   * The constructor with `_validate_stations`: every station must have the
   * role asked for, and the first one that does not is named in the error.
   */
  method NewSelector(stations: seq<Station>, localDate: Date, isDip: bool) returns (r: Result<Selector, string>)
    ensures r == Validated(stations, localDate, isDip)
  {
    for i := 0 to |stations|
      invariant FirstRoleError(stations, isDip, i) == FirstRoleError(stations, isDip, 0)
    {
      if !InRole(stations[i], isDip) {
        return Failure(RoleError(stations[i], isDip));
      }
    }
    return Success(Selector(stations, localDate));
  }

  /** `_has_night_data`: some valid sample in 00:00-04:59 or in 19:00-23:59; any length but 1440 raises. */
  function HasNightData(s: seq<Sample>): (r: Result<bool, string>)
    ensures r.Success? <==> |s| == ONE_DAY_MIN
    ensures r.Success? ==> (r.value <==>
      exists i :: (0 <= i < FIVE_HOURS_MIN || NINETEEN_HOURS_MIN <= i < ONE_DAY_MIN) && s[i].Some?)
  {
    if |s| != ONE_DAY_MIN then Failure("daily_data must have 1440 elements.")
    else
      var dawn := s[0..FIVE_HOURS_MIN];
      var dusk := s[NINETEEN_HOURS_MIN..ONE_DAY_MIN];
      assert forall i :: 0 <= i < FIVE_HOURS_MIN ==> s[i] == dawn[i];
      assert forall i :: NINETEEN_HOURS_MIN <= i < ONE_DAY_MIN ==> s[i] == dusk[i - NINETEEN_HOURS_MIN];
      Success(!(AllNan(dawn) && AllNan(dusk)))
  }

  /** The series the baseline is interpolated from: the night minutes kept, 05:00-18:59 NaN. */
  function BaselineInput(s: seq<Sample>): (r: seq<Sample>)
    requires |s| == ONE_DAY_MIN
    ensures |r| == ONE_DAY_MIN
    ensures forall i :: 0 <= i < FIVE_HOURS_MIN ==> r[i] == s[i]
    ensures forall i :: FIVE_HOURS_MIN <= i < NINETEEN_HOURS_MIN ==> r[i].None?
    ensures forall i :: NINETEEN_HOURS_MIN <= i < ONE_DAY_MIN ==> r[i] == s[i]
  {
    s[..FIVE_HOURS_MIN] + NanSeries(FOURTEEN_HOURS_MIN) + s[NINETEEN_HOURS_MIN..ONE_DAY_MIN]
  }

  /** `_euel_for_eej`: EUEL less the interpolated night baseline, then the one-hour moving average with a 30-minute NaN threshold. */
  function EuelForEej(num: Numerics, s: seq<Sample>): Result<seq<Sample>, string> {
    if |s| != ONE_DAY_MIN then Failure("daily_euel_values must have 1440 elements.")
    else
      var baseline := num.interpolateNan(BaselineInput(s));
      var diff :- SubSeq(s, baseline);
      Success(num.movingAvg(diff, ONE_HOUR_MIN, THIRTY_MINUTES_MIN))
  }

  /** What `_euel_for_eej_detection` makes of the station's EUEL. */
  function Detected(num: Numerics, euel: Result<seq<Sample>, string>): Result<seq<Sample>, string> {
    var e :- euel;
    var night :- HasNightData(e);
    if !night then Success(e) else EuelForEej(num, e)
  }

  /** The local day 00:00-23:59 of a station. */
  function LocalDayParams(station: Station, d: Date): (p: Params)
    requires ValidDate(d)
    ensures ValidPeriod(p.period) && p.station == station
    ensures MinuteAligned(p.period.start) && MinuteAligned(p.period.end)
  {
    Params(station, LocalDay(d))
  }

  /** The local day from 00:00 through 23:59. */
  function LocalDay(d: Date): (p: Period)
    requires ValidDate(d)
    ensures ValidPeriod(p) && p.start.date == d && p.end.date == d
    ensures p.start.micros == 0 && p.end.micros == 1439 * MINUTE
    ensures MinuteAligned(p.start) && MinuteAligned(p.end)
  {
    assert 23 * HOUR + 59 * MINUTE == 86_340_000_000 == 1439 * 60_000_000;
    Period(DateTime(d, 0), DateTime(d, 23 * HOUR + 59 * MINUTE))
  }

  /** `_euel_for_eej_detection`: the night-adjusted EUEL over the local day, taken in UT. */
  function EuelForDetection(env: Env, station: Station, d: Date): Result<seq<Sample>, string>
    requires ValidEnv(env) && station in Catalog && ValidDate(d)
  {
    var ut :- ToUtParams(LocalDayParams(station, d));
    Detected(env.num, EuelValues(env, station, ut.period.start, ut.period.end, ut.period, true))
  }

  /**
   * The detection EUEL fails when the EUEL does or is not 1440 long; without
   * a valid night sample it is the EUEL unchanged; and with one it is the
   * smoothed difference to the baseline, still 1440 long.
   */
  lemma DetectedShape(num: Numerics, euel: Result<seq<Sample>, string>)
    requires ValidNumerics(num)
    ensures Detected(num, euel).Success? <==> euel.Success? && |euel.value| == ONE_DAY_MIN
    ensures Detected(num, euel).Success? ==> |Detected(num, euel).value| == ONE_DAY_MIN
    ensures euel.Success? && |euel.value| == ONE_DAY_MIN && !HasNightData(euel.value).value ==>
      Detected(num, euel).value == euel.value
    ensures euel.Success? && |euel.value| == ONE_DAY_MIN && HasNightData(euel.value).value ==>
      Detected(num, euel).value == num.movingAvg(SubSeq(euel.value, num.interpolateNan(BaselineInput(euel.value))).value, 60, 30)
  {
    if euel.Success? && |euel.value| == ONE_DAY_MIN {
      var b := num.interpolateNan(BaselineInput(euel.value));
      assert |b| == ONE_DAY_MIN;
      var diff := SubSeq(euel.value, b);
      assert diff.Success? && |diff.value| == ONE_DAY_MIN;
      assert |num.movingAvg(diff.value, 60, 30)| == ONE_DAY_MIN;
    }
  }

  /** `np.sum(np.isnan(a)) / len(a)`; NaN for an empty array. */
  function NanRatio(a: seq<Sample>): (r: Sample)
    ensures r.Some? <==> |a| > 0
    ensures r.Some? ==> 0.0 <= r.value <= 1.0
  {
    if |a| == 0 then None else Some((|a| - ValidCount(a)) as real / |a| as real)
  }

  /** `<` on the ratios; NaN compares false. */
  predicate KeyLess(a: Sample, b: Sample) {
    a.Some? && b.Some? && a.value < b.value
  }

  /** Python's `min` over the first `k` keys: a later key replaces the current one only when strictly smaller. */
  function MinIndex(keys: seq<Sample>, k: nat): (m: nat)
    requires 1 <= k <= |keys|
    ensures m < k
  {
    if k == 1 then 0
    else
      var m := MinIndex(keys, k - 1);
      if KeyLess(keys[k - 1], keys[m]) then k - 1 else m
  }

  /** With every key a number, `min` picks the smallest key, and of equal smallest keys the first. */
  lemma {:induction false} MinIndexIsFirstMinimum(keys: seq<Sample>, k: nat)
    requires 1 <= k <= |keys|
    requires forall i :: 0 <= i < k ==> keys[i].Some?
    ensures forall j :: 0 <= j < k ==> keys[MinIndex(keys, k)].value <= keys[j].value
    ensures forall j :: 0 <= j < MinIndex(keys, k) ==> keys[MinIndex(keys, k)].value < keys[j].value
    decreases k
  {
    if k > 1 {
      MinIndexIsFirstMinimum(keys, k - 1);
    }
  }

  function Ratios(arrays: seq<seq<Sample>>): (keys: seq<Sample>)
    ensures |keys| == |arrays|
  {
    seq(|arrays|, i requires 0 <= i < |arrays| => NanRatio(arrays[i]))
  }

  /** The first `k` results gathered, or the first failure among them. */
  function Gathered(rs: seq<Result<seq<Sample>, string>>, k: nat): (r: Result<seq<seq<Sample>>, string>)
    requires k <= |rs|
    ensures r.Success? ==> |r.value| == k
  {
    if k == 0 then Success([])
    else
      var arrays :- Gathered(rs, k - 1);
      var a :- rs[k - 1];
      Success(arrays + [a])
  }

  lemma {:induction false} GatheredAt(rs: seq<Result<seq<Sample>, string>>, k: nat, i: int)
    requires k <= |rs| && Gathered(rs, k).Success? && 0 <= i < k
    ensures rs[i].Success? && Gathered(rs, k).value[i] == rs[i].value
    decreases k
  {
    if i < k - 1 {
      GatheredAt(rs, k - 1, i);
    }
  }

  /** `select_euel_data` from the stations' results: the first failure, or the station whose EUEL has the fewest NaN. */
  function Selected(stations: seq<Station>, rs: seq<Result<seq<Sample>, string>>): Result<EuelData, string>
    requires |rs| == |stations|
  {
    var arrays :- Gathered(rs, |rs|);
    if |arrays| == 0 then Failure("min() arg is an empty sequence")
    else
      var m := MinIndex(Ratios(arrays), |arrays|);
      Success(EuelData(stations[m], arrays[m]))
  }

  /** The detection EUEL of every station, in list order. */
  function Candidates(env: Env, stations: seq<Station>, d: Date): (rs: seq<Result<seq<Sample>, string>>)
    requires ValidEnv(env) && ValidDate(d)
    requires forall i :: 0 <= i < |stations| ==> stations[i] in Catalog
    ensures |rs| == |stations|
  {
    seq(|stations|, i requires 0 <= i < |stations| => EuelForDetection(env, stations[i], d))
  }

  /** With every result a success, gathering them gives their values. */
  lemma GatheredAll(rs: seq<Result<seq<Sample>, string>>)
    requires forall i :: 0 <= i < |rs| ==> rs[i].Success?
    ensures Gathered(rs, |rs|).Success?
    ensures forall i :: 0 <= i < |rs| ==> Gathered(rs, |rs|).value[i] == rs[i].value
  {
    GatheredSucceeds(rs, |rs|);
    forall i | 0 <= i < |rs|
      ensures Gathered(rs, |rs|).value[i] == rs[i].value
    {
      GatheredAt(rs, |rs|, i);
    }
  }

  /**
   * When every station yields a detection EUEL, the selection is a station
   * of the list with the least NaN ratio, the first such in list order, and
   * its EUEL is that station's; a single station is always the one chosen.
   */
  lemma SelectedIsFirstLeastNan(stations: seq<Station>, rs: seq<Result<seq<Sample>, string>>)
    requires |rs| == |stations| && |stations| >= 1
    requires forall i :: 0 <= i < |rs| ==> rs[i].Success? && |rs[i].value| == ONE_DAY_MIN
    ensures Selected(stations, rs).Success?
    ensures exists m :: (
      0 <= m < |stations| && Selected(stations, rs).value == EuelData(stations[m], rs[m].value) &&
      (forall j :: 0 <= j < |rs| ==> NanRatio(rs[m].value).value <= NanRatio(rs[j].value).value) &&
      (forall j :: 0 <= j < m ==> NanRatio(rs[m].value).value < NanRatio(rs[j].value).value) &&
      (|stations| == 1 ==> m == 0))
  {
    GatheredAll(rs);
    var arrays := Gathered(rs, |rs|).value;
    var keys := Ratios(arrays);
    assert forall i :: 0 <= i < |keys| ==> keys[i] == NanRatio(rs[i].value) && keys[i].Some?;
    MinIndexIsFirstMinimum(keys, |arrays|);
    var m := MinIndex(keys, |arrays|);
    assert Selected(stations, rs).value == EuelData(stations[m], rs[m].value);
  }

  lemma {:induction false} GatheredSucceeds(rs: seq<Result<seq<Sample>, string>>, k: nat)
    requires k <= |rs| && forall i :: 0 <= i < k ==> rs[i].Success?
    ensures Gathered(rs, k).Success?
    decreases k
  {
    if k > 0 {
      GatheredSucceeds(rs, k - 1);
    }
  }

  /** `_euel_for_eej_detection`, with a fresh factory building the EUEL for the station's local day in UT. */
  method EuelForStation(env: Env, station: Station, d: Date) returns (r: Result<seq<Sample>, string>)
    requires ValidEnv(env) && station in Catalog && ValidDate(d)
    ensures r == EuelForDetection(env, station, d)
  {
    var ltParams := LocalDayParams(station, d);
    var utParams :- ToUtParams(ltParams);
    var factory := new EeFactory();
    var euel := factory.CreateEuel(utParams);
    var euelValues := euel.CalcEuel(env, true);
    var values :- euelValues;
    var night :- HasNightData(values);
    if !night {
      return Success(values);
    }
    r := EuelForEej(env.num, values);
  }

  /** One more result: a failure ends the gathering, a success is appended. */
  lemma GatheredStep(rs: seq<Result<seq<Sample>, string>>, i: nat, arrays: seq<seq<Sample>>)
    requires i < |rs| && Gathered(rs, i) == Success(arrays)
    ensures rs[i].Failure? ==> Gathered(rs, i + 1) == Failure(rs[i].error)
    ensures rs[i].Success? ==> Gathered(rs, i + 1) == Success(arrays + [rs[i].value])
  {
  }

  /** The loop of `select_euel_data` that computes each station's EUEL and NaN ratio. */
  method GatherEuels(env: Env, stations: seq<Station>, d: Date) returns (r: Result<seq<seq<Sample>>, string>)
    requires ValidEnv(env) && ValidDate(d)
    requires forall i :: 0 <= i < |stations| ==> stations[i] in Catalog
    ensures r == Gathered(Candidates(env, stations, d), |stations|)
  {
    ghost var rs := Candidates(env, stations, d);
    var arrays: seq<seq<Sample>> := [];
    for i := 0 to |stations|
      invariant Gathered(rs, i) == Success(arrays)
    {
      var euel := EuelForStation(env, stations[i], d);
      assert euel == rs[i];
      GatheredStep(rs, i, arrays);
      if euel.Failure? {
        GatheredFailurePersists(rs, i + 1, |stations|);
        return Failure(euel.error);
      }
      arrays := arrays + [euel.value];
    }
    return Success(arrays);
  }

  /** `min(..., key=nan_ratio)` over the gathered EUELs. */
  method FirstLeast(ratios: seq<Sample>) returns (best: nat)
    requires |ratios| >= 1
    ensures best == MinIndex(ratios, |ratios|)
  {
    best := 0;
    for i := 1 to |ratios|
      invariant best == MinIndex(ratios, i)
    {
      if KeyLess(ratios[i], ratios[best]) {
        best := i;
      }
    }
  }

  /** `select_euel_data`: every station's EUEL and NaN ratio in a loop, then the first least ratio. */
  method SelectEuelData(env: Env, selector: Selector) returns (r: Result<EuelData, string>)
    requires ValidEnv(env) && ValidDate(selector.localDate)
    requires forall i :: 0 <= i < |selector.stations| ==> selector.stations[i] in Catalog
    ensures r == Selected(selector.stations, Candidates(env, selector.stations, selector.localDate))
  {
    var arrays :- GatherEuels(env, selector.stations, selector.localDate);
    if |arrays| == 0 {
      return Failure("min() arg is an empty sequence");
    }
    var ratios := seq(|arrays|, i requires 0 <= i < |arrays| => NanRatio(arrays[i]));
    var best := FirstLeast(ratios);
    return Success(EuelData(selector.stations[best], arrays[best]));
  }

  lemma {:induction false} GatheredFailurePersists(rs: seq<Result<seq<Sample>, string>>, i: nat, k: nat)
    requires i <= k <= |rs| && Gathered(rs, i).Failure?
    ensures Gathered(rs, k) == Gathered(rs, i)
    decreases k
  {
    if k > i {
      GatheredFailurePersists(rs, i, k - 1);
    }
  }

  // ---------------------------------------------------------------------
  // The noon peak difference

  /** `is_noon` for the 1440 minutes of a local day. */
  function NoonMask(d: Date): (r: seq<bool>)
    requires ValidDate(d)
    ensures |r| == ONE_DAY_MIN
  {
    seq(ONE_DAY_MIN, i requires 0 <= i < ONE_DAY_MIN => DaytimeContains(AddMicros(DateTime(d, 0), i * MINUTE).micros))
  }

  /** `a[mask]` over the first `k` elements: the elements under `true`, in order. */
  function Compress(a: seq<Sample>, mask: seq<bool>, k: nat): (r: seq<Sample>)
    requires k <= |a| == |mask|
  {
    if k == 0 then [] else Compress(a, mask, k - 1) + (if mask[k - 1] then [a[k - 1]] else [])
  }

  /** `calc_euel_peak_diff`: the dip noon maximum less the off-dip one; a mask that does not fit raises `IndexError`. */
  function PeakDiff(dip: seq<Sample>, offdip: seq<Sample>, d: Date): Result<Sample, string>
    requires ValidDate(d)
  {
    var isNoon := NoonMask(d);
    if |dip| != |isNoon| || |offdip| != |isNoon| then Failure("boolean index did not match indexed array")
    else
      var dipNoon := Compress(dip, isNoon, |dip|);
      var offdipNoon := Compress(offdip, isNoon, |offdip|);
      if |dipNoon| == 0 || |offdipNoon| == 0 then Failure("zero-size array to reduction operation maximum")
      else Success(Minus(Max(dipNoon), Max(offdipNoon)))
  }

  /** Minute `i` of a local day is noon exactly for 09:00-14:59, indices 540 through 899. */
  lemma NoonMaskAt(d: Date, i: int)
    requires ValidDate(d) && 0 <= i < ONE_DAY_MIN
    ensures NoonMask(d)[i] <==> 540 <= i < 900
  {
    var t := AddMicros(DateTime(d, 0), i * MINUTE);
    AddMicrosInstant(DateTime(d, 0), i * MINUTE);
    TimeOfDayIsInstantModDay(t);
    assert Instant(t) == ToOrdinal(d) * DAY + i * MINUTE;
    assert t.micros == i * MINUTE;
  }

  /** A mask true exactly on `[lo, hi)` selects that slice. */
  lemma {:induction false} CompressRange(a: seq<Sample>, mask: seq<bool>, k: nat, lo: nat, hi: nat)
    requires k <= |a| == |mask| && lo <= hi
    requires forall i :: 0 <= i < |mask| ==> (mask[i] <==> lo <= i < hi)
    ensures Compress(a, mask, k) == a[Smaller(lo, k)..Smaller(hi, k)]
    decreases k
  {
    if k > 0 {
      CompressRange(a, mask, k - 1, lo, hi);
    }
  }

  function Smaller(x: int, y: int): int { if x < y then x else y }

  /**
   * The peak difference needs both series to be 1440 long; it then looks at
   * minutes 540-899 only and is NaN exactly when either series has a NaN
   * there, the difference of the two maxima otherwise.
   */
  lemma PeakDiffUsesNoon(dip: seq<Sample>, offdip: seq<Sample>, d: Date)
    requires ValidDate(d)
    ensures PeakDiff(dip, offdip, d).Success? <==> |dip| == ONE_DAY_MIN && |offdip| == ONE_DAY_MIN
    ensures PeakDiff(dip, offdip, d).Success? ==>
      PeakDiff(dip, offdip, d).value == Minus(Max(dip[540..900]), Max(offdip[540..900]))
    ensures PeakDiff(dip, offdip, d).Success? ==>
      (PeakDiff(dip, offdip, d).value.None? <==>
        exists i :: 540 <= i < 900 && (dip[i].None? || offdip[i].None?))
  {
    if |dip| == ONE_DAY_MIN && |offdip| == ONE_DAY_MIN {
      var mask := NoonMask(d);
      forall i | 0 <= i < |mask|
        ensures mask[i] <==> 540 <= i < 900
      {
        NoonMaskAt(d, i);
      }
      CompressRange(dip, mask, |dip|, 540, 900);
      CompressRange(offdip, mask, |offdip|, 540, 900);
      var a, b := dip[540..900], offdip[540..900];
      assert forall i :: 540 <= i < 900 ==> dip[i] == a[i - 540] && offdip[i] == b[i - 540];
      if Max(a).None? {
        var j :| 0 <= j < |a| && a[j].None?;
        assert dip[j + 540].None?;
      } else if Max(b).None? {
        var j :| 0 <= j < |b| && b[j].None?;
        assert offdip[j + 540].None?;
      }
    }
  }

  // ---------------------------------------------------------------------
  // Categories

  datatype EejCategory = PeculiarEej | NormalEej | DisturbanceEej | MissingEej {
    function Label(): string {
      match this
      case PeculiarEej => "peculiar"
      case NormalEej => "normal"
      case DisturbanceEej => "disturbance"
      case MissingEej => "missing"
    }
  }

  datatype DisturbanceCategory = DisturbedDay | QuietDayCategory | MissingDay {
    function Label(): string {
      match this
      case DisturbedDay => "disturbance"
      case QuietDayCategory => "quiet"
      case MissingDay => "missing"
    }
  }

  /** `daily_max_kp >= 4 or daily_min_edst < -30`, where a NaN fails its comparison. */
  predicate Disturbed(maxKp: Sample, minEdst: Sample) {
    (maxKp.Some? && maxKp.value >= KP_QUIET_THRESHOLD) || (minEdst.Some? && minEdst.value < EDST_QUIET_THRESHOLD)
  }

  /** `EejCategory.from_conditions`: disturbance first, then missing, then normal or peculiar. */
  function EejCategoryOf(peakDiff: Sample, maxKp: Sample, minEdst: Sample): (c: EejCategory)
    ensures c == DisturbanceEej <==> Disturbed(maxKp, minEdst)
    ensures c == MissingEej <==> !Disturbed(maxKp, minEdst) && peakDiff.None?
    ensures c == NormalEej <==> !Disturbed(maxKp, minEdst) && peakDiff.Some? && peakDiff.value >= EEJ_THRESHOLD
    ensures c == PeculiarEej <==> !Disturbed(maxKp, minEdst) && peakDiff.Some? && peakDiff.value < EEJ_THRESHOLD
  {
    if Disturbed(maxKp, minEdst) then DisturbanceEej
    else if peakDiff.None? then MissingEej
    else if peakDiff.value >= EEJ_THRESHOLD then NormalEej
    else PeculiarEej
  }

  /** `DisturbanceCategory.from_conditions`: missing first, then disturbance, else quiet. */
  function DisturbanceCategoryOf(maxKp: Sample, minEdst: Sample): (c: DisturbanceCategory)
    ensures c == MissingDay <==> maxKp.None? || minEdst.None?
    ensures c == DisturbedDay <==> maxKp.Some? && minEdst.Some? && Disturbed(maxKp, minEdst)
  {
    if maxKp.None? || minEdst.None? then MissingDay
    else if Disturbed(maxKp, minEdst) then DisturbedDay
    else QuietDayCategory
  }

  /**
   * The two classifications agree with the quiet-day rule: a day is quiet
   * exactly when `QuietDayDomain` calls it quiet; a disturbed day is a
   * disturbance day for EEJ too; and on a quiet day the EEJ category follows
   * from the peak difference alone.  A NaN Kp or EDst makes the day missing
   * for one but not for the other.
   */
  lemma CategoriesAgree(peakDiff: Sample, maxKp: Sample, minEdst: Sample)
    ensures DisturbanceCategoryOf(maxKp, minEdst) == QuietDayCategory <==> IsQuietDay(QuietDay(minEdst, maxKp))
    ensures DisturbanceCategoryOf(maxKp, minEdst) == DisturbedDay ==> EejCategoryOf(peakDiff, maxKp, minEdst) == DisturbanceEej
    ensures IsQuietDay(QuietDay(minEdst, maxKp)) ==>
      EejCategoryOf(peakDiff, maxKp, minEdst) == EejCategoryOf(peakDiff, Some(0.0), Some(0.0))
    ensures maxKp.None? && minEdst.Some? && minEdst.value >= EDST_QUIET_THRESHOLD ==>
      DisturbanceCategoryOf(maxKp, minEdst) == MissingDay && EejCategoryOf(peakDiff, maxKp, minEdst) != DisturbanceEej
  {
  }

  // ---------------------------------------------------------------------
  // `EejDetection`: the category of one local day

  /**
   * `_calc_daily_min_edst`: `np.min` of EDst over the local day, taken on the
   * local period as it stands (no conversion to UT); an empty EDst would
   * make `np.min` raise.
   */
  function DailyMinEdst(env: Env, d: Date): Result<Sample, string>
    requires ValidEnv(env) && ValidDate(d)
  {
    var edst :- EdstValues(env, LocalDay(d));
    if |edst| == 0 then Failure("zero-size array to reduction operation minimum which has no identity")
    else Success(Min(edst))
  }

  /**
   * The daily minimum EDst fails only where EDst itself fails, is NaN exactly
   * when some minute of the day has no night ER at any station, and otherwise
   * lies within the ER clipping bounds.
   */
  lemma DailyMinEdstFacts(env: Env, d: Date)
    requires ValidEnv(env) && ValidDate(d)
    ensures DailyMinEdst(env, d).Success? <==> EdstValues(env, LocalDay(d)).Success?
    ensures DailyMinEdst(env, d).Success? ==> |EdstValues(env, LocalDay(d)).value| == ONE_DAY_MIN
    ensures DailyMinEdst(env, d).Success? ==> (DailyMinEdst(env, d).value.None? <==>
      exists j :: 0 <= j < ONE_DAY_MIN && EdstValues(env, LocalDay(d)).value[j].None?)
    ensures DailyMinEdst(env, d).Success? && DailyMinEdst(env, d).value.Some? ==>
      env.th.minEr <= DailyMinEdst(env, d).value.value <= env.th.maxEr
  {
    var p := LocalDay(d);
    if EdstValues(env, p).Success? {
      EdstShape(env, p);
      var edst := EdstValues(env, p).value;
      assert Instant(p.end) - Instant(p.start) == 23 * HOUR + 59 * MINUTE;
      var m := Min(edst);
      if m.Some? {
        var j :| 0 <= j < |edst| && edst[j] == m;
        EdstWithinLimits(env, p, j);
      }
    }
  }

  /** `_calc_daily_min_edst` with a fresh factory, as the source builds one per call. */
  method DailyMinEdstOf(env: Env, d: Date) returns (r: Result<Sample, string>)
    requires ValidEnv(env) && ValidDate(d)
    ensures r == DailyMinEdst(env, d)
  {
    var factory := new EeFactory();
    var edst := factory.CreateEdst(LocalDay(d));
    var values :- edst.CalcEdst(env);
    if |values| == 0 {
      return Failure("zero-size array to reduction operation minimum which has no identity");
    }
    return Success(Min(values));
  }

  /**
   * `classify_eej_category` for a day with the given peak difference; the
   * daily maximum Kp comes from the Kp service and is given here.
   */
  function ClassifyEejCategory(env: Env, maxKp: Sample, peakDiff: Sample, d: Date): Result<EejCategory, string>
    requires ValidEnv(env) && ValidDate(d)
  {
    var minEdst :- DailyMinEdst(env, d);
    Success(EejCategoryOf(peakDiff, maxKp, minEdst))
  }
}
