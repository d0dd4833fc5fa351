/**
 * EDst over a period: one night-ER row per catalog station, stacked into a
 * matrix, and the NaN-aware mean of each column.
 */
module CalcEdst {
  import opened Wrappers
  import opened Samples
  import opened Calendar
  import opened MagdasStation
  import opened EeEnv
  import opened StationParams
  import opened CalcHComponent
  import opened CalcEr

  const VSTACK_ERROR := "all the input array dimensions except for the concatenation axis must match exactly"

  /** `days * ONE_DAY + hours * ONE_HOUR + minutes + 1` from `Period.time_diff`. */
  function EdstLength(p: Period): (n: int)
    requires ValidPeriod(p)
    ensures n == TotalMinutes(p.start, p.end) && n >= 1
  {
    var span := TimeDiff(p.start, p.end);
    span.days * 1440 + span.hours * 60 + span.minutes + 1
  }

  type RowResult = Result<seq<Sample>, string>

  /** The night ER of each of the first `k` catalog stations, in catalog order. */
  function NightResults(env: Env, p: Period, k: nat): (rs: seq<RowResult>)
    requires ValidEnv(env) && ValidPeriod(p) && k <= |Catalog|
    ensures |rs| == k
  {
    if k == 0 then [] else NightResults(env, p, k - 1) + [NightErValues(env, Catalog[k - 1], p.start, p.end)]
  }

  lemma {:induction false} NightResultsAt(env: Env, p: Period, k: nat, i: int)
    requires ValidEnv(env) && ValidPeriod(p) && k <= |Catalog| && 0 <= i < k
    ensures NightResults(env, p, k)[i] == NightErValues(env, Catalog[i], p.start, p.end)
    decreases k
  {
    if i < k - 1 {
      NightResultsAt(env, p, k - 1, i);
    }
  }

  /**
   * `np.vstack` applied row after row to a `(0, width)` matrix: the first `k`
   * rows stacked, or the first error, either a failed row or a row whose
   * length is not `width`.
   */
  function Stack(rs: seq<RowResult>, width: int, k: nat): (r: Result<seq<seq<Sample>>, string>)
    requires k <= |rs|
    ensures r.Success? ==> |r.value| == k
    ensures r.Success? ==> forall i :: 0 <= i < k ==> |r.value[i]| == width
  {
    if k == 0 then Success([])
    else
      var rows :- Stack(rs, width, k - 1);
      var row :- rs[k - 1];
      if |row| != width then Failure(VSTACK_ERROR)
      else Success(rows + [row])
  }

  /** The stacking succeeds exactly when every row does and has the matrix width. */
  lemma {:induction false} StackSucceeds(rs: seq<RowResult>, width: int, k: nat)
    requires k <= |rs|
    ensures Stack(rs, width, k).Success? <==> forall i :: 0 <= i < k ==> rs[i].Success? && |rs[i].value| == width
    decreases k
  {
    if k > 0 {
      StackSucceeds(rs, width, k - 1);
    }
  }

  /** Row `i` of a stacked matrix is the `i`-th row given. */
  lemma {:induction false} StackAt(rs: seq<RowResult>, width: int, k: nat, i: int)
    requires k <= |rs| && Stack(rs, width, k).Success? && 0 <= i < k
    ensures rs[i].Success? && Stack(rs, width, k).value[i] == rs[i].value
    decreases k
  {
    if i < k - 1 {
      StackAt(rs, width, k - 1, i);
    }
  }

  /** Once a row fails, the stacking fails with that same error. */
  lemma {:induction false} StackFailurePersists(rs: seq<RowResult>, width: int, i: nat, k: nat)
    requires i <= k <= |rs| && Stack(rs, width, i).Failure?
    ensures Stack(rs, width, k) == Stack(rs, width, i)
    decreases k
  {
    if k > i {
      StackFailurePersists(rs, width, i, k - 1);
    }
  }

  /** Column `j` of a matrix. */
  function Column(rows: seq<seq<Sample>>, j: int): (c: seq<Sample>)
    requires forall i :: 0 <= i < |rows| ==> 0 <= j < |rows[i]|
    ensures |c| == |rows|
  {
    seq(|rows|, i requires 0 <= i < |rows| => var row := rows[i]; row[j])
  }

  /** `nanmean` along the station axis. */
  function ColumnMeans(rows: seq<seq<Sample>>, width: nat): (r: seq<Sample>)
    requires forall i :: 0 <= i < |rows| ==> |rows[i]| == width
    ensures |r| == width
  {
    seq(width, j requires 0 <= j < width => NanMean(Column(rows, j)))
  }

  /** Stack every row, then take the NaN-aware mean of each column. */
  function StackedMeans(rs: seq<RowResult>, width: nat): Result<seq<Sample>, string> {
    var rows :- Stack(rs, width, |rs|);
    Success(ColumnMeans(rows, width))
  }

  /** A column mean is NaN exactly when the column is NaN in every row. */
  lemma StackedMeansNanAt(rs: seq<RowResult>, width: nat, j: int)
    requires StackedMeans(rs, width).Success? && 0 <= j < |StackedMeans(rs, width).value|
    ensures forall i :: 0 <= i < |rs| ==> rs[i].Success? && j < |rs[i].value|
    ensures StackedMeans(rs, width).value[j].None? <==> forall i :: 0 <= i < |rs| ==> rs[i].value[j].None?
  {
    var rows := Stack(rs, width, |rs|).value;
    StackSucceeds(rs, width, |rs|);
    forall i | 0 <= i < |rs|
      ensures rows[i] == rs[i].value
    {
      StackAt(rs, width, |rs|, i);
    }
    var col := Column(rows, j);
    assert StackedMeans(rs, width).value[j] == NanMean(col);
    assert forall i :: 0 <= i < |rs| ==> col[i] == rs[i].value[j];
  }

  /** When every defined entry of every row lies in `[lo, hi]`, so does every defined column mean. */
  lemma StackedMeansBounds(rs: seq<RowResult>, width: nat, j: int, lo: real, hi: real)
    requires StackedMeans(rs, width).Success? && 0 <= j < |StackedMeans(rs, width).value|
    requires forall i, k :: 0 <= i < |rs| && rs[i].Success? && 0 <= k < |rs[i].value| && rs[i].value[k].Some? ==>
      lo <= rs[i].value[k].value <= hi
    requires StackedMeans(rs, width).value[j].Some?
    ensures lo <= StackedMeans(rs, width).value[j].value <= hi
  {
    var rows := Stack(rs, width, |rs|).value;
    forall i | 0 <= i < |rs|
      ensures rs[i].Success? && rows[i] == rs[i].value
    {
      StackAt(rs, width, |rs|, i);
    }
    var col := Column(rows, j);
    assert StackedMeans(rs, width).value[j] == NanMean(col);
    NanMeanBounds(col, lo, hi);
  }

  /** `calc_edst` */
  function EdstValues(env: Env, p: Period): Result<seq<Sample>, string>
    requires ValidEnv(env) && ValidPeriod(p)
  {
    StackedMeans(NightResults(env, p, |Catalog|), EdstLength(p))
  }

  /** EDst has one value per minute of the period, counting both ends. */
  lemma EdstShape(env: Env, p: Period)
    requires ValidEnv(env) && ValidPeriod(p)
    requires EdstValues(env, p).Success?
    ensures |EdstValues(env, p).value| == (Instant(p.end) - Instant(p.start)) / MINUTE + 1
  {
  }

  /** EDst at minute `j` is NaN exactly when every catalog station's night ER is NaN there. */
  lemma EdstNanAt(env: Env, p: Period, j: int)
    requires ValidEnv(env) && ValidPeriod(p)
    requires EdstValues(env, p).Success? && 0 <= j < |EdstValues(env, p).value|
    ensures forall i :: 0 <= i < |Catalog| ==>
      NightErValues(env, Catalog[i], p.start, p.end).Success? && j < |NightErValues(env, Catalog[i], p.start, p.end).value|
    ensures EdstValues(env, p).value[j].None? <==>
      forall i :: 0 <= i < |Catalog| ==> NightErValues(env, Catalog[i], p.start, p.end).value[j].None?
  {
    var rs := NightResults(env, p, |Catalog|);
    StackedMeansNanAt(rs, EdstLength(p), j);
    forall i | 0 <= i < |Catalog|
      ensures rs[i] == NightErValues(env, Catalog[i], p.start, p.end)
    {
      NightResultsAt(env, p, |Catalog|, i);
    }
  }

  /** Every night-ER value any station contributes lies within the ER limits. */
  lemma NightErWithinLimits(env: Env, station: Station, p: Period, i: int)
    requires ValidEnv(env) && station in Catalog && ValidPeriod(p)
    requires NightErValues(env, station, p.start, p.end).Success?
    requires 0 <= i < |NightErValues(env, station, p.start, p.end).value|
    requires NightErValues(env, station, p.start, p.end).value[i].Some?
    ensures env.th.minEr <= NightErValues(env, station, p.start, p.end).value[i].value <= env.th.maxEr
  {
    var er := ErValues(env, station, p.start, p.end).value;
    var mask := NightMask(station, p.start, p.end);
    SelectKeeps(mask, er, i);
    ErWithinLimits(env, station, p.start, p.end, if |er| == 1 then 0 else i);
  }

  /** A defined EDst value is a mean of in-limit ER values, so it lies within the ER limits too. */
  lemma EdstWithinLimits(env: Env, p: Period, j: int)
    requires ValidEnv(env) && ValidPeriod(p)
    requires EdstValues(env, p).Success? && 0 <= j < |EdstValues(env, p).value|
    requires EdstValues(env, p).value[j].Some?
    ensures env.th.minEr <= EdstValues(env, p).value[j].value <= env.th.maxEr
  {
    var rs := NightResults(env, p, |Catalog|);
    forall i, k | 0 <= i < |rs| && rs[i].Success? && 0 <= k < |rs[i].value| && rs[i].value[k].Some?
      ensures env.th.minEr <= rs[i].value[k].value <= env.th.maxEr
    {
      NightResultsAt(env, p, |Catalog|, i);
      NightErWithinLimits(env, Catalog[i], p, k);
    }
    StackedMeansBounds(rs, EdstLength(p), j, env.th.minEr, env.th.maxEr);
  }

  /**
   * For a period starting on a whole minute every row has the matrix width, so
   * EDst fails only when some station's H does.
   */
  lemma AlignedRowsSucceed(env: Env, p: Period)
    requires ValidEnv(env) && ValidPeriod(p) && MinuteAligned(p.start)
    ensures EdstValues(env, p).Success? <==>
      forall i :: 0 <= i < |Catalog| ==> HValues(env, Catalog[i].code, p.start, p.end).Success?
  {
    var rs := NightResults(env, p, |Catalog|);
    StackSucceeds(rs, EdstLength(p), |Catalog|);
    forall i | 0 <= i < |Catalog|
      ensures rs[i].Success? && |rs[i].value| == EdstLength(p) <==> HValues(env, Catalog[i].code, p.start, p.end).Success?
    {
      NightResultsAt(env, p, |Catalog|, i);
      NightErAt(env, Catalog[i], p.start, p.end, 0);
    }
  }

  /** `Edst`: the period whose EDst is calculated. */
  class Edst {
    const period: Period

    constructor (period: Period)
      requires ValidPeriod(period)
      ensures this.period == period
    {
      this.period := period;
    }

    /** One pass of `calc_edst`'s loop body before the stacking: the night ER of catalog station `i`. */
    method StationNightEr(env: Env, i: int) returns (r: RowResult)
      requires ValidEnv(env) && ValidPeriod(period) && 0 <= i < |Catalog|
      ensures r == NightResults(env, period, |Catalog|)[i]
    {
      var h := new HComponent(Params(Catalog[i], period));
      var er := new Er(h);
      r := er.ExtractNightEr(env);
      NightResultsAt(env, period, |Catalog|, i);
    }

    method CalcEdst(env: Env) returns (r: Result<seq<Sample>, string>)
      requires ValidEnv(env) && ValidPeriod(period)
      ensures r == EdstValues(env, period)
    {
      var span := TimeDiff(period.start, period.end);
      var length := span.days * 1440 + span.hours * 60 + span.minutes + 1;
      assert length == EdstLength(period);
      var nightErList: seq<seq<Sample>> := [];
      ghost var rs := NightResults(env, period, |Catalog|);
      for i := 0 to |Catalog|
        invariant Stack(rs, length, i) == Success(nightErList)
      {
        var nightErVal := StationNightEr(env, i);
        if nightErVal.Failure? {
          StackFailurePersists(rs, length, i + 1, |Catalog|);
          return nightErVal.PropagateFailure();
        }
        if |nightErVal.value| != length {
          assert Stack(rs, length, i + 1) == Failure(VSTACK_ERROR);
          StackFailurePersists(rs, length, i + 1, |Catalog|);
          return Failure(VSTACK_ERROR);
        }
        nightErList := nightErList + [nightErVal.value];
      }
      return Success(ColumnMeans(nightErList, length));
    }
  }
}
