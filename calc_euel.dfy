/**
 * EUEL: a station's ER less EDst, optionally shifted so that the station's
 * night-side values sit around zero, memoised on first calculation.
 */
module CalcEuel {
  import opened Wrappers
  import opened Samples
  import opened Calendar
  import opened MagdasStation
  import opened EeEnv
  import opened StationParams
  import opened CalcHComponent
  import opened CalcEr
  import opened CalcEdst

  /** `array - scalar`: every element less the same value; NaN on either side gives NaN. */
  function Shift(s: seq<Sample>, offset: Sample): (r: seq<Sample>)
    ensures |r| == |s|
  {
    seq(|s|, i requires 0 <= i < |s| => Minus(s[i], offset))
  }

  /** `ErBaseline.get_night_euel_offset`: the median of the station's night ER over the period. */
  function NightOffset(env: Env, station: Station, start: DateTime, end: DateTime): Result<Sample, string>
    requires ValidEnv(env) && station in Catalog && Valid(start) && Valid(end)
  {
    var nightEr :- NightErValues(env, station, start, end);
    Success(env.num.nanMedian(nightEr))
  }

  /**
   * `calc_euel` without its cache, from the results of its three ingredients:
   * ER less EDst, then less the night offset when asked.  The offset is only
   * looked at when `adjust` holds, so its error surfaces only then.
   */
  function EuelOf(er: Result<seq<Sample>, string>, edst: Result<seq<Sample>, string>, offset: Result<Sample, string>, adjust: bool): Result<seq<Sample>, string> {
    var e :- er;
    var d :- edst;
    var euel :- SubSeq(e, d);
    if !adjust then Success(euel)
    else
      var o :- offset;
      Success(Shift(euel, o))
  }

  function EuelValues(env: Env, station: Station, start: DateTime, end: DateTime, edstPeriod: Period, adjust: bool): Result<seq<Sample>, string>
    requires ValidEnv(env) && station in Catalog && Valid(start) && Valid(end) && ValidPeriod(edstPeriod)
  {
    EuelOf(ErValues(env, station, start, end), EdstValues(env, edstPeriod), NightOffset(env, station, start, end), adjust)
  }

  /** With both indices over one whole-minute period, EUEL is ER less EDst minute by minute. */
  lemma EuelIsErLessEdst(env: Env, station: Station, p: Period, i: int)
    requires ValidEnv(env) && station in Catalog && ValidPeriod(p) && MinuteAligned(p.start)
    requires ErValues(env, station, p.start, p.end).Success? && EdstValues(env, p).Success?
    ensures EuelValues(env, station, p.start, p.end, p, false).Success?
    ensures |EuelValues(env, station, p.start, p.end, p, false).value| == |ErValues(env, station, p.start, p.end).value|
      == |EdstValues(env, p).value| == TotalMinutes(p.start, p.end)
    ensures 0 <= i < TotalMinutes(p.start, p.end) ==>
      var euel := EuelValues(env, station, p.start, p.end, p, false).value;
      var er := ErValues(env, station, p.start, p.end).value;
      var edst := EdstValues(env, p).value;
      (euel[i].Some? <==> er[i].Some? && edst[i].Some?) &&
      (euel[i].Some? ==> euel[i].value + edst[i].value == er[i].value)
  {
    AlignedLengthsAgree(env, station, p.start, p.end);
    EdstShape(env, p);
    var er := ErValues(env, station, p.start, p.end).value;
    var edst := EdstValues(env, p).value;
    if 0 <= i < |er| {
      SubSeqPairs(er, edst, i);
    } else {
      SubSeqPairs(er, edst, 0);
    }
  }

  /** The adjustment moves every element by the one night offset, and fails only when the unadjusted EUEL or the offset does. */
  lemma AdjustedIsShifted(er: Result<seq<Sample>, string>, edst: Result<seq<Sample>, string>, offset: Result<Sample, string>, i: int)
    ensures EuelOf(er, edst, offset, true).Success? <==> EuelOf(er, edst, offset, false).Success? && offset.Success?
    ensures EuelOf(er, edst, offset, true).Success? ==>
      |EuelOf(er, edst, offset, true).value| == |EuelOf(er, edst, offset, false).value|
    ensures EuelOf(er, edst, offset, true).Success? && 0 <= i < |EuelOf(er, edst, offset, false).value| ==>
      EuelOf(er, edst, offset, true).value[i] == Minus(EuelOf(er, edst, offset, false).value[i], offset.value)
  {
  }

  /** `Euel`, with the memo field `_euel_values`. */
  class Euel {
    const er: Er
    const edst: Edst
    var euelValues: Option<seq<Sample>>

    constructor (er: Er, edst: Edst)
      ensures this.er == er && this.edst == edst && euelValues.None?
    {
      this.er := er;
      this.edst := edst;
      euelValues := None;
    }

    /** Error-free runs store their result; later calls return it whatever `adjust` is. */
    method CalcEuel(env: Env, adjust: bool) returns (r: Result<seq<Sample>, string>)
      requires ValidEnv(env) && er.h.Valid() && ValidPeriod(edst.period)
      modifies this
      ensures old(euelValues).Some? ==> r == Success(old(euelValues).value) && euelValues == old(euelValues)
      ensures old(euelValues).None? ==>
        r == EuelValues(env, er.h.station, er.h.startUt, er.h.endUt, edst.period, adjust)
      ensures old(euelValues).None? ==> euelValues == (if r.Success? then Some(r.value) else None)
    {
      if euelValues.Some? {
        return Success(euelValues.value);
      }
      var erValues :- er.CalcEr(env);
      var edstValues :- edst.CalcEdst(env);
      var euel :- SubSeq(erValues, edstValues);
      if adjust {
        var station := er.h.station;
        var period := Period(er.h.startUt, er.h.endUt);
        var offset :- GetNightEuelOffset(env, station, period);
        euel := Shift(euel, offset);
      }
      euelValues := Some(euel);
      return Success(euel);
    }
  }

  /** `ErBaseline.get_night_euel_offset` */
  method GetNightEuelOffset(env: Env, station: Station, period: Period) returns (r: Result<Sample, string>)
    requires ValidEnv(env) && station in Catalog && ValidPeriod(period)
    ensures r == NightOffset(env, station, period.start, period.end)
  {
    var h := new HComponent(Params(station, period));
    var er := new Er(h);
    var nightEr :- er.ExtractNightEr(env);
    return Success(env.num.nanMedian(nightEr));
  }
}
