/** `GMDataLoader`: the h, d, z and f minute series of one station-day. */
module GmData {
  import opened Wrappers
  import opened Samples
  import opened Calendar
  import opened EeEnv
  import opened RawDataReader

  datatype GM = GM(h: seq<Sample>, d: seq<Sample>, z: seq<Sample>, f: seq<Sample>)

  function NanGm(): GM {
    GM(NanSeries(ONE_DAY_MIN), NanSeries(ONE_DAY_MIN), NanSeries(ONE_DAY_MIN), NanSeries(ONE_DAY_MIN))
  }

  /** Column `c` of the decoded day, each value checked against the raw-H limits. */
  function SanitizedColumn(rows: seq<seq<Float>>, c: nat, th: Thresholds): (r: seq<Sample>)
    requires forall i :: 0 <= i < |rows| ==> c < |rows[i]|
    ensures |r| == |rows|
  {
    seq(|rows|, i requires 0 <= i < |rows| => Sanitize(rows[i][c], th.minRawH, th.maxRawH))
  }

  predicate WithinRawLimits(s: seq<Sample>, th: Thresholds) {
    forall i :: 0 <= i < |s| && s[i].Some? ==> th.minRawH < s[i].value < th.maxRawH
  }

  /** `_load_gm` */
  function LoadGm(env: Env, code: string, date: Date): (r: Result<GM, string>)
    requires Readable(env.archive)
    ensures r.Failure? <==> |FilesFor(env.archive, code, date)| > 1
    ensures |FilesFor(env.archive, code, date)| == 0 ==> r == Success(NanGm())
    ensures r.Success? ==> |r.value.h| == |r.value.d| == |r.value.z| == |r.value.f| == ONE_DAY_MIN
    ensures r.Success? ==>
      (WithinRawLimits(r.value.h, env.th) && WithinRawLimits(r.value.d, env.th)
       && WithinRawLimits(r.value.z, env.th) && WithinRawLimits(r.value.f, env.th))
  {
    var files := FilesFor(env.archive, code, date);
    if |files| == 0 then Success(NanGm())
    else if |files| > 1 then Failure("Multiple files found")
    else
      assert files == env.archive[(code, date)];
      match ReadRawMin(files[0])
      case Failure(_) => Success(NanGm())
      case Success(rows) =>
        Success(GM(SanitizedColumn(rows, 0, env.th), SanitizedColumn(rows, 1, env.th),
                   SanitizedColumn(rows, 2, env.th), SanitizedColumn(rows, 3, env.th)))
  }

  /** A decodable file contributes its first four columns, in order, each sanitized the same way. */
  lemma LoadGmColumns(env: Env, code: string, date: Date, i: int)
    requires Readable(env.archive)
    requires |FilesFor(env.archive, code, date)| == 1
    requires SUB in FilesFor(env.archive, code, date)[0]
    requires ReadRawMin(FilesFor(env.archive, code, date)[0]).Success?
    requires 0 <= i < ONE_DAY_MIN
    ensures var rows := ReadRawMin(FilesFor(env.archive, code, date)[0]).value;
      var g := LoadGm(env, code, date).value;
      g.h[i] == Sanitize(rows[i][0], env.th.minRawH, env.th.maxRawH)
      && g.d[i] == Sanitize(rows[i][1], env.th.minRawH, env.th.maxRawH)
      && g.z[i] == Sanitize(rows[i][2], env.th.minRawH, env.th.maxRawH)
      && g.f[i] == Sanitize(rows[i][3], env.th.minRawH, env.th.maxRawH)
  {
  }

  /** A file that cannot be decoded degrades to an all-NaN day. */
  lemma LoadGmUndecodable(env: Env, code: string, date: Date)
    requires Readable(env.archive)
    requires |FilesFor(env.archive, code, date)| == 1
    requires SUB in FilesFor(env.archive, code, date)[0]
    requires ReadRawMin(FilesFor(env.archive, code, date)[0]).Failure?
    ensures LoadGm(env, code, date) == Success(NanGm())
    ensures AllNan(LoadGm(env, code, date).value.h)
  {
  }

  /** The loader object; its constructor loads once and the accessors hand back the loaded arrays. */
  class GMDataLoader {
    const stationCode: string
    const utDate: Date
    const gm: GM

    constructor Load(env: Env, stationCode: string, utDate: Date)
      requires Readable(env.archive) && LoadGm(env, stationCode, utDate).Success?
      ensures this.stationCode == stationCode && this.utDate == utDate
      ensures gm == LoadGm(env, stationCode, utDate).value
    {
      this.stationCode := stationCode;
      this.utDate := utDate;
      gm := LoadGm(env, stationCode, utDate).value;
    }

    function H(): seq<Sample> { gm.h }
    function D(): seq<Sample> { gm.d }
    function Z(): seq<Sample> { gm.z }
    function F(): seq<Sample> { gm.f }
  }
}
