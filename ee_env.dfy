/**
 * What the index calculators read from outside: the archive of raw minute
 * files, the range limits of the constants module, and the numerical
 * routines (cosine, median, correlation, interpolation, smoothing) whose
 * floating-point internals are not modelled.
 */
module EeEnv {
  import opened Wrappers
  import opened Samples
  import opened Calendar
  import opened MagdasStation
  import RawDataReader

  /** The files the glob `<code>_MIN_<yyyymmdd>*.mgd` matches for a station and UT date, by contents. */
  type Archive = map<(string, Date), seq<seq<bv8>>>

  function FilesFor(a: Archive, code: string, d: Date): seq<seq<bv8>> {
    if (code, d) in a then a[(code, d)] else []
  }

  /** Every archived file has the 0x1A header delimiter the reader looks for. */
  predicate Readable(a: Archive) {
    forall key, i :: key in a && 0 <= i < |a[key]| ==> RawDataReader.SUB in a[key][i]
  }

  /** `MIN_RAW_H`, `MAX_RAW_H`, `MIN_ER`, `MAX_ER`. */
  datatype Thresholds = Thresholds(minRawH: real, maxRawH: real, minEr: real, maxEr: real)

  /**
   * `cos(deg2rad(x))`, `nanmedian`, Pearson correlation, `interpolate_nan`
   * and `calc_moving_avg(data, window, nan_threshold)`.
   */
  datatype Numerics = Numerics(
    cosDeg: real -> real,
    nanMedian: seq<Sample> -> Sample,
    corr: (seq<Sample>, seq<Sample>) -> Sample,
    interpolateNan: seq<Sample> -> seq<Sample>,
    movingAvg: (seq<Sample>, nat, nat) -> seq<Sample>)

  ghost predicate ValidNumerics(n: Numerics) {
    (forall lat: real :: -90.0 < lat < 90.0 ==> n.cosDeg(lat) > 0.0)
    && (forall s: seq<Sample> :: n.nanMedian(s).None? <==> AllNan(s))
    && (forall s: seq<Sample> :: |n.interpolateNan(s)| == |s|)
    && (forall s: seq<Sample>, w: nat, t: nat :: |n.movingAvg(s, w, t)| == |s|)
  }

  datatype Env = Env(archive: Archive, th: Thresholds, num: Numerics)

  ghost predicate ValidEnv(e: Env) {
    Readable(e.archive) && ValidNumerics(e.num)
  }
}
