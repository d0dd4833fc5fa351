/**
 * `QuietDayDomain`: a day is quiet when its lowest EDst is at least -30 nT
 * and its highest Kp is below 4.  Either value may be NaN, which fails every
 * comparison.  A datatype value is immutable, as the frozen dataclass is.
 */
module Quiet {
  import opened Wrappers
  import opened Samples

  const KP_QUIET_THRESHOLD: real := 4.0
  const EDST_QUIET_THRESHOLD: real := -30.0

  datatype QuietDay = QuietDay(minEdst: Sample, maxKp: Sample)

  function IsQuietDay(q: QuietDay): (b: bool)
    ensures b ==> q.minEdst.Some? && q.maxKp.Some?
  {
    q.minEdst.Some? && q.maxKp.Some?
    && q.minEdst.value >= EDST_QUIET_THRESHOLD && q.maxKp.value < KP_QUIET_THRESHOLD
  }

  /** EDst exactly at -30 is quiet, Kp exactly at 4 is not, and a NaN makes the day not quiet. */
  lemma QuietBoundaries(edst: real, kp: real)
    ensures IsQuietDay(QuietDay(Some(-30.0), Some(kp))) <==> kp < 4.0
    ensures !IsQuietDay(QuietDay(Some(edst), Some(4.0)))
    ensures IsQuietDay(QuietDay(Some(edst), Some(kp))) <==> edst >= -30.0 && kp < 4.0
    ensures !IsQuietDay(QuietDay(None, Some(kp))) && !IsQuietDay(QuietDay(Some(edst), None))
  {
  }

  /** Raising EDst or lowering Kp cannot turn a quiet day into a disturbed one. */
  lemma QuietIsMonotone(q: QuietDay, edst: real, kp: real)
    requires IsQuietDay(q) && edst >= q.minEdst.value && kp <= q.maxKp.value
    ensures IsQuietDay(QuietDay(Some(edst), Some(kp)))
  {
  }
}
