/**
 * Minute series as numpy holds them. A `Sample` is one float of a series, with
 * `None` standing for NaN; `Float` is a raw IEEE-754 value as read from a file,
 * where infinities are still possible. The NaN-aware reductions numpy offers
 * (`nanmean`, `max`) are defined here once and reused by the index calculators.
 */
module Samples {
  import opened Wrappers

  type Sample = Option<real>

  datatype Float = Finite(v: real) | PosInf | NegInf | NaN

  /** `np.full(n, np.nan)` */
  function NanSeries(n: nat): (r: seq<Sample>)
    ensures |r| == n
    ensures forall i :: 0 <= i < n ==> r[i].None?
  {
    seq(n, _ => None)
  }

  predicate AllNan(s: seq<Sample>) {
    forall i :: 0 <= i < |s| ==> s[i].None?
  }

  /** Elementwise `a - b` on floats: NaN if either operand is NaN. */
  function Minus(a: Sample, b: Sample): Sample {
    if a.Some? && b.Some? then Some(a.value - b.value) else None
  }

  /**
   * The sensor-range test of the raw readers: a value at or beyond either bound
   * becomes NaN, and so does a NaN (it fails both comparisons and stays NaN).
   */
  function Sanitize(f: Float, lo: real, hi: real): (r: Sample)
    ensures r.Some? <==> f.Finite? && lo < f.v < hi
    ensures r.Some? ==> r.value == f.v
  {
    match f
    case Finite(v) => if v <= lo || v >= hi then None else Some(v)
    case _ => None
  }

  /** The raw-range test as the in-place loops write it: `v <= lo or v >= hi`, false for NaN. */
  predicate OutOfRange(f: Float, lo: real, hi: real) {
    match f
    case Finite(v) => v <= lo || v >= hi
    case PosInf => true
    case NegInf => true
    case NaN => false
  }

  /** A float that is not NaN and not infinite as a sample; NaN (and an infinity) as `None`. */
  function ToSample(f: Float): Sample {
    if f.Finite? then Some(f.v) else None
  }

  /** Overwriting out-of-range values with NaN and then reading the array as samples is `Sanitize`. */
  lemma ClipInPlaceIsSanitize(f: Float, lo: real, hi: real)
    ensures ToSample(if OutOfRange(f, lo, hi) then NaN else f) == Sanitize(f, lo, hi)
  {
  }

  /** Number of non-NaN entries. */
  function ValidCount(s: seq<Sample>): (n: nat)
    ensures n <= |s|
  {
    if s == [] then 0 else (if s[0].Some? then 1 else 0) + ValidCount(s[1..])
  }

  /** The count of valid entries is zero exactly when the series is all NaN. */
  lemma {:induction false} ValidCountZero(s: seq<Sample>)
    ensures ValidCount(s) == 0 <==> AllNan(s)
  {
    if s != [] {
      ValidCountZero(s[1..]);
      assert forall i :: 1 <= i < |s| ==> s[i] == s[1..][i - 1];
    }
  }

  /** Sum of the non-NaN entries (NaN counted as 0, as `np.nan_to_num` does). */
  function ValidSum(s: seq<Sample>): real {
    if s == [] then 0.0 else (if s[0].Some? then s[0].value else 0.0) + ValidSum(s[1..])
  }

  /** `np.nanmean` of one column: NaN when every entry is NaN. */
  function NanMean(s: seq<Sample>): (r: Sample)
    ensures r.None? <==> AllNan(s)
  {
    ValidCountZero(s);
    var n := ValidCount(s);
    if n == 0 then None else Some(ValidSum(s) / n as real)
  }

  lemma {:induction false} ValidSumAtLeast(s: seq<Sample>, lo: real)
    requires forall i :: 0 <= i < |s| && s[i].Some? ==> lo <= s[i].value
    ensures lo * (ValidCount(s) as real) <= ValidSum(s)
  {
    if s != [] {
      ValidSumAtLeast(s[1..], lo);
      MulSucc(lo, ValidCount(s[1..]) as real);
    }
  }

  lemma {:induction false} ValidSumAtMost(s: seq<Sample>, hi: real)
    requires forall i :: 0 <= i < |s| && s[i].Some? ==> s[i].value <= hi
    ensures ValidSum(s) <= hi * (ValidCount(s) as real)
  {
    if s != [] {
      ValidSumAtMost(s[1..], hi);
      MulSucc(hi, ValidCount(s[1..]) as real);
    }
  }

  lemma MulSucc(a: real, c: real)
    ensures a * (c + 1.0) == a * c + a
  {
  }

  lemma DivBounds(sum: real, n: real, lo: real, hi: real)
    requires n > 0.0
    requires lo * n <= sum <= hi * n
    ensures lo <= sum / n <= hi
  {
  }

  /** The NaN-aware mean lies between any bounds of the valid entries. */
  lemma NanMeanBounds(s: seq<Sample>, lo: real, hi: real)
    requires !AllNan(s)
    requires forall i :: 0 <= i < |s| && s[i].Some? ==> lo <= s[i].value <= hi
    ensures lo <= NanMean(s).value <= hi
  {
    ValidCountZero(s);
    ValidSumAtLeast(s, lo);
    ValidSumAtMost(s, hi);
    DivBounds(ValidSum(s), ValidCount(s) as real, lo, hi);
  }

  /** A NaN entry neither adds to the sum nor to the count. */
  lemma {:induction false} NanAddsNothing(a: seq<Sample>, b: seq<Sample>)
    ensures ValidCount(a + [None] + b) == ValidCount(a + b)
    ensures ValidSum(a + [None] + b) == ValidSum(a + b)
  {
    if a == [] {
      assert a + [None] + b == [None] + b;
      assert ([None] + b)[1..] == b;
      assert a + b == b;
    } else {
      NanAddsNothing(a[1..], b);
      assert (a + [None] + b)[1..] == a[1..] + [None] + b;
      assert (a + b)[1..] == a[1..] + b;
    }
  }

  /** `np.max`: NaN as soon as one entry is NaN, otherwise the largest entry. */
  function Max(s: seq<Sample>): (r: Sample)
    requires |s| > 0
    ensures r.None? <==> exists i :: 0 <= i < |s| && s[i].None?
    ensures r.Some? ==> forall i :: 0 <= i < |s| ==> s[i].Some? && s[i].value <= r.value
    ensures r.Some? ==> exists i :: 0 <= i < |s| && s[i] == r
  {
    if |s| == 1 then s[0]
    else
      var m := Max(s[1..]);
      assert forall i :: 1 <= i < |s| ==> s[i] == s[1..][i - 1];
      if s[0].None? || m.None? then None
      else if s[0].value >= m.value then s[0]
      else m
  }

  /** `np.min`: NaN as soon as one entry is NaN, otherwise the least entry. */
  function Min(s: seq<Sample>): (r: Sample)
    requires |s| > 0
    ensures r.None? <==> exists i :: 0 <= i < |s| && s[i].None?
    ensures r.Some? ==> forall i :: 0 <= i < |s| ==> s[i].Some? && r.value <= s[i].value
    ensures r.Some? ==> exists i :: 0 <= i < |s| && s[i] == r
  {
    if |s| == 1 then s[0]
    else
      var m := Min(s[1..]);
      assert forall i :: 1 <= i < |s| ==> s[i] == s[1..][i - 1];
      if s[0].None? || m.None? then None
      else if s[0].value <= m.value then s[0]
      else m
  }

  /** Two one-dimensional shapes broadcast when they agree or one of them is 1. */
  predicate Broadcastable(m: nat, n: nat) {
    m == n || m == 1 || n == 1
  }

  function BroadcastLength(m: nat, n: nat): nat
    requires Broadcastable(m, n)
  {
    if m == 1 then n else m
  }

  /** Element `i` of an operand stretched to the broadcast length. */
  function Stretch<T>(s: seq<T>, i: int): T
    requires |s| == 1 || 0 <= i < |s|
  {
    if |s| == 1 then s[0] else s[i]
  }

  /** numpy's `a - b` on two one-dimensional arrays; shapes that do not broadcast raise `ValueError`. */
  function SubSeq(a: seq<Sample>, b: seq<Sample>): (r: Result<seq<Sample>, string>)
    ensures r.Success? <==> Broadcastable(|a|, |b|)
    ensures r.Success? ==> |r.value| == BroadcastLength(|a|, |b|)
  {
    if !Broadcastable(|a|, |b|) then Failure("operands could not be broadcast together")
    else Success(seq(BroadcastLength(|a|, |b|), i requires 0 <= i < BroadcastLength(|a|, |b|) =>
      Minus(Stretch(a, i), Stretch(b, i))))
  }

  /** Arrays of one length subtract element by element; NaN in either operand gives NaN. */
  lemma SubSeqPairs(a: seq<Sample>, b: seq<Sample>, i: int)
    requires |a| == |b| && 0 <= i < |a|
    ensures SubSeq(a, b).Success? && |SubSeq(a, b).value| == |a|
    ensures SubSeq(a, b).value[i].Some? <==> a[i].Some? && b[i].Some?
    ensures SubSeq(a, b).value[i].Some? ==> SubSeq(a, b).value[i].value + b[i].value == a[i].value
  {
  }

  /** `np.where(mask, x, np.nan)`; shapes that do not broadcast raise `ValueError`. */
  function Select(mask: seq<bool>, x: seq<Sample>): (r: Result<seq<Sample>, string>)
    ensures r.Success? <==> Broadcastable(|mask|, |x|)
    ensures r.Success? ==> |r.value| == BroadcastLength(|mask|, |x|)
  {
    if !Broadcastable(|mask|, |x|) then Failure("operands could not be broadcast together")
    else Success(seq(BroadcastLength(|mask|, |x|), i requires 0 <= i < BroadcastLength(|mask|, |x|) =>
      if Stretch(mask, i) then Stretch(x, i) else None))
  }

  /** With a mask as long as the data, selection keeps the data under `true` and puts NaN under `false`. */
  lemma SelectPairs(mask: seq<bool>, x: seq<Sample>, i: int)
    requires |mask| == |x| && 0 <= i < |x|
    ensures Select(mask, x).Success? && |Select(mask, x).value| == |x|
    ensures mask[i] ==> Select(mask, x).value[i] == x[i]
    ensures !mask[i] ==> Select(mask, x).value[i].None?
  {
  }

  /** Whatever the shapes, a value `np.where` lets through is the data's own (stretched) value. */
  lemma SelectKeeps(mask: seq<bool>, x: seq<Sample>, i: int)
    requires Select(mask, x).Success? && 0 <= i < |Select(mask, x).value|
    ensures |x| == 1 || i < |x|
    ensures Select(mask, x).value[i].Some? ==> Select(mask, x).value[i] == Stretch(x, i)
  {
  }
}
