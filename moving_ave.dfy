/**
 * `calc_moving_ave`: a centred moving average that skips NaN.  The number of
 * valid samples and the sum with NaN read as 0 are both taken with
 * `np.convolve(..., mode="same")` against a flat kernel of `1 / window`, and
 * the one is divided by the other; a window without a valid sample gives NaN.
 */
module MovingAve {
  import opened Wrappers
  import opened Samples

  function Total(s: seq<real>): real {
    if s == [] then 0.0 else s[0] + Total(s[1..])
  }

  /** `k` clipped to `[0, n]`. */
  function Clip(k: int, n: nat): (r: nat)
    ensures r <= n
  {
    if k < 0 then 0 else if k > n then n else k
  }

  /**
   * First data index under the kernel for output `i` of `np.convolve(x, v,
   * mode="same")` with `|x| == n` and `|v| == w`: that output is entry
   * `i + (min(n, w) - 1) / 2` of the full convolution, which sums
   * `x[k - w + 1 .. k]`.
   */
  function WindowStart(n: nat, w: nat, i: int): int {
    var m := if n < w then n else w;
    i + (m - 1) / 2 - w + 1
  }

  /** The data under the kernel for output `i`, cut off at both ends of the data. */
  function Window<T>(x: seq<T>, w: nat, i: int): (r: seq<T>)
    ensures |r| <= |x|
  {
    var lo := WindowStart(|x|, w, i);
    x[Clip(lo, |x|)..Clip(lo + w, |x|)]
  }

  /** `np.convolve(x, np.ones(w) / w, mode="same")`; the output is as long as the longer operand. */
  function ConvolveSame(x: seq<real>, w: nat): (r: seq<real>)
    requires |x| >= 1 && w >= 1
    ensures |r| == if |x| < w then w else |x|
  {
    var len := if |x| < w then w else |x|;
    seq(len, i requires 0 <= i < len => Total(Window(x, w, i)) / w as real)
  }

  /** `~np.isnan(data)` as numbers. */
  function Indicator(data: seq<Sample>): (r: seq<real>)
    ensures |r| == |data|
  {
    seq(|data|, j requires 0 <= j < |data| => if data[j].Some? then 1.0 else 0.0)
  }

  /** `np.nan_to_num(data, nan=0)` */
  function Filled(data: seq<Sample>): (r: seq<real>)
    ensures |r| == |data|
  {
    seq(|data|, j requires 0 <= j < |data| => if data[j].Some? then data[j].value else 0.0)
  }

  /**
   * `calc_moving_ave(data, window)`.  A window below 1 makes numpy refuse the
   * kernel (`np.ones` of a negative size, or an empty kernel in
   * `np.convolve`), and empty data is refused by `np.convolve` too.
   */
  function CalcMovingAve(data: seq<Sample>, window: int): Result<seq<Sample>, string> {
    if window < 1 then Failure("v cannot be empty")
    else if |data| == 0 then Failure("a cannot be empty")
    else
      var validCnt := ConvolveSame(Indicator(data), window);
      var movingSum := ConvolveSame(Filled(data), window);
      Success(seq(|validCnt|, i requires 0 <= i < |validCnt| =>
        if validCnt[i] == 0.0 then None else Some(movingSum[i] / validCnt[i])))
  }

  lemma IndicatorWindow(data: seq<Sample>, w: nat, i: int)
    ensures Window(Indicator(data), w, i) == Indicator(Window(data, w, i))
  {
  }

  lemma FilledWindow(data: seq<Sample>, w: nat, i: int)
    ensures Window(Filled(data), w, i) == Filled(Window(data, w, i))
  {
  }

  /** Summing the indicator counts the valid samples. */
  lemma {:induction false} TotalIndicator(s: seq<Sample>)
    ensures Total(Indicator(s)) == ValidCount(s) as real
  {
    if s != [] {
      TotalIndicator(s[1..]);
      assert Indicator(s)[1..] == Indicator(s[1..]);
    }
  }

  /** Summing the NaN-as-zero data adds up the valid samples. */
  lemma {:induction false} TotalFilled(s: seq<Sample>)
    ensures Total(Filled(s)) == ValidSum(s)
  {
    if s != [] {
      TotalFilled(s[1..]);
      assert Filled(s)[1..] == Filled(s[1..]);
    }
  }

  lemma ScaledQuotient(sum: real, cnt: real, w: real)
    requires w > 0.0 && cnt != 0.0
    ensures (sum / w) / (cnt / w) == sum / cnt
  {
  }

  /**
   * Output `i` is the NaN-skipping mean of the samples under the kernel:
   * NaN exactly when none of them is valid, else their sum over their count.
   * With a window no longer than the data the output is as long as the data
   * and the window runs from `i - window / 2`, cut off at the ends.
   */
  lemma MovingAveIsWindowMean(data: seq<Sample>, window: int, i: int)
    requires window >= 1 && |data| >= 1
    ensures CalcMovingAve(data, window).Success?
    ensures |CalcMovingAve(data, window).value| == if |data| < window then window else |data|
    ensures window <= |data| ==> WindowStart(|data|, window, i) == i - window / 2
    ensures 0 <= i < |CalcMovingAve(data, window).value| ==>
      CalcMovingAve(data, window).value[i] == NanMean(Window(data, window, i))
  {
    if 0 <= i < |CalcMovingAve(data, window).value| {
      MovingAveEntry(data, window, i);
    }
  }

  lemma MovingAveEntry(data: seq<Sample>, window: int, i: int)
    requires window >= 1 && |data| >= 1
    requires 0 <= i < |CalcMovingAve(data, window).value|
    ensures CalcMovingAve(data, window).value[i] == NanMean(Window(data, window, i))
  {
    var win := Window(data, window, i);
    var cnt := ConvolveSame(Indicator(data), window)[i];
    var sum := ConvolveSame(Filled(data), window)[i];
    assert CalcMovingAve(data, window).value[i] == if cnt == 0.0 then None else Some(sum / cnt);
    assert cnt == ValidCount(win) as real / window as real by {
      IndicatorWindow(data, window, i);
      TotalIndicator(win);
    }
    assert sum == ValidSum(win) / window as real by {
      FilledWindow(data, window, i);
      TotalFilled(win);
    }
    if ValidCount(win) != 0 {
      ScaledQuotient(ValidSum(win), ValidCount(win) as real, window as real);
    }
  }

  /** A moving average stays within any bounds of the valid samples in its window. */
  lemma MovingAveWithinBounds(data: seq<Sample>, window: int, i: int, lo: real, hi: real)
    requires window >= 1 && |data| >= 1
    requires 0 <= i < |CalcMovingAve(data, window).value|
    requires forall j :: 0 <= j < |data| && data[j].Some? ==> lo <= data[j].value <= hi
    requires CalcMovingAve(data, window).value[i].Some?
    ensures lo <= CalcMovingAve(data, window).value[i].value <= hi
  {
    MovingAveIsWindowMean(data, window, i);
    var win := Window(data, window, i);
    var a := Clip(WindowStart(|data|, window, i), |data|);
    assert forall j :: 0 <= j < |win| ==> win[j] == data[a + j];
    NanMeanBounds(win, lo, hi);
  }
}
