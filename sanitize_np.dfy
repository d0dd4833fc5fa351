/**
 * Conversion of numpy float arrays to JSON-ready lists: NaN becomes `None`,
 * every other value (infinities included) is kept as a float.
 */
module SanitizeNp {
  import opened Wrappers
  import opened Samples

  /** `np_nan_to_none` */
  function NanToNone(values: seq<Float>): (r: seq<Option<Float>>)
    ensures |r| == |values|
    ensures forall i :: 0 <= i < |values| ==> (r[i].None? <==> values[i].NaN?)
    ensures forall i :: 0 <= i < |values| && r[i].Some? ==> r[i].value == values[i]
  {
    seq(|values|, i requires 0 <= i < |values| => if values[i].NaN? then None else Some(values[i]))
  }

  /** `to_float`: `float(x)` of a float is the same float, and `None` stays `None`. */
  function ToFloat(values: seq<Option<Float>>): (r: seq<Option<Float>>)
    ensures |r| == |values|
    ensures forall i :: 0 <= i < |values| ==> (r[i].None? <==> values[i].None?)
  {
    seq(|values|, i requires 0 <= i < |values| => if values[i].Some? then Some(values[i].value) else None)
  }

  /** `sanitize_np` */
  function SanitizeNp(values: seq<Float>): (r: seq<Option<Float>>)
    ensures |r| == |values|
  {
    ToFloat(NanToNone(values))
  }

  /** Converting to floats changes nothing, so sanitizing is exactly the NaN-to-None step. */
  lemma SanitizeIsNanToNone(values: seq<Float>)
    ensures SanitizeNp(values) == NanToNone(values)
    ensures forall i :: 0 <= i < |values| ==>
      (SanitizeNp(values)[i].None? <==> values[i].NaN?)
  {
    var a := NanToNone(values);
    assert forall i :: 0 <= i < |a| ==> ToFloat(a)[i] == a[i];
  }

  /** The list is NaN-free and can be mapped back to the original floats. */
  lemma SanitizeRoundTrip(values: seq<Float>)
    ensures var r := SanitizeNp(values);
      forall i :: 0 <= i < |r| ==> (if r[i].None? then Float.NaN else r[i].value) == values[i]
    ensures var r := SanitizeNp(values);
      forall i :: 0 <= i < |r| && r[i].Some? ==> !r[i].value.NaN?
  {
    SanitizeIsNanToNone(values);
  }
}
