/**
 * The MAGDAS stations that contribute to the EE-index: code, offset of local
 * time from UT in hours, and geomagnetic latitude and longitude in degrees.
 * The catalog keeps the enumeration's order, which is alphabetical by code.
 */
module MagdasStation {
  import opened Wrappers

  datatype Station = Station(code: string, timeDiff: real, gmLat: real, gmLon: real)

  const CATALOG_SIZE: int := 29

  const Catalog: seq<Station> := [
      Station("AAB", 2.585333333333333, 0.18, 110.47),
      Station("ABU", 0.49266666666666664, -1.53, 79.4),
      Station("AMA", 8.622, 21.11, 200.88),
      Station("ANC", -5.143333333333333, 0.77, 354.33),
      Station("BCL", 7.047333333333333, -0.66, 177.96),
      Station("BKL", 6.820666666666667, -15.13, 173.6),
      Station("CDO", 8.308666666666667, -1.1, 196.66),
      Station("CEB", 8.260666666666667, 2.53, 195.06),
      Station("DAV", 8.36, -1.02, 196.54),
      Station("DAW", 8.728, -21.91, 202.81),
      Station("EUS", -2.562000000000003, -3.64, 34.21),
      Station("EWA", -10.5333333333333, 21.67, 269.52),
      Station("GSI", 6.507333333333333, -7.53, 169.49),
      Station("HLN", 8.103333333333333, 16.86, 193.05),
      Station("ICA", -5.04933333333333, -1.56, 356.16),
      Station("ILR", 0.312, -1.82, 76.8),
      Station("KRT", 2.1546666666666665, 5.69, 103.8),
      Station("LAG", 0.218, -3.04, 75.33),
      Station("LGZ", 8.249333333333333, 3.54, 195.56),
      Station("LKW", 6.652, -2.32, 171.29),
      Station("LWA", 6.937333333333333, -16.19, 175.33),
      Station("MND", 8.322666666666666, -6.91, 196.06),
      Station("MUT", 8.068, 6.79, 192.25),
      Station("NAB", 2.432, -10.65, 108.18),
      Station("PRP", 7.96, -12.38, 190.75),
      Station("SCN", 6.6866666666666665, -12.11, 171.66),
      Station("TGG", 8.117333333333334, 10.26, 193.05),
      Station("TIR", 5.13, -0.37, 149.11),
      Station("YAP", 9.205333333333333, 1.49, 209.06)
    ]

  function Abs(x: real): real {
    if x < 0.0 then -x else x
  }

  /** Within three degrees of the dip equator. */
  predicate IsDip(s: Station) {
    Abs(s.gmLat) < 3.0
  }

  /** Between three and fifteen degrees from the dip equator, both ends included. */
  predicate IsOffDip(s: Station) {
    3.0 <= Abs(s.gmLat) <= 15.0
  }

  /** No station is both a dip and an off-dip station; beyond fifteen degrees a station is neither. */
  lemma RolesExclusive(s: Station)
    ensures !(IsDip(s) && IsOffDip(s))
    ensures Abs(s.gmLat) > 15.0 ==> !IsDip(s) && !IsOffDip(s)
    ensures IsDip(s) || IsOffDip(s) || Abs(s.gmLat) > 15.0
  {
  }

  /** Every station lies well away from the geomagnetic poles. */
  lemma CatalogLatitudes(s: Station)
    requires s in Catalog
    ensures -90.0 < s.gmLat < 90.0
  {
  }

  /** `EeIndexStation.is_included`: some catalog entry carries the code. */
  predicate IsIncluded(code: string) {
    exists i :: 0 <= i < |Catalog| && Catalog[i].code == code
  }

  /** `EeIndexStation[code]`: the first entry with that code, `None` where Python raises `KeyError`. */
  function Lookup(code: string): (r: Option<Station>)
    ensures r.Some? <==> IsIncluded(code)
    ensures r.Some? ==> r.value in Catalog && r.value.code == code
  {
    LookupFrom(code, 0)
  }

  function LookupFrom(code: string, k: nat): (r: Option<Station>)
    requires k <= |Catalog|
    ensures r.Some? <==> exists i :: k <= i < |Catalog| && Catalog[i].code == code
    ensures r.Some? ==> r.value in Catalog && r.value.code == code
    decreases |Catalog| - k
  {
    if k == |Catalog| then None
    else if Catalog[k].code == code then Some(Catalog[k])
    else LookupFrom(code, k + 1)
  }

  /** Order key of a three-letter code. */
  function CodeKey(c: string): int
    requires |c| == 3
  {
    (c[0] as int) * 65536 + (c[1] as int) * 256 + (c[2] as int)
  }

  lemma CatalogAscends()
    ensures |Catalog| == CATALOG_SIZE
    ensures forall i :: 0 <= i < |Catalog| ==> |Catalog[i].code| == 3
    ensures forall i :: 0 <= i < |Catalog| - 1 ==> CodeKey(Catalog[i].code) < CodeKey(Catalog[i + 1].code)
  {
  }

  lemma {:induction false} KeysIncrease(i: int, j: int)
    requires 0 <= i < j < |Catalog|
    ensures CodeKey(Catalog[i].code) < CodeKey(Catalog[j].code)
    decreases j - i
  {
    CatalogAscends();
    if i + 1 < j {
      KeysIncrease(i + 1, j);
    }
  }

  /** The 29 station codes are pairwise distinct, so a code names at most one station. */
  lemma CodesDistinct(i: int, j: int)
    requires 0 <= i < |Catalog| && 0 <= j < |Catalog| && i != j
    ensures Catalog[i].code != Catalog[j].code
  {
    if i < j { KeysIncrease(i, j); } else { KeysIncrease(j, i); }
  }

  /** A code that is included names exactly the one catalog station `Lookup` returns. */
  lemma LookupUnique(code: string, i: int)
    requires 0 <= i < |Catalog| && Catalog[i].code == code
    ensures Lookup(code) == Some(Catalog[i])
  {
    var s := Lookup(code).value;
    var k :| 0 <= k < |Catalog| && Catalog[k] == s;
    if k != i { CodesDistinct(k, i); }
  }
}
