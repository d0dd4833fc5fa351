/**
 * The factory that hands out `HComponent`, `Er`, `Edst` and `Euel` objects,
 * one per station and period (one per period for `Edst`), through four
 * dictionaries.
 */
module FactoryEe {
  import opened Calendar
  import opened MagdasStation
  import opened StationParams
  import opened CalcHComponent
  import opened CalcEr
  import opened CalcEdst
  import opened CalcEuel

  /** `(station, start.isoformat(), end.isoformat())`; `isoformat` is one-to-one, so the date-times themselves serve. */
  datatype Key = Key(station: Station, start: DateTime, end: DateTime)

  function KeyOf(p: Params): Key {
    Key(p.station, p.period.start, p.period.end)
  }

  /** `(start.isoformat(), end.isoformat())` */
  datatype PeriodKey = PeriodKey(start: DateTime, end: DateTime)

  class EeFactory {
    var hCache: map<Key, HComponent>
    var erCache: map<Key, Er>
    var edstCache: map<PeriodKey, Edst>
    var euelCache: map<Key, Euel>

    /**
     * Every cached object is built on its key, a cached `Er` sits on the cached
     * `HComponent` of its key, and a cached `Euel` on the cached `Er` and
     * `Edst` of its key.
     */
    ghost predicate Valid()
      reads this
    {
      (forall k :: k in hCache ==> hCache[k].station == k.station && hCache[k].startUt == k.start && hCache[k].endUt == k.end)
      && (forall k :: k in erCache ==> k in hCache && erCache[k].h == hCache[k])
      && (forall k :: k in edstCache ==> edstCache[k].period == Period(k.start, k.end))
      && (forall k :: k in euelCache ==>
            k in erCache && PeriodKey(k.start, k.end) in edstCache
            && euelCache[k].er == erCache[k] && euelCache[k].edst == edstCache[PeriodKey(k.start, k.end)])
    }

    constructor ()
      ensures Valid()
      ensures hCache == map[] && erCache == map[] && edstCache == map[] && euelCache == map[]
    {
      hCache := map[];
      erCache := map[];
      edstCache := map[];
      euelCache := map[];
    }

    /** `create_h`: the cached instance for the key, or a new one, then cached. */
    method CreateH(p: Params) returns (h: HComponent)
      requires Valid() && p.station in Catalog && ValidPeriod(p.period)
      modifies this
      ensures Valid()
      ensures h.Valid() && h.station == p.station && h.startUt == p.period.start && h.endUt == p.period.end
      ensures KeyOf(p) in old(hCache) ==> h == old(hCache)[KeyOf(p)] && hCache == old(hCache)
      ensures KeyOf(p) !in old(hCache) ==> fresh(h) && hCache == old(hCache)[KeyOf(p) := h]
      ensures erCache == old(erCache) && edstCache == old(edstCache) && euelCache == old(euelCache)
    {
      var key := KeyOf(p);
      if key !in hCache {
        var created := new HComponent(p);
        hCache := hCache[key := created];
      }
      h := hCache[key];
    }

    /** `create_er`: the cached instance, or an `Er` on `create_h`'s instance for the same key. */
    method CreateEr(p: Params) returns (er: Er)
      requires Valid() && p.station in Catalog && ValidPeriod(p.period)
      modifies this
      ensures Valid()
      ensures er.h.Valid() && er.h.station == p.station && er.h.startUt == p.period.start && er.h.endUt == p.period.end
      ensures KeyOf(p) in hCache && er.h == hCache[KeyOf(p)]
      ensures KeyOf(p) in old(erCache) ==> er == old(erCache)[KeyOf(p)] && erCache == old(erCache) && hCache == old(hCache)
      ensures KeyOf(p) !in old(erCache) ==> fresh(er) && erCache == old(erCache)[KeyOf(p) := er]
      ensures KeyOf(p) in old(hCache) ==> hCache == old(hCache) && er.h == old(hCache)[KeyOf(p)]
      ensures forall k :: k in old(hCache) ==> k in hCache && hCache[k] == old(hCache)[k]
      ensures forall k :: k in old(erCache) ==> k in erCache && erCache[k] == old(erCache)[k]
      ensures edstCache == old(edstCache) && euelCache == old(euelCache)
    {
      var key := KeyOf(p);
      if key !in erCache {
        var h := CreateH(p);
        var created := new Er(h);
        erCache := erCache[key := created];
      }
      er := erCache[key];
    }

    /** `create_edst`: keyed by the period alone. */
    method CreateEdst(period: Period) returns (edst: Edst)
      requires Valid() && ValidPeriod(period)
      modifies this
      ensures Valid()
      ensures edst.period == period
      ensures PeriodKey(period.start, period.end) in old(edstCache) ==>
        edst == old(edstCache)[PeriodKey(period.start, period.end)] && edstCache == old(edstCache)
      ensures PeriodKey(period.start, period.end) !in old(edstCache) ==>
        fresh(edst) && edstCache == old(edstCache)[PeriodKey(period.start, period.end) := edst]
      ensures forall k :: k in old(edstCache) ==> k in edstCache && edstCache[k] == old(edstCache)[k]
      ensures hCache == old(hCache) && erCache == old(erCache) && euelCache == old(euelCache)
    {
      var key := PeriodKey(period.start, period.end);
      if key !in edstCache {
        var created := new Edst(period);
        edstCache := edstCache[key := created];
      }
      edst := edstCache[key];
    }

    /** `create_euel`: the cached instance, or a `Euel` on the cached `Er` and `Edst`. */
    method CreateEuel(p: Params) returns (euel: Euel)
      requires Valid() && p.station in Catalog && ValidPeriod(p.period)
      modifies this
      ensures Valid()
      ensures KeyOf(p) in erCache && euel.er == erCache[KeyOf(p)]
      ensures PeriodKey(p.period.start, p.period.end) in edstCache && euel.edst == edstCache[PeriodKey(p.period.start, p.period.end)]
      ensures euel.er.h.station == p.station && euel.er.h.startUt == p.period.start && euel.er.h.endUt == p.period.end
      ensures euel.edst.period == p.period
      ensures KeyOf(p) in old(euelCache) ==>
        euel == old(euelCache)[KeyOf(p)] && euelCache == old(euelCache)
        && hCache == old(hCache) && erCache == old(erCache) && edstCache == old(edstCache)
      ensures KeyOf(p) !in old(euelCache) ==> fresh(euel) && euel.euelValues.None? && euelCache == old(euelCache)[KeyOf(p) := euel]
      ensures KeyOf(p) in old(erCache) ==> euel.er == old(erCache)[KeyOf(p)]
      ensures PeriodKey(p.period.start, p.period.end) in old(edstCache) ==>
        euel.edst == old(edstCache)[PeriodKey(p.period.start, p.period.end)]
      ensures forall k :: k in old(hCache) ==> k in hCache && hCache[k] == old(hCache)[k]
      ensures forall k :: k in old(erCache) ==> k in erCache && erCache[k] == old(erCache)[k]
      ensures forall k :: k in old(edstCache) ==> k in edstCache && edstCache[k] == old(edstCache)[k]
    {
      var key := KeyOf(p);
      if key !in euelCache {
        var er := CreateEr(p);
        var edst := CreateEdst(p.period);
        var created := new Euel(er, edst);
        assert key in erCache && erCache[key] == er;
        euelCache := euelCache[key := created];
      }
      euel := euelCache[key];
    }

    /** `clear_cache`: all four dictionaries emptied. */
    method ClearCache()
      modifies this
      ensures Valid()
      ensures hCache == map[] && erCache == map[] && edstCache == map[] && euelCache == map[]
    {
      hCache := map[];
      erCache := map[];
      edstCache := map[];
      euelCache := map[];
    }
  }
}
