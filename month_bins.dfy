// The monthly occurrence ratio of peculiar EEJ events: each calendar month
// gets a bin counting the events of the month (every event, repeated dates
// included) over the distinct quiet days of the month.

module MonthBins {
  import opened Calendar

  /** `MonthBinData`: one calendar month's event count and quiet-day count. */
  datatype MonthBin = MonthBin(month: int, peculiarCount: nat, quietCount: nat)

  /** `MonthBinData.ratio`: the events per quiet day in percent, 0.0 for a month without quiet days. */
  function Ratio(b: MonthBin): (r: real)
    ensures r >= 0.0
    ensures b.quietCount == 0 ==> r == 0.0
    ensures b.quietCount > 0 ==> r * b.quietCount as real == b.peculiarCount as real * 100.0
  {
    if b.quietCount == 0 then 0.0
    else b.peculiarCount as real / b.quietCount as real * 100.0
  }

  /** A month with quiet days has a ratio of at most 100 exactly when it has no more events than quiet days. */
  lemma RatioAtMostHundred(b: MonthBin)
    requires b.quietCount > 0
    ensures Ratio(b) <= 100.0 <==> b.peculiarCount <= b.quietCount
  {
    var q := b.quietCount as real;
    assert Ratio(b) * q == b.peculiarCount as real * 100.0;
    if Ratio(b) <= 100.0 {
      assert Ratio(b) * q <= 100.0 * q;
    } else {
      assert Ratio(b) * q > 100.0 * q;
    }
  }

  // ---------------------------------------------------------------------
  // Counting by month

  /** The quiet days falling in month `m`; a set holds every date once. */
  function QuietIn(dates: set<Date>, m: int): (r: set<Date>)
    ensures forall d :: d in r <==> d in dates && d.month == m
  {
    set d | d in dates && d.month == m
  }

  /** The events of `events` falling in month `m`, each occurrence counted. */
  function EventsIn(events: seq<Date>, m: int): (r: nat)
    ensures r <= |events|
  {
    if events == [] then 0
    else EventsIn(events[..|events| - 1], m) + (if events[|events| - 1].month == m then 1 else 0)
  }

  /** The counts of one more event: its own month goes up by one and no other month changes. */
  lemma EventsInStep(events: seq<Date>, e: Date, m: int)
    ensures EventsIn(events + [e], m) == EventsIn(events, m) + (if e.month == m then 1 else 0)
  {
    assert (events + [e])[..|events|] == events;
  }

  /** `{entry.date for entry in quiet_data}`: the quiet days without repetition. */
  function QuietDatesOf(entries: seq<Date>): (r: set<Date>)
    ensures forall d :: d in r <==> d in entries
  {
    set d | d in entries
  }

  /** Counting distinct quiet days never counts more than counting the entries with repetition. */
  lemma {:induction false} DistinctAtMostOccurrences(entries: seq<Date>, m: int)
    ensures |QuietIn(QuietDatesOf(entries), m)| <= EventsIn(entries, m)
  {
    if entries == [] {
      assert QuietIn(QuietDatesOf(entries), m) == {};
    } else {
      var init := entries[..|entries| - 1];
      var last := entries[|entries| - 1];
      assert entries == init + [last];
      DistinctAtMostOccurrences(init, m);
      EventsInStep(init, last, m);
      assert QuietDatesOf(entries) == QuietDatesOf(init) + {last};
      if last in QuietDatesOf(init) {
        assert QuietDatesOf(entries) == QuietDatesOf(init);
      } else {
        QuietInAdd(QuietDatesOf(init), last);
      }
    }
  }

  /** A repeated event date is counted twice, where the same date listed twice is one quiet day. */
  lemma RepeatsCountTwice(d: Date)
    ensures EventsIn([d, d], d.month) == 2
    ensures |QuietIn(QuietDatesOf([d, d]), d.month)| == 1
  {
    assert [d, d][..1] == [d];
    assert [d][..0] == [];
    assert QuietIn(QuietDatesOf([d, d]), d.month) == {d};
  }

  // ---------------------------------------------------------------------
  // The bins

  /** The bin of month `m`. */
  function BinOf(quietDates: set<Date>, events: seq<Date>, m: int): MonthBin {
    MonthBin(m, EventsIn(events, m), |QuietIn(quietDates, m)|)
  }

  /** `build_month_bins`: the twelve bins of months 1 through 12, in order. */
  function MonthBinsOf(quietDates: set<Date>, events: seq<Date>): (r: seq<MonthBin>)
    ensures |r| == 12
    ensures forall i :: 0 <= i < 12 ==> r[i].month == i + 1
  {
    seq(12, i => BinOf(quietDates, events, i + 1))
  }

  /** A month's count looked up in a counter, absent months counting zero (`counter.get(month, 0)`). */
  function Get(counter: map<int, nat>, m: int): nat {
    if m in counter then counter[m] else 0
  }

  /** `quiet_counter[month] += 1` for every quiet date, in whatever order the set yields them. */
  method CountQuiet(quietDates: set<Date>) returns (counter: map<int, nat>)
    ensures forall m :: Get(counter, m) == |QuietIn(quietDates, m)|
  {
    counter := map[];
    var remaining := quietDates;
    while remaining != {}
      invariant remaining <= quietDates
      invariant forall m :: Get(counter, m) == |QuietIn(quietDates - remaining, m)|
      decreases |remaining|
    {
      var d :| d in remaining;
      var done := quietDates - remaining;
      QuietInAdd(done, d);
      counter := counter[d.month := Get(counter, d.month) + 1];
      remaining := remaining - {d};
      assert quietDates - remaining == done + {d};
    }
    assert quietDates - remaining == quietDates;
  }

  /** Adding a date not yet counted raises its own month's count by one and leaves every other month. */
  lemma QuietInAdd(dates: set<Date>, d: Date)
    requires d !in dates
    ensures forall m :: |QuietIn(dates + {d}, m)| == |QuietIn(dates, m)| + (if d.month == m then 1 else 0)
  {
    forall m
      ensures |QuietIn(dates + {d}, m)| == |QuietIn(dates, m)| + (if d.month == m then 1 else 0)
    {
      if d.month == m {
        assert QuietIn(dates + {d}, m) == QuietIn(dates, m) + {d};
      } else {
        assert QuietIn(dates + {d}, m) == QuietIn(dates, m);
      }
    }
  }

  /** `peculiar_counter[month] += 1` for every event in list order. */
  method CountEvents(events: seq<Date>) returns (counter: map<int, nat>)
    ensures forall m :: Get(counter, m) == EventsIn(events, m)
  {
    counter := map[];
    var i := 0;
    while i < |events|
      invariant 0 <= i <= |events|
      invariant forall m :: Get(counter, m) == EventsIn(events[..i], m)
    {
      var e := events[i];
      forall m
        ensures EventsIn(events[..i + 1], m) == EventsIn(events[..i], m) + (if e.month == m then 1 else 0)
      {
        assert events[..i + 1] == events[..i] + [e];
        EventsInStep(events[..i], e, m);
      }
      counter := counter[e.month := Get(counter, e.month) + 1];
      i := i + 1;
    }
    assert events[..i] == events;
  }

  /** `build_month_bins`: count both lists into counters, then read out the months 1 through 12. */
  method BuildMonthBins(quietDates: set<Date>, events: seq<Date>) returns (bins: seq<MonthBin>)
    ensures bins == MonthBinsOf(quietDates, events)
  {
    var quietCounter := CountQuiet(quietDates);
    var peculiarCounter := CountEvents(events);
    bins := [];
    var month := 1;
    while month < 13
      invariant 1 <= month <= 13
      invariant |bins| == month - 1
      invariant forall i :: 0 <= i < month - 1 ==> bins[i] == BinOf(quietDates, events, i + 1)
    {
      bins := bins + [MonthBin(month, Get(peculiarCounter, month), Get(quietCounter, month))];
      month := month + 1;
    }
  }

  // ---------------------------------------------------------------------
  // Totals over the twelve bins

  /** The event counts of months `lo` through 12. */
  function EventTotal(events: seq<Date>, lo: int): nat
    decreases 13 - lo
  {
    if lo > 12 then 0 else EventsIn(events, lo) + EventTotal(events, lo + 1)
  }

  /** The quiet-day counts of months `lo` through 12. */
  function QuietTotal(dates: set<Date>, lo: int): nat
    decreases 13 - lo
  {
    if lo > 12 then 0 else |QuietIn(dates, lo)| + QuietTotal(dates, lo + 1)
  }

  lemma {:induction false} EventTotalStep(events: seq<Date>, e: Date, lo: int)
    ensures EventTotal(events + [e], lo) == EventTotal(events, lo) + (if lo <= e.month <= 12 then 1 else 0)
    decreases 13 - lo
  {
    if lo <= 12 {
      EventsInStep(events, e, lo);
      EventTotalStep(events, e, lo + 1);
    }
  }

  lemma {:induction false} QuietTotalStep(dates: set<Date>, d: Date, lo: int)
    requires d !in dates
    ensures QuietTotal(dates + {d}, lo) == QuietTotal(dates, lo) + (if lo <= d.month <= 12 then 1 else 0)
    decreases 13 - lo
  {
    if lo <= 12 {
      QuietInAdd(dates, d);
      QuietTotalStep(dates, d, lo + 1);
    }
  }

  /**
   * Every event is counted in exactly one bin: with valid dates the twelve
   * event counts add up to the length of the list, repeated dates included.
   */
  lemma {:induction false} EventsAllBinned(events: seq<Date>)
    requires forall i :: 0 <= i < |events| ==> ValidDate(events[i])
    ensures EventTotal(events, 1) == |events|
  {
    if events == [] {
      EventTotalZero([], 1);
    } else {
      var init := events[..|events| - 1];
      var last := events[|events| - 1];
      assert events == init + [last];
      EventsAllBinned(init);
      EventTotalStep(init, last, 1);
    }
  }

  lemma {:induction false} EventTotalZero(events: seq<Date>, lo: int)
    requires events == []
    ensures EventTotal(events, lo) == 0
    decreases 13 - lo
  {
    if lo <= 12 {
      EventTotalZero(events, lo + 1);
    }
  }

  lemma {:induction false} QuietTotalZero(dates: set<Date>, lo: int)
    requires dates == {}
    ensures QuietTotal(dates, lo) == 0
    decreases 13 - lo
  {
    if lo <= 12 {
      assert QuietIn(dates, lo) == {};
      QuietTotalZero(dates, lo + 1);
    }
  }

  /**
   * Every quiet day is counted once: with valid dates the twelve quiet
   * counts add up to the number of distinct quiet dates.
   */
  lemma {:induction false} QuietAllBinned(dates: set<Date>)
    requires forall d :: d in dates ==> ValidDate(d)
    ensures QuietTotal(dates, 1) == |dates|
    decreases |dates|
  {
    if dates == {} {
      QuietTotalZero(dates, 1);
    } else {
      var d :| d in dates;
      var rest := dates - {d};
      assert dates == rest + {d};
      QuietAllBinned(rest);
      QuietTotalStep(rest, d, 1);
    }
  }
}
