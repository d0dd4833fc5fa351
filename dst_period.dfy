/**
 * Dst over a range of months: the validation of the requested range, the
 * month-by-month collection of hourly values (`get_dst_values`) and the list
 * of disturbed days (`fetch_disturbued_days`). The repository carries two
 * versions: the first takes `(year, month)` pairs for validation and reads
 * every month from day 1; the second validates dates and slices the first
 * and last month to the requested days.
 */
module DstPeriod {
  import opened Wrappers
  import opened Calendar
  import opened DstFetch

  /** `fetch_dst_data(year, month)`: the day rows of one month, or the exception it raises. */
  type MonthFetcher = (int, int) -> Result<seq<seq<int>>, string>

  /** Hourly values in one day row of a Dst table. */
  const HOURS_PER_ROW: int := 24

  // ---------------------------------------------------------------------
  // Months

  /** Months counted from year 0, so that consecutive months differ by one. */
  function MonthOf(d: Date): int {
    d.year * 12 + d.month - 1
  }

  /** `d + relativedelta(months=1)`: the same day a month later, clamped to that month's length. */
  function AddMonth(d: Date): (r: Date)
    requires ValidDate(d)
    ensures ValidDate(r)
    ensures MonthOf(r) == MonthOf(d) + 1
    ensures r.day == if d.day <= DaysInMonth(r.year, r.month) then d.day else DaysInMonth(r.year, r.month)
  {
    var y := if d.month == 12 then d.year + 1 else d.year;
    var m := if d.month == 12 then 1 else d.month + 1;
    var last := DaysInMonth(y, m);
    Date(y, m, if d.day <= last then d.day else last)
  }

  function FirstOfMonth(d: Date): (r: Date)
    requires ValidDate(d)
    ensures ValidDate(r) && MonthOf(r) == MonthOf(d) && r.day == 1
  {
    Date(d.year, d.month, 1)
  }

  /** A date of an earlier month is an earlier date; a date not after another lies in the same or an earlier month. */
  lemma MonthOrder(a: Date, b: Date)
    requires ValidDate(a) && ValidDate(b)
    ensures MonthOf(a) < MonthOf(b) ==> DateBefore(a, b)
    ensures !DateBefore(b, a) ==> MonthOf(a) <= MonthOf(b)
  {
  }

  /** Within one month, ordinals differ as the days do. */
  lemma SameMonthOrdinal(a: Date, b: Date)
    requires ValidDate(a) && ValidDate(b) && a.year == b.year && a.month == b.month
    ensures ToOrdinal(b) - ToOrdinal(a) == b.day - a.day
  {
  }

  /** The first of the next month is as many days on as the month is long. */
  lemma NextFirstOrdinal(d: Date)
    requires ValidDate(d) && d.day == 1
    ensures AddMonth(d).day == 1
    ensures ToOrdinal(AddMonth(d)) == ToOrdinal(d) + DaysInMonth(d.year, d.month)
  {
    var next := AddMonth(d);
    PrevDayOrdinal(next);
    assert PrevDay(next) == Date(d.year, d.month, DaysInMonth(d.year, d.month));
  }

  // ---------------------------------------------------------------------
  // Validation

  /** Python's `<` on `(year, month)` tuples. */
  predicate YmBefore(a: (int, int), b: (int, int)) {
    a.0 < b.0 || (a.0 == b.0 && a.1 < b.1)
  }

  /** `validate_date_period` of the `(year, month)` version; `today` is `date.today()`. */
  function ValidateYm(start: (int, int), end: (int, int), today: Date): (r: Result<(), string>)
    ensures r.Success? ==> 1 <= start.1 <= 12 && 1 <= end.1 <= 12
  {
    if start.1 < 1 || start.1 > 12 then Failure("開始年月が不正です")
    else if end.1 < 1 || end.1 > 12 then Failure("終了年月が不正です")
    else if YmBefore(end, start) then Failure("開始年月は終了年月よりも前の日付である必要があります")
    else if YmBefore(start, (1963, 1)) then Failure("1963年1月以降のデータしか取得できません")
    else if end.0 > today.year || (end.0 == today.year && end.1 > today.month) then Failure("未来のデータは取得できません")
    else Success(())
  }

  /**
   * A range of months is accepted exactly when both months are real months
   * and January 1963, the start, the end and the current month come in that
   * order.
   */
  lemma ValidateYmAccepts(start: (int, int), end: (int, int), today: Date)
    requires ValidDate(today)
    ensures ValidateYm(start, end, today).Success? <==>
      1 <= start.1 <= 12 && 1 <= end.1 <= 12 &&
      MonthOf(Date(1963, 1, 1)) <= MonthOf(Date(start.0, start.1, 1)) <= MonthOf(Date(end.0, end.1, 1)) <= MonthOf(today)
  {
  }

  /** `validate_date_period` of the date version; `today` is `date.today()`. */
  function ValidateDates(start: Date, end: Date, today: Date): (r: Result<(), string>) {
    if DateBefore(end, start) then Failure("開始年月は終了年月よりも前の日付である必要があります")
    else if DateBefore(start, Date(1963, 1, 1)) then Failure("1963年1月以降のデータしか取得できません")
    else if DateBefore(today, end) then Failure("未来のデータは取得できません")
    else Success(())
  }

  /** A range of dates is accepted exactly when 1963-01-01, the start, the end and today come in that order. */
  lemma ValidateDatesAccepts(start: Date, end: Date, today: Date)
    requires ValidDate(start) && ValidDate(end) && ValidDate(today)
    ensures ValidateDates(start, end, today).Success? <==>
      ToOrdinal(Date(1963, 1, 1)) <= ToOrdinal(start) <= ToOrdinal(end) <= ToOrdinal(today)
  {
    DateOrderIsOrdinalOrder(end, start);
    DateOrderIsOrdinalOrder(start, Date(1963, 1, 1));
    DateOrderIsOrdinalOrder(today, end);
  }

  // ---------------------------------------------------------------------
  // Shared pieces

  /** The values of `rows` one after another, as repeated `extend` builds them. */
  function Flatten(rows: seq<seq<int>>): seq<int> {
    if rows == [] then [] else Flatten(rows[..|rows| - 1]) + rows[|rows| - 1]
  }

  lemma {:induction false} FlattenWidth(rows: seq<seq<int>>, width: nat)
    requires forall i :: 0 <= i < |rows| ==> |rows[i]| == width
    ensures |Flatten(rows)| == width * |rows|
  {
    if rows != [] {
      var init := rows[..|rows| - 1];
      assert forall i :: 0 <= i < |init| ==> init[i] == rows[i];
      FlattenWidth(init, width);
      assert |Flatten(rows)| == |Flatten(init)| + |rows[|rows| - 1]|;
      assert width * |rows| == width * |init| + width;
    }
  }

  lemma FlattenStep(rows: seq<seq<int>>, k: int)
    requires 0 <= k < |rows|
    ensures Flatten(rows[..k + 1]) == Flatten(rows[..k]) + rows[k]
  {
    assert rows[..k + 1][..k] == rows[..k];
  }

  /** What a list holds after `prefix` has been built and the rest of the loop gives `r`. */
  function Prepend<T>(prefix: seq<T>, r: Result<seq<T>, string>): Result<seq<T>, string> {
    if r.Failure? then r else Success(prefix + r.value)
  }

  lemma PrependNothing<T>(r: Result<seq<T>, string>)
    ensures Prepend([], r) == r
  {
    if r.Success? {
      assert [] + r.value == r.value;
    }
  }

  lemma PrependTwice<T>(p: seq<T>, q: seq<T>, r: Result<seq<T>, string>)
    ensures Prepend(p, Prepend(q, r)) == Prepend(p + q, r)
  {
    if r.Success? {
      assert p + (q + r.value) == (p + q) + r.value;
    }
  }

  /** Every month is served with one row per day of the month. */
  ghost predicate FullMonths(fetch: MonthFetcher) {
    forall y, m :: 1 <= m <= 12 ==> fetch(y, m).Success? && |fetch(y, m).value| == DaysInMonth(y, m)
  }

  /** Every month is served in full: one row of 24 values per day of the month. */
  ghost predicate Complete(fetch: MonthFetcher) {
    FullMonths(fetch) &&
    forall y, m, i :: 1 <= m <= 12 && 0 <= i < |fetch(y, m).value| ==> |fetch(y, m).value[i]| == HOURS_PER_ROW
  }

  /** A fetcher that serves every month in full, with all values zero. */
  function Calm(): (fetch: MonthFetcher)
    ensures Complete(fetch)
  {
    (y: int, m: int) =>
      if 1 <= m <= 12 then Success(seq(DaysInMonth(y, m), _ => seq(HOURS_PER_ROW, _ => 0)))
      else Failure("month must be in 1..12")
  }

  // ---------------------------------------------------------------------
  // get_dst_values, (year, month) version

  /**
   * The days read from the month of `cur`: through `end.day` in the end's
   * month, otherwise `(cur + relativedelta(months=1, days=-1)).day`.
   */
  function DaysToRead(cur: Date, end: Date): (n: int)
    requires ValidDate(cur) && ValidDate(end)
    ensures 1 <= n <= DaysInMonth(cur.year, cur.month)
  {
    if cur.year == end.year && cur.month == end.month then end.day
    else PrevDay(AddMonth(cur)).day
  }

  /** The loop of `get_dst_values` from the cursor `cur` on: days 1 to `DaysToRead` of each month, flattened. */
  function ValuesFrom(fetch: MonthFetcher, cur: Date, end: Date): Result<seq<int>, string>
    requires ValidDate(cur) && ValidDate(end)
    decreases MonthOf(end) - MonthOf(cur) + 1
  {
    if DateBefore(end, cur) then Success([])
    else
      var n := DaysToRead(cur, end);
      var monthly :- fetch(cur.year, cur.month);
      if |monthly| < n then Failure("list index out of range")
      else
        var rest :- ValuesFrom(fetch, AddMonth(cur), end);
        Success(Flatten(monthly[..n]) + rest)
  }

  /** `get_dst_values(start_date, end_date)` of the `(year, month)` version. */
  method GetDstValues(fetch: MonthFetcher, start: Date, end: Date) returns (r: Result<seq<int>, string>)
    requires ValidDate(start) && ValidDate(end)
    ensures r == ValuesFrom(fetch, start, end)
  {
    var dst: seq<int> := [];
    var cur := start;
    PrependNothing(ValuesFrom(fetch, start, end));
    while !DateBefore(end, cur)
      invariant ValidDate(cur)
      invariant ValuesFrom(fetch, start, end) == Prepend(dst, ValuesFrom(fetch, cur, end))
      decreases MonthOf(end) - MonthOf(cur)
    {
      var n := DaysToRead(cur, end);
      ValuesFromMonth(fetch, cur, end);
      var monthly :- fetch(cur.year, cur.month);
      ghost var before := dst;
      var day := 1;
      while day <= n
        invariant 1 <= day <= n + 1
        invariant day - 1 <= |monthly|
        invariant dst == before + Flatten(monthly[..day - 1])
      {
        if day - 1 >= |monthly| {
          return Failure("list index out of range");
        }
        FlattenExtend(before, dst, monthly, day - 1);
        dst := dst + monthly[day - 1];
        day := day + 1;
      }
      PrependTwice(before, Flatten(monthly[..n]), ValuesFrom(fetch, AddMonth(cur), end));
      cur := AddMonth(cur);
    }
    assert dst + [] == dst;
    return Success(dst);
  }

  /** One month of the loop: the fetch's failure, a month too short, or its first `n` rows before the rest. */
  lemma ValuesFromMonth(fetch: MonthFetcher, cur: Date, end: Date)
    requires ValidDate(cur) && ValidDate(end) && !DateBefore(end, cur)
    ensures fetch(cur.year, cur.month).Failure? ==> ValuesFrom(fetch, cur, end) == Failure(fetch(cur.year, cur.month).error)
    ensures fetch(cur.year, cur.month).Success? && |fetch(cur.year, cur.month).value| < DaysToRead(cur, end) ==>
      ValuesFrom(fetch, cur, end) == Failure("list index out of range")
    ensures fetch(cur.year, cur.month).Success? && |fetch(cur.year, cur.month).value| >= DaysToRead(cur, end) ==>
      ValuesFrom(fetch, cur, end) ==
      Prepend(Flatten(fetch(cur.year, cur.month).value[..DaysToRead(cur, end)]), ValuesFrom(fetch, AddMonth(cur), end))
  {
  }

  lemma FlattenExtend(before: seq<int>, dst: seq<int>, rows: seq<seq<int>>, k: int)
    requires 0 <= k < |rows| && dst == before + Flatten(rows[..k])
    ensures dst + rows[k] == before + Flatten(rows[..k + 1])
  {
    FlattenStep(rows, k);
  }

  /** The number of day rows the loop reads from the cursor `cur` on. */
  function ReadCount(cur: Date, end: Date): nat
    requires ValidDate(cur) && ValidDate(end)
    decreases MonthOf(end) - MonthOf(cur) + 1
  {
    if DateBefore(end, cur) then 0 else DaysToRead(cur, end) + ReadCount(AddMonth(cur), end)
  }

  /** With every month served in full, the loop succeeds with 24 values for each day it reads. */
  lemma {:induction false} ValuesFromLength(fetch: MonthFetcher, cur: Date, end: Date)
    requires Complete(fetch) && ValidDate(cur) && ValidDate(end)
    ensures ValuesFrom(fetch, cur, end).Success?
    ensures |ValuesFrom(fetch, cur, end).value| == HOURS_PER_ROW * ReadCount(cur, end)
    decreases MonthOf(end) - MonthOf(cur) + 1
  {
    if !DateBefore(end, cur) {
      var monthly := fetch(cur.year, cur.month).value;
      var n := DaysToRead(cur, end);
      FlattenWidth(monthly[..n], HOURS_PER_ROW);
      ValuesFromLength(fetch, AddMonth(cur), end);
    }
  }

  /** From the first of a month, the loop reads every day from the cursor through `end`. */
  lemma {:induction false} ReadCountFromFirst(cur: Date, end: Date)
    requires ValidDate(cur) && ValidDate(end) && cur.day == 1 && !DateBefore(end, cur)
    ensures ReadCount(cur, end) == ToOrdinal(end) - ToOrdinal(cur) + 1
    decreases MonthOf(end) - MonthOf(cur)
  {
    if !(cur.year == end.year && cur.month == end.month) {
      var next := AddMonth(cur);
      NextFirstOrdinal(cur);
      assert PrevDay(next) == Date(cur.year, cur.month, DaysInMonth(cur.year, cur.month));
      MonthOrder(cur, end);
      ReadCountFromFirst(next, end);
    }
  }

  /**
   * As written the cursor keeps the start's day: from 2020-01-15 to
   * 2020-03-20 every month but the last is read only through day 14, and
   * 48 of the 80 days from January 1st are read.
   */
  lemma ValuesFromSkipsDays(fetch: MonthFetcher)
    requires Complete(fetch)
    ensures ValuesFrom(fetch, Date(2020, 1, 15), Date(2020, 3, 20)).Success?
    ensures |ValuesFrom(fetch, Date(2020, 1, 15), Date(2020, 3, 20)).value| == HOURS_PER_ROW * 48
    ensures ToOrdinal(Date(2020, 3, 20)) - ToOrdinal(Date(2020, 1, 1)) + 1 == 80
  {
    var end := Date(2020, 3, 20);
    ValuesFromLength(fetch, Date(2020, 1, 15), end);
    assert AddMonth(Date(2020, 1, 15)) == Date(2020, 2, 15);
    assert AddMonth(Date(2020, 2, 15)) == Date(2020, 3, 15);
    assert AddMonth(Date(2020, 3, 15)) == Date(2020, 4, 15);
    assert ReadCount(Date(2020, 4, 15), end) == 0;
    assert ReadCount(Date(2020, 3, 15), end) == 20;
    assert ReadCount(Date(2020, 2, 15), end) == 34;
    assert ReadCount(Date(2020, 1, 15), end) == 48;
  }

  /** The month cursor starts on the first of the start month, so every month is read from day 1. */
  function GetDstValuesFixed(fetch: MonthFetcher, start: Date, end: Date): Result<seq<int>, string>
    requires ValidDate(start) && ValidDate(end)
  {
    ValuesFrom(fetch, FirstOfMonth(start), end)
  }

  /** Corrected, the values cover every day from the first of the start month through `end`, 24 per day. */
  lemma GetDstValuesFixedReadsEveryDay(fetch: MonthFetcher, start: Date, end: Date)
    requires Complete(fetch) && ValidDate(start) && ValidDate(end) && !DateBefore(end, start)
    ensures GetDstValuesFixed(fetch, start, end).Success?
    ensures |GetDstValuesFixed(fetch, start, end).value| ==
      HOURS_PER_ROW * (ToOrdinal(end) - ToOrdinal(FirstOfMonth(start)) + 1)
  {
    ValuesFromLength(fetch, FirstOfMonth(start), end);
    ReadCountFromFirst(FirstOfMonth(start), end);
  }

  // ---------------------------------------------------------------------
  // get_dst_values, date version

  /** `s[lo:hi]` for `0 <= lo` and `0 <= hi`: both ends clamped to the length; empty when they cross. */
  function PySlice<T>(s: seq<T>, lo: nat, hi: nat): (r: seq<T>)
    ensures |r| == if hi <= |s| && lo <= hi then hi - lo else if hi > |s| && lo <= |s| then |s| - lo else 0
    ensures forall i :: 0 <= i < |r| ==> r[i] == s[lo + i]
  {
    var h := if hi <= |s| then hi else |s|;
    if lo >= h then [] else s[lo..h]
  }

  /** The loop of the date version from the cursor `cur` on: each month's rows from its start day through its end day. */
  function RowsFrom(fetch: MonthFetcher, start: Date, cur: Date, end: Date): Result<seq<seq<int>>, string>
    requires ValidDate(start) && ValidDate(cur) && ValidDate(end)
    decreases MonthOf(end) - MonthOf(cur) + 1
  {
    if DateBefore(end, cur) then Success([])
    else
      var monthly :- fetch(cur.year, cur.month);
      var startDay := if cur.year == start.year && cur.month == start.month then start.day else 1;
      var endDay := if cur.month == end.month && cur.year == end.year then end.day else |monthly|;
      var rest :- RowsFrom(fetch, start, AddMonth(cur), end);
      Success(PySlice(monthly, startDay - 1, endDay) + rest)
  }

  /** `get_dst_values(start_date, end_date)` of the date version. */
  function DstRows(fetch: MonthFetcher, start: Date, end: Date, today: Date): Result<seq<seq<int>>, string>
    requires ValidDate(start) && ValidDate(end)
  {
    var _ :- ValidateDates(start, end, today);
    RowsFrom(fetch, start, start, end)
  }

  method GetDstRows(fetch: MonthFetcher, start: Date, end: Date, today: Date) returns (r: Result<seq<seq<int>>, string>)
    requires ValidDate(start) && ValidDate(end)
    ensures r == DstRows(fetch, start, end, today)
  {
    var _ :- ValidateDates(start, end, today);
    var rows: seq<seq<int>> := [];
    var cur := start;
    PrependNothing(RowsFrom(fetch, start, start, end));
    while !DateBefore(end, cur)
      invariant ValidDate(cur)
      invariant RowsFrom(fetch, start, start, end) == Prepend(rows, RowsFrom(fetch, start, cur, end))
      decreases MonthOf(end) - MonthOf(cur)
    {
      var monthly :- fetch(cur.year, cur.month);
      var startDay := if cur.year == start.year && cur.month == start.month then start.day else 1;
      var endDay := if cur.month == end.month && cur.year == end.year then end.day else |monthly|;
      PrependTwice(rows, PySlice(monthly, startDay - 1, endDay), RowsFrom(fetch, start, AddMonth(cur), end));
      rows := rows + PySlice(monthly, startDay - 1, endDay);
      cur := AddMonth(cur);
    }
    assert rows + [] == rows;
    return Success(rows);
  }

  /** One month of the loop: that month's slice, then the rest of the loop. */
  lemma RowsFromStep(fetch: MonthFetcher, start: Date, cur: Date, end: Date)
    requires ValidDate(start) && ValidDate(cur) && ValidDate(end)
    requires !DateBefore(end, cur) && fetch(cur.year, cur.month).Success?
    ensures var monthly := fetch(cur.year, cur.month).value;
      var startDay := if cur.year == start.year && cur.month == start.month then start.day else 1;
      var endDay := if cur.month == end.month && cur.year == end.year then end.day else |monthly|;
      RowsFrom(fetch, start, cur, end) == Prepend(PySlice(monthly, startDay - 1, endDay), RowsFrom(fetch, start, AddMonth(cur), end))
  {
  }

  /** The number of rows the loop gives from the cursor `cur` on when every month has one row per day. */
  function RowCount(start: Date, cur: Date, end: Date): nat
    requires ValidDate(start) && ValidDate(cur) && ValidDate(end)
    decreases MonthOf(end) - MonthOf(cur) + 1
  {
    if DateBefore(end, cur) then 0
    else
      var last := DaysInMonth(cur.year, cur.month);
      var startDay := if cur.year == start.year && cur.month == start.month then start.day else 1;
      var endDay := if cur.month == end.month && cur.year == end.year then end.day else last;
      (if startDay <= endDay then endDay - startDay + 1 else 0) + RowCount(start, AddMonth(cur), end)
  }

  /** With every month served with one row per day, the loop succeeds with `RowCount` rows. */
  lemma {:induction false} RowsFromLength(fetch: MonthFetcher, start: Date, cur: Date, end: Date)
    requires FullMonths(fetch) && ValidDate(start) && ValidDate(cur) && ValidDate(end)
    ensures RowsFrom(fetch, start, cur, end).Success?
    ensures |RowsFrom(fetch, start, cur, end).value| == RowCount(start, cur, end)
    decreases MonthOf(end) - MonthOf(cur) + 1
  {
    if !DateBefore(end, cur) {
      RowsFromStep(fetch, start, cur, end);
      RowsFromLength(fetch, start, AddMonth(cur), end);
    }
  }

  /** A month after the start's month is counted from its first day through the end's day or its own last day. */
  lemma RowCountLaterMonth(start: Date, cur: Date, end: Date)
    requires ValidDate(start) && ValidDate(cur) && ValidDate(end)
    requires MonthOf(start) < MonthOf(cur) <= MonthOf(end) && cur.day == 1
    ensures RowCount(start, cur, end) ==
      (if MonthOf(cur) == MonthOf(end) then end.day else DaysInMonth(cur.year, cur.month)) + RowCount(start, AddMonth(cur), end)
  {
    MonthOrder(end, cur);
  }

  /** From the first of a month after the start's month, the loop counts every day from the cursor through `end`. */
  lemma {:induction false} RowCountAfterStart(start: Date, cur: Date, end: Date)
    requires ValidDate(start) && ValidDate(cur) && ValidDate(end)
    requires cur.day == 1 && MonthOf(start) < MonthOf(cur) <= MonthOf(end)
    ensures RowCount(start, cur, end) == ToOrdinal(end) - ToOrdinal(cur) + 1
    decreases MonthOf(end) - MonthOf(cur)
  {
    RowCountLaterMonth(start, cur, end);
    var next := AddMonth(cur);
    if MonthOf(cur) == MonthOf(end) {
      SameMonthOrdinal(cur, end);
      MonthOrder(end, next);
      assert RowCount(start, next, end) == 0;
    } else {
      NextFirstOrdinal(cur);
      RowCountAfterStart(start, next, end);
    }
  }

  /** The start's own month is counted from the start's day through the end's day or the month's last day. */
  lemma RowCountStartMonth(start: Date, end: Date)
    requires ValidDate(start) && ValidDate(end) && !DateBefore(end, start)
    ensures RowCount(start, FirstOfMonth(start), end) ==
      (if MonthOf(start) == MonthOf(end) then end.day - start.day + 1 else DaysInMonth(start.year, start.month) - start.day + 1)
      + RowCount(start, AddMonth(FirstOfMonth(start)), end)
  {
    MonthOrder(start, end);
    MonthOrder(end, FirstOfMonth(start));
  }

  /** From the first of the start's month, the loop counts every day from the start through `end`. */
  lemma RowCountFromFirst(start: Date, end: Date)
    requires ValidDate(start) && ValidDate(end) && !DateBefore(end, start)
    ensures RowCount(start, FirstOfMonth(start), end) == ToOrdinal(end) - ToOrdinal(start) + 1
  {
    var cur := FirstOfMonth(start);
    RowCountStartMonth(start, end);
    MonthOrder(start, end);
    var next := AddMonth(cur);
    if MonthOf(cur) == MonthOf(end) {
      SameMonthOrdinal(start, end);
      MonthOrder(end, next);
      assert RowCount(start, next, end) == 0;
    } else {
      SameMonthOrdinal(cur, start);
      NextFirstOrdinal(cur);
      RowCountAfterStart(start, next, end);
    }
  }

  /**
   * As written the cursor keeps the start's day: from 2020-01-15 to
   * 2020-02-10 the cursor's second value, 2020-02-15, is already past the
   * end, and 17 rows come back where the range has 27 days.
   */
  lemma RowsFromSkipsLastMonth(fetch: MonthFetcher)
    requires Complete(fetch)
    ensures RowsFrom(fetch, Date(2020, 1, 15), Date(2020, 1, 15), Date(2020, 2, 10)).Success?
    ensures |RowsFrom(fetch, Date(2020, 1, 15), Date(2020, 1, 15), Date(2020, 2, 10)).value| == 17
    ensures ToOrdinal(Date(2020, 2, 10)) - ToOrdinal(Date(2020, 1, 15)) + 1 == 27
  {
    var start := Date(2020, 1, 15);
    assert AddMonth(start) == Date(2020, 2, 15);
    RowsFromLength(fetch, start, start, Date(2020, 2, 10));
    assert RowCount(start, Date(2020, 2, 15), Date(2020, 2, 10)) == 0;
  }

  /** The month cursor starts on the first of the start month; the start month is still sliced from the start's day. */
  function DstRowsFixed(fetch: MonthFetcher, start: Date, end: Date, today: Date): Result<seq<seq<int>>, string>
    requires ValidDate(start) && ValidDate(end)
  {
    var _ :- ValidateDates(start, end, today);
    RowsFrom(fetch, start, FirstOfMonth(start), end)
  }

  /** Corrected, an accepted range gives one row for each of its days. */
  lemma DstRowsFixedReadsEveryDay(fetch: MonthFetcher, start: Date, end: Date, today: Date)
    requires Complete(fetch) && ValidDate(start) && ValidDate(end) && ValidDate(today)
    ensures DstRowsFixed(fetch, start, end, today).Success? <==>
      ToOrdinal(Date(1963, 1, 1)) <= ToOrdinal(start) <= ToOrdinal(end) <= ToOrdinal(today)
    ensures DstRowsFixed(fetch, start, end, today).Success? ==>
      |DstRowsFixed(fetch, start, end, today).value| == ToOrdinal(end) - ToOrdinal(start) + 1
  {
    ValidateDatesAccepts(start, end, today);
    if ValidateDates(start, end, today).Success? {
      MonthOrder(start, end);
      RowsFromLength(fetch, start, FirstOfMonth(start), end);
      RowCountFromFirst(start, end);
    }
  }

  // ---------------------------------------------------------------------
  // fetch_disturbued_days

  /**
   * The dates of the disturbed rows of month `(y, m)`, rows numbered from 1,
   * in order; `date()` raises for a disturbed row past the month's last day.
   */
  function DisturbedIn(y: int, m: int, rows: seq<seq<int>>): (r: Result<seq<Date>, string>)
    requires 1 <= m <= 12
    ensures r.Success? <==> forall i :: 0 <= i < |rows| && DayDisturbed(rows[i]) ==> i < DaysInMonth(y, m)
    decreases |rows|
  {
    if rows == [] then Success([])
    else
      var prior :- DisturbedIn(y, m, rows[..|rows| - 1]);
      var day := |rows|;
      if !DayDisturbed(rows[day - 1]) then Success(prior)
      else if day > DaysInMonth(y, m) then Failure("day is out of range for month")
      else Success(prior + [Date(y, m, day)])
  }

  /** The dates listed for a month are exactly the days of its disturbed rows, earliest first. */
  lemma {:induction false} DisturbedInMembers(y: int, m: int, rows: seq<seq<int>>)
    requires 1 <= m <= 12 && DisturbedIn(y, m, rows).Success?
    ensures forall d :: d in DisturbedIn(y, m, rows).value <==>
      (d.year == y && d.month == m && 1 <= d.day <= |rows| && DayDisturbed(rows[d.day - 1]))
    ensures var days := DisturbedIn(y, m, rows).value;
      forall i, j :: 0 <= i < j < |days| ==> days[i].day < days[j].day
    decreases |rows|
  {
    if rows != [] {
      var n := |rows|;
      DisturbedInMembers(y, m, rows[..n - 1]);
    }
  }

  /** The loop of `fetch_disturbued_days` from the cursor `cur` on. */
  function DisturbedFrom(fetch: MonthFetcher, cur: Date, end: Date): Result<seq<Date>, string>
    requires ValidDate(cur) && ValidDate(end)
    decreases MonthOf(end) - MonthOf(cur) + 1
  {
    if DateBefore(end, cur) then Success([])
    else
      var monthly :- fetch(cur.year, cur.month);
      var days :- DisturbedIn(cur.year, cur.month, monthly);
      var rest :- DisturbedFrom(fetch, AddMonth(cur), end);
      Success(days + rest)
  }

  /** Day `d` exists and its row in the month `fetch` serves has an hour below -50 nT. */
  ghost predicate DisturbedOn(fetch: MonthFetcher, d: Date) {
    ValidDate(d) && fetch(d.year, d.month).Success? &&
    d.day <= |fetch(d.year, d.month).value| && DayDisturbed(fetch(d.year, d.month).value[d.day - 1])
  }

  /** Every date listed is a disturbed day of a month the cursor visited. */
  lemma {:induction false} DisturbedFromSound(fetch: MonthFetcher, cur: Date, end: Date)
    requires ValidDate(cur) && ValidDate(end) && DisturbedFrom(fetch, cur, end).Success?
    ensures forall d :: d in DisturbedFrom(fetch, cur, end).value ==>
      MonthOf(cur) <= MonthOf(d) <= MonthOf(end) && DisturbedOn(fetch, d)
    decreases MonthOf(end) - MonthOf(cur) + 1
  {
    if !DateBefore(end, cur) {
      MonthOrder(cur, end);
      var monthly := fetch(cur.year, cur.month).value;
      DisturbedInMembers(cur.year, cur.month, monthly);
      DisturbedFromSound(fetch, AddMonth(cur), end);
    }
  }

  /** From the first of a month, every disturbed day of every month through the end's is listed. */
  lemma {:induction false} DisturbedFromComplete(fetch: MonthFetcher, cur: Date, end: Date)
    requires ValidDate(cur) && ValidDate(end) && cur.day == 1 && DisturbedFrom(fetch, cur, end).Success?
    ensures forall d :: MonthOf(cur) <= MonthOf(d) <= MonthOf(end) && DisturbedOn(fetch, d) ==>
      d in DisturbedFrom(fetch, cur, end).value
    decreases MonthOf(end) - MonthOf(cur) + 1
  {
    if MonthOf(cur) <= MonthOf(end) {
      assert !DateBefore(end, cur);
      var monthly := fetch(cur.year, cur.month).value;
      var next := AddMonth(cur);
      var here := DisturbedIn(cur.year, cur.month, monthly).value;
      var rest := DisturbedFrom(fetch, next, end).value;
      assert DisturbedFrom(fetch, cur, end).value == here + rest;
      DisturbedInMembers(cur.year, cur.month, monthly);
      DisturbedFromComplete(fetch, next, end);
      forall d | MonthOf(cur) <= MonthOf(d) <= MonthOf(end) && DisturbedOn(fetch, d)
        ensures d in here + rest
      {
        if MonthOf(d) == MonthOf(cur) {
          assert d.year == cur.year && d.month == cur.month;
          assert d in here;
        } else {
          assert d in rest;
        }
      }
    }
  }

  /** The dates come out in calendar order, each once. */
  lemma {:induction false} DisturbedFromOrdered(fetch: MonthFetcher, cur: Date, end: Date)
    requires ValidDate(cur) && ValidDate(end) && DisturbedFrom(fetch, cur, end).Success?
    ensures var days := DisturbedFrom(fetch, cur, end).value;
      forall i, j :: 0 <= i < j < |days| ==> DateBefore(days[i], days[j])
    decreases MonthOf(end) - MonthOf(cur) + 1
  {
    if !DateBefore(end, cur) {
      var monthly := fetch(cur.year, cur.month).value;
      var here := DisturbedIn(cur.year, cur.month, monthly).value;
      var rest := DisturbedFrom(fetch, AddMonth(cur), end).value;
      DisturbedInMembers(cur.year, cur.month, monthly);
      DisturbedFromSound(fetch, AddMonth(cur), end);
      DisturbedFromOrdered(fetch, AddMonth(cur), end);
      assert DisturbedFrom(fetch, cur, end).value == here + rest;
      ConcatOrdered(here, rest, MonthOf(cur));
    }
  }

  /** A month's dates in order, then later months' dates in order, are in order together. */
  lemma ConcatOrdered(here: seq<Date>, rest: seq<Date>, month: int)
    requires forall d :: d in here ==> ValidDate(d) && MonthOf(d) == month
    requires forall i, j :: 0 <= i < j < |here| ==> here[i].day < here[j].day
    requires forall d :: d in rest ==> ValidDate(d) && month < MonthOf(d)
    requires forall i, j :: 0 <= i < j < |rest| ==> DateBefore(rest[i], rest[j])
    ensures forall i, j :: 0 <= i < j < |here + rest| ==> DateBefore((here + rest)[i], (here + rest)[j])
  {
    var days := here + rest;
    forall i, j | 0 <= i < j < |days|
      ensures DateBefore(days[i], days[j])
    {
      if j < |here| {
        assert here[i] in here && here[j] in here;
      } else if i >= |here| {
        assert days[i] == rest[i - |here|] && days[j] == rest[j - |here|];
      } else {
        assert days[i] in here && days[j] == rest[j - |here|] && days[j] in rest;
        MonthOrder(days[i], days[j]);
      }
    }
  }

  /** `fetch_disturbued_days(start_ym, end_ym)` of the `(year, month)` version. */
  function DisturbedDays(fetch: MonthFetcher, start: (int, int), end: (int, int), today: Date): Result<seq<Date>, string> {
    var _ :- ValidateYm(start, end, today);
    DisturbedFrom(fetch, Date(start.0, start.1, 1), Date(end.0, end.1, 1))
  }

  /**
   * An accepted range lists exactly the disturbed days of the months from the
   * start's through the end's, in calendar order.
   */
  lemma DisturbedDaysExact(fetch: MonthFetcher, start: (int, int), end: (int, int), today: Date)
    requires DisturbedDays(fetch, start, end, today).Success?
    ensures ValidateYm(start, end, today).Success?
    ensures forall d :: d in DisturbedDays(fetch, start, end, today).value <==>
      (MonthOf(Date(start.0, start.1, 1)) <= MonthOf(d) <= MonthOf(Date(end.0, end.1, 1)) && DisturbedOn(fetch, d))
    ensures var days := DisturbedDays(fetch, start, end, today).value;
      forall i, j :: 0 <= i < j < |days| ==> DateBefore(days[i], days[j])
  {
    var first := Date(start.0, start.1, 1);
    var last := Date(end.0, end.1, 1);
    DisturbedFromSound(fetch, first, last);
    DisturbedFromComplete(fetch, first, last);
    DisturbedFromOrdered(fetch, first, last);
  }

  /** The month loop shared by both versions of `fetch_disturbued_days`, from the cursor `cur` on. */
  method CollectDisturbed(fetch: MonthFetcher, cur: Date, end: Date) returns (r: Result<seq<Date>, string>)
    requires ValidDate(cur) && ValidDate(end)
    ensures r == DisturbedFrom(fetch, cur, end)
  {
    var disturbance: seq<Date> := [];
    var current := cur;
    PrependNothing(DisturbedFrom(fetch, cur, end));
    while !DateBefore(end, current)
      invariant ValidDate(current)
      invariant DisturbedFrom(fetch, cur, end) == Prepend(disturbance, DisturbedFrom(fetch, current, end))
      decreases MonthOf(end) - MonthOf(current)
    {
      DisturbedFromMonth(fetch, current, end);
      var monthly :- fetch(current.year, current.month);
      ghost var before := disturbance;
      disturbance :- ScanMonth(disturbance, current.year, current.month, monthly);
      PrependTwice(before, DisturbedIn(current.year, current.month, monthly).value, DisturbedFrom(fetch, AddMonth(current), end));
      current := AddMonth(current);
    }
    assert disturbance + [] == disturbance;
    return Success(disturbance);
  }

  /** The inner loop over one month's rows, appending each disturbed day's date to `disturbance`. */
  method ScanMonth(disturbance: seq<Date>, y: int, m: int, monthly: seq<seq<int>>) returns (r: Result<seq<Date>, string>)
    requires 1 <= m <= 12
    ensures r == Prepend(disturbance, DisturbedIn(y, m, monthly))
  {
    var dates := disturbance;
    var day := 1;
    while day <= |monthly|
      invariant 1 <= day <= |monthly| + 1
      invariant DisturbedIn(y, m, monthly[..day - 1]).Success?
      invariant dates == disturbance + DisturbedIn(y, m, monthly[..day - 1]).value
    {
      DisturbedInRow(y, m, monthly, day);
      if DayDisturbed(monthly[day - 1]) {
        if day > DaysInMonth(y, m) {
          DisturbedInFailsOn(y, m, monthly, day);
          return Failure("day is out of range for month");
        }
        dates := dates + [Date(y, m, day)];
      }
      day := day + 1;
    }
    assert monthly[..|monthly|] == monthly;
    return Success(dates);
  }

  /** One month of the loop: the fetch's failure, the month's failure, or its dates before the rest. */
  lemma DisturbedFromMonth(fetch: MonthFetcher, cur: Date, end: Date)
    requires ValidDate(cur) && ValidDate(end) && !DateBefore(end, cur)
    ensures fetch(cur.year, cur.month).Failure? ==> DisturbedFrom(fetch, cur, end) == Failure(fetch(cur.year, cur.month).error)
    ensures fetch(cur.year, cur.month).Success? ==>
      var month := DisturbedIn(cur.year, cur.month, fetch(cur.year, cur.month).value);
      DisturbedFrom(fetch, cur, end) ==
      if month.Failure? then Failure(month.error) else Prepend(month.value, DisturbedFrom(fetch, AddMonth(cur), end))
  {
  }

  /** Row `day` of a month: nothing for a calm row, an error past the month's end, else its date appended. */
  lemma DisturbedInRow(y: int, m: int, rows: seq<seq<int>>, day: int)
    requires 1 <= m <= 12 && 1 <= day <= |rows|
    requires DisturbedIn(y, m, rows[..day - 1]).Success?
    ensures var prior := DisturbedIn(y, m, rows[..day - 1]).value;
      DisturbedIn(y, m, rows[..day]) ==
      if !DayDisturbed(rows[day - 1]) then Success(prior)
      else if day > DaysInMonth(y, m) then Failure("day is out of range for month")
      else Success(prior + [Date(y, m, day)])
  {
    assert rows[..day][..day - 1] == rows[..day - 1];
  }

  /** A disturbed row past the month's end makes the month, and so the loop, fail. */
  lemma DisturbedInFailsOn(y: int, m: int, rows: seq<seq<int>>, day: int)
    requires 1 <= m <= 12 && 1 <= day <= |rows| && DayDisturbed(rows[day - 1]) && day > DaysInMonth(y, m)
    requires DisturbedIn(y, m, rows[..day - 1]).Success?
    ensures DisturbedIn(y, m, rows) == Failure("day is out of range for month")
  {
    DisturbedInRow(y, m, rows, day);
    DisturbedInFailurePersists(y, m, rows, day);
  }

  lemma {:induction false} DisturbedInFailurePersists(y: int, m: int, rows: seq<seq<int>>, k: int)
    requires 1 <= m <= 12 && 1 <= k <= |rows|
    requires DisturbedIn(y, m, rows[..k]) == Failure("day is out of range for month")
    ensures DisturbedIn(y, m, rows) == Failure("day is out of range for month")
    decreases |rows| - k
  {
    if k < |rows| {
      assert rows[..k + 1][..k] == rows[..k];
      DisturbedInFailurePersists(y, m, rows, k + 1);
    } else {
      assert rows[..k] == rows;
    }
  }

  method FetchDisturbedDays(fetch: MonthFetcher, start: (int, int), end: (int, int), today: Date) returns (r: Result<seq<Date>, string>)
    ensures r == DisturbedDays(fetch, start, end, today)
  {
    var _ :- ValidateYm(start, end, today);
    r := CollectDisturbed(fetch, Date(start.0, start.1, 1), Date(end.0, end.1, 1));
  }

  /** `fetch_disturbued_days(start_date, end_date)` of the date version: the cursor starts on the start date. */
  function DisturbedDaysByDate(fetch: MonthFetcher, start: Date, end: Date, today: Date): Result<seq<Date>, string>
    requires ValidDate(start) && ValidDate(end)
  {
    var _ :- ValidateDates(start, end, today);
    DisturbedFrom(fetch, start, end)
  }

  method FetchDisturbedDaysByDate(fetch: MonthFetcher, start: Date, end: Date, today: Date) returns (r: Result<seq<Date>, string>)
    requires ValidDate(start) && ValidDate(end)
    ensures r == DisturbedDaysByDate(fetch, start, end, today)
  {
    var _ :- ValidateDates(start, end, today);
    r := CollectDisturbed(fetch, start, end);
  }

  /** Every hour of every day is below -50 nT. */
  function Stormy(): (fetch: MonthFetcher)
    ensures Complete(fetch)
  {
    (y: int, m: int) =>
      if 1 <= m <= 12 then Success(seq(DaysInMonth(y, m), _ => seq(HOURS_PER_ROW, _ => -100)))
      else Failure("month must be in 1..12")
  }

  /**
   * As written the cursor keeps the start's day: from 2020-01-15 to
   * 2020-02-10, with every day disturbed, no day of February is listed.
   */
  lemma DisturbedDaysByDateSkipsLastMonth()
    ensures DisturbedDaysByDate(Stormy(), Date(2020, 1, 15), Date(2020, 2, 10), Date(2024, 1, 1)).Success?
    ensures DisturbedOn(Stormy(), Date(2020, 2, 1))
    ensures Date(2020, 2, 1) !in DisturbedDaysByDate(Stormy(), Date(2020, 1, 15), Date(2020, 2, 10), Date(2024, 1, 1)).value
  {
    var fetch := Stormy();
    var start := Date(2020, 1, 15);
    var end := Date(2020, 2, 10);
    assert ValidateDates(start, end, Date(2024, 1, 1)).Success?;
    assert AddMonth(start) == Date(2020, 2, 15);
    var jan := fetch(2020, 1).value;
    assert DisturbedIn(2020, 1, jan).Success?;
    assert DisturbedFrom(fetch, Date(2020, 2, 15), end) == Success([]);
    DisturbedInMembers(2020, 1, jan);
    assert DisturbedFrom(fetch, start, end).value == DisturbedIn(2020, 1, jan).value + [];
    assert DayDisturbed(fetch(2020, 2).value[0]) by {
      assert !IsDstQuiet(fetch(2020, 2).value[0][0]);
    }
  }

  /** The month cursor starts on the first of the start's month. */
  function DisturbedDaysByDateFixed(fetch: MonthFetcher, start: Date, end: Date, today: Date): Result<seq<Date>, string>
    requires ValidDate(start) && ValidDate(end)
  {
    var _ :- ValidateDates(start, end, today);
    DisturbedFrom(fetch, FirstOfMonth(start), end)
  }

  /**
   * Corrected, an accepted range lists exactly the disturbed days of the
   * months from the start's through the end's, in calendar order.
   */
  lemma DisturbedDaysByDateFixedExact(fetch: MonthFetcher, start: Date, end: Date, today: Date)
    requires ValidDate(start) && ValidDate(end)
    requires DisturbedDaysByDateFixed(fetch, start, end, today).Success?
    ensures ValidateDates(start, end, today).Success?
    ensures forall d :: d in DisturbedDaysByDateFixed(fetch, start, end, today).value <==>
      (MonthOf(start) <= MonthOf(d) <= MonthOf(end) && DisturbedOn(fetch, d))
    ensures var days := DisturbedDaysByDateFixed(fetch, start, end, today).value;
      forall i, j :: 0 <= i < j < |days| ==> DateBefore(days[i], days[j])
  {
    DisturbedFromSound(fetch, FirstOfMonth(start), end);
    DisturbedFromComplete(fetch, FirstOfMonth(start), end);
    DisturbedFromOrdered(fetch, FirstOfMonth(start), end);
  }
}
