/**
 * The IAGA-2002 export of the EE-index: one record per minute from the
 * start day's midnight on, each with its date, time, day of the year and the
 * four index values, and the text that lists the metadata, a column heading
 * and one line per record.
 */
module BuildIaga {
  import opened Wrappers
  import opened Samples
  import opened Calendar
  import opened TimeRelation
  import opened TextFormat
  import opened TextLines

  /** `EeIndexIagaRecord` */
  datatype IagaRecord = IagaRecord(date: string, time: string, doy: int,
                                   edst1h: Sample, edst6h: Sample, er: Sample, euel: Sample)

  // ---------------------------------------------------------------------
  // Dates and times as text

  /** `base_date.strftime("%Y-%m-%d")` */
  function DateText(d: Date): string {
    FormatInt(d.year, 4) + "-" + FormatInt(d.month, 2) + "-" + FormatInt(d.day, 2)
  }

  /** `f"{hour:02d}:{minute:02d}:00.000"` for minute `m` of the day. */
  function TimeText(m: int): string {
    FormatInt(m / 60, 2) + ":" + FormatInt(m % 60, 2) + ":00.000"
  }

  /** `timetuple().tm_yday`: the day's number within its year, from 1. */
  function DayOfYear(d: Date): (n: int)
    requires ValidDate(d)
    ensures 1 <= n <= DaysInYear(d.year)
    ensures n == ToOrdinal(d) - DaysBeforeYear(d.year)
  {
    OrdinalWithinYear(d);
    DaysBeforeMonth(d.year, d.month) + d.day
  }

  /** A number below `10^width` fills exactly `width` digits. */
  lemma FillExactly(n: nat, width: nat)
    requires 1 <= width && n < Pow10(width)
    ensures |ZeroFill(n, width)| == width && DecimalValue(ZeroFill(n, width)) == n
  {
    DecimalLength(n, width);
    ZeroFillValue(n, width);
  }

  /** The time of minute `m` is twelve characters whose hour and minute fields read back as `m`. */
  lemma TimeTextFields(m: int)
    requires 0 <= m < MIN_ONE_DAY
    ensures var t := TimeText(m);
      |t| == 12 && t[2] == ':' && t[5..] == ":00.000" &&
      AllDigits(t[..2]) && AllDigits(t[3..5]) &&
      DecimalValue(t[..2]) == m / 60 && DecimalValue(t[3..5]) == m % 60 &&
      60 * DecimalValue(t[..2]) + DecimalValue(t[3..5]) == m
  {
    FillExactly(m / 60, 2);
    FillExactly(m % 60, 2);
    var hh, mm := ZeroFill(m / 60, 2), ZeroFill(m % 60, 2);
    var t := TimeText(m);
    assert t == hh + ":" + mm + ":00.000";
    assert t[..2] == hh && t[3..5] == mm;
  }

  /** For the years 0 through 9999 a date is ten characters whose fields read back as the date. */
  lemma DateTextFields(d: Date)
    requires ValidDate(d) && 0 <= d.year <= 9999
    ensures var t := DateText(d);
      |t| == 10 && t[4] == '-' && t[7] == '-' &&
      AllDigits(t[..4]) && AllDigits(t[5..7]) && AllDigits(t[8..]) &&
      DecimalValue(t[..4]) == d.year && DecimalValue(t[5..7]) == d.month && DecimalValue(t[8..]) == d.day
  {
    FillExactly(d.year, 4);
    FillExactly(d.month, 2);
    FillExactly(d.day, 2);
    var yy, mo, dd := ZeroFill(d.year, 4), ZeroFill(d.month, 2), ZeroFill(d.day, 2);
    var t := DateText(d);
    assert t == yy + "-" + mo + "-" + dd;
    assert t[..4] == yy && t[5..7] == mo && t[8..] == dd;
  }

  // ---------------------------------------------------------------------
  // Records

  /** `(end_ut - start_ut).days + 1`: the whole days between the instants, rounded down, plus one. */
  function DayCount(start: DateTime, end: DateTime): int
    requires Valid(start) && Valid(end)
  {
    (Instant(end) - Instant(start)) / DAY + 1
  }

  /** The number of records: a full day of minutes for each day, none when the count is not positive. */
  function RecordTotal(start: DateTime, end: DateTime): nat
    requires Valid(start) && Valid(end)
  {
    var days := DayCount(start, end);
    if days > 0 then days * MIN_ONE_DAY else 0
  }

  /** The record of minute `k` counted from the start day's midnight. */
  function RecordAt(start: Date, k: nat, edst1h: seq<Sample>, edst6h: seq<Sample>, er: seq<Sample>, euel: seq<Sample>): IagaRecord
    requires ValidDate(start)
    requires k < |edst1h| && k < |edst6h| && k < |er| && k < |euel|
  {
    var base := AddDays(start, k / MIN_ONE_DAY);
    IagaRecord(DateText(base), TimeText(k % MIN_ONE_DAY), DayOfYear(base), edst1h[k], edst6h[k], er[k], euel[k])
  }

  /** `build_iaga_records`; a value list too short for the records raises `IndexError`. */
  function IagaRecords(start: DateTime, end: DateTime, edst1h: seq<Sample>, edst6h: seq<Sample>,
                       er: seq<Sample>, euel: seq<Sample>): (r: Result<seq<IagaRecord>, string>)
    requires Valid(start) && Valid(end)
    ensures r.Success? <==> RecordTotal(start, end) <= |edst1h| && RecordTotal(start, end) <= |edst6h| &&
                            RecordTotal(start, end) <= |er| && RecordTotal(start, end) <= |euel|
    ensures r.Success? ==> |r.value| == RecordTotal(start, end)
  {
    RecordsOf(start.date, RecordTotal(start, end), edst1h, edst6h, er, euel)
  }

  /** The first `total` minute records from the start date, or the error when a list is too short. */
  function RecordsOf(start: Date, total: nat, edst1h: seq<Sample>, edst6h: seq<Sample>,
                     er: seq<Sample>, euel: seq<Sample>): (r: Result<seq<IagaRecord>, string>)
    requires ValidDate(start)
    ensures r.Success? <==> total <= |edst1h| && total <= |edst6h| && total <= |er| && total <= |euel|
    ensures r.Success? ==> |r.value| == total
  {
    if |edst1h| < total || |edst6h| < total || |er| < total || |euel| < total then Failure("list index out of range")
    else Success(seq(total, k requires 0 <= k < total => RecordAt(start, k, edst1h, edst6h, er, euel)))
  }

  lemma MinuteSplit(day: int, m: int)
    requires 0 <= day && 0 <= m < MIN_ONE_DAY
    ensures (day * MIN_ONE_DAY + m) / MIN_ONE_DAY == day && (day * MIN_ONE_DAY + m) % MIN_ONE_DAY == m
  {
  }

  /** The record at minute `m` of day `day` carries that day's date and that minute's time. */
  lemma RecordAtMinute(start: Date, day: nat, m: nat, k: nat, edst1h: seq<Sample>, edst6h: seq<Sample>, er: seq<Sample>, euel: seq<Sample>)
    requires ValidDate(start) && m < MIN_ONE_DAY && k == day * MIN_ONE_DAY + m
    requires k < |edst1h| && k < |edst6h| && k < |er| && k < |euel|
    ensures RecordAt(start, k, edst1h, edst6h, er, euel) ==
      IagaRecord(DateText(AddDays(start, day)), TimeText(m), DayOfYear(AddDays(start, day)), edst1h[k], edst6h[k], er[k], euel[k])
  {
    MinuteSplit(day, m);
    var q, r := k / MIN_ONE_DAY, k % MIN_ONE_DAY;
    assert q == day && r == m;
  }

  lemma MinuteBelowTotal(day: int, days: int, m: int)
    requires 0 <= day < days && 0 <= m < MIN_ONE_DAY
    ensures day * MIN_ONE_DAY + m < days * MIN_ONE_DAY
  {
  }

  /** `build_iaga_records`: a day loop around a minute loop, with a running index into the value lists. */
  method BuildIagaRecords(start: DateTime, end: DateTime, edst1h: seq<Sample>, edst6h: seq<Sample>,
                          er: seq<Sample>, euel: seq<Sample>) returns (r: Result<seq<IagaRecord>, string>)
    requires Valid(start) && Valid(end)
    ensures r == IagaRecords(start, end, edst1h, edst6h, er, euel)
  {
    var minutes := MIN_ONE_DAY;
    var days := DayCount(start, end);
    ghost var total := RecordTotal(start, end);
    assert total == if days > 0 then days * MIN_ONE_DAY else 0;
    var records: seq<IagaRecord> := [];
    var idx := 0;
    var day := 0;
    while day < days
      invariant day == 0 || 0 < day <= days
      invariant idx == day * MIN_ONE_DAY
      invariant idx <= |edst1h| && idx <= |edst6h| && idx <= |er| && idx <= |euel|
      invariant |records| == idx
      invariant forall k :: 0 <= k < idx ==> records[k] == RecordAt(start.date, k, edst1h, edst6h, er, euel)
    {
      var baseDate := AddDays(start.date, day);
      var doy := DayOfYear(baseDate);
      var m := 0;
      while m < minutes
        invariant 0 <= m <= MIN_ONE_DAY
        invariant idx == day * MIN_ONE_DAY + m
        invariant idx <= |edst1h| && idx <= |edst6h| && idx <= |er| && idx <= |euel|
        invariant |records| == idx
        invariant forall k :: 0 <= k < idx ==> records[k] == RecordAt(start.date, k, edst1h, edst6h, er, euel)
      {
        var hour := m / 60;
        var minute := m % 60;
        var timeStr := FormatInt(hour, 2) + ":" + FormatInt(minute, 2) + ":00.000";
        var dateStr := DateText(baseDate);
        if idx >= |edst1h| || idx >= |edst6h| || idx >= |er| || idx >= |euel| {
          MinuteBelowTotal(day, days, m);
          RecordsFail(start.date, total, edst1h, edst6h, er, euel, idx);
          return Failure("list index out of range");
        }
        var rec := IagaRecord(dateStr, timeStr, doy, edst1h[idx], edst6h[idx], er[idx], euel[idx]);
        assert timeStr == TimeText(m);
        RecordAtMinute(start.date, day, m, idx, edst1h, edst6h, er, euel);
        RecordsExtend(start.date, edst1h, edst6h, er, euel, records, rec);
        records := records + [rec];
        idx := idx + 1;
        m := m + 1;
      }
      day := day + 1;
    }
    assert idx == total by {
      if days > 0 {
        assert day == days;
      } else {
        assert day == 0;
      }
    }
    RecordsMatch(start.date, total, edst1h, edst6h, er, euel, records);
    return Success(records);
  }

  lemma RecordsExtend(start: Date, edst1h: seq<Sample>, edst6h: seq<Sample>, er: seq<Sample>, euel: seq<Sample>,
                      records: seq<IagaRecord>, rec: IagaRecord)
    requires ValidDate(start)
    requires |records| < |edst1h| && |records| < |edst6h| && |records| < |er| && |records| < |euel|
    requires forall k :: 0 <= k < |records| ==> records[k] == RecordAt(start, k, edst1h, edst6h, er, euel)
    requires rec == RecordAt(start, |records|, edst1h, edst6h, er, euel)
    ensures forall k :: 0 <= k < |records| + 1 ==> (records + [rec])[k] == RecordAt(start, k, edst1h, edst6h, er, euel)
  {
  }

  /** An index below the total that some list does not reach makes the whole call fail. */
  lemma RecordsFail(start: Date, total: nat, edst1h: seq<Sample>, edst6h: seq<Sample>,
                    er: seq<Sample>, euel: seq<Sample>, idx: int)
    requires ValidDate(start)
    requires 0 <= idx < total
    requires idx >= |edst1h| || idx >= |edst6h| || idx >= |er| || idx >= |euel|
    ensures RecordsOf(start, total, edst1h, edst6h, er, euel) == Failure("list index out of range")
  {
  }

  /** Records built one by one for every index below the total are the records of the call. */
  lemma RecordsMatch(start: Date, total: nat, edst1h: seq<Sample>, edst6h: seq<Sample>,
                     er: seq<Sample>, euel: seq<Sample>, records: seq<IagaRecord>)
    requires ValidDate(start)
    requires |records| == total
    requires total <= |edst1h| && total <= |edst6h| && total <= |er| && total <= |euel|
    requires forall k :: 0 <= k < total ==> records[k] == RecordAt(start, k, edst1h, edst6h, er, euel)
    ensures RecordsOf(start, total, edst1h, edst6h, er, euel) == Success(records)
  {
    var all := seq(total, k requires 0 <= k < total => RecordAt(start, k, edst1h, edst6h, er, euel));
    assert all == records;
  }

  /**
   * Record `k` belongs to day `k / 1440` after the start's date: its date
   * and day of the year are that day's, and its time reads back as minute
   * `k % 1440`; its values are the `k`-th of each list.
   */
  lemma RecordsByMinute(start: DateTime, end: DateTime, edst1h: seq<Sample>, edst6h: seq<Sample>,
                        er: seq<Sample>, euel: seq<Sample>, recs: seq<IagaRecord>, k: int)
    requires Valid(start) && Valid(end)
    requires IagaRecords(start, end, edst1h, edst6h, er, euel) == Success(recs) && 0 <= k < |recs|
    ensures exists d :: (ValidDate(d) && ToOrdinal(d) == ToOrdinal(start.date) + k / MIN_ONE_DAY &&
                         recs[k].date == DateText(d) && recs[k].doy == DayOfYear(d))
    ensures |recs[k].time| == 12 && AllDigits(recs[k].time[..2]) && AllDigits(recs[k].time[3..5])
    ensures 60 * DecimalValue(recs[k].time[..2]) + DecimalValue(recs[k].time[3..5]) == k % MIN_ONE_DAY
    ensures recs[k].edst1h == edst1h[k] && recs[k].edst6h == edst6h[k] && recs[k].er == er[k] && recs[k].euel == euel[k]
  {
    var base := AddDays(start.date, k / MIN_ONE_DAY);
    AddDaysOrdinal(start.date, k / MIN_ONE_DAY);
    TimeTextFields(k % MIN_ONE_DAY);
  }

  /** All the records of one day carry that day's date and day of the year. */
  lemma RecordsShareDay(start: DateTime, end: DateTime, edst1h: seq<Sample>, edst6h: seq<Sample>,
                        er: seq<Sample>, euel: seq<Sample>, recs: seq<IagaRecord>, j: int, k: int)
    requires Valid(start) && Valid(end)
    requires IagaRecords(start, end, edst1h, edst6h, er, euel) == Success(recs)
    requires 0 <= j < |recs| && 0 <= k < |recs| && j / MIN_ONE_DAY == k / MIN_ONE_DAY
    ensures recs[j].date == recs[k].date && recs[j].doy == recs[k].doy
  {
  }

  // ---------------------------------------------------------------------
  // Content

  /** `f"{s:<width}"`: `s` followed by spaces up to `width` characters. */
  function PadRight(s: string, width: nat): (r: string)
    ensures |r| == if |s| < width then width else |s|
    ensures r[..|s|] == s
    ensures forall i :: |s| <= i < |r| ==> r[i] == ' '
  {
    if |s| < width then s + seq(width - |s|, _ => ' ') else s
  }

  /** `f"{k:<25} {v:<40}"`, the metadata value already written as text. */
  function MetaLine(key: string, value: string): string {
    PadRight(key, 25) + " " + PadRight(value, 40)
  }

  /** The column heading. */
  function Header(): string {
    PadRight("DATE", 11) + PadRight("TIME", 13) + PadRight("DOY", 7) +
    PadRight("EDst1h", 10) + PadRight("EDst6h", 10) + PadRight("ER", 10) + PadRight("EUEL", 10)
  }

  /** `f"{x:.2f}"` of a float, NaN included. */
  type Fixed2 = Sample -> string

  /** One record's line: date, time, the day of the year zero-filled to three, then the four values. */
  function RecordLine(r: IagaRecord, fixed2: Fixed2): string {
    PadRight(r.date, 11) + PadRight(r.time, 13) + PadRight(FormatInt(r.doy, 3), 7) +
    PadRight(fixed2(r.edst1h), 10) + PadRight(fixed2(r.edst6h), 10) + PadRight(fixed2(r.er), 10) + PadRight(fixed2(r.euel), 10)
  }

  /** The lines of the file: one per metadata entry, the heading, one per record. */
  function ContentLines(meta: seq<(string, string)>, records: seq<IagaRecord>, fixed2: Fixed2): (lines: seq<string>)
    ensures |lines| == |meta| + 1 + |records|
  {
    var n := |meta| + 1 + |records|;
    seq(n, i requires 0 <= i < n => ContentLine(meta, records, fixed2, i))
  }

  /** Line `i` of the file. */
  function ContentLine(meta: seq<(string, string)>, records: seq<IagaRecord>, fixed2: Fixed2, i: int): string
    requires 0 <= i < |meta| + 1 + |records|
  {
    if i < |meta| then MetaLine(meta[i].0, meta[i].1)
    else if i == |meta| then Header()
    else RecordLine(records[i - |meta| - 1], fixed2)
  }

  /** `build_iaga_content`, before the UTF-8 encoding: every line followed by `"\n"`. */
  function IagaContent(meta: seq<(string, string)>, records: seq<IagaRecord>, fixed2: Fixed2): string {
    Text(ContentLines(meta, records, fixed2))
  }

  /** Which line of the file line `i` is. */
  lemma ContentLineAt(meta: seq<(string, string)>, records: seq<IagaRecord>, fixed2: Fixed2, i: int)
    requires 0 <= i < |meta| + 1 + |records|
    ensures var line := ContentLines(meta, records, fixed2)[i];
      if i < |meta| then line == MetaLine(meta[i].0, meta[i].1)
      else if i == |meta| then line == Header()
      else line == RecordLine(records[i - |meta| - 1], fixed2)
  {
  }

  /** `build_iaga_content`: the lines written one by one into a buffer. */
  method BuildIagaContent(meta: seq<(string, string)>, records: seq<IagaRecord>, fixed2: Fixed2) returns (content: string)
    ensures content == IagaContent(meta, records, fixed2)
  {
    ghost var lines := ContentLines(meta, records, fixed2);
    var buf := "";
    for i := 0 to |meta|
      invariant buf == Text(lines[..i])
    {
      ContentLineAt(meta, records, fixed2, i);
      WriteLine(lines, i);
      buf := buf + MetaLine(meta[i].0, meta[i].1) + "\n";
    }
    ContentLineAt(meta, records, fixed2, |meta|);
    WriteLine(lines, |meta|);
    buf := buf + Header() + "\n";
    for i := 0 to |records|
      invariant buf == Text(lines[..|meta| + 1 + i])
    {
      ContentLineAt(meta, records, fixed2, |meta| + 1 + i);
      WriteLine(lines, |meta| + 1 + i);
      buf := buf + RecordLine(records[i], fixed2) + "\n";
    }
    assert lines[..|lines|] == lines;
    content := buf;
  }

  lemma WriteLine(lines: seq<string>, i: int)
    requires 0 <= i < |lines|
    ensures Text(lines[..i + 1]) == Text(lines[..i]) + lines[i] + "\n"
  {
    TextAppend(lines[..i], lines[i]);
    assert lines[..i + 1] == lines[..i] + [lines[i]];
  }

  lemma PadRightNoBreaks(s: string, width: nat)
    requires NoBreaks(s)
    ensures NoBreaks(PadRight(s, width))
  {
    var r := PadRight(s, width);
    forall i | 0 <= i < |r|
      ensures !IsLineBreak(r[i])
    {
      if i < |s| {
        assert r[i] == r[..|s|][i];
      }
    }
  }

  lemma FormatIntNoBreaks(n: int, width: nat)
    ensures NoBreaks(FormatInt(n, width))
  {
    FormatIntValue(n, width);
    var s := FormatInt(n, width);
    if n < 0 {
      forall i | 1 <= i < |s|
        ensures !IsLineBreak(s[i])
      {
        assert s[i] == s[1..][i - 1];
      }
    }
  }

  lemma RecordLineNoBreaks(r: IagaRecord, fixed2: Fixed2)
    requires NoBreaks(r.date) && NoBreaks(r.time)
    requires NoBreaks(fixed2(r.edst1h)) && NoBreaks(fixed2(r.edst6h)) && NoBreaks(fixed2(r.er)) && NoBreaks(fixed2(r.euel))
    ensures NoBreaks(RecordLine(r, fixed2))
  {
    FormatIntNoBreaks(r.doy, 3);
    PadRightNoBreaks(r.date, 11);
    PadRightNoBreaks(r.time, 13);
    PadRightNoBreaks(FormatInt(r.doy, 3), 7);
    PadRightNoBreaks(fixed2(r.edst1h), 10);
    PadRightNoBreaks(fixed2(r.edst6h), 10);
    PadRightNoBreaks(fixed2(r.er), 10);
    PadRightNoBreaks(fixed2(r.euel), 10);
    var a := PadRight(r.date, 11) + PadRight(r.time, 13);
    NoBreaksConcat(PadRight(r.date, 11), PadRight(r.time, 13));
    NoBreaksConcat(a, PadRight(FormatInt(r.doy, 3), 7));
    var b := a + PadRight(FormatInt(r.doy, 3), 7);
    NoBreaksConcat(b, PadRight(fixed2(r.edst1h), 10));
    var c := b + PadRight(fixed2(r.edst1h), 10);
    NoBreaksConcat(c, PadRight(fixed2(r.edst6h), 10));
    var e := c + PadRight(fixed2(r.edst6h), 10);
    NoBreaksConcat(e, PadRight(fixed2(r.er), 10));
    var f := e + PadRight(fixed2(r.er), 10);
    NoBreaksConcat(f, PadRight(fixed2(r.euel), 10));
  }

  lemma MetaLineNoBreaks(key: string, value: string)
    requires NoBreaks(key) && NoBreaks(value)
    ensures NoBreaks(MetaLine(key, value))
  {
    PadRightNoBreaks(key, 25);
    PadRightNoBreaks(value, 40);
    NoBreaksConcat(PadRight(key, 25), " ");
    NoBreaksConcat(PadRight(key, 25) + " ", PadRight(value, 40));
  }

  lemma HeaderNoBreaks()
    ensures NoBreaks(Header())
  {
    var cells := [PadRight("DATE", 11), PadRight("TIME", 13), PadRight("DOY", 7),
                  PadRight("EDst1h", 10), PadRight("EDst6h", 10), PadRight("ER", 10), PadRight("EUEL", 10)];
    PadRightNoBreaks("DATE", 11);
    PadRightNoBreaks("TIME", 13);
    PadRightNoBreaks("DOY", 7);
    PadRightNoBreaks("EDst1h", 10);
    PadRightNoBreaks("EDst6h", 10);
    PadRightNoBreaks("ER", 10);
    PadRightNoBreaks("EUEL", 10);
    NoBreaksConcat(cells[0], cells[1]);
    NoBreaksConcat(cells[0] + cells[1], cells[2]);
    NoBreaksConcat(cells[0] + cells[1] + cells[2], cells[3]);
    NoBreaksConcat(cells[0] + cells[1] + cells[2] + cells[3], cells[4]);
    NoBreaksConcat(cells[0] + cells[1] + cells[2] + cells[3] + cells[4], cells[5]);
    NoBreaksConcat(cells[0] + cells[1] + cells[2] + cells[3] + cells[4] + cells[5], cells[6]);
  }

  /** The lines of a file: the metadata lines, the heading, and one line per record in the records' order. */
  predicate LaidOut(lines: seq<string>, meta: seq<(string, string)>, records: seq<IagaRecord>, fixed2: Fixed2) {
    |lines| == |meta| + 1 + |records| &&
    (forall i :: 0 <= i < |meta| ==> lines[i] == MetaLine(meta[i].0, meta[i].1)) &&
    lines[|meta|] == Header() &&
    (forall i :: 0 <= i < |records| ==> lines[|meta| + 1 + i] == RecordLine(records[i], fixed2))
  }

  lemma ContentLinesLaidOut(meta: seq<(string, string)>, records: seq<IagaRecord>, fixed2: Fixed2)
    ensures LaidOut(ContentLines(meta, records, fixed2), meta, records, fixed2)
  {
    var lines := ContentLines(meta, records, fixed2);
    assert forall i :: 0 <= i < |lines| ==> lines[i] == ContentLine(meta, records, fixed2, i);
  }

  /**
   * When no metadata text and no value text holds a line boundary, the file
   * reads back line by line as the metadata lines, the heading, and one line
   * per record in the records' order.
   */
  lemma IagaContentLines(meta: seq<(string, string)>, records: seq<IagaRecord>, fixed2: Fixed2)
    requires forall i :: 0 <= i < |meta| ==> NoBreaks(meta[i].0) && NoBreaks(meta[i].1)
    requires forall i :: 0 <= i < |records| ==> NoBreaks(records[i].date) && NoBreaks(records[i].time)
    requires forall x :: NoBreaks(fixed2(x))
    ensures LaidOut(SplitLines(IagaContent(meta, records, fixed2)), meta, records, fixed2)
  {
    var lines := ContentLines(meta, records, fixed2);
    ContentLinesNoBreaks(meta, records, fixed2);
    SplitText(lines);
    ContentLinesLaidOut(meta, records, fixed2);
  }

  lemma ContentLinesNoBreaks(meta: seq<(string, string)>, records: seq<IagaRecord>, fixed2: Fixed2)
    requires forall i :: 0 <= i < |meta| ==> NoBreaks(meta[i].0) && NoBreaks(meta[i].1)
    requires forall i :: 0 <= i < |records| ==> NoBreaks(records[i].date) && NoBreaks(records[i].time)
    requires forall x :: NoBreaks(fixed2(x))
    ensures forall i :: 0 <= i < |meta| + 1 + |records| ==> NoBreaks(ContentLines(meta, records, fixed2)[i])
  {
    var lines := ContentLines(meta, records, fixed2);
    forall i | 0 <= i < |lines|
      ensures NoBreaks(lines[i])
    {
      ContentLineAt(meta, records, fixed2, i);
      if i < |meta| {
        MetaLineNoBreaks(meta[i].0, meta[i].1);
      } else if i == |meta| {
        HeaderNoBreaks();
      } else {
        RecordLineNoBreaks(records[i - |meta| - 1], fixed2);
      }
    }
  }

  lemma CellSlices(a: string, b: string, c: string, rest: string)
    ensures var s := a + b + c + rest;
      s[..|a|] == a && s[|a|..|a| + |b|] == b && s[|a| + |b|..|a| + |b| + |c|] == c
  {
    var s := a + b + c + rest;
    assert s == a + (b + (c + rest));
  }

  /** The first cells of a line of seven are still its first cells with the last four taken as one. */
  lemma SevenCells(a: string, b: string, c: string, e: string, f: string, g: string, h: string)
    ensures a + b + c + e + f + g + h == a + b + c + (e + f + g + h)
  {
    var abc := a + b + c;
    assert abc + e + f + g + h == abc + (e + f + g + h);
  }

  /**
   * A record line puts its fields in fixed columns: the date in 0..9, the
   * time in 11..22 and the day of the year in 24..26, with spaces between.
   */
  lemma RecordLineColumns(r: IagaRecord, fixed2: Fixed2)
    requires |r.date| == 10 && |r.time| == 12 && 0 <= r.doy <= 999
    ensures var line := RecordLine(r, fixed2);
      |line| >= 31 && line[..10] == r.date && line[10] == ' ' && line[11..23] == r.time && line[23] == ' ' &&
      line[24..27] == ZeroFill(r.doy, 3) && line[27..31] == "    "
  {
    FillExactly(r.doy, 3);
    var d, t, y := PadRight(r.date, 11), PadRight(r.time, 13), PadRight(FormatInt(r.doy, 3), 7);
    var line := RecordLine(r, fixed2);
    var e, f, g, h := PadRight(fixed2(r.edst1h), 10), PadRight(fixed2(r.edst6h), 10), PadRight(fixed2(r.er), 10), PadRight(fixed2(r.euel), 10);
    SevenCells(d, t, y, e, f, g, h);
    CellSlices(d, t, y, e + f + g + h);
    assert d[..10] == r.date && t[..12] == r.time && y[..3] == ZeroFill(r.doy, 3);
  }
}
