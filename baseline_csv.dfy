/**
 * The baseline CSV file of `ErBaseline`: how `save_baseline_values` lays the
 * dictionary out as rows and `load_baseline_values` reads it back.
 */
module BaselineCsv {
  import opened Wrappers
  import opened Samples
  import opened Lexicographic

  /** The loaded form: date string to station code to baseline. */
  type Values = map<string, map<string, Sample>>

  /** `repr` of a float as the CSV writer prints it, and `float()` of a cell. */
  datatype FloatText = FloatText(show: Sample -> string, parse: string -> Option<Sample>)

  /** Python prints floats, `nan` included, so that `float` reads them back, and never as an empty cell. */
  ghost predicate ValidFloatText(ft: FloatText) {
    forall x: Sample :: ft.parse(ft.show(x)) == Some(x) && ft.show(x) != ""
  }

  /** The CSV file as rows of cells, the header first. */
  type Table = seq<seq<string>>

  /** Every station code that has a value on some date. */
  function Stations(values: Values): set<string> {
    StationsOf(values, values.Keys)
  }

  /** `["date"] + sorted(all_stations)` */
  function Header(values: Values): seq<string> {
    ["date"] + Sorted(Stations(values))
  }

  /** What `DictWriter` writes under field `f` for `{"date": date}` updated with the station values. */
  function CellFor(ft: FloatText, f: string, date: string, sv: map<string, Sample>): string {
    if f in sv then ft.show(sv[f]) else if f == "date" then date else ""
  }

  function RowOf(ft: FloatText, header: seq<string>, date: string, sv: map<string, Sample>): (row: seq<string>)
    ensures |row| == |header|
  {
    seq(|header|, i requires 0 <= i < |header| => CellFor(ft, header[i], date, sv))
  }

  /** `save_baseline_values`: the header, then one row per date in ascending order. */
  function Render(ft: FloatText, values: Values): (t: Table)
    ensures |t| == |values| + 1
  {
    RenderWith(ft, Header(values), values)
  }

  function RenderWith(ft: FloatText, header: seq<string>, values: Values): (t: Table)
    ensures |t| == |values| + 1
  {
    var dates := Sorted(values.Keys);
    [header] + seq(|dates|, i requires 0 <= i < |dates| => RowOf(ft, header, dates[i], values[dates[i]]))
  }

  /** Cell `i` of a row as `DictReader` sees it: past the end of a short row it is `None`, its `restval`. */
  function CellAt(row: seq<string>, i: nat): Option<string> {
    if i < |row| then Some(row[i]) else None
  }

  /** `DictReader`'s dictionary for the first `k` fields of a row: a repeated field name keeps its last cell. */
  function RowDict(header: seq<string>, row: seq<string>, k: nat): map<string, Option<string>>
    requires k <= |header|
  {
    if k == 0 then map[] else RowDict(header, row, k - 1)[header[k - 1] := CellAt(row, k - 1)]
  }

  /** `if value`: a cell holds a value when it is present and not empty. */
  predicate Filled(c: Option<string>) {
    c.Some? && c.value != ""
  }

  /** The station values of a row's dictionary: every filled cell but the date, read as a float. */
  function ParseCells(ft: FloatText, d: map<string, Option<string>>): Result<map<string, Sample>, string> {
    if exists k :: k in d && k != "date" && Filled(d[k]) && ft.parse(d[k].value).None? then Failure("could not convert string to float")
    else Success(map k | k in d && k != "date" && Filled(d[k]) :: ft.parse(d[k].value).value)
  }

  /**
   * One data row: its date and its station values.  A header without a "date"
   * field, an unreadable number, or more cells than fields (the surplus cells
   * form a list that `float` refuses) is an error, in that order.  A row too
   * short to reach the date column is refused as well.
   */
  function LoadRow(ft: FloatText, header: seq<string>, row: seq<string>): Result<(string, map<string, Sample>), string> {
    var d := RowDict(header, row, |header|);
    if "date" !in d then Failure("'date'")
    else
      var sv :- ParseCells(ft, d);
      if |row| > |header| then Failure("float() argument must be a string or a real number, not 'list'")
      else if d["date"].None? then Failure("row without a date cell")
      else Success((d["date"].value, sv))
  }

  /** A row's dictionary has exactly the header's field names as keys, however short the row. */
  lemma {:induction false} RowDictKeys(header: seq<string>, row: seq<string>, k: nat)
    requires k <= |header|
    ensures forall x :: x in RowDict(header, row, k) <==> x in header[..k]
    decreases k
  {
    if k > 0 {
      RowDictKeys(header, row, k - 1);
      assert header[..k] == header[..k - 1] + [header[k - 1]];
    }
  }

  /**
   * A short row's dictionary against the same row with one more, empty cell:
   * the same keys, and each cell either the same or absent where the padded
   * row has it empty; a field whose every column lies within the row keeps a
   * present cell.
   */
  lemma {:induction false} RowDictPadded(header: seq<string>, row: seq<string>, k: nat)
    requires |row| < |header| && k <= |header|
    ensures forall x :: x in RowDict(header, row, k) <==> x in RowDict(header, row + [""], k)
    ensures forall x :: x in RowDict(header, row, k) ==>
      RowDict(header, row, k)[x] == RowDict(header, row + [""], k)[x]
      || (RowDict(header, row, k)[x] == None && RowDict(header, row + [""], k)[x] == Some(""))
    ensures forall x :: x in RowDict(header, row, k) && (forall j :: |row| <= j < k ==> header[j] != x) ==>
      RowDict(header, row, k)[x].Some?
    decreases k
  {
    if k > 0 {
      RowDictPadded(header, row, k - 1);
    }
  }

  /** A row missing trailing cells loads as if they were empty, as long as it reaches every "date" column. */
  lemma RowLoadsPadded(ft: FloatText, header: seq<string>, row: seq<string>)
    requires |row| < |header| && "date" in header
    requires forall j :: |row| <= j < |header| ==> header[j] != "date"
    ensures LoadRow(ft, header, row) == LoadRow(ft, header, row + [""])
  {
    var d1 := RowDict(header, row, |header|);
    var d2 := RowDict(header, row + [""], |header|);
    RowDictKeys(header, row, |header|);
    assert header[..|header|] == header;
    RowDictPadded(header, row, |header|);
    assert d1["date"] == d2["date"];
    forall x | x in d1
      ensures Filled(d1[x]) <==> Filled(d2[x])
      ensures Filled(d1[x]) ==> d1[x] == d2[x]
    {
    }
    var e1 := exists x :: x in d1 && x != "date" && Filled(d1[x]) && ft.parse(d1[x].value).None?;
    var e2 := exists x :: x in d2 && x != "date" && Filled(d2[x]) && ft.parse(d2[x].value).None?;
    assert e1 <==> e2;
    if !e1 {
      var m1 := map x | x in d1 && x != "date" && Filled(d1[x]) :: ft.parse(d1[x].value).value;
      var m2 := map x | x in d2 && x != "date" && Filled(d2[x]) :: ft.parse(d2[x].value).value;
      assert m1 == m2;
    }
  }

  /** The first `k` rows after the header, in file order; blank rows are skipped and a later row for a date replaces an earlier one. */
  function LoadRows(ft: FloatText, header: seq<string>, rows: seq<seq<string>>, k: nat): Result<Values, string>
    requires k <= |rows|
  {
    if k == 0 then Success(map[])
    else
      var values :- LoadRows(ft, header, rows, k - 1);
      if rows[k - 1] == [] then Success(values)
      else
        var entry :- LoadRow(ft, header, rows[k - 1]);
        Success(values[entry.0 := entry.1])
  }

  /** `load_baseline_values`: a missing file loads as no values. */
  function Load(ft: FloatText, file: Option<Table>): Result<Values, string> {
    if file.None? || |file.value| == 0 then Success(map[])
    else LoadRows(ft, file.value[0], file.value[1..], |file.value| - 1)
  }

  /** No station is called "date", the name of the first column. */
  predicate NoDateStation(values: Values) {
    forall d :: d in values ==> "date" !in values[d]
  }

  /** Reading a written row gives each of its field names the cell written for that name, repeated names included. */
  lemma {:induction false} RowDictOfWrittenRow(ft: FloatText, header: seq<string>, date: string, sv: map<string, Sample>, k: nat)
    requires k <= |header|
    ensures forall x :: x in RowDict(header, RowOf(ft, header, date, sv), k) <==> x in header[..k]
    ensures forall x :: x in RowDict(header, RowOf(ft, header, date, sv), k) ==>
      RowDict(header, RowOf(ft, header, date, sv), k)[x] == Some(CellFor(ft, x, date, sv))
    decreases k
  {
    if k > 0 {
      RowDictOfWrittenRow(ft, header, date, sv, k - 1);
      assert header[..k] == header[..k - 1] + [header[k - 1]];
    }
  }

  /** The cells written for a date's values parse back as those values. */
  lemma ParseWrittenCells(ft: FloatText, d: map<string, Option<string>>, date: string, sv: map<string, Sample>)
    requires ValidFloatText(ft) && "date" !in sv
    requires forall k :: k in sv ==> k in d
    requires forall k :: k in d ==> d[k] == Some(CellFor(ft, k, date, sv))
    ensures ParseCells(ft, d) == Success(sv)
  {
    forall k | k in d && k != "date"
      ensures Filled(d[k]) <==> k in sv
      ensures k in sv ==> ft.parse(d[k].value) == Some(sv[k])
    {
      if k in sv {
        assert d[k].value == ft.show(sv[k]);
      }
    }
    assert !exists k :: k in d && k != "date" && Filled(d[k]) && ft.parse(d[k].value).None?;
    var loaded := map k | k in d && k != "date" && Filled(d[k]) :: ft.parse(d[k].value).value;
    assert loaded == sv;
  }

  /** The header never repeats a field when no station is called "date". */
  lemma HeaderDistinct(values: Values, i: int, j: int)
    requires NoDateStation(values) && 0 <= i < j < |Header(values)|
    ensures Header(values)[i] != Header(values)[j]
  {
    var stations := Sorted(Stations(values));
    if i == 0 {
      assert Header(values)[j] == stations[j - 1] && stations[j - 1] in Stations(values);
    } else {
      SortedDistinct(stations, i - 1, j - 1);
    }
  }

  /** A saved row loads back as its date and the date's values. */
  lemma RowRoundTrip(ft: FloatText, values: Values, date: string)
    requires ValidFloatText(ft) && NoDateStation(values) && date in values
    ensures LoadRow(ft, Header(values), RowOf(ft, Header(values), date, values[date])) == Success((date, values[date]))
  {
    var header := Header(values);
    var sv := values[date];
    var row := RowOf(ft, header, date, sv);
    RowDictOfWrittenRow(ft, header, date, sv, |header|);
    assert header[..|header|] == header;
    var d := RowDict(header, row, |header|);
    assert header[0] == "date";
    forall k | k in sv
      ensures k in d
    {
      assert k in Stations(values);
      var stations := Sorted(Stations(values));
      var i :| 0 <= i < |stations| && stations[i] == k;
      assert header[i + 1] == k;
    }
    ParseWrittenCells(ft, d, date, sv);
  }

  /** The values of the first `n` of the given dates. */
  function Prefix(values: Values, dates: seq<string>, n: nat): Values
    requires n <= |dates| && forall i :: 0 <= i < |dates| ==> dates[i] in values
  {
    if n == 0 then map[] else Prefix(values, dates, n - 1)[dates[n - 1] := values[dates[n - 1]]]
  }

  lemma {:induction false} PrefixAgrees(values: Values, dates: seq<string>, n: nat)
    requires n <= |dates| && forall i :: 0 <= i < |dates| ==> dates[i] in values
    ensures forall x :: x in Prefix(values, dates, n) <==> x in dates[..n]
    ensures forall x :: x in Prefix(values, dates, n) ==> Prefix(values, dates, n)[x] == values[x]
    decreases n
  {
    if n > 0 {
      PrefixAgrees(values, dates, n - 1);
      assert dates[..n] == dates[..n - 1] + [dates[n - 1]];
    }
  }

  lemma LoadRowsStep(ft: FloatText, header: seq<string>, rows: seq<seq<string>>, n: nat, values: Values, date: string, sv: map<string, Sample>)
    requires 0 < n <= |rows| && LoadRows(ft, header, rows, n - 1) == Success(values)
    requires rows[n - 1] != [] && LoadRow(ft, header, rows[n - 1]) == Success((date, sv))
    ensures LoadRows(ft, header, rows, n) == Success(values[date := sv])
  {
  }

  /** The first `n` rows written for `dates` load back as the values of the first `n` dates. */
  lemma {:induction false} RowsRoundTrip(ft: FloatText, values: Values, dates: seq<string>, rows: Table, n: nat)
    requires ValidFloatText(ft) && NoDateStation(values) && n <= |rows| == |dates|
    requires forall i :: 0 <= i < |dates| ==> dates[i] in values
    requires forall i :: 0 <= i < |rows| ==> rows[i] == RowOf(ft, Header(values), dates[i], values[dates[i]])
    ensures LoadRows(ft, Header(values), rows, n) == Success(Prefix(values, dates, n))
    decreases n
  {
    if n > 0 {
      var date := dates[n - 1];
      RowsRoundTrip(ft, values, dates, rows, n - 1);
      RowRoundTrip(ft, values, date);
      LoadRowsStep(ft, Header(values), rows, n, Prefix(values, dates, n - 1), date, values[date]);
    }
  }

  /** A saved file is the header and then one row per date, dates in ascending order. */
  lemma RenderedRows(ft: FloatText, values: Values)
    ensures Render(ft, values)[0] == Header(values)
    ensures |Render(ft, values)[1..]| == |Sorted(values.Keys)|
    ensures forall i :: 0 <= i < |Sorted(values.Keys)| ==> Sorted(values.Keys)[i] in values
    ensures forall i :: 0 <= i < |Sorted(values.Keys)| ==>
      Render(ft, values)[1..][i] == RowOf(ft, Header(values), Sorted(values.Keys)[i], values[Sorted(values.Keys)[i]])
  {
    var dates := Sorted(values.Keys);
    assert forall i :: 0 <= i < |dates| ==> dates[i] in dates;
  }

  /** Saving and loading gives back the values saved. */
  lemma SaveLoadRoundTrip(ft: FloatText, values: Values)
    requires ValidFloatText(ft) && NoDateStation(values)
    ensures Load(ft, Some(Render(ft, values))) == Success(values)
  {
    var t := Render(ft, values);
    var dates := Sorted(values.Keys);
    RenderedRows(ft, values);
    RowsRoundTrip(ft, values, dates, t[1..], |t| - 1);
    assert |t| - 1 == |dates|;
    PrefixCovers(values, dates);
  }

  /** The values of every date of a listing that covers them all are the values themselves. */
  lemma PrefixCovers(values: Values, dates: seq<string>)
    requires forall i :: 0 <= i < |dates| ==> dates[i] in values
    requires forall x :: x in values ==> x in dates
    ensures Prefix(values, dates, |dates|) == values
  {
    PrefixAgrees(values, dates, |dates|);
    assert dates[..|dates|] == dates;
    var loaded := Prefix(values, dates, |dates|);
    assert loaded.Keys == values.Keys;
  }

  /** The saved header is "date" and then every station code once, in ascending order. */
  lemma SavedLayout(ft: FloatText, values: Values, i: int)
    requires NoDateStation(values) && 0 <= i < |values|
    ensures Render(ft, values)[0] == ["date"] + Sorted(Stations(values))
    ensures StrictlySorted(Sorted(Stations(values))) && StrictlySorted(Sorted(values.Keys))
    ensures Render(ft, values)[i + 1][0] == Sorted(values.Keys)[i]
  {
    RenderedRows(ft, values);
    assert Render(ft, values)[i + 1] == Render(ft, values)[1..][i];
  }

  /** The values after storing `x` for `(date, code)`. */
  function Insert(values: Values, date: string, code: string, x: Sample): (r: Values) {
    values[date := (if date in values then values[date] else map[])[code := x]]
  }

  /** Storing a baseline adds exactly that entry: every other date and station keeps its value. */
  lemma InsertChangesOneEntry(values: Values, date: string, code: string, x: Sample, d: string, s: string)
    ensures date in Insert(values, date, code, x) && code in Insert(values, date, code, x)[date]
    ensures Insert(values, date, code, x)[date][code] == x
    ensures (d, s) != (date, code) ==>
      (d in Insert(values, date, code, x) && s in Insert(values, date, code, x)[d] <==> d in values && s in values[d])
    ensures (d, s) != (date, code) && d in values && s in values[d] ==> Insert(values, date, code, x)[d][s] == values[d][s]
  {
  }

  /** Once a row fails, loading fails with that same error. */
  lemma {:induction false} LoadRowsFailurePersists(ft: FloatText, header: seq<string>, rows: seq<seq<string>>, i: nat, k: nat)
    requires i <= k <= |rows| && LoadRows(ft, header, rows, i).Failure?
    ensures LoadRows(ft, header, rows, k) == LoadRows(ft, header, rows, i)
    decreases k
  {
    if k > i {
      LoadRowsFailurePersists(ft, header, rows, i, k - 1);
      var prev := LoadRows(ft, header, rows, k - 1);
      assert LoadRows(ft, header, rows, k) == prev.PropagateFailure();
    }
  }

  /** Row `i` of the loop: a blank row changes nothing, a good row sets its date, a bad row ends the load with its error. */
  lemma LoadRowsNext(ft: FloatText, header: seq<string>, rows: seq<seq<string>>, i: nat, values: Values)
    requires i < |rows| && LoadRows(ft, header, rows, i) == Success(values)
    ensures rows[i] == [] ==> LoadRows(ft, header, rows, i + 1) == Success(values)
    ensures rows[i] != [] && LoadRow(ft, header, rows[i]).Failure? ==>
      LoadRows(ft, header, rows, |rows|) == Failure(LoadRow(ft, header, rows[i]).error)
    ensures rows[i] != [] && LoadRow(ft, header, rows[i]).Success? ==>
      LoadRows(ft, header, rows, i + 1) == Success(values[LoadRow(ft, header, rows[i]).value.0 := LoadRow(ft, header, rows[i]).value.1])
  {
    if rows[i] != [] && LoadRow(ft, header, rows[i]).Failure? {
      LoadRowsFailurePersists(ft, header, rows, i + 1, |rows|);
    }
  }

  /** The station codes with a value on one of the dates `ds`. */
  function StationsOf(values: Values, ds: set<string>): set<string> {
    set d, s | d in ds && d in values && s in values[d] :: s
  }

  lemma StationsOfAdd(values: Values, ds: set<string>, d: string)
    requires d in values
    ensures StationsOf(values, ds + {d}) == StationsOf(values, ds) + values[d].Keys
  {
  }
}
