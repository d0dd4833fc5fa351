/**
 * `fetch_dst_data` and `is_dst_quiet`: one month of hourly Dst from the
 * Kyoto WDC pages.  The final, provisional and realtime pages are tried in
 * that order and the first answer with status 200 is used; the text of its
 * `<pre>` element is split into lines, the lines after the "DAY" heading
 * are scanned for signed integers, and each line with any yields its
 * integers after the first (the day number).
 */
module DstFetch {
  import opened Wrappers
  import opened TextFormat
  import opened TextLines

  const BASE_URL: string := "https://wdc.kugi.kyoto-u.ac.jp"

  /** The page tiers, in the order they are tried. */
  const TIERS: seq<string> := ["dst_final", "dst_provisional", "dst_realtime"]

  /** `f"{year:04d}{month:02}"` */
  function MonthStamp(year: int, month: int): string {
    FormatInt(year, 4) + FormatInt(month, 2)
  }

  /** The three page addresses for a month, in the order they are tried. */
  function MonthUrls(year: int, month: int): (urls: seq<string>)
    ensures |urls| == |TIERS|
  {
    seq(|TIERS|, i requires 0 <= i < |TIERS| => BASE_URL + "/" + TIERS[i] + "/" + MonthStamp(year, month) + "/index.html")
  }

  /**
   * For the years 0 through 9999 the stamp is six digits that read as
   * `year * 100 + month`, so no two months share a page address.
   */
  lemma MonthStampValue(year: int, month: int)
    requires 0 <= year <= 9999 && 1 <= month <= 12
    ensures |MonthStamp(year, month)| == 6 && AllDigits(MonthStamp(year, month))
    ensures DecimalValue(MonthStamp(year, month)) == year * 100 + month
  {
    DecimalLength(year, 4);
    DecimalLength(month, 2);
    var a, b := ZeroFill(year, 4), ZeroFill(month, 2);
    assert |a| == 4 && |b| == 2;
    ZeroFillValue(year, 4);
    ZeroFillValue(month, 2);
    ConcatValue(a, b);
    assert Pow10(2) == 100;
    assert MonthStamp(year, month) == a + b;
  }

  /** Distinct months of the years 0 through 9999 are fetched from distinct addresses. */
  lemma MonthUrlsDistinct(y1: int, m1: int, y2: int, m2: int, i: int)
    requires 0 <= y1 <= 9999 && 1 <= m1 <= 12 && 0 <= y2 <= 9999 && 1 <= m2 <= 12
    requires (y1, m1) != (y2, m2) && 0 <= i < |TIERS|
    ensures MonthUrls(y1, m1)[i] != MonthUrls(y2, m2)[i]
  {
    MonthStampValue(y1, m1);
    MonthStampValue(y2, m2);
    var prefix := BASE_URL + "/" + TIERS[i] + "/";
    var s1, s2 := MonthStamp(y1, m1), MonthStamp(y2, m2);
    StampsDiffer(y1, m1, y2, m2);
    assert DecimalValue(s1) != DecimalValue(s2);
    assert MonthUrls(y1, m1)[i] == prefix + s1 + "/index.html";
    assert MonthUrls(y2, m2)[i] == prefix + s2 + "/index.html";
    FramedDiffer(prefix, s1, s2, "/index.html");
  }

  lemma StampsDiffer(y1: int, m1: int, y2: int, m2: int)
    requires 1 <= m1 <= 12 && 1 <= m2 <= 12 && (y1, m1) != (y2, m2)
    ensures y1 * 100 + m1 != y2 * 100 + m2
  {
    if y1 == y2 {
      assert m1 != m2;
    } else if y1 < y2 {
      assert y1 * 100 + m1 < y1 * 100 + 100 <= y2 * 100 + m2;
    } else {
      assert y2 * 100 + m2 < y2 * 100 + 100 <= y1 * 100 + m1;
    }
  }

  /** Two texts of one length differ when they sit between the same prefix and suffix. */
  lemma FramedDiffer(prefix: string, a: string, b: string, suffix: string)
    requires |a| == |b| && a != b
    ensures prefix + a + suffix != prefix + b + suffix
  {
    var u, v := prefix + a + suffix, prefix + b + suffix;
    assert u[|prefix|..|prefix| + |a|] == a;
    assert v[|prefix|..|prefix| + |b|] == b;
  }

  // ---------------------------------------------------------------------
  // Trying the tiers

  /** What `requests.get` answers. */
  datatype Response = Response(statusCode: int, text: string)

  /** `requests.get`, with a failure for a `RequestException`. */
  type Getter = string -> Result<Response, string>

  predicate Ok(get: Getter, url: string) {
    get(url).Success? && get(url).value.statusCode == 200
  }

  /** The text of the first address from `k` on that answers 200. */
  function FirstOk(get: Getter, urls: seq<string>, k: nat): (r: Result<string, string>)
    requires k <= |urls|
    ensures r.Success? <==> exists i :: k <= i < |urls| && Ok(get, urls[i])
    ensures r.Success? ==> exists i :: (k <= i < |urls| && Ok(get, urls[i]) && r.value == get(urls[i]).value.text &&
      forall j :: k <= j < i ==> !Ok(get, urls[j]))
    decreases |urls| - k
  {
    if k == |urls| then Failure("全てのURLでデータ取得に失敗しました")
    else if Ok(get, urls[k]) then Success(get(urls[k]).value.text)
    else FirstOk(get, urls, k + 1)
  }

  /**
   * The loop over the addresses: each answer replaces the last one, a
   * request that raises leaves it as it was, and the first 200 ends the
   * loop; without a 200 at the end the fetch raises.
   */
  method FetchTiers(get: Getter, urls: seq<string>) returns (r: Result<string, string>)
    ensures r == FirstOk(get, urls, 0)
  {
    var res: Option<Response> := None;
    var i := 0;
    while i < |urls|
      invariant i <= |urls|
      invariant FirstOk(get, urls, i) == FirstOk(get, urls, 0)
      invariant res.Some? ==> res.value.statusCode != 200
    {
      var answer := get(urls[i]);
      if answer.Success? {
        res := Some(answer.value);
        if answer.value.statusCode == 200 {
          break;
        }
      }
      i := i + 1;
    }
    if res.None? || res.value.statusCode != 200 {
      return Failure("全てのURLでデータ取得に失敗しました");
    }
    return Success(res.value.text);
  }

  // ---------------------------------------------------------------------
  // Lines and whitespace as `str` sees them

  /** The characters `str.isspace` accepts, which `str.strip` removes. */
  predicate IsSpace(c: char) {
    c == ' ' || '\t' <= c <= '\r' || '\U{001C}' <= c <= '\U{001F}' || c == '\U{0085}' || c == '\U{00A0}' ||
    c == '\U{1680}' || '\U{2000}' <= c <= '\U{200A}' || c == '\U{2028}' || c == '\U{2029}' || c == '\U{202F}' ||
    c == '\U{205F}' || c == '\U{3000}'
  }

  function LStrip(s: string): (r: string)
    ensures |r| <= |s|
  {
    if s != [] && IsSpace(s[0]) then LStrip(s[1..]) else s
  }

  function RStrip(s: string): (r: string)
    ensures |r| <= |s|
  {
    if s != [] && IsSpace(s[|s| - 1]) then RStrip(s[..|s| - 1]) else s
  }

  /** `str.strip()` */
  function Strip(s: string): string {
    RStrip(LStrip(s))
  }

  /** A line whose first character is not white space is not blank. */
  lemma StripKeepsStart(s: string)
    requires s != [] && !IsSpace(s[0])
    ensures Strip(s) != [] && Strip(s)[0] == s[0]
  {
    assert LStrip(s) == s;
    RStripKeepsStart(s);
  }

  lemma {:induction false} RStripKeepsStart(s: string)
    requires s != [] && !IsSpace(s[0])
    ensures RStrip(s) != [] && RStrip(s)[0] == s[0]
    decreases |s|
  {
    if IsSpace(s[|s| - 1]) {
      RStripKeepsStart(s[..|s| - 1]);
    }
  }

  /** `line.strip().startswith("DAY")` */
  predicate IsHeading(line: string) {
    var t := Strip(line);
    |t| >= 3 && t[..3] == "DAY"
  }

  /** `next(i for i, line in enumerate(lines) if ...)` from index `k`; `None` where `StopIteration` is raised. */
  function FirstHeading(lines: seq<string>, k: nat): (r: Option<nat>)
    requires k <= |lines|
    ensures r.Some? ==> k <= r.value < |lines| && IsHeading(lines[r.value])
    ensures r.Some? ==> forall j :: k <= j < r.value ==> !IsHeading(lines[j])
    ensures r.None? ==> forall j :: k <= j < |lines| ==> !IsHeading(lines[j])
    decreases |lines| - k
  {
    if k == |lines| then None
    else if IsHeading(lines[k]) then Some(k)
    else FirstHeading(lines, k + 1)
  }

  // ---------------------------------------------------------------------
  // Signed integers in a line

  /** The length of the run of digits that starts the text. */
  function DigitRun(s: string): (n: nat)
    ensures n <= |s| && AllDigits(s[..n])
    ensures n < |s| ==> !IsDigit(s[n])
  {
    if s == [] || !IsDigit(s[0]) then 0
    else
      var n := 1 + DigitRun(s[1..]);
      assert s[..n] == [s[0]] + s[1..][..n - 1];
      n
  }

  /**
   * `[int(x) for x in re.findall(r"-?\d+", s)]` over ASCII digits: each
   * match is a digit run, with a minus sign in front when one stands
   * directly before it, and the scan goes on after the match.
   */
  function Tokens(s: string): seq<int>
    decreases |s|
  {
    if s == [] then []
    else if IsDigit(s[0]) then
      var n := DigitRun(s);
      [DecimalValue(s[..n]) as int] + Tokens(s[n..])
    else if s[0] == '-' && |s| >= 2 && IsDigit(s[1]) then
      var n := DigitRun(s[1..]);
      [-(DecimalValue(s[1..][..n]) as int)] + Tokens(s[1..][n..])
    else Tokens(s[1..])
  }

  /** One line after the heading: nothing for a blank or number-free line, else its numbers after the first. */
  function RowOf(line: string): Option<seq<int>> {
    if Strip(line) == [] then None
    else
      var matches := Tokens(line);
      if matches == [] then None else Some(matches[1..])
  }

  /** The rows of the given lines, in order. */
  function Rows(lines: seq<string>): seq<seq<int>> {
    if lines == [] then []
    else
      var last := RowOf(lines[|lines| - 1]);
      Rows(lines[..|lines| - 1]) + if last.Some? then [last.value] else []
  }

  /** The rows of one more line: those before it, and its own row when it has one. */
  lemma RowsNext(lines: seq<string>, j: int)
    requires 0 <= j < |lines|
    ensures Strip(lines[j]) == [] ==> Rows(lines[..j + 1]) == Rows(lines[..j])
    ensures Strip(lines[j]) != [] && Tokens(lines[j]) == [] ==> Rows(lines[..j + 1]) == Rows(lines[..j])
    ensures Strip(lines[j]) != [] && Tokens(lines[j]) != [] ==>
              Rows(lines[..j + 1]) == Rows(lines[..j]) + [Tokens(lines[j])[1..]]
  {
    assert lines[..j + 1][..j] == lines[..j];
  }

  /** The table in a `<pre>` text: the rows after the first heading, or the `StopIteration` of a text without one. */
  function ParseDst(text: string): Result<seq<seq<int>>, string> {
    var lines := SplitLines(text);
    match FirstHeading(lines, 0)
    case None => Failure("StopIteration")
    case Some(h) => Success(Rows(lines[h + 1..]))
  }

  /** The parse of `fetch_dst_data`: a loop over the lines after the heading that appends each row found. */
  method ParseDstText(text: string) returns (r: Result<seq<seq<int>>, string>)
    ensures r == ParseDst(text)
  {
    var lines := SplitLines(text);
    var h := FirstHeading(lines, 0);
    if h.None? {
      return Failure("StopIteration");
    }
    var dataLines := lines[h.value + 1..];
    var rows: seq<seq<int>> := [];
    for j := 0 to |dataLines|
      invariant rows == Rows(dataLines[..j])
    {
      RowsNext(dataLines, j);
      var line := dataLines[j];
      if Strip(line) == [] {
        continue;
      }
      var matches := Tokens(line);
      if matches == [] {
        continue;
      }
      rows := rows + [matches[1..]];
    }
    assert dataLines[..|dataLines|] == dataLines;
    return Success(rows);
  }

  // ---------------------------------------------------------------------
  // A table written out is read back

  /** `str(n)` */
  function IntText(n: int): string {
    if n < 0 then "-" + Decimal(-n) else Decimal(n)
  }

  /** Numbers one after another with one space between each two. */
  function JoinInts(vals: seq<int>): string {
    if vals == [] then ""
    else if |vals| == 1 then IntText(vals[0])
    else IntText(vals[0]) + " " + JoinInts(vals[1..])
  }

  /** The data lines of a table: day `i + 1` and then its hourly values. */
  function TableLines(rows: seq<seq<int>>): (lines: seq<string>)
    ensures |lines| == |rows|
  {
    seq(|rows|, i requires 0 <= i < |rows| => JoinInts([i + 1] + rows[i]))
  }

  lemma IntTextNoBreaks(n: int)
    ensures NoBreaks(IntText(n))
  {
    var d := if n < 0 then Decimal(-n) else Decimal(n);
    assert NoBreaks(d);
    if n < 0 {
      NoBreaksConcat("-", d);
    }
  }

  lemma {:induction false} JoinIntsNoBreaks(vals: seq<int>)
    ensures NoBreaks(JoinInts(vals))
    decreases |vals|
  {
    if |vals| == 1 {
      IntTextNoBreaks(vals[0]);
    } else if |vals| > 1 {
      JoinIntsNoBreaks(vals[1..]);
      IntTextNoBreaks(vals[0]);
      NoBreaksConcat(IntText(vals[0]), " ");
      NoBreaksConcat(IntText(vals[0]) + " ", JoinInts(vals[1..]));
    }
  }

  lemma {:induction false} DigitRunOf(a: string, b: string)
    requires AllDigits(a) && (b == [] || !IsDigit(b[0]))
    ensures DigitRun(a + b) == |a|
    decreases |a|
  {
    if a != [] {
      assert (a + b)[1..] == a[1..] + b;
      DigitRunOf(a[1..], b);
    }
  }

  /** A digit run followed by nothing or a non-digit is read as one token: its value. */
  lemma DigitsToken(d: string, rest: string)
    requires 1 <= |d| && AllDigits(d) && (rest == [] || !IsDigit(rest[0]))
    ensures Tokens(d + rest) == [DecimalValue(d) as int] + Tokens(rest)
  {
    DigitRunOf(d, rest);
    assert (d + rest)[..|d|] == d && (d + rest)[|d|..] == rest;
  }

  /** The reading of a text that starts with a minus sign, a digit run `d` and then `rest`. */
  lemma NegativeTokenStep(s: string, d: string, rest: string)
    requires |s| >= 2 && s[0] == '-' && IsDigit(s[1]) && s[1..] == d + rest
    requires DigitRun(d + rest) == |d| && (d + rest)[..|d|] == d && (d + rest)[|d|..] == rest
    ensures Tokens(s) == [-(DecimalValue(d) as int)] + Tokens(rest)
  {
    var t := s[1..];
    var n := DigitRun(t);
    assert n == |d|;
    assert t[..n] == d && t[n..] == rest;
    TokensOfNegative(s);
  }

  /** One step of the scan over a text that starts with a minus sign and a digit. */
  lemma TokensOfNegative(s: string)
    requires |s| >= 2 && s[0] == '-' && IsDigit(s[1])
    ensures Tokens(s) == [-(DecimalValue(s[1..][..DigitRun(s[1..])]) as int)] + Tokens(s[1..][DigitRun(s[1..])..])
  {
    assert !IsDigit(s[0]);
  }

  /** A minus sign before a digit run, followed by nothing or a non-digit, is read as one negative token. */
  lemma SignedToken(d: string, rest: string)
    requires 1 <= |d| && AllDigits(d) && (rest == [] || !IsDigit(rest[0]))
    ensures Tokens("-" + d + rest) == [-(DecimalValue(d) as int)] + Tokens(rest)
  {
    assert "-" + d + rest == "-" + (d + rest);
    SignedTokenAt(d, rest);
  }

  lemma SignedTokenAt(d: string, rest: string)
    requires 1 <= |d| && AllDigits(d) && (rest == [] || !IsDigit(rest[0]))
    ensures Tokens("-" + (d + rest)) == [-(DecimalValue(d) as int)] + Tokens(rest)
  {
    var s := "-" + (d + rest);
    var t := d + rest;
    SignedParts(d, rest);
    DigitRunOf(d, rest);
    NegativeTokenStep(s, d, rest);
  }

  lemma SignedParts(d: string, rest: string)
    requires 1 <= |d|
    ensures var s := "-" + (d + rest); |s| >= 2 && s[0] == '-' && s[1] == d[0] && s[1..] == d + rest
    ensures (d + rest)[..|d|] == d && (d + rest)[|d|..] == rest
  {
  }

  /** A number written out, followed by nothing or a space, is read back as that number. */
  lemma IntTokens(n: int, rest: string)
    requires rest == [] || rest[0] == ' '
    ensures Tokens(IntText(n) + rest) == [n] + Tokens(rest)
  {
    if n < 0 {
      SignedToken(Decimal(-n), rest);
    } else {
      DigitsToken(Decimal(n), rest);
    }
  }

  lemma {:induction false} JoinTokens(vals: seq<int>)
    ensures Tokens(JoinInts(vals)) == vals
    decreases |vals|
  {
    if |vals| == 1 {
      IntTokens(vals[0], []);
      assert IntText(vals[0]) + [] == IntText(vals[0]);
    } else if |vals| > 1 {
      var tail := JoinInts(vals[1..]);
      IntTokens(vals[0], " " + tail);
      assert JoinInts(vals) == IntText(vals[0]) + (" " + tail);
      assert (" " + tail)[1..] == tail;
      JoinTokens(vals[1..]);
    }
  }

  lemma RowOfTableLine(rows: seq<seq<int>>, i: int)
    requires 0 <= i < |rows|
    ensures RowOf(TableLines(rows)[i]) == Some(rows[i])
  {
    var line := TableLines(rows)[i];
    JoinTokens([i + 1] + rows[i]);
    if |rows[i]| == 0 {
      assert line == Decimal(i + 1) && ([i + 1] + rows[i])[0] == i + 1;
    } else {
      assert line == Decimal(i + 1) + " " + JoinInts(rows[i]);
    }
    StripKeepsStart(line);
  }

  /** Lines that each read as one row give those rows, in order. */
  lemma {:induction false} RowsOfLines(lines: seq<string>, rows: seq<seq<int>>)
    requires |lines| == |rows|
    requires forall i :: 0 <= i < |lines| ==> RowOf(lines[i]) == Some(rows[i])
    ensures Rows(lines) == rows
    decreases |lines|
  {
    if lines != [] {
      var n := |lines| - 1;
      RowsOfLines(lines[..n], rows[..n]);
      assert rows == rows[..n] + [rows[n]];
    }
  }

  lemma {:induction false} FirstHeadingAfter(pre: seq<string>, rest: seq<string>, k: nat)
    requires k <= |pre| && forall j :: 0 <= j < |pre| ==> !IsHeading(pre[j])
    requires rest != [] && IsHeading(rest[0])
    ensures FirstHeading(pre + rest, k) == Some(|pre|)
    decreases |pre| - k
  {
    if k < |pre| {
      FirstHeadingAfter(pre, rest, k + 1);
    }
  }

  lemma TableNoBreaks(rows: seq<seq<int>>)
    ensures forall i :: 0 <= i < |rows| ==> NoBreaks(TableLines(rows)[i])
  {
    forall i | 0 <= i < |rows|
      ensures NoBreaks(TableLines(rows)[i])
    {
      JoinIntsNoBreaks([i + 1] + rows[i]);
    }
  }

  lemma TableRows(rows: seq<seq<int>>)
    ensures Rows(TableLines(rows)) == rows
  {
    forall i | 0 <= i < |rows|
      ensures RowOf(TableLines(rows)[i]) == Some(rows[i])
    {
      RowOfTableLine(rows, i);
    }
    RowsOfLines(TableLines(rows), rows);
  }

  lemma PageLines(preamble: seq<string>, heading: string, rows: seq<seq<int>>)
    requires forall j :: 0 <= j < |preamble| ==> NoBreaks(preamble[j])
    requires NoBreaks(heading)
    ensures SplitLines(Text(preamble + ([heading] + TableLines(rows)))) == preamble + ([heading] + TableLines(rows))
  {
    var lines := preamble + ([heading] + TableLines(rows));
    TableNoBreaks(rows);
    assert forall i :: 0 <= i < |lines| ==> NoBreaks(lines[i]);
    SplitText(lines);
  }

  lemma ParseOfLines(text: string, lines: seq<string>, h: nat)
    requires SplitLines(text) == lines && h < |lines|
    requires FirstHeading(lines, 0) == Some(h)
    ensures ParseDst(text) == Success(Rows(lines[h + 1..]))
  {
  }

  /**
   * A page whose `<pre>` holds some lines without "DAY", a "DAY" heading and
   * then one line per day (the day number and that day's values) is parsed
   * back into exactly those values, day by day.
   */
  lemma ParseTable(preamble: seq<string>, heading: string, rows: seq<seq<int>>)
    requires forall j :: 0 <= j < |preamble| ==> NoBreaks(preamble[j]) && !IsHeading(preamble[j])
    requires NoBreaks(heading) && IsHeading(heading)
    ensures ParseDst(Text(preamble + [heading] + TableLines(rows))) == Success(rows)
  {
    var table := TableLines(rows);
    var lines := preamble + ([heading] + table);
    assert preamble + [heading] + table == lines;
    PageLines(preamble, heading, rows);
    FirstHeadingAfter(preamble, [heading] + table, 0);
    assert lines[|preamble| + 1..] == table;
    TableRows(rows);
    ParseOfLines(Text(lines), lines, |preamble|);
  }

  // ---------------------------------------------------------------------
  // A month from the network

  /** `soup.find("pre").get_text()`, `None` where the page has no `<pre>`. */
  type PreFinder = string -> Option<string>

  /** `fetch_dst_data(year, month)`: the first page that answers, its `<pre>` text and the rows in it. */
  function FetchDstData(get: Getter, findPre: PreFinder, year: int, month: int): Result<seq<seq<int>>, string> {
    var page :- FirstOk(get, MonthUrls(year, month), 0);
    match findPre(page)
    case None => Failure("pre要素が見つかりません")
    case Some(pre) => ParseDst(pre)
  }

  method FetchDstDataOf(get: Getter, findPre: PreFinder, year: int, month: int) returns (r: Result<seq<seq<int>>, string>)
    ensures r == FetchDstData(get, findPre, year, month)
  {
    var page :- FetchTiers(get, MonthUrls(year, month));
    var pre := findPre(page);
    if pre.None? {
      return Failure("pre要素が見つかりません");
    }
    r := ParseDstText(pre.value);
  }

  /**
   * When tier `i` is the first to answer 200 and its page's `<pre>` holds a
   * "DAY" table, the month's rows are that table's rows.
   */
  lemma FetchDstDataReadsTable(get: Getter, findPre: PreFinder, year: int, month: int, i: int,
                               page: string, preamble: seq<string>, heading: string, rows: seq<seq<int>>)
    requires 0 <= i < |TIERS|
    requires forall j :: 0 <= j < i ==> !Ok(get, MonthUrls(year, month)[j])
    requires get(MonthUrls(year, month)[i]) == Success(Response(200, page))
    requires forall j :: 0 <= j < |preamble| ==> NoBreaks(preamble[j]) && !IsHeading(preamble[j])
    requires NoBreaks(heading) && IsHeading(heading)
    requires findPre(page) == Some(Text(preamble + [heading] + TableLines(rows)))
    ensures FetchDstData(get, findPre, year, month) == Success(rows)
  {
    var urls := MonthUrls(year, month);
    assert Ok(get, urls[i]);
    assert FirstOk(get, urls, 0) == Success(page);
    ParseTable(preamble, heading, rows);
  }

  // ---------------------------------------------------------------------
  // Quiet and disturbed hours

  /** `is_dst_quiet`: an hour is quiet down to -50 nT inclusive. */
  predicate IsDstQuiet(v: int) {
    v >= -50
  }

  /** `any(not is_dst_quiet(h) for h in day_dst)` */
  predicate DayDisturbed(row: seq<int>) {
    exists i :: 0 <= i < |row| && !IsDstQuiet(row[i])
  }
}
