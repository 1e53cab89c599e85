/** ExportHelper: the analysed records as a CSV table and as an HTML report,
    each built line by line with StringBuilder.AppendLine. The text is the
    result; writing it to the chosen file is left to the caller. */
module ExportHelper {
  import opened Base
  import opened Text
  import opened Calendar
  import opened RequestLogModel

  /** The seven values every export shows for a record, in column order:
      Timestamp as "yyyy-MM-dd HH:mm:ss", Route, Method, StatusCode,
      Duration, StaffId and CompanyId. Numbers use int.ToString(). */
  function Fields(item: RequestLog): (f: seq<string>)
    ensures |f| == 7
  {
    [FormatDateTime(item.timestamp), item.route, item.httpMethod, IntToString(item.statusCode as int),
     IntToString(item.duration as int), item.staffId, item.companyId]
  }

  // CSV.

  const CsvColumns: seq<string> := ["Timestamp", "Route", "Method", "StatusCode", "Duration", "StaffId", "CompanyId"]

  /** The header line "Timestamp,Route,Method,StatusCode,Duration,StaffId,CompanyId". */
  const CsvHeader: string := Join(CsvColumns, ',')

  /** One CSV row: the values joined by commas, with no quoting. */
  function CsvRow(item: RequestLog): string
  {
    Join(Fields(item), ',')
  }

  /** The line each record renders to, in input order. */
  function Rendered(data: seq<RequestLog>, render: RequestLog -> string): (rows: seq<string>)
    ensures |rows| == |data|
    ensures forall i :: 0 <= i < |data| ==> rows[i] == render(data[i])
  {
    if data == [] then [] else Rendered(data[..|data| - 1], render) + [render(data[|data| - 1])]
  }

  function CsvRows(data: seq<RequestLog>): (rows: seq<string>)
  {
    Rendered(data, CsvRow)
  }

  /** The text ExportToCsv writes. */
  function Csv(data: seq<RequestLog>): string
  {
    Unlines([CsvHeader] + CsvRows(data))
  }

  /** Appending one more line to text built with AppendLine. */
  lemma AppendLine(lines: seq<string>, line: string)
    ensures Unlines(lines + [line]) == Unlines(lines) + line + "\n"
  {
    UnlinesConcat(lines, [line]);
  }

  /** One more record appended with AppendLine. */
  lemma RenderedGrow(head: seq<string>, data: seq<RequestLog>, render: RequestLog -> string, i: nat)
    requires i < |data|
    ensures Unlines(head + Rendered(data[..i + 1], render)) == Unlines(head + Rendered(data[..i], render)) + render(data[i]) + "\n"
  {
    assert data[..i + 1][..i] == data[..i];
    assert head + Rendered(data[..i + 1], render) == head + Rendered(data[..i], render) + [render(data[i])];
    AppendLine(head + Rendered(data[..i], render), render(data[i]));
  }

  /** Lines that lack a character. */
  lemma RenderedFree(data: seq<RequestLog>, render: RequestLog -> string, c: char)
    requires forall i :: 0 <= i < |data| ==> c !in render(data[i])
    ensures Free(Rendered(data, render), c)
  {
  }

  /** ExportToCsv: the header line, then one line per record. */
  method ExportToCsv(data: seq<RequestLog>) returns (text: string)
    ensures text == Csv(data)
  {
    text := CsvHeader + "\n";
    assert [CsvHeader] + CsvRows(data[..0]) == [CsvHeader];
    for i := 0 to |data|
      invariant text == Unlines([CsvHeader] + CsvRows(data[..i]))
    {
      RenderedGrow([CsvHeader], data, CsvRow, i);
      text := text + CsvRow(data[i]) + "\n";
    }
    assert data[..|data|] == data;
  }

  predicate NoChar(s: string, c: char) { c !in s }

  lemma DigitsHaveNo(s: string, c: char)
    requires AllDigits(s) && !IsDigit(c)
    ensures NoChar(s, c)
  {
    forall i | 0 <= i < |s| ensures s[i] != c {
      assert IsDigit(s[i]);
    }
  }

  /** The formatted timestamp holds only digits, "-", " " and ":". */
  lemma DateTimeHasNo(dt: DateTime, c: char)
    requires !IsDigit(c) && c != '-' && c != ' ' && c != ':'
    ensures NoChar(FormatDateTime(dt), c)
  {
    DigitsHaveNo(Padded(if dt.year < 0 then 0 else dt.year, 4), c);
    DigitsHaveNo(Padded(if dt.month < 0 then 0 else dt.month, 2), c);
    DigitsHaveNo(Padded(if dt.day < 0 then 0 else dt.day, 2), c);
    DigitsHaveNo(Pad2(dt.hour), c);
    DigitsHaveNo(Pad2(dt.minute), c);
    DigitsHaveNo(Pad2(dt.second), c);
  }

  /** A formatted number holds only digits and "-". */
  lemma NumberHasNo(i: int, c: char)
    requires !IsDigit(c) && c != '-'
    ensures NoChar(IntToString(i), c)
  {
    DigitsHaveNo(NatToString(if i < 0 then -i else i), c);
  }

  /** The fields that come from the record's text, not from a format. */
  predicate TextFieldsHaveNo(item: RequestLog, c: char)
  {
    NoChar(item.route, c) && NoChar(item.httpMethod, c) && NoChar(item.staffId, c) && NoChar(item.companyId, c)
  }

  lemma FieldsHaveNo(item: RequestLog, c: char)
    requires TextFieldsHaveNo(item, c) && !IsDigit(c) && c != '-' && c != ' ' && c != ':'
    ensures Free(Fields(item), c)
  {
    DateTimeHasNo(item.timestamp, c);
    NumberHasNo(item.statusCode as int, c);
    NumberHasNo(item.duration as int, c);
  }

  /** When no text value holds a comma, a row splits back into its seven
      values in header order, and the first one reads back as the record's
      date and time of day. */
  lemma CsvRowReadsBack(item: RequestLog)
    requires TextFieldsHaveNo(item, ',')
    ensures Split(CsvRow(item), ',') == Fields(item)
    ensures |Split(CsvHeader, ',')| == |Fields(item)|
    ensures IsValid(item.timestamp) ==>
      var stamp := Split(CsvRow(item), ',')[0];
      && IsDateShape(stamp[..10]) && ParseDate(stamp[..10]) == Some(DateTime(item.timestamp.year, item.timestamp.month, item.timestamp.day, 0, 0, 0))
      && IsTimeShape(stamp[11..]) && ParseTime(stamp[11..]) == (item.timestamp.hour, item.timestamp.minute, item.timestamp.second)
  {
    FieldsHaveNo(item, ',');
    SplitJoin(Fields(item), ',');
    HeaderColumns();
    var dt := item.timestamp;
    if IsValid(dt) {
      var stamp := FormatDateTime(dt);
      ParseFormatDate(dt);
      ParseFormatTime(dt);
      assert stamp[..10] == FormatDate(dt) && stamp[11..] == FormatTime(dt);
    }
  }

  /** The header splits into its seven column names. */
  lemma HeaderColumns()
    ensures Split(CsvHeader, ',') == CsvColumns
    ensures '\n' !in CsvHeader
  {
    assert Free(CsvColumns, ',') && Free(CsvColumns, '\n');
    SplitJoin(CsvColumns, ',');
    SplitNoSeparatorInJoin(CsvColumns, ',', '\n');
  }

  /** No quoting: a comma inside the Route value splits it into two
      columns, so the row has eight values under a seven-column header. */
  lemma CommaInRouteShiftsColumns(item: RequestLog, before: string, after: string)
    requires item.route == before + "," + after
    requires NoChar(before, ',') && NoChar(after, ',')
    requires NoChar(item.httpMethod, ',') && NoChar(item.staffId, ',') && NoChar(item.companyId, ',')
    ensures |Split(CsvRow(item), ',')| == 8
    ensures Split(CsvRow(item), ',')[1] == before && Split(CsvRow(item), ',')[2] == after
  {
    var f := Fields(item);
    var g := [f[0], before, after] + f[2..];
    var plain := item.(route := "");
    FieldsHaveNo(plain, ',');
    assert Fields(plain)[2..] == f[2..] && Fields(plain)[0] == f[0];
    assert Free([f[0], before, after], ',');
    FreeAppend([f[0], before, after], f[2..], ',');
    JoinSplitsSecond(f, before, after, ',');
    SplitJoin(g, ',');
  }

  /** The CSV splits into the header, then one row per record in input
      order, then the empty piece after the final newline: n + 1 lines. */
  lemma CsvLines(data: seq<RequestLog>)
    requires forall i :: 0 <= i < |data| ==> TextFieldsHaveNo(data[i], '\n')
    ensures Split(Csv(data), '\n') == [CsvHeader] + CsvRows(data) + [""]
    ensures |Split(Csv(data), '\n')| == |data| + 2
  {
    forall i | 0 <= i < |data| ensures '\n' !in CsvRow(data[i]) {
      CsvRowHasNoNewline(data[i]);
    }
    RenderedFree(data, CsvRow, '\n');
    HeaderColumns();
    FreeAppend([CsvHeader], CsvRows(data), '\n');
    UnlinesSplit([CsvHeader] + CsvRows(data));
  }

  lemma CsvRowHasNoNewline(item: RequestLog)
    requires TextFieldsHaveNo(item, '\n')
    ensures '\n' !in CsvRow(item)
  {
    FieldsHaveNo(item, '\n');
    SplitNoSeparatorInJoin(Fields(item), ',', '\n');
  }

  /** Joining pieces that lack a character, with a different separator,
      gives a text that lacks it too. */
  lemma {:induction false} SplitNoSeparatorInJoin(parts: seq<string>, sep: char, c: char)
    requires Free(parts, c) && sep != c
    ensures c !in Join(parts, sep)
  {
    if |parts| > 1 {
      SplitNoSeparatorInJoin(parts[1..], sep, c);
      assert Join(parts, sep) == parts[0] + [sep] + Join(parts[1..], sep);
    }
  }

  // HTML.

  /** Each value wrapped in an element of the given tag, in order. */
  function Wrapped(tag: string, values: seq<string>): string
  {
    if values == [] then "" else "<" + tag + ">" + values[0] + "</" + tag + ">" + Wrapped(tag, values[1..])
  }

  /** The one head line ExportToHtml writes first, here as its CSS rules. */
  const HtmlHead: string := HtmlHeadOpen + HtmlTableStyle + HtmlCellStyle + HtmlHeaderCellStyle + HtmlHeadClose
  const HtmlHeadOpen: string := "<html><head><meta charset='UTF-8'><style>"
  const HtmlTableStyle: string := "table{border-collapse:collapse;width:100%;}"
  const HtmlCellStyle: string := "th,td{border:1px solid #ccc;" + "padding:8px;text-align:left;}"
  const HtmlHeaderCellStyle: string := "th{background:#f4f4f4;}"
  const HtmlHeadClose: string := "</style></head><body>"
  const HtmlTitle: string := "<h2>Request Log Analysis Report</h2>"
  const HtmlColumns: seq<string> := ["Timestamp", "Route", "Method", "Status", "Duration (ms)", "StaffId", "CompanyId"]

  /** "<table><thead><tr><th>Timestamp</th>...<th>CompanyId</th></tr></thead><tbody>" */
  const HtmlTableHead: string := "<table><thead><tr>" + Wrapped("th", HtmlColumns) + "</tr></thead><tbody>"
  const HtmlTrailer: string := "</tbody></table></body></html>"

  /** One table row: each of the seven values in a cell, inserted as it is,
      without HTML escaping. */
  function HtmlRow(item: RequestLog): string
  {
    "<tr>" + Wrapped("td", Fields(item)) + "</tr>"
  }

  function HtmlRows(data: seq<RequestLog>): (rows: seq<string>)
  {
    Rendered(data, HtmlRow)
  }

  const HtmlPreamble: seq<string> := [HtmlHead, HtmlTitle, HtmlTableHead]

  /** The text ExportToHtml writes. */
  function Html(data: seq<RequestLog>): string
  {
    Unlines(HtmlPreamble + HtmlRows(data) + [HtmlTrailer])
  }

  lemma {:induction false} UnlinesThree(a: string, b: string, c: string)
    ensures Unlines([a, b, c]) == a + "\n" + b + "\n" + c + "\n"
  {
    assert [a, b, c][1..] == [b, c] && [b, c][1..] == [c] && [c][1..] == [];
    assert Unlines([c]) == c + "\n";
    assert Unlines([b, c]) == b + "\n" + (c + "\n");
    assert Unlines([a, b, c]) == a + "\n" + (b + "\n" + (c + "\n"));
  }

  /** ExportToHtml: the fixed head, one table row per record, the trailer. */
  method ExportToHtml(data: seq<RequestLog>) returns (text: string)
    ensures text == Html(data)
  {
    text := HtmlHead + "\n" + HtmlTitle + "\n" + HtmlTableHead + "\n";
    UnlinesThree(HtmlHead, HtmlTitle, HtmlTableHead);
    assert HtmlPreamble + HtmlRows(data[..0]) == HtmlPreamble;
    for i := 0 to |data|
      invariant text == Unlines(HtmlPreamble + HtmlRows(data[..i]))
    {
      RenderedGrow(HtmlPreamble, data, HtmlRow, i);
      text := text + HtmlRow(data[i]) + "\n";
    }
    assert data[..|data|] == data;
    AppendLine(HtmlPreamble + HtmlRows(data), HtmlTrailer);
    text := text + HtmlTrailer + "\n";
  }

  lemma {:induction false} WrappedHasNo(tag: string, values: seq<string>, c: char)
    requires Free(values, c) && c !in tag && c != '<' && c != '>' && c != '/'
    ensures c !in Wrapped(tag, values)
  {
    if values != [] {
      WrappedHasNo(tag, values[1..], c);
    }
  }

  lemma HeadHasNoNewline()
    ensures '\n' !in HtmlHead
  {
    HeadOpenHasNoNewline();
    HeadCloseHasNoNewline();
    TableStyleHasNoNewline();
    CellStyleHasNoNewline();
    HeaderCellStyleHasNoNewline();
  }

  lemma HeadOpenHasNoNewline()
    ensures '\n' !in HtmlHeadOpen
  {
  }

  lemma HeadCloseHasNoNewline()
    ensures '\n' !in HtmlHeadClose
  {
  }

  lemma TableStyleHasNoNewline()
    ensures '\n' !in HtmlTableStyle
  {
  }

  lemma CellStyleHasNoNewline()
    ensures '\n' !in HtmlCellStyle
  {
    assert '\n' !in "th,td{border:1px solid #ccc;";
    assert '\n' !in "padding:8px;text-align:left;}";
  }

  lemma HeaderCellStyleHasNoNewline()
    ensures '\n' !in HtmlHeaderCellStyle
  {
  }

  lemma TitleHasNoNewline()
    ensures '\n' !in HtmlTitle
  {
  }

  lemma TrailerHasNoNewline()
    ensures '\n' !in HtmlTrailer
  {
  }

  lemma TableHeadHasNoNewline()
    ensures '\n' !in HtmlTableHead
  {
    ColumnsHaveNoNewline();
    WrappedHasNo("th", HtmlColumns, '\n');
  }

  lemma ColumnsHaveNoNewline()
    ensures Free(HtmlColumns, '\n')
  {
  }

  lemma FixedLinesHaveNoNewline()
    ensures Free(HtmlPreamble, '\n') && '\n' !in HtmlTrailer
  {
    HeadHasNoNewline();
    TableHeadHasNoNewline();
    TitleHasNoNewline();
    TrailerHasNoNewline();
  }

  lemma HtmlRowHasNoNewline(item: RequestLog)
    requires TextFieldsHaveNo(item, '\n')
    ensures '\n' !in HtmlRow(item)
  {
    FieldsHaveNo(item, '\n');
    WrappedHasNo("td", Fields(item), '\n');
  }

  /** The report splits into the three head lines, one row per record in
      input order and the trailer, then the empty piece after the final
      newline. */
  lemma HtmlLines(data: seq<RequestLog>)
    requires forall i :: 0 <= i < |data| ==> TextFieldsHaveNo(data[i], '\n')
    ensures Split(Html(data), '\n') == HtmlPreamble + HtmlRows(data) + [HtmlTrailer, ""]
    ensures |Split(Html(data), '\n')| == |data| + 5
  {
    forall i | 0 <= i < |data| ensures '\n' !in HtmlRow(data[i]) {
      HtmlRowHasNoNewline(data[i]);
    }
    RenderedFree(data, HtmlRow, '\n');
    FixedLinesHaveNoNewline();
    FreeAppend(HtmlPreamble, HtmlRows(data), '\n');
    FreeAppend(HtmlPreamble + HtmlRows(data), [HtmlTrailer], '\n');
    UnlinesSplit(HtmlPreamble + HtmlRows(data) + [HtmlTrailer]);
  }

  /** No escaping: a value holding the cell markup reads like two cells, so
      different rows can render to the same text. */
  lemma CellsAmbiguous(tag: string, a: string, b: string)
    ensures Wrapped(tag, [a + "</" + tag + "><" + tag + ">" + b]) == Wrapped(tag, [a, b])
  {
    var open, close := "<" + tag + ">", "</" + tag + ">";
    assert [a, b][1..] == [b];
    assert Wrapped(tag, [b]) == open + b + close + "";
    assert Wrapped(tag, [a, b]) == open + a + close + (open + b + close + "");
  }
}
