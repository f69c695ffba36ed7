/**
  lib/ai-service.ts: the local analysis pipeline. `parseCSV` turns text into a
  table, `recommendCharts` ranks chart kinds for it, `heuristicFallback`
  combines the two (or falls back to a fixed sample table), and `analyzeData`
  decides when the fallback replaces the remote analysis. The remote call
  itself is an opaque outcome passed in, and the API key is a parameter.
 */
module AiService {
  import opened Wrappers
  import opened JsText
  import opened ChartModel

  const ImportedTitle := "Imported Data"

  /** `parts.map((p) => p.trim())`. */
  function TrimAll(parts: seq<string>): (r: seq<string>)
    ensures |r| == |parts|
    ensures forall k :: 0 <= k < |r| ==> r[k] == Trim(parts[k])
  {
    seq(|parts|, k requires 0 <= k < |parts| => Trim(parts[k]))
  }

  /** Every trimmed token is a piece of its original with no white space at
      either end, and trimming it again changes nothing. */
  lemma TrimAllClean(parts: seq<string>)
    ensures forall k :: 0 <= k < |parts| ==>
      var t := TrimAll(parts)[k];
      && Contains(parts[k], t)
      && (t != [] ==> !IsSpace(t[0]) && !IsSpace(t[|t| - 1]))
      && Trim(t) == t
  {
    forall k | 0 <= k < |parts|
      ensures Contains(parts[k], Trim(parts[k]))
      ensures Trim(Trim(parts[k])) == Trim(parts[k])
      ensures Trim(parts[k]) != [] ==> !IsSpace(Trim(parts[k])[0]) && !IsSpace(Trim(parts[k])[|Trim(parts[k])| - 1])
    {
      var s := parts[k];
      TrimSplitsInput(s);
      TrimIdempotent(s);
      var i, j :| 0 <= i <= j <= |s| && Trim(s) == s[i..j] && AllSpace(s[..i]) && AllSpace(s[j..]);
      assert OccursAt(s, Trim(s), i);
      ContainsAt(s, Trim(s));
    }
  }

  /** `line.split(",").map((v) => v.trim())`. */
  function Tokens(line: string): seq<string> {
    TrimAll(Split(line, ','))
  }

  /** The lines of the input: `csv.trim().split("\n")`. */
  function Lines(csv: string): seq<string> {
    Split(Trim(csv), '\n')
  }

  /** The value `parseCSV` stores for header position `i` of a line whose
      trimmed tokens are `values`: a number when the token has a numeric
      prefix, the token itself otherwise, and `undefined` past the last token. */
  function CellAt(values: seq<string>, i: nat): (c: Cell)
    ensures c.Undefined? <==> i >= |values|
    ensures c.Num? ==> ParseNumberPrefix(values[i]) == Some(c.n)
    ensures c.Text? ==> ParseNumberPrefix(values[i]).None? && c.s == values[i]
  {
    if i < |values| then
      match ParseNumberPrefix(values[i])
      case Some(v) => Num(v)
      case None => Text(values[i])
    else Undefined
  }

  /** The record after the `forEach` over headers has run `n` steps: each step
      sets `row[headers[i]]`, so a repeated header keeps its last value. */
  function FillRow(headers: seq<string>, values: seq<string>, n: nat): Row
    requires n <= |headers|
  {
    if n == 0 then map[] else FillRow(headers, values, n - 1)[headers[n - 1] := CellAt(values, n - 1)]
  }

  /** The record `parseCSV` builds from one data line. */
  function RowOf(headers: seq<string>, line: string): Row {
    FillRow(headers, Tokens(line), |headers|)
  }

  /** Position `i` holds the last occurrence of its header. */
  predicate LastOccurrence(headers: seq<string>, i: nat, n: nat)
    requires i < n <= |headers|
  {
    forall j :: i < j < n ==> headers[j] != headers[i]
  }

  /** After `n` steps the record has exactly the first `n` headers as keys, and
      each holds the cell of its last position among them. */
  lemma FillRowSpec(headers: seq<string>, values: seq<string>, n: nat)
    requires n <= |headers|
    ensures forall h :: h in FillRow(headers, values, n) <==> h in headers[..n]
    ensures forall i :: 0 <= i < n && LastOccurrence(headers, i, n) ==>
              FillRow(headers, values, n)[headers[i]] == CellAt(values, i)
  {
    FillRowKeys(headers, values, n);
    FillRowValues(headers, values, n);
  }

  lemma {:induction false} FillRowKeys(headers: seq<string>, values: seq<string>, n: nat)
    requires n <= |headers|
    ensures forall h :: h in FillRow(headers, values, n) <==> h in headers[..n]
  {
    if n > 0 {
      FillRowKeys(headers, values, n - 1);
      assert headers[..n] == headers[..n - 1] + [headers[n - 1]];
    }
  }

  lemma {:induction false} FillRowValues(headers: seq<string>, values: seq<string>, n: nat)
    requires n <= |headers|
    ensures forall i :: 0 <= i < n && LastOccurrence(headers, i, n) ==>
              headers[i] in FillRow(headers, values, n) && FillRow(headers, values, n)[headers[i]] == CellAt(values, i)
  {
    if n > 0 {
      FillRowValues(headers, values, n - 1);
      var before := FillRow(headers, values, n - 1);
      var row := before[headers[n - 1] := CellAt(values, n - 1)];
      assert FillRow(headers, values, n) == row;
      forall i | 0 <= i < n && LastOccurrence(headers, i, n)
        ensures headers[i] in row && row[headers[i]] == CellAt(values, i)
      {
        if i < n - 1 {
          assert headers[n - 1] != headers[i];
          assert LastOccurrence(headers, i, n - 1);
        }
      }
    }
  }

  /** The record of one line sets exactly the headers, each to the cell of its
      last position among them. */
  lemma RowOfSpec(headers: seq<string>, line: string)
    ensures forall h :: h in RowOf(headers, line) <==> h in headers
    ensures forall i :: 0 <= i < |headers| && LastOccurrence(headers, i, |headers|) ==>
              RowOf(headers, line)[headers[i]] == CellAt(Tokens(line), i)
  {
    FillRowSpec(headers, Tokens(line), |headers|);
    assert headers[..|headers|] == headers;
  }

  /** The records of the data lines, one per line in order. */
  function RowsOf(headers: seq<string>, lines: seq<string>): (rows: seq<Row>)
    ensures |rows| == |lines|
  {
    seq(|lines|, k requires 0 <= k < |lines| => RowOf(headers, lines[k]))
  }

  /** One more data line adds its record at the end. */
  lemma RowsOfAppend(headers: seq<string>, lines: seq<string>, line: string)
    ensures RowsOf(headers, lines + [line]) == RowsOf(headers, lines) + [RowOf(headers, line)]
  {
    var all := lines + [line];
    assert forall k :: 0 <= k < |lines| ==> all[k] == lines[k];
  }

  /** The table `parseCSV` returns, or `None` for `null`. */
  function CsvTable(csv: string): Option<ChartData> {
    var lines := Lines(csv);
    if |lines| < 2 then None
    else
      var headers := Tokens(lines[0]);
      var body := lines[1..];
      Some(ChartData(ImportedTitle, RowsOf(headers, body), headers))
  }

  /** The per-line body of `parseCSV`: the `forEach` that fills a fresh record
      header by header. */
  method ParseRow(headers: seq<string>, line: string) returns (row: Row)
    ensures row == RowOf(headers, line)
  {
    var values := Tokens(line);
    row := map[];
    var i := 0;
    while i < |headers|
      invariant 0 <= i <= |headers|
      invariant row == FillRow(headers, values, i)
    {
      row := row[headers[i] := CellAt(values, i)];
      i := i + 1;
    }
  }

  /** `parseCSV`: splits the trimmed text into lines and maps every line after
      the header to a record. */
  method ParseCsv(csv: string) returns (table: Option<ChartData>)
    ensures table == CsvTable(csv)
  {
    var lines := Split(Trim(csv), '\n');
    if |lines| < 2 {
      return None;
    }
    var headers := Tokens(lines[0]);
    var body := lines[1..];
    var rows: seq<Row> := [];
    var k := 0;
    while k < |body|
      invariant 0 <= k <= |body|
      invariant rows == RowsOf(headers, body[..k])
    {
      var row := ParseRow(headers, body[k]);
      RowsOfAppend(headers, body[..k], body[k]);
      assert body[..k + 1] == body[..k] + [body[k]];
      rows := rows + [row];
      k := k + 1;
    }
    assert body[..k] == body;
    table := Some(ChartData(ImportedTitle, rows, headers));
  }

  /** `parseCSV` returns `null` exactly when the trimmed text has no line
      break, i.e. fewer than two lines; the empty text is one of them. */
  lemma CsvTableFailsIff(csv: string)
    ensures CsvTable(csv).None? <==> '\n' !in Trim(csv)
    ensures CsvTable("").None?
  {
    SplitHasSeveralPieces(Trim(csv), '\n');
    SplitHasSeveralPieces(Trim(""), '\n');
  }

  /** The shape of a parsed table: the lines are the trimmed text cut at line
      breaks; the columns are the trimmed comma-separated tokens of the first
      line, in order; row k comes from line k + 1, blank lines included; the
      title is fixed. */
  lemma CsvTableShape(csv: string)
    requires CsvTable(csv).Some?
    ensures var lines := Lines(csv); var t := CsvTable(csv).value;
      && Join(lines, '\n') == Trim(csv)
      && (forall k :: 0 <= k < |lines| ==> '\n' !in lines[k])
      && t.title == "Imported Data"
      && t.columns == TrimAll(Split(lines[0], ','))
      && Join(Split(lines[0], ','), ',') == lines[0]
      && |t.rows| == |lines| - 1
      && forall k :: 0 <= k < |t.rows| ==> t.rows[k] == RowOf(t.columns, lines[k + 1])
  {
    SplitJoin(Trim(csv), '\n');
    SplitJoin(Lines(csv)[0], ',');
  }

  /** Every row of a parsed table sets every column; the value under a column
      is the number or trimmed text at that column's (last) position in the
      line, or `undefined` when the line has too few tokens. */
  lemma CsvRowCells(csv: string, k: nat, i: nat)
    requires CsvTable(csv).Some?
    requires k < |CsvTable(csv).value.rows|
    requires i < |CsvTable(csv).value.columns|
    requires LastOccurrence(CsvTable(csv).value.columns, i, |CsvTable(csv).value.columns|)
    ensures var t := CsvTable(csv).value; var values := Tokens(Lines(csv)[k + 1]);
      && (forall h :: h in t.rows[k] <==> h in t.columns)
      && t.rows[k][t.columns[i]] == CellAt(values, i)
      && (i >= |values| <==> t.rows[k][t.columns[i]] == Undefined)
      && (i < |values| ==> values[i] == Trim(Split(Lines(csv)[k + 1], ',')[i]))
  {
    var t := CsvTable(csv).value;
    assert t.rows[k] == RowOf(t.columns, Lines(csv)[k + 1]);
    FillRowSpec(t.columns, Tokens(Lines(csv)[k + 1]), |t.columns|);
    assert t.columns[..|t.columns|] == t.columns;
  }

  lemma ExampleLines()
    ensures Lines("a,b\n1,2") == ["a,b", "1,2"]
  {
    assert Trim("a,b\n1,2") == "a,b\n1,2";
    assert "a,b\n1,2" == "a,b" + ['\n'] + "1,2";
    SplitAtSeparator("a,b", "1,2", '\n');
    SplitWithoutSeparator("1,2", '\n');
  }

  lemma ExampleTokens(x: string, y: string)
    requires |x| == 1 && |y| == 1 && x[0] != ',' && y[0] != ','
    requires !IsSpace(x[0]) && !IsSpace(y[0])
    ensures Tokens(x + "," + y) == [x, y]
  {
    SplitAtSeparator(x, y, ',');
    SplitWithoutSeparator(y, ',');
    assert Split(x + "," + y, ',') == [x, y];
    TrimStartOfTrimmed(x);
    TrimEndOfTrimmed(x);
    TrimStartOfTrimmed(y);
    TrimEndOfTrimmed(y);
  }

  lemma ExampleRow()
    ensures RowOf(["a", "b"], "1,2") == map["a" := Num(1), "b" := Num(2)]
  {
    ExampleTokens("1", "2");
    assert "1" + "," + "2" == "1,2";
    ParseNumberPrefixOfIntToString(1, "");
    ParseNumberPrefixOfIntToString(2, "");
    assert IntToString(1) + "" == "1" && IntToString(2) + "" == "2";
    assert CellAt(["1", "2"], 0) == Num(1) && CellAt(["1", "2"], 1) == Num(2);
  }

  /** The worked example: "a,b\n1,2" gives the columns a and b and one row with
      two numbers. */
  lemma CsvTableExample()
    ensures CsvTable("a,b\n1,2") == Some(ChartData("Imported Data", [map["a" := Num(1), "b" := Num(2)]], ["a", "b"]))
  {
    ExampleLines();
    ExampleTokens("a", "b");
    assert "a" + "," + "b" == "a,b";
    ExampleRow();
    var t := CsvTable("a,b\n1,2").value;
    assert t.columns == ["a", "b"];
    assert |t.rows| == 1 && t.rows[0] == RowOf(["a", "b"], "1,2");
    assert t.rows == [map["a" := Num(1), "b" := Num(2)]];
    assert t.title == "Imported Data";
  }

  /** Some cell of some row is a number. */
  predicate HasNumeric(rows: seq<Row>) {
    exists k, key :: 0 <= k < |rows| && key in rows[k] && rows[k][key].Num?
  }

  /** `recommendCharts`: trend charts for many numeric rows, comparison charts
      for few, and every chart kind otherwise. The answer always has three or
      four distinct kinds and always offers a bar chart. */
  function RecommendCharts(data: ChartData): (r: seq<ChartType>)
    ensures HasNumeric(data.rows) && |data.rows| > 10 ==> r == [Line, Area, Bar]
    ensures HasNumeric(data.rows) && |data.rows| <= 10 ==> r == [Bar, Pie, Line]
    ensures !HasNumeric(data.rows) ==> r == [Bar, Line, Area, Pie]
    ensures 3 <= |r| <= 4 && Bar in r
    ensures forall i, j :: 0 <= i < j < |r| ==> r[i] != r[j]
    ensures r[0] == Line <==> HasNumeric(data.rows) && |data.rows| > 10
  {
    var rowCount := |data.rows|;
    var hasNumeric := HasNumeric(data.rows);
    if rowCount > 10 && hasNumeric then [Line, Area, Bar]
    else if rowCount <= 10 && hasNumeric then [Bar, Pie, Line]
    else [Bar, Line, Area, Pie]
  }

  /** `AnalysisResult`: the table, the ranked chart kinds, and a summary line. */
  datatype AnalysisResult = AnalysisResult(data: ChartData, recommendations: seq<ChartType>, summary: string)

  /** The sample table `heuristicFallback` shows when parsing fails. */
  const SampleData := ChartData(
    "AI Extracted Data (Fallback)",
    [ map["Category" := Text("Item A"), "Value" := Num(10)],
      map["Category" := Text("Item B"), "Value" := Num(25)],
      map["Category" := Text("Item C"), "Value" := Num(15)] ],
    ["Category", "Value"])

  const ParsedSummary := "Successfully parsed CSV data (Fallback)."
  const SampleSummary := "Could not parse data. Showing sample fallback."

  /** The summary says the fallback produced the result. */
  predicate MentionsFallback(summary: string) {
    Contains(summary, "Fallback") || Contains(summary, "fallback")
  }

  /** `heuristicFallback`: the parsed table with its recommendations, or the
      sample table with bar, pie and line; either way the summary says the
      fallback was used. */
  function HeuristicFallback(text: string): (r: AnalysisResult)
    ensures CsvTable(text).Some? ==> r.data == CsvTable(text).value && r.recommendations == RecommendCharts(r.data)
    ensures CsvTable(text).None? ==> r.data == SampleData && r.recommendations == [Bar, Pie, Line]
    ensures MentionsFallback(r.summary)
  {
    FallbackSummaries();
    match CsvTable(text)
    case Some(table) => AnalysisResult(table, RecommendCharts(table), ParsedSummary)
    case None => AnalysisResult(SampleData, [Bar, Pie, Line], SampleSummary)
  }

  lemma FallbackSummaries()
    ensures MentionsFallback(ParsedSummary) && MentionsFallback(SampleSummary)
  {
    assert ParsedSummary == "Successfully parsed CSV data (" + "Fallback" + ").";
    ContainsInfix("Successfully parsed CSV data (", "Fallback", ").");
    assert SampleSummary == "Could not parse data. Showing sample " + "fallback" + ".";
    ContainsInfix("Could not parse data. Showing sample ", "fallback", ".");
  }

  /** The sample table is numeric and short, so the fixed recommendations are
      the ones `recommendCharts` itself would give it. */
  lemma SampleRecommendationsAgree()
    ensures RecommendCharts(SampleData) == [Bar, Pie, Line]
  {
    assert "Value" in SampleData.rows[0] && SampleData.rows[0]["Value"].Num?;
  }

  /** The credential gate: a key is used only when it is non-empty and is not
      the placeholder. */
  predicate UsableKey(apiKey: string) {
    apiKey != "" && !Contains(apiKey, "YOUR_API_KEY")
  }

  /** What the remote analysis produced: the parsed reply, or any failure (a
      non-ok response, a network error, a reply that is not JSON). */
  datatype RemoteOutcome = Replied(result: AnalysisResult) | Failed

  /** `analyzeData`: without a usable key the remote call is skipped, and any
      remote failure is caught; both go to `heuristicFallback`. The remote
      reply is returned as it is. */
  function AnalyzeData(text: string, apiKey: string, remote: RemoteOutcome): (r: AnalysisResult)
    ensures !UsableKey(apiKey) ==> r == HeuristicFallback(text)
    ensures remote.Failed? ==> r == HeuristicFallback(text)
    ensures UsableKey(apiKey) && remote.Replied? ==> r == remote.result
  {
    if !UsableKey(apiKey) then HeuristicFallback(text)
    else
      match remote
      case Replied(result) => result
      case Failed => HeuristicFallback(text)
  }

  /** Without a usable key the outcome of the remote call cannot matter, and
      the result names the fallback. */
  lemma AnalyzeSkipsRemoteWithoutKey(text: string, apiKey: string, one: RemoteOutcome, other: RemoteOutcome)
    requires !UsableKey(apiKey)
    ensures AnalyzeData(text, apiKey, one) == AnalyzeData(text, apiKey, other)
    ensures MentionsFallback(AnalyzeData(text, apiKey, one).summary)
  {
  }

  /** The placeholder key and the empty key are both refused. */
  lemma PlaceholderKeysRefused(prefix: string, suffix: string)
    ensures !UsableKey("")
    ensures !UsableKey(prefix + "YOUR_API_KEY" + suffix)
  {
    var key := prefix + "YOUR_API_KEY" + suffix;
    assert key[|prefix|..|prefix| + 12] == "YOUR_API_KEY";
    assert OccursAt(key, "YOUR_API_KEY", |prefix|);
    ContainsAt(key, "YOUR_API_KEY");
  }
}
