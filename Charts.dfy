/**
  components/chart-preview.tsx: which columns a chart binds (the numeric
  columns as series, one text column as the axis or slice labels, both read
  from the first row), the series and pie slices built from them with colours
  taken cyclically from the style palette, and the "No data available" guard.
 */
module Charts {
  import opened Wrappers
  import opened JsText
  import opened ChartModel

  /** The style options the chart reads. */
  datatype ChartStyles = ChartStyles(colorPalette: seq<string>, showGrid: bool, showLegend: bool)

  /** The columns a chart plots and the column naming its points. */
  datatype SeriesBinding = SeriesBinding(numericColumns: seq<string>, labelColumn: string)

  /** One bar, line or area series: the column it plots and its colour. */
  datatype Series = Series(dataKey: string, color: Option<string>)

  /** One pie slice; a value of `None` stands for `NaN`. */
  datatype Slice = Slice(name: string, value: Option<int>, fill: Option<string>)

  /** What `ChartPreview` shows. */
  datatype ChartView =
    | NoDataCard(title: string)
    | SeriesChart(kind: ChartType, title: string, xKey: string, series: seq<Series>, grid: bool, legend: bool)
    | PieChartView(title: string, slices: seq<Slice>, legend: bool)

  /** `columns.filter((col) => typeof firstRow[col] === "number")`. */
  function NumericColumns(columns: seq<string>, firstRow: Row): seq<string> {
    if columns == [] then []
    else (if Get(firstRow, columns[0]).Num? then [columns[0]] else []) + NumericColumns(columns[1..], firstRow)
  }

  /** `r` is `s` with some elements dropped, the rest kept in order. */
  predicate Subsequence<T(==)>(r: seq<T>, s: seq<T>)
    decreases |s|
  {
    if r == [] then true
    else if s == [] then false
    else (r[0] == s[0] && Subsequence(r[1..], s[1..])) || Subsequence(r, s[1..])
  }

  /** The numeric columns are exactly the columns whose first-row value is a
      number, in column order. */
  lemma {:induction false} NumericColumnsSpec(columns: seq<string>, firstRow: Row)
    ensures Subsequence(NumericColumns(columns, firstRow), columns)
    ensures forall c :: c in NumericColumns(columns, firstRow) <==> c in columns && Get(firstRow, c).Num?
  {
    if columns != [] {
      NumericColumnsSpec(columns[1..], firstRow);
      var rest := NumericColumns(columns[1..], firstRow);
      if Get(firstRow, columns[0]).Num? {
        assert NumericColumns(columns, firstRow) == [columns[0]] + rest;
        assert ([columns[0]] + rest)[1..] == rest;
      } else {
        assert NumericColumns(columns, firstRow) == rest;
        if rest != [] {
          assert Subsequence(rest, columns[1..]);
        }
      }
      assert columns == [columns[0]] + columns[1..];
    }
  }

  /** The filter keeps every occurrence of a numeric column and drops every
      occurrence of any other, so a repeated numeric header is kept as often
      as it appears. */
  lemma {:induction false} NumericColumnsCount(columns: seq<string>, firstRow: Row)
    ensures forall c :: multiset(NumericColumns(columns, firstRow))[c] == if Get(firstRow, c).Num? then multiset(columns)[c] else 0
  {
    if columns != [] {
      NumericColumnsCount(columns[1..], firstRow);
      assert columns == [columns[0]] + columns[1..];
      assert multiset(columns) == multiset([columns[0]]) + multiset(columns[1..]);
      var head := if Get(firstRow, columns[0]).Num? then [columns[0]] else [];
      assert multiset(NumericColumns(columns, firstRow)) == multiset(head) + multiset(NumericColumns(columns[1..], firstRow));
    }
  }

  /** `columns.find((col) => typeof firstRow[col] === "string")`. */
  function FirstTextColumn(columns: seq<string>, firstRow: Row): Option<string> {
    if columns == [] then None
    else if Get(firstRow, columns[0]).Text? then Some(columns[0])
    else FirstTextColumn(columns[1..], firstRow)
  }

  /** The search finds the earliest column whose first-row value is a string,
      and finds nothing exactly when there is none. */
  lemma {:induction false} FirstTextColumnSpec(columns: seq<string>, firstRow: Row)
    ensures FirstTextColumn(columns, firstRow).None? <==> forall i :: 0 <= i < |columns| ==> !Get(firstRow, columns[i]).Text?
    ensures FirstTextColumn(columns, firstRow).Some? ==>
      exists i :: 0 <= i < |columns| && columns[i] == FirstTextColumn(columns, firstRow).value
        && Get(firstRow, columns[i]).Text? && forall j :: 0 <= j < i ==> !Get(firstRow, columns[j]).Text?
  {
    if columns != [] && !Get(firstRow, columns[0]).Text? {
      FirstTextColumnSpec(columns[1..], firstRow);
      if FirstTextColumn(columns, firstRow).Some? {
        var i :| 0 <= i < |columns| - 1 && columns[1..][i] == FirstTextColumn(columns, firstRow).value
          && Get(firstRow, columns[1..][i]).Text? && forall j :: 0 <= j < i ==> !Get(firstRow, columns[1..][j]).Text?;
        assert columns[i + 1] == FirstTextColumn(columns, firstRow).value;
        assert forall j :: 0 <= j < i + 1 ==> !Get(firstRow, columns[j]).Text? by {
          forall j | 0 < j < i + 1 ensures !Get(firstRow, columns[j]).Text? {
            assert columns[j] == columns[1..][j - 1];
          }
        }
      } else {
        forall i | 0 < i < |columns| ensures !Get(firstRow, columns[i]).Text? {
          assert columns[i] == columns[1..][i - 1];
        }
      }
    } else if columns != [] {
      assert Get(firstRow, columns[0]).Text?;
    }
  }

  /** Position i holds the earliest column whose first-row value is a string. */
  predicate FirstTextAt(columns: seq<string>, firstRow: Row, i: int) {
    && 0 <= i < |columns|
    && Get(firstRow, columns[i]).Text?
    && forall j :: 0 <= j < i ==> !Get(firstRow, columns[j]).Text?
  }

  /** The search returns the column at the earliest string position. */
  lemma {:induction false} FirstTextColumnAt(columns: seq<string>, firstRow: Row, i: int)
    requires FirstTextAt(columns, firstRow, i)
    ensures FirstTextColumn(columns, firstRow) == Some(columns[i])
    decreases i
  {
    if i > 0 {
      assert !Get(firstRow, columns[0]).Text?;
      forall j | 0 <= j < i - 1 ensures !Get(firstRow, columns[1..][j]).Text? {
        assert columns[1..][j] == columns[j + 1];
      }
      FirstTextColumnAt(columns[1..], firstRow, i - 1);
    }
  }

  /** `data.columns[0] || ""`. */
  function FirstColumnOrEmpty(columns: seq<string>): string {
    if |columns| > 0 then columns[0] else ""
  }

  /** The `numericColumns`/`labelColumn` memo: with no rows, no series and the
      first column (or ""); otherwise the numeric columns of the first row and
      the first text column, falling back to the first column, then "". */
  function BindSeries(data: ChartData): SeriesBinding {
    if |data.rows| == 0 then SeriesBinding([], FirstColumnOrEmpty(data.columns))
    else
      var firstRow := data.rows[0];
      var found := FirstTextColumn(data.columns, firstRow);
      SeriesBinding(
        NumericColumns(data.columns, firstRow),
        if found.Some? && found.value != "" then found.value else FirstColumnOrEmpty(data.columns))
  }

  /** What the binding means: without rows, no series and the first column
      (or "") as label; otherwise the series columns are exactly the first
      row's numeric columns, in order and with their multiplicities, and the
      label column is the earliest column whose first-row value is a string,
      unless there is none or its name is empty, and then the first column
      (or ""). */
  lemma BindSeriesSpec(data: ChartData)
    ensures var b := BindSeries(data);
      && (|data.rows| == 0 ==> b.numericColumns == [] && b.labelColumn == FirstColumnOrEmpty(data.columns))
      && Subsequence(b.numericColumns, data.columns)
      && (|data.rows| > 0 ==> forall c :: c in b.numericColumns <==> c in data.columns && Get(data.rows[0], c).Num?)
      && (|data.rows| > 0 ==> forall c ::
            multiset(b.numericColumns)[c] == if Get(data.rows[0], c).Num? then multiset(data.columns)[c] else 0)
      && (|data.columns| == 0 ==> b.labelColumn == "")
      && (|data.columns| > 0 ==> b.labelColumn in data.columns)
      && (|data.rows| > 0 && b.labelColumn != FirstColumnOrEmpty(data.columns) ==> Get(data.rows[0], b.labelColumn).Text?)
      && (|data.rows| > 0 ==> forall i :: FirstTextAt(data.columns, data.rows[0], i) ==>
            b.labelColumn == if data.columns[i] != "" then data.columns[i] else FirstColumnOrEmpty(data.columns))
      && (|data.rows| > 0 && (forall i :: 0 <= i < |data.columns| ==> !Get(data.rows[0], data.columns[i]).Text?) ==>
            b.labelColumn == FirstColumnOrEmpty(data.columns))
  {
    if |data.rows| > 0 {
      NumericColumnsSpec(data.columns, data.rows[0]);
      NumericColumnsCount(data.columns, data.rows[0]);
      FirstTextColumnSpec(data.columns, data.rows[0]);
      forall i | FirstTextAt(data.columns, data.rows[0], i)
        ensures FirstTextColumn(data.columns, data.rows[0]) == Some(data.columns[i])
      {
        FirstTextColumnAt(data.columns, data.rows[0], i);
      }
    }
  }

  /** `Number(row[key] || 0)`: 0 for a falsy cell, the number itself, or the
      string read as a number. */
  function PieValue(c: Cell): (v: Option<int>)
    ensures !Truthy(c) ==> v == Some(0)
    ensures c.Num? ==> v == Some(c.n)
  {
    if !Truthy(c) then Some(0)
    else match c
      case Num(n) => Some(n)
      case Text(s) => StringToNumber(s)
  }

  /** The `pieData` entry for row `i`. */
  function SliceAt(data: ChartData, b: SeriesBinding, palette: seq<string>, i: nat): Slice
    requires i < |data.rows|
  {
    var row := data.rows[i];
    Slice(TextOr(Get(row, b.labelColumn), ""), PieValue(Get(row, ColumnKey(b.numericColumns, 0))), PaletteAt(palette, i))
  }

  /** `ChartPreview`: "No data available" under the table title (or "Chart")
      when there are no rows or no columns; otherwise one series per numeric
      column for bar, line and area, or one slice per row for pie. */
  function ChartPreview(data: ChartData, chartType: ChartType, styles: ChartStyles): (v: ChartView)
    ensures v.NoDataCard? <==> |data.rows| == 0 || |data.columns| == 0
    ensures v.NoDataCard? ==> v.title == (if data.title != "" then data.title else "Chart")
    ensures !v.NoDataCard? ==> (v.PieChartView? <==> chartType == Pie)
  {
    if |data.rows| == 0 || |data.columns| == 0 then
      NoDataCard(if data.title != "" then data.title else "Chart")
    else
      var b := BindSeries(data);
      if chartType == Pie then
        PieChartView(data.title,
          seq(|data.rows|, i requires 0 <= i < |data.rows| => SliceAt(data, b, styles.colorPalette, i)),
          styles.showLegend)
      else
        SeriesChart(chartType, data.title, b.labelColumn,
          seq(|b.numericColumns|, i requires 0 <= i < |b.numericColumns| => Series(b.numericColumns[i], PaletteAt(styles.colorPalette, i))),
          styles.showGrid, styles.showLegend)
  }

  /** Bar, line and area charts: the x axis is the label column, series i
      plots the i-th numeric column of the first row in colour slot i, so the
      plotted keys are exactly the numeric columns (a repeated header is
      plotted as often as it appears); grid and legend follow the styles. */
  lemma SeriesChartBinding(data: ChartData, chartType: ChartType, styles: ChartStyles)
    requires |data.rows| > 0 && |data.columns| > 0 && chartType != Pie
    ensures var v := ChartPreview(data, chartType, styles);
      && v.SeriesChart? && v.kind == chartType && v.title == data.title
      && v.xKey == BindSeries(data).labelColumn
      && |v.series| == |BindSeries(data).numericColumns|
      && (forall i :: 0 <= i < |v.series| ==> v.series[i].dataKey == BindSeries(data).numericColumns[i])
      && (forall i :: 0 <= i < |v.series| ==> v.series[i].color == PaletteAt(styles.colorPalette, i))
      && (forall c :: (exists i :: 0 <= i < |v.series| && v.series[i].dataKey == c) <==> c in data.columns && Get(data.rows[0], c).Num?)
      && v.grid == styles.showGrid && v.legend == styles.showLegend
  {
    var v := ChartPreview(data, chartType, styles);
    var numeric := BindSeries(data).numericColumns;
    BindSeriesSpec(data);
    forall c ensures (exists i :: 0 <= i < |v.series| && v.series[i].dataKey == c) <==> c in numeric {
      if c in numeric {
        var i :| 0 <= i < |numeric| && numeric[i] == c;
        assert v.series[i].dataKey == c;
      }
    }
  }

  /** Pie charts: one slice per row in row order, named by the row's label
      cell (or ""), valued by its first numeric column (0 when the cell is
      falsy or there is no numeric column to read), filled from colour slot i. */
  lemma PieChartSlices(data: ChartData, styles: ChartStyles)
    requires |data.rows| > 0 && |data.columns| > 0
    ensures var v := ChartPreview(data, Pie, styles);
      var b := BindSeries(data);
      && v.PieChartView? && v.title == data.title && v.legend == styles.showLegend
      && |v.slices| == |data.rows|
      && forall i :: 0 <= i < |v.slices| ==>
        && v.slices[i].name == TextOr(Get(data.rows[i], b.labelColumn), "")
        && v.slices[i].fill == PaletteAt(styles.colorPalette, i)
        && (|b.numericColumns| > 0 ==> v.slices[i].value == PieValue(Get(data.rows[i], b.numericColumns[0])))
        && (|b.numericColumns| == 0 && "undefined" !in data.rows[i] ==> v.slices[i].value == Some(0))
  {
  }
}
