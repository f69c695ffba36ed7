/**
  The shared data model of app/page.tsx: the chart kinds and the `ChartData`
  table (title, rows of records, ordered columns), with the JavaScript
  property-access and truthiness rules the renderers apply to its cells.
 */
module ChartModel {
  import opened Wrappers
  import opened JsText

  /** `ChartType`: the chart kinds the workspace can show. */
  datatype ChartType = Bar | Line | Area | Pie

  /** A record value: a number (an integer here), a string, or `undefined`
      (what a too-short CSV line leaves in a cell, and what reading a missing
      key gives). */
  datatype Cell = Num(n: int) | Text(s: string) | Undefined

  /** `Record<string, string | number>`. */
  type Row = map<string, Cell>

  /** `ChartData`; the source calls the rows `data`. */
  datatype ChartData = ChartData(title: string, rows: seq<Row>, columns: seq<string>)

  /** `row[key]`: a missing key reads as `undefined`. */
  function Get(row: Row, key: string): (c: Cell)
    ensures key !in row ==> c == Undefined
    ensures key in row ==> c == row[key]
  {
    if key in row then row[key] else Undefined
  }

  /** The property key `columns[i]` denotes: an index past the end gives
      `undefined`, which JavaScript turns into the key "undefined". */
  function ColumnKey(columns: seq<string>, i: nat): (k: string)
    ensures i < |columns| ==> k == columns[i]
    ensures i >= |columns| ==> k == "undefined"
  {
    if i < |columns| then columns[i] else "undefined"
  }

  /** JavaScript truthiness of a cell: 0, "" and `undefined` are falsy. */
  predicate Truthy(c: Cell) {
    match c
    case Num(n) => n != 0
    case Text(s) => s != ""
    case Undefined => false
  }

  /** `String(c)` for a truthy cell. */
  function CellText(c: Cell): string
    requires Truthy(c)
  {
    match c
    case Num(n) => IntToString(n)
    case Text(s) => s
  }

  /** `String(c || fallback)`: the cell's text when the cell is truthy, the
      fallback otherwise; the text is never empty unless the fallback is. */
  function TextOr(c: Cell, fallback: string): (r: string)
    ensures !Truthy(c) ==> r == fallback
    ensures Truthy(c) ==> r == CellText(c) && r != ""
  {
    if Truthy(c) then CellText(c) else fallback
  }

  /** `palette[i % palette.length]`: the palette is cycled; an empty palette
      yields `undefined`, as `i % 0` is `NaN` in JavaScript. */
  function PaletteAt(palette: seq<string>, i: nat): (c: Option<string>)
    ensures c.Some? <==> |palette| > 0
    ensures c.Some? ==> c.value in palette
    ensures c.Some? && i < |palette| ==> c.value == palette[i]
  {
    if |palette| == 0 then None else Some(palette[i % |palette|])
  }

  /** Adding the modulus does not change the remainder. */
  lemma ModuloPeriod(i: nat, n: nat)
    requires n > 0
    ensures (i + n) % n == i % n
  {
    var a := i + n;
    var k := a / n - i / n - 1;
    assert k * n == (a / n) * n - (i / n) * n - n;
    assert k * n == i % n - a % n;
    if k >= 1 {
      MultiplyAtLeast(k, n);
    } else if k <= -1 {
      MultiplyAtLeast(-k, n);
    }
  }

  /** A positive multiple of n is at least n. */
  lemma MultiplyAtLeast(k: int, n: nat)
    requires k >= 1
    ensures k * n >= n
  {
    assert k * n == (k - 1) * n + n;
  }

  /** Colours cycle: slot i and slot i + length name the same colour, and
      every slot names the colour at its position modulo the length. */
  lemma PaletteCycles(palette: seq<string>, i: nat)
    requires |palette| > 0
    ensures PaletteAt(palette, i + |palette|) == PaletteAt(palette, i)
    ensures PaletteAt(palette, i) == Some(palette[i % |palette|])
  {
    ModuloPeriod(i, |palette|);
  }
}
