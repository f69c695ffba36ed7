# Chart studio core, modelled in Dafny

This project models the deterministic core of a small web app. The user pastes CSV or free text, and the app turns it into a table (a title, ordered columns and rows of records). It then recommends chart kinds and draws the table as a chart or a diagram. The model covers five parts:

- **Data pipeline (`AiService`, lib/ai-service.ts).**
  - `parseCSV`: trims the text and splits it into lines, then splits each line on commas and trims every token. A token becomes a number when `parseFloat` reads one. A line with too few tokens leaves `undefined` in its last cells.
  - `recommendCharts`: ranks `line, area, bar` / `bar, pie, line` / `bar, line, area, pie`, depending on whether any cell is numeric and on whether there are more than ten rows.
  - `heuristicFallback`: uses the parsed table, or a fixed three-row sample.
  - `analyzeData`: the gate around the remote call. The call is skipped without a usable key, and a failure goes to the fallback.
- **Colour utilities (`ColorGenerator`, lib/color-generator.ts).**
  - The Fisher–Yates `shuffleArray`: a downward loop swapping in place on a copied array.
  - `getRandomPalette` over the five fixed 8-colour palettes.
  - The hue sequence of `generateRandomPalette`.
  - `hexToRgb`.
  - The relative luminance and contrast ratio of WCAG 2.1, and the black-or-white `getTextColor`.
- **Diagram layout (`Diagrams`, components/diagram-preview.tsx).** For the flow, tree, org and mindmap renderers:
  - node positions, connectors and palette slots;
  - caps on the number of children;
  - label truncation;
  - the "No data available" guard.
- **Series binding (`Charts`, components/chart-preview.tsx).**
  - Picks the numeric columns and the label column from the first row.
  - One series per numeric column, and one pie slice per row.
  - Colours cycle through the style palette.
  - The empty-table guard.
- **Page state machine (`Page`, app/page.tsx).**
  - A class `Home` with the three state variables `step`, `chartData` and `selectedTemplate`.
  - One method per handler.
  - The screen chosen for each state.

`ChartModel` holds the shared table type together with JavaScript's rules for property reads and truthiness. `JsText` holds the string built-ins the code relies on: `trim`, `split`, `includes`, `substring`, `String(n)`, and the integer part of `parseFloat` and `Number`.

Randomness is passed in as draws, and every property holds for every admissible draw:

- a shuffle gets one index `0 <= j <= i` per loop step;
- the palette choice gets an index below 5;
- saturation and lightness get numbers in `[0, 1)`.

The power `x^2.4` in the sRGB linearisation is a parameter `pow`. The model assumes only that `pow` maps `[0, 1]` into `[0, 1]` and maps 1 to 1.

What the code decides, and what it does not:

- `recommendCharts` looks only at whether some cell is a number and at the number of rows. With no numeric cell it gives `bar, line, area, pie`.
- `analyzeData` always falls back to the local heuristic when the remote call cannot be made or fails.

Two details of the code as written:

- The flow diagram's arrow between steps runs from 20 units above a node to its top. So it covers only the lower quarter of the 80-unit gap, not the whole gap from the node above. The model states this as it is.
- `parseCSV` keeps blank interior lines as rows.

## Model

| member | source | states |
|---|---|---|
| JsText.TrimStartSpec | lib/ai-service.ts:105 | trimming the start removes exactly the leading white space: the rest is a suffix that does not start with white space |
| JsText.TrimEndSpec | lib/ai-service.ts:105 | trimming the end removes exactly the trailing white space: the rest is a prefix that does not end with white space |
| JsText.TrimSplitsInput | lib/ai-service.ts:105 | `trim` cuts its input into white space, the result and white space, and the result has no white space at either end |
| JsText.TrimIdempotent | lib/ai-service.ts:108 | trimming twice is trimming once |
| JsText.SplitJoin | lib/ai-service.ts:105 | no piece of a split contains the separator, and joining the pieces with the separator gives the input back |
| JsText.SplitWithoutSeparator | lib/ai-service.ts:105 | text without the separator splits into itself alone, so the empty text gives one empty piece |
| JsText.SplitAtSeparator | lib/ai-service.ts:105 | splitting `a + sep + b` gives `a` followed by the pieces of `b` |
| JsText.SplitHasSeveralPieces | lib/ai-service.ts:105-106 | a split has at least two pieces exactly when the separator occurs |
| JsText.ContainsAt | lib/ai-service.ts:13 | `includes` holds exactly when the part occurs at some position |
| JsText.ContainsInfix | lib/ai-service.ts:13 | a text contains every part it was built around |
| JsText.Prefix | components/diagram-preview.tsx:116 | `substring(0, k)` is a prefix of the text of length `min(k, length)` |
| JsText.ParseNumberPrefixFinds | lib/ai-service.ts:113-114 | the integer `parseFloat` modelled here finds a number exactly when, after leading white space, the text starts with a digit or a sign and a digit |
| JsText.ParseNumberPrefixOfIntToString | lib/ai-service.ts:113-114 | the integer `parseFloat` modelled here reads back the integer `String` wrote, followed by any text that does not continue the digits |
| JsText.StringToNumber | components/chart-preview.tsx:124 | `Number` of a blank or empty text is 0 |
| JsText.StringToNumberOfIntToString | components/chart-preview.tsx:124 | `Number` reads back the integer `String` wrote |
| JsText.StringToNumberDefined | components/chart-preview.tsx:124 | `Number` is defined (not `NaN`) exactly when the trimmed text is empty or an optional sign followed by one or more digits |
| JsText.StringToNumberRejectsTrailing | components/chart-preview.tsx:124 | an integer followed by text that does not continue its digits (and does not end in white space) is `NaN` for `Number`, while `parseFloat` still reads the integer |
| ChartModel.TextOr | components/diagram-preview.tsx:40 | `String(c \|\| fallback)` is the fallback for a falsy cell, otherwise the cell's non-empty text |
| ChartModel.PaletteCycles | components/chart-preview.tsx:75 | colours repeat with the palette's length: slot i and slot i + length give the same colour, the colour at i modulo the length |
| ChartModel.PaletteAt | components/chart-preview.tsx:75 | `palette[i % length]` is defined exactly for a non-empty palette, is one of its colours, and is `palette[i]` for `i` below the length |
| AiService.TrimAllClean | lib/ai-service.ts:108 | every trimmed token occurs inside its original token, has no white space at either end, and is unchanged by trimming again |
| AiService.CellAt | lib/ai-service.ts:113-114 | the cell is `undefined` exactly past the last token, a number when `parseFloat` reads one, and the token text otherwise |
| AiService.FillRowSpec | lib/ai-service.ts:112-115 | after the header loop has run `n` steps, the record's keys are exactly the first `n` headers, each holding the cell of its last position |
| AiService.RowOfSpec | lib/ai-service.ts:110-116 | the record of a line sets exactly the headers, and a repeated header keeps the cell of its last position |
| AiService.ParseRow | lib/ai-service.ts:110-116 | the loop over the headers builds the record the row specification describes |
| AiService.ParseCsv | lib/ai-service.ts:103-123 | the loop over data lines returns the table the table specification describes |
| AiService.CsvTableFailsIff | lib/ai-service.ts:105-106 | `parseCSV` returns null exactly when the trimmed text has no line break, so the empty text gives null |
| AiService.CsvTableShape | lib/ai-service.ts:105-119 | the lines are the trimmed text cut at line breaks; the columns are the trimmed comma tokens of the first line, in order; row k comes from line k + 1; the title is "Imported Data" |
| AiService.CsvRowCells | lib/ai-service.ts:110-115 | every row has exactly the columns as keys; each cell is its trimmed token typed by `parseFloat`, or `undefined` exactly when the line has too few tokens |
| AiService.CsvTableExample | lib/ai-service.ts:103-123 | "a,b\n1,2" gives columns a and b and one row of two numbers |
| AiService.RecommendCharts | lib/ai-service.ts:125-136 | line, area, bar for numeric tables of more than ten rows; bar, pie, line for shorter numeric ones; bar, line, area, pie otherwise; always three or four distinct kinds including bar |
| AiService.HeuristicFallback | lib/ai-service.ts:76-101 | a parsed table comes with its recommendations, otherwise the sample table comes with bar, pie, line; the summary always names the fallback |
| AiService.FallbackSummaries | lib/ai-service.ts:83-99 | both fallback summary lines mention the fallback |
| AiService.SampleRecommendationsAgree | lib/ai-service.ts:88-98 | the fixed recommendations of the sample are what `recommendCharts` gives for it |
| AiService.AnalyzeData | lib/ai-service.ts:12-73 | without a usable key, or on any remote failure, the result is the fallback; otherwise the remote reply is returned |
| AiService.AnalyzeSkipsRemoteWithoutKey | lib/ai-service.ts:13-15 | without a usable key the remote outcome cannot change the result, and the summary names the fallback |
| AiService.PlaceholderKeysRefused | lib/ai-service.ts:13 | the empty key and every key containing "YOUR_API_KEY" are refused |
| ColorGenerator.Swap | lib/color-generator.ts:87 | the swap exchanges positions i and j and leaves every other position as it was |
| ColorGenerator.SwapPermutes | lib/color-generator.ts:87 | a swap keeps the multiset of elements |
| ColorGenerator.ShuffleFrom | lib/color-generator.ts:85-88 | after the steps for i down to 1, the length is unchanged and every position above i holds its original element |
| ColorGenerator.ShuffleFromPermutes | lib/color-generator.ts:83-90 | the shuffle returns a permutation of its input |
| ColorGenerator.ShuffleFromDistinct | lib/color-generator.ts:83-90 | shuffling keeps distinct elements distinct |
| ColorGenerator.ShuffleArray | lib/color-generator.ts:83-90 | the in-place downward swap loop on a copied array returns the shuffle of its input, with the same length |
| ColorGenerator.ContrastPaletteWellFormed | lib/color-generator.ts:22-73 | each fixed palette has eight distinct colours, each accepted by `hexToRgb` |
| ColorGenerator.RandomPalette | lib/color-generator.ts:76-80 | the chosen palette, shuffled: eight distinct valid hex colours forming a permutation of one fixed palette |
| ColorGenerator.GenerateRandomPalette | lib/color-generator.ts:6-19 | `count` colours (none for a count that is not positive); hue i is the shuffled base hue at i mod 10, always one of the ten base hues; two hues agree exactly when their positions agree mod 10; saturation and lightness lie in [60, 90) and [45, 60) |
| ColorGenerator.ShuffledCycle | lib/color-generator.ts:8-11 | a shuffle of distinct values read cyclically yields only those values, and two reads agree exactly when their positions agree modulo the length |
| ColorGenerator.BaseHuesDistinct | lib/color-generator.ts:8 | the ten base hues are distinct |
| ColorGenerator.HexToRgb | lib/color-generator.ts:118-125 | parsing succeeds exactly on an optional "#" followed by six hex digits in either case, with each component in 0..255 |
| ColorGenerator.HexRoundTrip | lib/color-generator.ts:118-125 | parsing a colour written as "#RRGGBB" gives the colour back |
| ColorGenerator.HexCanonical | lib/color-generator.ts:118-125 | writing a parsed colour back gives its six digits in upper case after "#" |
| ColorGenerator.Linearize | lib/color-generator.ts:94-97 | a linearised channel lies in [0, 1], with 0 for channel 0 and 1 for channel 255 |
| ColorGenerator.Luminance | lib/color-generator.ts:93-99 | relative luminance lies in [0, 1], with 0 for black and 1 for white |
| ColorGenerator.Ratio | lib/color-generator.ts:111-114 | the lighter-over-darker ratio is at least 1, and is 1 for equal luminances |
| ColorGenerator.RatioAtMost21 | lib/color-generator.ts:111-114 | two luminances in [0, 1] have a ratio of at most 21 |
| ColorGenerator.ContrastRatio | lib/color-generator.ts:102-115 | 1 when either colour fails to parse; always at least 1; 1 for a colour against itself |
| ColorGenerator.ContrastRatioRange | lib/color-generator.ts:102-115 | no two colours have a contrast above 21:1, and white against black has exactly 21:1 |
| ColorGenerator.ContrastRatioSymmetric | lib/color-generator.ts:108-114 | the contrast ratio does not depend on the order of the colours |
| ColorGenerator.TextColor | lib/color-generator.ts:128-134 | the text colour is "#000000" or "#FFFFFF", and white exactly when the background parses with luminance at most 0.5 |
| ColorGenerator.BlackAndWhiteParse | lib/color-generator.ts:130-133 | "#000000" and "#FFFFFF" parse to the two ends of the channel range |
| ColorGenerator.RatioAgainstEnds | lib/color-generator.ts:133 | a luminance above 0.5 has contrast above 11 against black and below 2 against white; a luminance at most 0.5 has at least 21/11 against white |
| ColorGenerator.TextColorContrast | lib/color-generator.ts:128-134 | when black is picked, black text has contrast above 11:1 and white would be below 2:1; when white is picked, its contrast is at least 21:11 |
| Diagrams.Truncate | components/diagram-preview.tsx:75 | text longer than n becomes its first n characters plus "...", shorter text is unchanged, and the result has at most n + 3 characters |
| Diagrams.RenderFlowDiagram | components/diagram-preview.tsx:36-89 | one flow step per row |
| Diagrams.FlowStepPlaced | components/diagram-preview.tsx:37-56 | step i sits at (210, 50 + 140 i) and has an arrow on x = 300 exactly when i > 0 |
| Diagrams.FlowLayout | components/diagram-preview.tsx:36-89 | steps follow row order with palette slot i and labels cut at 20 and 25 characters; only later steps have arrows, each ending at its node's top and starting inside the gap below the node above; nodes do not overlap |
| Diagrams.FlowArrowCount | components/diagram-preview.tsx:46-56 | n rows give n - 1 arrows |
| Diagrams.EvenSpacing | components/diagram-preview.tsx:122-124 | even spacing of n slots over a width puts slot k strictly inside the width, exactly one spacing left of slot k + 1, with slots k and n - 1 - k adding up to the width |
| Diagrams.EvenSlotsOf | components/diagram-preview.tsx:122-124 | positions at left + width / (n + 1) · (k + 1) are one spacing apart and mirrored about the middle left + width / 2 |
| Diagrams.TreeChildPlaced | components/diagram-preview.tsx:121-125 | tree child k of n is at x = 50 + 500 / (n + 1) · (k + 1), strictly inside 50 < x < 550, exactly 500 / (n + 1) left of child k + 1, and mirrored with child n - 1 - k about x = 300 |
| Diagrams.TreeChildrenEvenlySpaced | components/diagram-preview.tsx:121-125 | the tree's children are evenly spaced over (50, 550) and centred on the root's x = 300 |
| Diagrams.TreeLayout | components/diagram-preview.tsx:94-158 | the root is at (300, 50) with slot 0; its label is the first row's first field cut to 10 characters, or "Root" without a row or when that field is empty; there are at most six children, rows 1 onward; child k has slot k + 1, the label of row k + 1 cut to 8 characters, y = 180, increasing x inside (50, 550), evenly spaced and centred on x = 300, and a link from (300, 90) to its top |
| Diagrams.TreeRootLabelCases | components/diagram-preview.tsx:116 | the root label is the first row's first field cut to 10 characters, or "Root" when there is no row or that field is empty |
| Diagrams.OrgDepartmentPlaced | components/diagram-preview.tsx:193-197 | department k of n has its centre at x = 100 + 400 / (n + 1) · (k + 1), strictly inside 100 < x < 500, exactly 400 / (n + 1) left of the next one, and mirrored with department n - 1 - k about x = 300 |
| Diagrams.OrgDepartmentsEvenlySpaced | components/diagram-preview.tsx:193-197 | the department centres are evenly spaced over (100, 500) and centred on the head's centre x = 300 |
| Diagrams.OrgLayout | components/diagram-preview.tsx:160-238 | the head at (230, 30) exists exactly when there is a row, labelled with the first row's first field cut to 15 characters; there are at most three departments, rows 1 to 3, with slot k + 1 and the row's label cut to 15 characters, on y = 150, centres increasing inside (100, 500), evenly spaced and centred on x = 300, each linked from (300, 80) |
| Diagrams.AngleStep | components/diagram-preview.tsx:272-273 | k · 360 / n for k < n lies in [0, 360) and grows by 360 / n |
| Diagrams.MindMapLayout | components/diagram-preview.tsx:240-316 | the centre at (300, 200) exists exactly when there is a row, labelled with the first row's first field cut to 12 characters; there are at most six branches, rows 1 to 6, with slot k + 1 and the row's label cut to 10 characters; angles start at 0, rise in equal steps of 360 / n, and stay below 360 |
| Diagrams.DiagramPreview | components/diagram-preview.tsx:318-338 | "No data available" exactly when there are no rows; otherwise the layout of the requested kind, about which the layout lemmas speak, with the org head or mindmap centre present |
| Diagrams.DrawnPaletteFillsEverySlot | components/diagram-preview.tsx:14 | with the palette from `getRandomPalette`, every slot a diagram reads is filled with a colour of the chosen fixed palette |
| Charts.NumericColumnsSpec | components/chart-preview.tsx:39 | the numeric columns are exactly the columns whose first-row value is a number, kept in column order as a subsequence |
| Charts.NumericColumnsCount | components/chart-preview.tsx:39 | the filter keeps every occurrence of a numeric column and drops every occurrence of any other column |
| Charts.FirstTextColumnSpec | components/chart-preview.tsx:40 | the search finds the earliest column whose first-row value is a string, and finds nothing exactly when there is none |
| Charts.FirstTextColumnAt | components/chart-preview.tsx:40 | when position i holds the earliest column with a string in the first row, the search returns that column |
| Charts.BindSeriesSpec | components/chart-preview.tsx:35-43 | without rows there are no series and the label column is the first column, or "" without columns; otherwise the series columns are exactly the first row's numeric columns, in column order and each as often as it occurs among the columns; the label column is the earliest column whose first-row value is a string, unless there is none or its name is empty, and then the first column, or "" without columns |
| Charts.PieValue | components/chart-preview.tsx:124 | a falsy cell gives 0 and a number gives itself |
| Charts.ChartPreview | components/chart-preview.tsx:52-156 | "No data available" under the title (or "Chart") exactly when there are no rows or no columns; otherwise a pie exactly for the pie kind |
| Charts.SeriesChartBinding | components/chart-preview.tsx:67-119 | bar, line and area charts: series i plots numeric column i in colour slot i, so the plotted keys are exactly the columns with a number in the first row (a repeated header is plotted as often as it appears); the x axis is the label column; grid and legend are as styled |
| Charts.PieChartSlices | components/chart-preview.tsx:121-126 | one slice per row in row order, named by its label cell (or ""), valued by the first numeric column (0 for a falsy or missing cell), filled from slot i |
| Page.BackMovesTowardWelcome | app/page.tsx:34-38 | going back moves toward the welcome step, lands on welcome or data, and two presses reach welcome |
| Page.Home.constructor | app/page.tsx:18-20 | the initial state is welcome, no table and a bar chart |
| Page.Home.HandleStart | app/page.tsx:22 | moves to the data step and changes nothing else |
| Page.Home.HandleDataSubmit | app/page.tsx:24-27 | stores the table and moves to the template step, keeping the chart kind |
| Page.Home.HandleTemplateSelect | app/page.tsx:29-32 | stores the chart kind and moves to the workspace, keeping the table |
| Page.Home.SetSelectedTemplate | app/page.tsx:49 | the workspace's chart-kind change replaces only the chart kind |
| Page.Home.HandleBack | app/page.tsx:34-38 | data and workspace go to welcome, template goes to data, welcome stays; one test applies, because all three read the step from before the handler |
| Page.Home.CurrentScreen | app/page.tsx:40-54 | one screen per step; the workspace is shown exactly at the workspace step with a table, using the stored table and kind |
| Page.ValidWorkspaceShows | app/page.tsx:45 | once the table is stored, the workspace step always shows the workspace |
| Page.Visit | app/page.tsx:17-55 | start, submit and select lead to the workspace with that table and kind; going back then shows welcome and keeps the table |

## Left out

- The remote completion request: the `fetch` call, the prompt text, and JSON parsing of the reply. The whole call is an opaque outcome, either a reply or a failure, passed to `AnalyzeData`.
- Console warnings and errors. They have no effect on results.
- Reading `process.env` for the key. The key is a parameter.
- `Math.random`. Its values are replaced by supplied draws in range.
- RandomPalette: says nothing about the distribution of the shuffle, because the draws are inputs.
- GenerateRandomPalette:
  - the `hsl(...)` string formatting is left out, and the result holds the three numbers;
  - `count` is an integer, so JavaScript's behaviour for a fractional count is left out.
- The table's numbers are integers (`Num(int)`) everywhere, including values in a remote reply, the text `String(n)` produces for labels, and pie values. Fractional numbers in tables are left out.
- Diagram coordinates, spacings and angles are exact reals, not IEEE doubles.
- CellAt: `parseFloat` is modelled for integers only, an optional sign followed by digits. Fractions, exponents, `Infinity`, and the double-precision value of long digit runs are left out.
- StringToNumber: `Number` is modelled for integers only, in the same way. Hex, octal and binary literals and `Infinity` are left out.
- Linearize: `Math.pow(x, 2.4)` is a parameter constrained only to map [0, 1] into [0, 1] and 1 to 1.
- ContrastRatio and Luminance: use exact real arithmetic instead of IEEE doubles.
- MindMapLayout: the branch positions from `Math.cos` and `Math.sin` are left out, and each branch keeps its angle.
- Truncate and Prefix: count Unicode scalar values, where JavaScript counts UTF-16 code units. They differ only for characters outside the Basic Multilingual Plane.
- RowOfSpec: a header named `__proto__` is treated as an ordinary key. A JavaScript object literal handles that key specially.
- The `try`/`catch` in `parseCSV`: string input cannot raise anything inside it.
- React rendering, SVG attributes and the recharts components are left out, because they belong to a UI library that is not part of this model. This covers tooltips, axis styling, the pie's percentage labels, and the sizes and radii that do not bear on placement.
- The other screens, the style panel, the feedback popup and the upload handling are left out, because they are presentation code outside the core.
