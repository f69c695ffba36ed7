/**
  components/diagram-preview.tsx: the layout each diagram renderer computes
  from the table rows (node positions, connectors, palette slots and label
  truncation) and the guard that shows "No data available" for an empty table.

  `colors` is the palette the component draws once per mount with
  `getRandomPalette`; the renderers read it cyclically. Mindmap branch
  positions come from `Math.cos`/`Math.sin` and are left out: a branch keeps
  its angle.
 */
module Diagrams {
  import opened Wrappers
  import opened JsText
  import opened ChartModel
  import ColorGenerator

  /** The `diagramType` prop. */
  datatype DiagramKind = Flow | Tree | Org | MindMap

  /** A connector drawn from (x1, y1) to (x2, y2). */
  datatype Segment = Segment(x1: real, y1: real, x2: real, y2: real)

  /** A placed node: the position of its shape (the top-left corner of a
      rectangle, the centre of a circle), its fill (`None` stands for
      `undefined`) and its label text. */
  datatype Node = Node(x: real, y: real, fill: Option<string>, caption: string)

  /** A flow step: its node, the value line under the label and the arrow from
      the step before, absent for the first step. */
  datatype FlowStep = FlowStep(node: Node, value: string, arrow: Option<Segment>)

  /** A child node and the line joining it to its parent. */
  datatype Branch = Branch(node: Node, link: Segment)

  /** A mindmap branch: its angle in degrees, its fill and its label. */
  datatype Spoke = Spoke(angle: real, fill: Option<string>, caption: string)

  /** What `DiagramPreview` shows. The org chart head and the mindmap centre
      are drawn only when the first row exists. */
  datatype Diagram =
    | NoData
    | FlowDiagram(steps: seq<FlowStep>)
    | TreeDiagram(root: Node, children: seq<Branch>)
    | OrgDiagram(head: Option<Node>, departments: seq<Branch>)
    | MindMapDiagram(center: Option<Node>, spokes: seq<Spoke>)

  /** `String(item[data.columns[i]] || "")`. */
  function Field(data: ChartData, row: Row, i: nat): string {
    TextOr(Get(row, ColumnKey(data.columns, i)), "")
  }

  /** `s.length > n ? s.substring(0, n) + "..." : s`. */
  function Truncate(s: string, n: nat): (r: string)
    ensures |s| <= n ==> r == s
    ensures |s| > n ==> r == s[..n] + "..."
    ensures |r| <= n + 3
  {
    if |s| > n then Prefix(s, n) + "..." else s
  }

  function Min(a: int, b: int): int {
    if a < b then a else b
  }

  // ---------------------------------------------------------------- flow

  /** The flow step of row `i`: a 180 by 60 node centred on x = 300, rows 140
      apart, with an arrow from the bottom of the node above. */
  function FlowStepAt(data: ChartData, colors: seq<string>, i: nat): FlowStep
    requires i < |data.rows|
  {
    var x := 300.0 - 180.0 / 2.0;
    var y := 50.0 + (i as real) * (60.0 + 80.0);
    var row := data.rows[i];
    FlowStep(
      Node(x, y, PaletteAt(colors, i), Truncate(Field(data, row, 0), 20)),
      Truncate(Field(data, row, 1), 25),
      if i > 0 then Some(Segment(x + 180.0 / 2.0, y - 80.0 + 60.0, x + 180.0 / 2.0, y)) else None)
  }

  /** `renderFlowDiagram`: one step per row, in row order. */
  function RenderFlowDiagram(data: ChartData, colors: seq<string>): (steps: seq<FlowStep>)
    ensures |steps| == |data.rows|
  {
    seq(|data.rows|, i requires 0 <= i < |data.rows| => FlowStepAt(data, colors, i))
  }

  /** The flow layout: row i sits at (210, 50 + 140 i) with palette slot i and
      its labels truncated to 20 and 25 characters; exactly the steps after
      the first have an arrow, on the vertical x = 300, ending at the top of
      its node and starting 20 above it, inside the 80-high gap below the node
      before; the nodes do not overlap. */
  lemma FlowLayout(data: ChartData, colors: seq<string>)
    ensures var steps := RenderFlowDiagram(data, colors);
      forall i :: 0 <= i < |steps| ==>
        && steps[i].node.x == 210.0
        && steps[i].node.y == 50.0 + 140.0 * (i as real)
        && steps[i].node.fill == PaletteAt(colors, i)
        && steps[i].node.caption == Truncate(Field(data, data.rows[i], 0), 20)
        && steps[i].value == Truncate(Field(data, data.rows[i], 1), 25)
        && (steps[i].arrow.Some? <==> i > 0)
    ensures var steps := RenderFlowDiagram(data, colors);
      forall i :: 0 < i < |steps| ==>
        && steps[i].arrow == Some(Segment(300.0, steps[i].node.y - 20.0, 300.0, steps[i].node.y))
        && steps[i - 1].node.y + 60.0 < steps[i].node.y - 20.0
  {
    var steps := RenderFlowDiagram(data, colors);
    forall i | 0 <= i < |steps|
      ensures steps[i].node.x == 210.0 && steps[i].node.y == 50.0 + 140.0 * (i as real)
      ensures steps[i].arrow.Some? <==> i > 0
      ensures i > 0 ==> steps[i].arrow == Some(Segment(300.0, steps[i].node.y - 20.0, 300.0, steps[i].node.y))
    {
      FlowStepPlaced(data, colors, i);
    }
    forall i | 0 < i < |steps|
      ensures steps[i - 1].node.y + 60.0 < steps[i].node.y - 20.0
    {
      FlowStepPlaced(data, colors, i - 1);
      FlowStepPlaced(data, colors, i);
    }
  }

  /** The position and arrow of one flow step. */
  lemma FlowStepPlaced(data: ChartData, colors: seq<string>, i: nat)
    requires i < |data.rows|
    ensures var step := FlowStepAt(data, colors, i);
      && step.node.x == 210.0 && step.node.y == 50.0 + 140.0 * (i as real)
      && (step.arrow.Some? <==> i > 0)
      && (i > 0 ==> step.arrow == Some(Segment(300.0, step.node.y - 20.0, 300.0, step.node.y)))
  {
  }

  /** A flow diagram of n rows has n - 1 arrows. */
  function ArrowCount(steps: seq<FlowStep>): nat {
    if steps == [] then 0 else ArrowCount(steps[..|steps| - 1]) + (if steps[|steps| - 1].arrow.Some? then 1 else 0)
  }

  lemma {:induction false} FlowArrowCount(data: ChartData, colors: seq<string>, n: nat)
    requires n <= |data.rows|
    ensures ArrowCount(RenderFlowDiagram(data, colors)[..n]) == if n == 0 then 0 else n - 1
  {
    var steps := RenderFlowDiagram(data, colors);
    if n > 0 {
      assert steps[..n][..n - 1] == steps[..n - 1];
      FlowArrowCount(data, colors, n - 1);
    }
  }

  // ---------------------------------------------------------------- tree

  /** The label drawn for the first row in a tree, with "Root" when there is no
      row or its label is falsy, cut to 10 characters. */
  function TreeRootLabel(data: ChartData): string {
    var cell := if |data.rows| > 0 then Get(data.rows[0], ColumnKey(data.columns, 0)) else Undefined;
    Prefix(TextOr(cell, "Root"), 10)
  }

  /** How many children a tree draws: the rows after the first, at most 6. */
  function TreeChildCount(data: ChartData): nat {
    if |data.rows| == 0 then 0 else Min(|data.rows| - 1, 6)
  }

  /** Child k of a tree with n children: a circle at y = 180, spaced
      500 / (n + 1) apart from x = 50, joined from the root's bottom (300, 90)
      to its own top. */
  function TreeChild(data: ChartData, colors: seq<string>, k: nat): Branch
    requires k < TreeChildCount(data)
  {
    var n := TreeChildCount(data);
    var x := 50.0 + SlotOffset(500.0, n, k);
    var y := 180.0;
    Branch(Node(x, y, PaletteAt(colors, k + 1), Prefix(Field(data, data.rows[k + 1], 0), 8)),
           Segment(300.0, 90.0, x, y - 30.0))
  }

  /** `renderTreeDiagram`. */
  function RenderTreeDiagram(data: ChartData, colors: seq<string>): Diagram {
    TreeDiagram(
      Node(300.0, 50.0, PaletteAt(colors, 0), TreeRootLabel(data)),
      seq(TreeChildCount(data), k requires 0 <= k < TreeChildCount(data) => TreeChild(data, colors, k)))
  }

  /** `spacing * (index + 1)` with `spacing = width / (n + 1)`: how far slot
      k of n lies from the left edge of a row `width` wide. */
  function SlotOffset(width: real, n: nat, k: nat): real {
    (width / ((n + 1) as real)) * ((k + 1) as real)
  }

  /** Slot k < n lies strictly inside (0, width), the next slot is one
      spacing width / (n + 1) further on, and slots k and n - 1 - k are
      placed symmetrically: their offsets add up to width. */
  lemma EvenSpacing(width: real, n: nat, k: nat)
    requires width > 0.0 && k < n
    ensures 0.0 < SlotOffset(width, n, k) < width
    ensures k + 1 < n ==> SlotOffset(width, n, k + 1) - SlotOffset(width, n, k) == width / ((n + 1) as real)
    ensures k + 1 < n ==> SlotOffset(width, n, k) < SlotOffset(width, n, k + 1)
    ensures SlotOffset(width, n, k) + SlotOffset(width, n, n - 1 - k) == width
  {
    var s := width / ((n + 1) as real);
    assert SlotOffset(width, n, k) == s * ((k + 1) as real);
    assert SlotOffset(width, n, k + 1) == s * ((k + 2) as real);
    assert SlotOffset(width, n, n - 1 - k) == s * ((n - k) as real);
    assert s * ((n + 1) as real) == width;
    assert s * ((k + 2) as real) == s * ((k + 1) as real) + s;
    assert s * ((k + 1) as real) + s * ((n - k) as real) == s * ((n + 1) as real);
    assert s > 0.0;
    assert s * ((k + 1) as real) <= s * (n as real) by {
      assert (k + 1) as real <= n as real;
    }
  }

  /** The x positions of a row of nodes, each moved right by `shift` (half
      the box width for boxes, so that the positions are centres). */
  function NodeXs(branches: seq<Branch>, shift: real): (xs: seq<real>)
    ensures |xs| == |branches|
  {
    seq(|branches|, k requires 0 <= k < |branches| => branches[k].node.x + shift)
  }

  /** n positions evenly spaced over (left, left + width): position k is
      left + s (k + 1) with s = width / (n + 1), neighbours are s apart, and
      positions k and n - 1 - k are mirrored about the middle. */
  predicate EvenSlots(xs: seq<real>, left: real, width: real) {
    var s := width / ((|xs| + 1) as real);
    && (forall k :: 0 <= k < |xs| ==> xs[k] == left + SlotOffset(width, |xs|, k))
    && (forall k :: 0 <= k < |xs| - 1 ==> xs[k + 1] - xs[k] == s)
    && (forall k :: 0 <= k < |xs| ==> xs[k] + xs[|xs| - 1 - k] == 2.0 * left + width)
  }

  /** Positions at left + s (k + 1) are evenly spaced and centred. */
  lemma EvenSlotsOf(xs: seq<real>, left: real, width: real)
    requires width > 0.0
    requires forall k :: 0 <= k < |xs| ==> xs[k] == left + SlotOffset(width, |xs|, k)
    ensures EvenSlots(xs, left, width)
  {
    forall k | 0 <= k < |xs|
      ensures k + 1 < |xs| ==> xs[k + 1] - xs[k] == width / ((|xs| + 1) as real)
      ensures xs[k] + xs[|xs| - 1 - k] == 2.0 * left + width
    {
      EvenSpacing(width, |xs|, k);
    }
  }

  /** The tree's children are evenly spaced over (50, 550) and centred under
      the root at x = 300. */
  lemma TreeChildrenEvenlySpaced(data: ChartData, colors: seq<string>)
    ensures EvenSlots(NodeXs(RenderTreeDiagram(data, colors).children, 0.0), 50.0, 500.0)
  {
    var children := RenderTreeDiagram(data, colors).children;
    var xs := NodeXs(children, 0.0);
    assert |xs| == TreeChildCount(data);
    forall k | 0 <= k < |xs|
      ensures xs[k] == 50.0 + SlotOffset(500.0, |xs|, k)
    {
      assert children[k] == TreeChild(data, colors, k);
      assert xs[k] == children[k].node.x;
    }
    EvenSlotsOf(xs, 50.0, 500.0);
  }

  /** The tree layout: the root is at (300, 50) with palette slot 0 and a
      label of at most 10 characters, cut from the first row's first field,
      or "Root" when there is no row or that field is empty; child k shows row k + 1, has palette slot
      k + 1, a label of at most 8 characters, lies on y = 180 strictly inside
      50 < x < 550 and left of child k + 1, and is joined to (300, 90); the
      children are evenly spaced over (50, 550) and centred on x = 300. */
  lemma TreeLayout(data: ChartData, colors: seq<string>)
    ensures var d := RenderTreeDiagram(data, colors);
      && d.root == Node(300.0, 50.0, PaletteAt(colors, 0), d.root.caption) && |d.root.caption| <= 10
      && (if |data.rows| > 0 && Field(data, data.rows[0], 0) != ""
          then d.root.caption == Prefix(Field(data, data.rows[0], 0), 10)
          else d.root.caption == "Root")
      && |d.children| == TreeChildCount(data) <= 6
      && (|data.rows| > 0 ==> |d.children| == Min(|data.rows| - 1, 6))
      && (forall k :: 0 <= k < |d.children| ==>
            && d.children[k].node.y == 180.0
            && 50.0 < d.children[k].node.x < 550.0
            && d.children[k].node.fill == PaletteAt(colors, k + 1)
            && d.children[k].node.caption == Prefix(Field(data, data.rows[k + 1], 0), 8)
            && |d.children[k].node.caption| <= 8
            && d.children[k].link == Segment(300.0, 90.0, d.children[k].node.x, 150.0))
      && (forall k :: 0 <= k < |d.children| - 1 ==> d.children[k].node.x < d.children[k + 1].node.x)
      && EvenSlots(NodeXs(d.children, 0.0), 50.0, 500.0)
  {
    var d := RenderTreeDiagram(data, colors);
    var n := TreeChildCount(data);
    TreeRootLabelCases(data);
    forall k | 0 <= k < n
      ensures 50.0 < d.children[k].node.x < 550.0
      ensures k + 1 < n ==> d.children[k].node.x < d.children[k + 1].node.x
    {
      TreeChildPlaced(data, colors, k);
    }
    TreeChildrenEvenlySpaced(data, colors);
  }

  /** The root label is the first row's first field cut to 10 characters,
      or "Root" when there is no row or that field is empty. */
  lemma TreeRootLabelCases(data: ChartData)
    ensures if |data.rows| > 0 && Field(data, data.rows[0], 0) != ""
      then TreeRootLabel(data) == Prefix(Field(data, data.rows[0], 0), 10)
      else TreeRootLabel(data) == "Root"
  {
    assert Prefix("Root", 10) == "Root";
  }

  /** Child k of n sits at x = 50 + 500 (k + 1) / (n + 1): inside (50, 550),
      500 / (n + 1) left of child k + 1, and mirrored by child n - 1 - k
      about the root's x = 300. */
  lemma TreeChildPlaced(data: ChartData, colors: seq<string>, k: nat)
    requires k < TreeChildCount(data)
    ensures TreeChild(data, colors, k).node.x == 50.0 + (500.0 / ((TreeChildCount(data) + 1) as real)) * ((k + 1) as real)
    ensures 50.0 < TreeChild(data, colors, k).node.x < 550.0
    ensures k + 1 < TreeChildCount(data) ==> TreeChild(data, colors, k).node.x < TreeChild(data, colors, k + 1).node.x
    ensures k + 1 < TreeChildCount(data) ==>
      TreeChild(data, colors, k + 1).node.x - TreeChild(data, colors, k).node.x == 500.0 / ((TreeChildCount(data) + 1) as real)
    ensures TreeChild(data, colors, k).node.x + TreeChild(data, colors, TreeChildCount(data) - 1 - k).node.x == 600.0
  {
    EvenSpacing(500.0, TreeChildCount(data), k);
  }

  // ---------------------------------------------------------------- org chart

  /** How many department heads an org chart draws: rows 1 to 3. */
  function OrgDepartmentCount(data: ChartData): nat {
    if |data.rows| == 0 then 0 else Min(|data.rows| - 1, 3)
  }

  /** Department k of n: a 140-wide box on y = 150 whose centre is spaced
      400 / (n + 1) apart from x = 100, joined from the head's bottom
      (300, 80) to its top centre. */
  function OrgDepartment(data: ChartData, colors: seq<string>, k: nat): Branch
    requires k < OrgDepartmentCount(data)
  {
    var n := OrgDepartmentCount(data);
    var x := 100.0 + SlotOffset(400.0, n, k) - 140.0 / 2.0;
    var y := 150.0;
    Branch(Node(x, y, PaletteAt(colors, k + 1), Prefix(Field(data, data.rows[k + 1], 0), 15)),
           Segment(300.0, 80.0, x + 140.0 / 2.0, y))
  }

  /** `renderOrgChart`. */
  function RenderOrgChart(data: ChartData, colors: seq<string>): Diagram {
    OrgDiagram(
      if |data.rows| > 0 then Some(Node(300.0 - 140.0 / 2.0, 30.0, PaletteAt(colors, 0), Prefix(Field(data, data.rows[0], 0), 15))) else None,
      seq(OrgDepartmentCount(data), k requires 0 <= k < OrgDepartmentCount(data) => OrgDepartment(data, colors, k)))
  }

  /** The org layout: a head at (230, 30) exactly when there is a row; at most
      three departments, department k showing row k + 1 with palette slot
      k + 1 and a label of at most 15 characters, its centre strictly inside
      100 < x < 500 and left of the next one, joined to (300, 80), and the
      centres evenly spaced over (100, 500) and centred on x = 300. The
      head's label is the first row's first field cut to 15 characters. */
  lemma OrgLayout(data: ChartData, colors: seq<string>)
    ensures var d := RenderOrgChart(data, colors);
      && (d.head.Some? <==> |data.rows| > 0)
      && (d.head.Some? ==> d.head.value.x == 230.0 && d.head.value.y == 30.0
                           && d.head.value.fill == PaletteAt(colors, 0) && |d.head.value.caption| <= 15
                           && d.head.value.caption == Prefix(Field(data, data.rows[0], 0), 15))
      && |d.departments| == OrgDepartmentCount(data) <= 3
      && (|data.rows| > 0 ==> |d.departments| == Min(|data.rows| - 1, 3))
      && (forall k :: 0 <= k < |d.departments| ==>
            && d.departments[k].node.y == 150.0
            && 100.0 < d.departments[k].node.x + 70.0 < 500.0
            && d.departments[k].node.fill == PaletteAt(colors, k + 1)
            && d.departments[k].node.caption == Prefix(Field(data, data.rows[k + 1], 0), 15)
            && |d.departments[k].node.caption| <= 15
            && d.departments[k].link == Segment(300.0, 80.0, d.departments[k].node.x + 70.0, 150.0))
      && (forall k :: 0 <= k < |d.departments| - 1 ==> d.departments[k].node.x < d.departments[k + 1].node.x)
      && EvenSlots(NodeXs(d.departments, 140.0 / 2.0), 100.0, 400.0)
  {
    var d := RenderOrgChart(data, colors);
    var n := OrgDepartmentCount(data);
    forall k | 0 <= k < n
      ensures 100.0 < d.departments[k].node.x + 70.0 < 500.0
      ensures k + 1 < n ==> d.departments[k].node.x < d.departments[k + 1].node.x
    {
      OrgDepartmentPlaced(data, colors, k);
    }
    OrgDepartmentsEvenlySpaced(data, colors);
  }

  /** Department k of n has its centre at 100 + 400 (k + 1) / (n + 1):
      inside (100, 500), 400 / (n + 1) left of the next one, and mirrored by
      department n - 1 - k about the head's centre x = 300. */
  lemma OrgDepartmentPlaced(data: ChartData, colors: seq<string>, k: nat)
    requires k < OrgDepartmentCount(data)
    ensures OrgDepartment(data, colors, k).node.x + 70.0 == 100.0 + (400.0 / ((OrgDepartmentCount(data) + 1) as real)) * ((k + 1) as real)
    ensures 100.0 < OrgDepartment(data, colors, k).node.x + 70.0 < 500.0
    ensures k + 1 < OrgDepartmentCount(data) ==> OrgDepartment(data, colors, k).node.x < OrgDepartment(data, colors, k + 1).node.x
    ensures k + 1 < OrgDepartmentCount(data) ==>
      OrgDepartment(data, colors, k + 1).node.x - OrgDepartment(data, colors, k).node.x == 400.0 / ((OrgDepartmentCount(data) + 1) as real)
    ensures (OrgDepartment(data, colors, k).node.x + 70.0) + (OrgDepartment(data, colors, OrgDepartmentCount(data) - 1 - k).node.x + 70.0) == 600.0
  {
    EvenSpacing(400.0, OrgDepartmentCount(data), k);
  }

  /** The department centres are evenly spaced over (100, 500) and centred
      under the head at x = 300. */
  lemma OrgDepartmentsEvenlySpaced(data: ChartData, colors: seq<string>)
    ensures EvenSlots(NodeXs(RenderOrgChart(data, colors).departments, 140.0 / 2.0), 100.0, 400.0)
  {
    var departments := RenderOrgChart(data, colors).departments;
    var xs := NodeXs(departments, 140.0 / 2.0);
    assert |xs| == OrgDepartmentCount(data);
    forall k | 0 <= k < |xs|
      ensures xs[k] == 100.0 + SlotOffset(400.0, |xs|, k)
    {
      assert departments[k] == OrgDepartment(data, colors, k);
      assert xs[k] == departments[k].node.x + 140.0 / 2.0;
    }
    EvenSlotsOf(xs, 100.0, 400.0);
  }

  // ---------------------------------------------------------------- mindmap

  /** How many branches a mindmap draws: rows 1 to 6. */
  function MindMapBranchCount(data: ChartData): nat {
    if |data.rows| == 0 then 0 else Min(|data.rows| - 1, 6)
  }

  /** Branch k of n: angle k * 360 / n degrees. */
  function MindMapSpoke(data: ChartData, colors: seq<string>, k: nat): Spoke
    requires k < MindMapBranchCount(data)
  {
    var n := MindMapBranchCount(data);
    Spoke(((k * 360) as real) / (n as real), PaletteAt(colors, k + 1), Prefix(Field(data, data.rows[k + 1], 0), 10))
  }

  /** `renderMindMap`, without the branch positions. */
  function RenderMindMap(data: ChartData, colors: seq<string>): Diagram {
    MindMapDiagram(
      if |data.rows| > 0 then Some(Node(300.0, 200.0, PaletteAt(colors, 0), Prefix(Field(data, data.rows[0], 0), 12))) else None,
      seq(MindMapBranchCount(data), k requires 0 <= k < MindMapBranchCount(data) => MindMapSpoke(data, colors, k)))
  }

  /** The mindmap layout: a centre at (300, 200) exactly when there is a row,
      labelled with the first row's first field cut to 12 characters; at most six branches, branch k
      showing row k + 1 with palette slot k + 1 and a label of at most 10
      characters; the first angle is 0, the angles increase by equal steps of
      360 / n and all stay below 360. */
  lemma MindMapLayout(data: ChartData, colors: seq<string>)
    ensures var d := RenderMindMap(data, colors);
      && (d.center.Some? <==> |data.rows| > 0)
      && (d.center.Some? ==> d.center.value.x == 300.0 && d.center.value.y == 200.0
                             && d.center.value.fill == PaletteAt(colors, 0) && |d.center.value.caption| <= 12
                             && d.center.value.caption == Prefix(Field(data, data.rows[0], 0), 12))
      && |d.spokes| == MindMapBranchCount(data) <= 6
      && (|data.rows| > 0 ==> |d.spokes| == Min(|data.rows| - 1, 6))
      && (|d.spokes| > 0 ==> d.spokes[0].angle == 0.0)
      && (forall k :: 0 <= k < |d.spokes| ==>
            && 0.0 <= d.spokes[k].angle < 360.0
            && d.spokes[k].fill == PaletteAt(colors, k + 1)
            && d.spokes[k].caption == Prefix(Field(data, data.rows[k + 1], 0), 10)
            && |d.spokes[k].caption| <= 10)
      && (forall k :: 0 <= k < |d.spokes| - 1 ==>
            d.spokes[k + 1].angle - d.spokes[k].angle == 360.0 / (|d.spokes| as real))
  {
    var n := MindMapBranchCount(data);
    forall k | 0 <= k < n
      ensures 0.0 <= MindMapSpoke(data, colors, k).angle < 360.0
      ensures k + 1 < n ==> MindMapSpoke(data, colors, k + 1).angle - MindMapSpoke(data, colors, k).angle == 360.0 / (n as real)
    {
      AngleStep(n, k);
    }
  }

  /** k * 360 / n for k < n lies in [0, 360) and grows by 360 / n. */
  lemma AngleStep(n: nat, k: nat)
    requires k < n
    ensures 0.0 <= ((k * 360) as real) / (n as real) < 360.0
    ensures ((k + 1) * 360) as real / (n as real) - ((k * 360) as real) / (n as real) == 360.0 / (n as real)
  {
    var step := 360.0 / (n as real);
    assert ((k * 360) as real) / (n as real) == (k as real) * step;
    assert (((k + 1) * 360) as real) / (n as real) == ((k + 1) as real) * step;
    assert step * (n as real) == 360.0;
    assert (k as real) * step < (n as real) * step;
  }

  // ---------------------------------------------------------------- the component

  /** `DiagramPreview`: "No data available" for a table without rows,
      otherwise the renderer for the requested kind. */
  function DiagramPreview(data: ChartData, kind: DiagramKind, colors: seq<string>): (d: Diagram)
    ensures d.NoData? <==> |data.rows| == 0
    ensures |data.rows| > 0 ==> match kind
      case Flow => d == FlowDiagram(RenderFlowDiagram(data, colors))
      case Tree => d == RenderTreeDiagram(data, colors)
      case Org => d == RenderOrgChart(data, colors) && d.head.Some?
      case MindMap => d == RenderMindMap(data, colors) && d.center.Some?
  {
    if |data.rows| == 0 then NoData
    else match kind
      case Flow => FlowDiagram(RenderFlowDiagram(data, colors))
      case Tree => RenderTreeDiagram(data, colors)
      case Org => RenderOrgChart(data, colors)
      case MindMap => RenderMindMap(data, colors)
  }

  /** With the palette drawn by `getRandomPalette`, every palette slot a
      diagram reads is filled, with a colour of the chosen fixed palette. */
  lemma DrawnPaletteFillsEverySlot(namePick: nat, picks: seq<nat>, i: nat)
    requires namePick < |ColorGenerator.PaletteNames| && ColorGenerator.AdmissiblePicks(picks, 8)
    ensures var colors := ColorGenerator.RandomPalette(namePick, picks);
      && PaletteAt(colors, i).Some?
      && PaletteAt(colors, i).value in ColorGenerator.ContrastPalette(ColorGenerator.PaletteNames[namePick])
      && PaletteAt(colors, i).value == colors[i % 8]
  {
    var colors := ColorGenerator.RandomPalette(namePick, picks);
    assert colors[i % 8] in multiset(colors);
  }
}
