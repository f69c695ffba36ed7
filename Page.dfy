/**
  app/page.tsx: the four-step wizard of the home page. Three pieces of state
  (the current step, the submitted table and the chosen chart kind) are
  changed by the screen handlers; which screen shows follows from the state.
 */
module Page {
  import opened Wrappers
  import opened ChartModel

  /** The `step` state: "welcome", "data", "template", "workspace". */
  datatype Step = Welcome | DataEntry | TemplateChoice | Workspace

  /** The screen the page renders. `Blank` is the workspace step without a
      table, where the guard renders nothing. */
  datatype Screen =
    | WelcomeScreen
    | DataInputScreen
    | TemplateSelectionScreen
    | ChartWorkspace(chartData: ChartData, chartType: ChartType)
    | Blank

  /** Where `handleBack` goes from each step. */
  function BackTarget(s: Step): Step {
    match s
    case Welcome => Welcome
    case DataEntry => Welcome
    case TemplateChoice => DataEntry
    case Workspace => Welcome
  }

  /** How far into the wizard a step is: welcome, data, template, workspace. */
  function Rank(s: Step): nat {
    match s
    case Welcome => 0
    case DataEntry => 1
    case TemplateChoice => 2
    case Workspace => 3
  }

  /** Going back always moves toward the start, and two presses from any step
      reach the welcome screen. */
  lemma BackMovesTowardWelcome(s: Step)
    ensures s != Welcome ==> Rank(BackTarget(s)) < Rank(s)
    ensures s == Welcome ==> BackTarget(s) == Welcome
    ensures BackTarget(s) == Welcome || BackTarget(s) == DataEntry
    ensures BackTarget(BackTarget(s)) == Welcome
  {
  }

  /** The `Home` component's state. */
  class Home {
    var step: Step
    var chartData: Option<ChartData>
    var selectedTemplate: ChartType

    /** The table is present on every step after the data step. */
    predicate Valid()
      reads this
    {
      (step == TemplateChoice || step == Workspace) ==> chartData.Some?
    }

    /** The initial state: welcome, no table, bar chart. */
    constructor ()
      ensures step == Welcome && chartData == None && selectedTemplate == Bar
      ensures Valid()
    {
      step := Welcome;
      chartData := None;
      selectedTemplate := Bar;
    }

    /** `handleStart`: on to the data step, nothing else changes. */
    method HandleStart()
      modifies this
      ensures step == DataEntry
      ensures chartData == old(chartData) && selectedTemplate == old(selectedTemplate)
      ensures Valid()
    {
      step := DataEntry;
    }

    /** `handleDataSubmit`: stores the table and moves on to the template step. */
    method HandleDataSubmit(data: ChartData)
      modifies this
      ensures chartData == Some(data) && step == TemplateChoice
      ensures selectedTemplate == old(selectedTemplate)
      ensures Valid()
    {
      chartData := Some(data);
      step := TemplateChoice;
    }

    /** `handleTemplateSelect`: stores the chart kind and moves on to the
      workspace; the table is kept, so the state stays valid when the handler
      runs from the step that offers it. */
    method HandleTemplateSelect(template: ChartType)
      modifies this
      ensures selectedTemplate == template && step == Workspace
      ensures chartData == old(chartData)
      ensures old(Valid()) && old(step) == TemplateChoice ==> Valid()
    {
      selectedTemplate := template;
      step := Workspace;
    }

    /** `onChartTypeChange` in the workspace: replaces the chart kind only. */
    method SetSelectedTemplate(template: ChartType)
      modifies this
      ensures selectedTemplate == template
      ensures step == old(step) && chartData == old(chartData)
      ensures old(Valid()) ==> Valid()
    {
      selectedTemplate := template;
    }

    /** `handleBack`: three tests of the step the handler was created with, so
      exactly one of them applies; data and workspace go back to welcome,
      template to data, welcome stays. */
    method HandleBack()
      modifies this
      ensures step == BackTarget(old(step))
      ensures chartData == old(chartData) && selectedTemplate == old(selectedTemplate)
      ensures Valid()
    {
      var current := step;
      if current == DataEntry {
        step := Welcome;
      }
      if current == TemplateChoice {
        step := DataEntry;
      }
      if current == Workspace {
        step := Welcome;
      }
    }

    /** What the page renders: one screen per step, and the workspace only
      when a table is present. */
    function CurrentScreen(): (s: Screen)
      reads this
      ensures s.ChartWorkspace? <==> step == Workspace && chartData.Some?
      ensures s.ChartWorkspace? ==> s.chartData == chartData.value && s.chartType == selectedTemplate
      ensures s == Blank <==> step == Workspace && chartData.None?
      ensures step == Welcome <==> s == WelcomeScreen
      ensures step == DataEntry <==> s == DataInputScreen
      ensures step == TemplateChoice <==> s == TemplateSelectionScreen
    {
      match step
      case Welcome => WelcomeScreen
      case DataEntry => DataInputScreen
      case TemplateChoice => TemplateSelectionScreen
      case Workspace => if chartData.Some? then ChartWorkspace(chartData.value, selectedTemplate) else Blank
    }
  }

  /** In a valid state the workspace step always shows the workspace. */
  lemma ValidWorkspaceShows(home: Home)
    requires home.Valid() && home.step == Workspace
    ensures home.CurrentScreen() == ChartWorkspace(home.chartData.value, home.selectedTemplate)
  {
  }

  /** A visit through the wizard: start, submit a table, pick a chart kind;
      the page then shows the workspace with that table and kind, and going
      back returns to the welcome screen with the table kept. */
  method Visit(data: ChartData, template: ChartType) returns (shown: Screen, afterBack: Screen, kept: Option<ChartData>)
    ensures shown == ChartWorkspace(data, template)
    ensures afterBack == WelcomeScreen && kept == Some(data)
  {
    var home := new Home();
    home.HandleStart();
    home.HandleDataSubmit(data);
    home.HandleTemplateSelect(template);
    shown := home.CurrentScreen();
    home.HandleBack();
    afterBack := home.CurrentScreen();
    kept := home.chartData;
  }
}
