/** `IntegrityGate` (src/IntegrityGate.tsx): the app's children are shown only after a
    run of the integrity checks passes; a failed run shows the diagnosis and a retry
    button, which starts the same run again. */
module Gate {
  import opened Wrappers
  import opened JsonValue
  import opened IntegrityCheck

  datatype GateState = Loading | Passed | Failed

  /** The ✓ or ✗ in front of a result. */
  datatype Mark = Tick | Cross

  datatype ResultRow = ResultRow(mark: Mark, name: CheckName, detail: Detail)

  /** What the gate renders: the spinner, the error screen with one row per result, or
      the children. */
  datatype Screen = LoadingScreen | ErrorScreen(rows: seq<ResultRow>) | Children

  function Row(t: TestResult): ResultRow {
    ResultRow(if t.passed then Tick else Cross, t.name, t.detail)
  }

  /** The rows of the error screen, in report order. */
  function Rows(results: seq<TestResult>): seq<ResultRow> {
    if results == [] then [] else [Row(results[0])] + Rows(results[1..])
  }

  /** One row per result, in the same order, marked ✓ exactly for the passed ones. */
  lemma {:induction false} RowsFollowResults(results: seq<TestResult>)
    ensures |Rows(results)| == |results|
    ensures forall i :: 0 <= i < |results| ==>
      && Rows(results)[i].name == results[i].name
      && Rows(results)[i].detail == results[i].detail
      && (Rows(results)[i].mark == Tick <==> results[i].passed)
  {
    if results != [] {
      RowsFollowResults(results[1..]);
      assert forall i :: 1 <= i < |results| ==> Rows(results)[i] == Rows(results[1..])[i - 1];
    }
  }

  /** The render decision of the component. */
  function Render(state: GateState, report: Option<Report>): Screen {
    if state == Loading then LoadingScreen
    else if state == Failed && report.Some? then ErrorScreen(Rows(report.value.results))
    else Children
  }

  /** A settled state agrees with its stored report. */
  predicate Settled(state: GateState, report: Option<Report>) {
    && (state == Passed ==> report.Some? && report.value.passed)
    && (state == Failed ==> report.Some? && !report.value.passed)
  }

  /** Children are rendered exactly in state `passed`; `failed` shows the error screen
      with the rows of its report. */
  lemma ChildrenIffPassed(state: GateState, report: Option<Report>)
    requires Settled(state, report)
    ensures Render(state, report) == Children <==> state == Passed
    ensures state == Failed ==> Render(state, report) == ErrorScreen(Rows(report.value.results))
    ensures Render(state, report).LoadingScreen? <==> state == Loading
  {
  }

  /** Without the stored report a `failed` state would fall through to the children:
      storing the report before the state is what keeps the gate closed. */
  lemma FailedWithoutReportOpens()
    ensures Render(Failed, None) == Children
  {
  }

  class IntegrityGate {
    var state: GateState
    var report: Option<Report>

    predicate Valid()
      reads this
    {
      Settled(state, report)
    }

    /** The first render: loading, with no report. */
    constructor ()
      ensures Valid() && state == Loading && report == None
    {
      state := Loading;
      report := None;
    }

    function View(): Screen
      reads this
    {
      Render(state, report)
    }

    /** The start of `runChecks`: back to loading; the previous report stays stored. */
    method BeginRun()
      requires Valid()
      modifies this
      ensures Valid() && state == Loading && report == old(report)
    {
      state := Loading;
    }

    /** The end of `runChecks`: the report is stored, then the state follows its verdict.
        A rejected run never reaches either assignment. */
    method FinishRun(outcome: RunOutcome)
      requires Valid()
      modifies this
      ensures Valid()
      ensures outcome.Completed? ==>
        report == Some(outcome.report) && state == (if outcome.report.passed then Passed else Failed)
      ensures outcome.Rejected? ==> state == old(state) && report == old(report)
    {
      if outcome.Completed? {
        report := Some(outcome.report);
        state := if outcome.report.passed then Passed else Failed;
      }
    }

    /** `runChecks`, on mount and on every retry: the gate opens iff the run's report
        passes; a rejected run leaves the spinner up. */
    method RunChecks(alertsRes: Response, historyRes: Response, rangeRes: Response,
                     now: int, dateOf: Prop -> DateValue)
      requires Valid()
      modifies this
      ensures Valid()
      ensures var run := IntegrityRun(alertsRes, historyRes, rangeRes, now, dateOf);
        && (run.Completed? ==> report == Some(run.report)
                               && (View() == Children <==> run.report.passed)
                               && (View().ErrorScreen? <==> !run.report.passed))
        && (run.Rejected? ==> state == Loading && report == old(report) && View() == LoadingScreen)
    {
      BeginRun();
      var outcome := RunIntegrityChecks(alertsRes, historyRes, rangeRes, now, dateOf);
      FinishRun(outcome);
      ChildrenIffPassed(state, report);
    }
  }
}
