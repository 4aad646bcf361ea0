/**
 * src/components/charts/DetailedPerformanceChart.tsx, the `cohortCharts` computation:
 * the rows of one task grouped by cohort, each group's models sorted by mean, one chart
 * per non-empty group.
 */
module DetailedPerformance {
  import opened Collections
  import opened Types
  import EvaluationContext

  /** The rows of the task: `performances.filter((p) => p.taskId === taskId)`. */
  function TaskPerformances(performances: seq<Performance>, taskId: string): (r: seq<Performance>)
    ensures forall p :: p in r <==> p in performances && p.taskId == taskId
    ensures IsSubseq(r, performances)
    ensures forall p :: multiset(r)[p] == if p.taskId == taskId then multiset(performances)[p] else 0
  {
    Filter(performances, (p: Performance) => p.taskId == taskId)
  }

  /**
   * `Object.keys(metrics || {})[0]` for the string `metrics` of the first row: an empty
   * string is falsy and gives no key; any other string has the keys "0", "1", … of its
   * indices, so the first key is "0".
   */
  function SelectedMetric(metrics: string): Option<string>
  {
    if |metrics| == 0 then None else Some("0")
  }

  /** `currentTask?.cohort || "unknown"`. */
  function DefaultCohort(tasks: seq<Task>, taskId: string): (r: string)
    ensures |r| > 0
    ensures taskId in TaskIds(tasks) && |tasks[IndexOf(TaskIds(tasks), taskId)].cohort| > 0 ==>
      r == tasks[IndexOf(TaskIds(tasks), taskId)].cohort
    ensures !(taskId in TaskIds(tasks) && |tasks[IndexOf(TaskIds(tasks), taskId)].cohort| > 0) ==>
      r == "unknown"
  {
    match EvaluationContext.GetTaskById(tasks, taskId)
    case Some(task) => if |task.cohort| > 0 then task.cohort else "unknown"
    case None => "unknown"
  }

  // ---------------------------------------------------------------------------------
  // Grouping by cohort

  /** The `Map` after the `forEach`: every row pushed onto the array of the cohort `cohort`. */
  function Groups(rows: seq<Performance>, cohort: string): map<string, seq<Performance>>
  {
    if rows == [] then map[] else map[cohort := rows]
  }

  /**
   * The `forEach` grouping the rows: each row goes to `defaultCohort`, whose array is
   * created on the first row. The keys come back in insertion order.
   */
  method GroupByCohort(rows: seq<Performance>, defaultCohort: string)
    returns (keys: seq<string>, cohortGroups: map<string, seq<Performance>>)
    ensures keys == if rows == [] then [] else [defaultCohort]
    ensures cohortGroups == Groups(rows, defaultCohort)
  {
    keys, cohortGroups := [], map[];
    for i := 0 to |rows|
      invariant keys == if i == 0 then [] else [defaultCohort]
      invariant cohortGroups == Groups(rows[..i], defaultCohort)
    {
      var cohort := defaultCohort;
      if cohort !in cohortGroups {
        keys := keys + [cohort];
        cohortGroups := cohortGroups[cohort := []];
      }
      cohortGroups := cohortGroups[cohort := cohortGroups[cohort] + [rows[i]]];
      assert rows[..i + 1] == rows[..i] + [rows[i]];
    }
    assert rows[..|rows|] == rows;
  }

  // ---------------------------------------------------------------------------------
  // The statistics of one group

  /** The `{ modelName, mean, cohort }` record built for each row. */
  datatype ModelStat = ModelStat(modelName: string, mean: real, cohort: string)

  function StatsOf(rows: seq<Performance>, cohort: string): (r: seq<ModelStat>)
    ensures |r| == |rows|
    ensures forall i :: 0 <= i < |rows| ==> r[i] == ModelStat(rows[i].modelId, rows[i].rankMean, cohort)
  {
    seq(|rows|, i requires 0 <= i < |rows| => ModelStat(rows[i].modelId, rows[i].rankMean, cohort))
  }

  /** `(b?.mean || 0) - (a?.mean || 0) <= 0`: `a` may come first when its mean is not smaller. */
  predicate MeanGe(a: ModelStat, b: ModelStat)
  {
    b.mean <= a.mean
  }

  function ByMeanDesc(): (ModelStat, ModelStat) -> bool
  {
    (a: ModelStat, b: ModelStat) => MeanGe(a, b)
  }

  lemma ByMeanDescTotalPreorder()
    ensures TotalPreorder(ByMeanDesc())
  {
  }

  /** One element of `chartDataArray`. */
  datatype CohortChart = CohortChart(cohort: string, modelStats: seq<ModelStat>, selectedMetric: string)

  /** The charts for the task `taskId`: none, or one for its single cohort group. */
  function CohortChartsOf(performances: seq<Performance>, tasks: seq<Task>, taskId: string): seq<CohortChart>
  {
    var rows := TaskPerformances(performances, taskId);
    if |rows| == 0 then []
    else match SelectedMetric(rows[0].metrics)
      case None => []
      case Some(metric) =>
        var cohort := DefaultCohort(tasks, taskId);
        [CohortChart(cohort, SortBy(StatsOf(rows, cohort), ByMeanDesc()), metric)]
  }

  /** The `useMemo` body computing `cohortCharts`. */
  method CohortCharts(performances: seq<Performance>, tasks: seq<Task>, taskId: string)
    returns (chartDataArray: seq<CohortChart>)
    ensures chartDataArray == CohortChartsOf(performances, tasks, taskId)
  {
    var taskPerformances := TaskPerformances(performances, taskId);
    if |taskPerformances| == 0 {
      return [];
    }
    var selectedMetric := SelectedMetric(taskPerformances[0].metrics);
    if selectedMetric.None? {
      return [];
    }
    var defaultCohort := DefaultCohort(tasks, taskId);
    var keys, cohortGroups := GroupByCohort(taskPerformances, defaultCohort);
    chartDataArray := [];
    for k := 0 to |keys|
      invariant chartDataArray == if k == 0 then [] else
        [CohortChart(defaultCohort, SortBy(StatsOf(taskPerformances, defaultCohort), ByMeanDesc()), selectedMetric.value)]
    {
      var cohort := keys[k];
      var modelStats := SortBy(StatsOf(cohortGroups[cohort], cohort), ByMeanDesc());
      if |modelStats| > 0 {
        chartDataArray := chartDataArray + [CohortChart(cohort, modelStats, selectedMetric.value)];
      }
    }
  }

  /**
   * No chart, and so the "No data available for this task" card, exactly when the task has
   * no rows or its first row's metric is empty; otherwise a single chart for the task's
   * cohort (or "unknown"), labelled "0", whose statistics are those of the task's rows,
   * one per row, in non-increasing order of mean, each tagged with that cohort.
   */
  lemma CohortChartsProperties(performances: seq<Performance>, tasks: seq<Task>, taskId: string)
    ensures var charts := CohortChartsOf(performances, tasks, taskId);
      var rows := TaskPerformances(performances, taskId);
      && |charts| <= 1
      && (charts == [] <==> rows == [] || rows[0].metrics == [])
      && (charts != [] ==>
            var chart := charts[0];
            && chart.cohort == DefaultCohort(tasks, taskId)
            && chart.selectedMetric == "0"
            && multiset(chart.modelStats) == multiset(StatsOf(rows, chart.cohort))
            && |chart.modelStats| == |rows|
            && (forall i, j :: 0 <= i < j < |chart.modelStats| ==> chart.modelStats[j].mean <= chart.modelStats[i].mean)
            && (forall s :: s in chart.modelStats ==> s.cohort == chart.cohort))
  {
    var charts := CohortChartsOf(performances, tasks, taskId);
    if charts != [] {
      SortedStatsProperties(TaskPerformances(performances, taskId), DefaultCohort(tasks, taskId));
    }
  }

  /** The sorted statistics of a group: the group's own, one per row, means non-increasing. */
  lemma SortedStatsProperties(rows: seq<Performance>, cohort: string)
    ensures var sorted := SortBy(StatsOf(rows, cohort), ByMeanDesc());
      && multiset(sorted) == multiset(StatsOf(rows, cohort))
      && |sorted| == |rows|
      && (forall i, j :: 0 <= i < j < |sorted| ==> sorted[j].mean <= sorted[i].mean)
      && (forall s :: s in sorted ==> s.cohort == cohort)
  {
    var stats := StatsOf(rows, cohort);
    ByMeanDescTotalPreorder();
    SortBySorted(stats, ByMeanDesc());
    var sorted := SortBy(stats, ByMeanDesc());
    forall s | s in sorted ensures s.cohort == cohort {
      assert s in multiset(sorted);
      assert s in multiset(stats);
    }
  }
}
