/**
 * src/components/selectors/MetricSelector.tsx: the check-box list of metrics. The
 * valid metrics are those of the filtered tasks, selections that are no longer valid
 * are dropped, and each box toggles its metric in the selection.
 */
module MetricSelector {
  import opened Collections
  import opened Types
  import EvaluationContext

  // ---------------------------------------------------------------------------------
  // getValidMetricsForTasks

  /** The metrics added to the Set after the first `i` tasks and `k` metrics of task `i`. */
  function MetricsSoFar(tasks: seq<Task>, i: nat, k: nat): seq<string>
    requires i < |tasks| && k <= |tasks[i].evaluationMetrics|
  {
    MetricsOf(tasks[..i]) + tasks[i].evaluationMetrics[..k]
  }

  lemma MetricsSoFarStep(tasks: seq<Task>, i: nat, k: nat)
    requires i < |tasks| && k < |tasks[i].evaluationMetrics|
    ensures MetricsSoFar(tasks, i, k + 1) == MetricsSoFar(tasks, i, k) + [tasks[i].evaluationMetrics[k]]
  {
    var ms := tasks[i].evaluationMetrics;
    assert ms[..k + 1] == ms[..k] + [ms[k]];
  }

  lemma MetricsOfTaskDone(tasks: seq<Task>, i: nat)
    requires i < |tasks|
    ensures MetricsSoFar(tasks, i, |tasks[i].evaluationMetrics|) == MetricsOf(tasks[..i + 1])
  {
    var ms := tasks[i].evaluationMetrics;
    assert ms[..|ms|] == ms;
    assert tasks[..i + 1] == tasks[..i] + [tasks[i]];
    MetricsOfSnoc(tasks[..i], tasks[i]);
  }

  /**
   * The nested `forEach` adding every metric of every task to a Set: the distinct metrics
   * of the tasks in first-occurrence order.
   */
  method CollectMetrics(tasks: seq<Task>) returns (metrics: seq<string>)
    ensures metrics == Distinct(MetricsOf(tasks))
  {
    metrics := [];
    for i := 0 to |tasks|
      invariant metrics == Distinct(MetricsOf(tasks[..i]))
    {
      metrics := AddTaskMetrics(tasks, i, metrics);
    }
    assert tasks[..|tasks|] == tasks;
  }

  /** The inner `forEach`: the metrics of task `i` added to the Set one by one. */
  method AddTaskMetrics(tasks: seq<Task>, i: nat, metrics: seq<string>) returns (metrics': seq<string>)
    requires i < |tasks| && metrics == Distinct(MetricsOf(tasks[..i]))
    ensures metrics' == Distinct(MetricsOf(tasks[..i + 1]))
  {
    var ms := tasks[i].evaluationMetrics;
    metrics' := metrics;
    assert MetricsSoFar(tasks, i, 0) == MetricsOf(tasks[..i]);
    for k := 0 to |ms|
      invariant metrics' == Distinct(MetricsSoFar(tasks, i, k))
    {
      MetricsSoFarStep(tasks, i, k);
      DistinctSnoc(MetricsSoFar(tasks, i, k), ms[k]);
      if ms[k] !in metrics' {
        metrics' := metrics' + [ms[k]];
      }
    }
    MetricsOfTaskDone(tasks, i);
  }

  /** `getValidMetricsForTasks()`: the context's metrics without filtered tasks, else those of the tasks. */
  function ValidMetrics(allMetrics: seq<string>, filteredTasks: seq<Task>): seq<string>
  {
    if |filteredTasks| == 0 then allMetrics else Distinct(MetricsOf(filteredTasks))
  }

  method GetValidMetricsForTasks(allMetrics: seq<string>, filteredTasks: seq<Task>) returns (metrics: seq<string>)
    ensures metrics == ValidMetrics(allMetrics, filteredTasks)
  {
    if |filteredTasks| == 0 {
      return allMetrics;
    }
    metrics := CollectMetrics(filteredTasks);
  }

  /** With filtered tasks, the valid metrics are each metric of a filtered task once, first seen first. */
  lemma ValidMetricsOfTasks(allMetrics: seq<string>, filteredTasks: seq<Task>)
    requires filteredTasks != []
    ensures var r := ValidMetrics(allMetrics, filteredTasks);
      && NoDup(r)
      && (forall m :: m in r <==> exists t :: t in filteredTasks && m in t.evaluationMetrics)
      && (forall i, j :: 0 <= i < j < |r| ==>
            IndexOf(MetricsOf(filteredTasks), r[i]) < IndexOf(MetricsOf(filteredTasks), r[j]))
  {
    assert ValidMetrics(allMetrics, filteredTasks) == EvaluationContext.AvailableMetrics(filteredTasks);
  }

  /**
   * The context passes the metrics of its filtered tasks as `allMetrics`, so the valid
   * metrics are exactly the context's metrics, whether or not any task passes the filters.
   */
  lemma ValidMetricsInContext(filteredTasks: seq<Task>)
    ensures ValidMetrics(EvaluationContext.AvailableMetrics(filteredTasks), filteredTasks)
         == EvaluationContext.AvailableMetrics(filteredTasks)
  {
  }

  // ---------------------------------------------------------------------------------
  // handleMetricToggle and the clean-up effect

  /** `handleMetricToggle(metric)`: the value passed to `onChange`. */
  function HandleMetricToggle(value: seq<string>, metric: string): seq<string>
  {
    Toggle(value, metric)
  }

  /**
   * Ticking a box flips whether its metric is selected and leaves every other metric as
   * it was; a selection without duplicates keeps none; and ticking an unselected box
   * twice gives the selection back.
   */
  lemma HandleMetricToggleRoundTrip(value: seq<string>, metric: string)
    ensures metric in HandleMetricToggle(value, metric) <==> metric !in value
    ensures forall m :: m != metric ==> (m in HandleMetricToggle(value, metric) <==> m in value)
    ensures NoDup(value) ==> NoDup(HandleMetricToggle(value, metric))
    ensures metric !in value ==> HandleMetricToggle(HandleMetricToggle(value, metric), metric) == value
  {
    ToggleTwice(value, metric);
  }

  /** `value.filter((metric) => metrics.includes(metric))`. */
  function ValidSelections(value: seq<string>, metrics: seq<string>): (r: seq<string>)
    ensures forall m :: m in r <==> m in value && m in metrics
    ensures IsSubseq(r, value)
    ensures forall m :: multiset(r)[m] == if m in metrics then multiset(value)[m] else 0
  {
    Filter(value, m => m in metrics)
  }

  /** The effect: `Some(validSelections)` when it calls `onChange`, `None` when it does nothing. */
  function Cleanup(value: seq<string>, metrics: seq<string>): Option<seq<string>>
  {
    var valid := ValidSelections(value, metrics);
    if |valid| != |value| then Some(valid) else None
  }

  /** The effect calls `onChange` exactly when a selected metric is not valid, with the valid ones. */
  lemma CleanupCalls(value: seq<string>, metrics: seq<string>)
    ensures Cleanup(value, metrics).None? <==> forall m :: m in value ==> m in metrics
    ensures Cleanup(value, metrics).Some? ==>
      var r := Cleanup(value, metrics).value;
      && |r| < |value| && IsSubseq(r, value)
      && (forall m :: m in r <==> m in value && m in metrics)
      && (forall m :: multiset(r)[m] == if m in metrics then multiset(value)[m] else 0)
  {
  }

  /** After the clean-up every selection is valid, so the effect runs again without calling `onChange`. */
  lemma CleanupIdempotent(value: seq<string>, metrics: seq<string>)
    ensures var after := if Cleanup(value, metrics).Some? then Cleanup(value, metrics).value else value;
      && (forall m :: m in after ==> m in metrics)
      && Cleanup(after, metrics).None?
      && ValidSelections(after, metrics) == after
  {
    var after := if Cleanup(value, metrics).Some? then Cleanup(value, metrics).value else value;
    CleanupCalls(value, metrics);
    CleanupCalls(after, metrics);
  }

  // ---------------------------------------------------------------------------------
  // The check boxes

  /** `metric.replace("_", " ")`: only the first underscore becomes a space. */
  function ReplaceFirstUnderscore(metric: string): (r: string)
    ensures |r| == |metric|
    ensures '_' !in metric ==> r == metric
    ensures '_' in metric ==> var i := IndexOf(metric, '_');
      r[i] == ' ' && r[..i] == metric[..i] && r[i + 1..] == metric[i + 1..]
  {
    if '_' !in metric then metric
    else
      var i := IndexOf(metric, '_');
      metric[..i] + " " + metric[i + 1..]
  }

  /** One row of the list: the metric's box, whether it is ticked or disabled, and its label. */
  datatype Checkbox = Checkbox(metric: string, checked: bool, disabled: bool, caption: string)

  /** `allMetrics.map(...)`: a box per metric, disabled exactly when the metric is not valid. */
  function Checkboxes(allMetrics: seq<string>, value: seq<string>, metrics: seq<string>): (r: seq<Checkbox>)
    ensures |r| == |allMetrics|
    ensures forall i :: 0 <= i < |r| ==>
      && r[i].metric == allMetrics[i]
      && (r[i].checked <==> allMetrics[i] in value)
      && (r[i].disabled <==> allMetrics[i] !in metrics)
      && r[i].caption == ReplaceFirstUnderscore(allMetrics[i])
  {
    seq(|allMetrics|, i requires 0 <= i < |allMetrics| =>
      var m := allMetrics[i];
      Checkbox(m, m in value, m !in metrics, ReplaceFirstUnderscore(m)))
  }

  /** In the dashboard no box is ever disabled: the valid metrics are the listed ones. */
  lemma NoBoxDisabledInContext(filteredTasks: seq<Task>, value: seq<string>)
    ensures var all := EvaluationContext.AvailableMetrics(filteredTasks);
      forall b :: b in Checkboxes(all, value, ValidMetrics(all, filteredTasks)) ==> !b.disabled
  {
    var all := EvaluationContext.AvailableMetrics(filteredTasks);
    ValidMetricsInContext(filteredTasks);
    var boxes := Checkboxes(all, value, ValidMetrics(all, filteredTasks));
    forall b | b in boxes ensures !b.disabled {
      var i :| 0 <= i < |boxes| && boxes[i] == b;
      assert all[i] in all;
    }
  }
}
