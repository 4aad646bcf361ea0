/**
 * src/components/charts/PieDataDistributionChart.tsx: the pie of metrics. One pass over
 * the filtered performances collects, per metric, the Set of filtered tasks having a
 * row under it; each shown metric becomes a slice whose value is the size of that Set.
 */
module PieDistribution {
  import opened Collections
  import opened Types
  import OverallRankTasks

  /** The test `filteredTaskIds.has(performance.taskId)`. */
  function InTasks(filteredTaskIds: seq<string>): Performance -> bool
  {
    (p: Performance) => p.taskId in filteredTaskIds
  }

  /** The rows the single pass acts on. */
  function Relevant(ps: seq<Performance>, filteredTaskIds: seq<string>): (r: seq<Performance>)
    ensures forall p :: p in r <==> p in ps && p.taskId in filteredTaskIds
    ensures IsSubseq(r, ps)
    ensures forall p :: multiset(r)[p] == if p.taskId in filteredTaskIds then multiset(ps)[p] else 0
  {
    Filter(ps, InTasks(filteredTaskIds))
  }

  lemma RelevantStep(ps: seq<Performance>, filteredTaskIds: seq<string>, i: nat)
    requires i < |ps|
    ensures Relevant(ps[..i + 1], filteredTaskIds) ==
      if ps[i].taskId in filteredTaskIds then Relevant(ps[..i], filteredTaskIds) + [ps[i]]
      else Relevant(ps[..i], filteredTaskIds)
  {
    assert ps[..i + 1] == ps[..i] + [ps[i]];
    FilterSnoc(ps[..i], ps[i], InTasks(filteredTaskIds));
  }

  /** `set.add(x)` on a Set kept as its elements in insertion order. */
  function AddId(s: seq<string>, x: string): seq<string>
  {
    if x in s then s else s + [x]
  }

  /**
   * `metricTaskSets` after the rows `rel`: the metric of the last row gets a Set if it
   * has none, and the row's task id is added to it.
   */
  function TaskSets(rel: seq<Performance>): map<string, seq<string>>
  {
    if rel == [] then map[]
    else
      var sets := TaskSets(rel[..|rel| - 1]);
      var p := rel[|rel| - 1];
      sets[p.metrics := AddId(if p.metrics in sets then sets[p.metrics] else [], p.taskId)]
  }

  /** The task id of every row under metric `m`, repetitions included, in row order. */
  function IdsWithMetric(rel: seq<Performance>, m: string): (r: seq<string>)
    ensures forall id :: id in r <==> exists p :: p in rel && p.metrics == m && p.taskId == id
  {
    if rel == [] then []
    else
      var init, p := rel[..|rel| - 1], rel[|rel| - 1];
      assert rel == init + [p];
      IdsWithMetric(init, m) + if p.metrics == m then [p.taskId] else []
  }

  lemma MetricsOfRowsSnoc(rel: seq<Performance>, p: Performance)
    ensures OverallRankTasks.MetricsOfRows(rel + [p]) == OverallRankTasks.MetricsOfRows(rel) + [p.metrics]
  {
  }

  /** A metric no row has collects no task id. */
  lemma {:induction false} IdsWithMetricAbsent(rel: seq<Performance>, m: string)
    requires m !in OverallRankTasks.MetricsOfRows(rel)
    ensures IdsWithMetric(rel, m) == []
  {
    if rel != [] {
      var init, p := rel[..|rel| - 1], rel[|rel| - 1];
      assert rel == init + [p];
      MetricsOfRowsSnoc(init, p);
      IdsWithMetricAbsent(init, m);
    }
  }

  /**
   * The Sets are keyed by exactly the metrics of the rows, and the Set of a metric holds
   * the task ids of its rows, each once, first seen first.
   */
  lemma TaskSetsContents(rel: seq<Performance>)
    ensures forall m :: m in TaskSets(rel) <==> m in OverallRankTasks.MetricsOfRows(rel)
    ensures forall m :: m in TaskSets(rel) ==> TaskSets(rel)[m] == Distinct(IdsWithMetric(rel, m))
  {
    TaskSetsKeys(rel);
    TaskSetsValues(rel);
  }

  lemma {:induction false} TaskSetsKeys(rel: seq<Performance>)
    ensures forall m :: m in TaskSets(rel) <==> m in OverallRankTasks.MetricsOfRows(rel)
  {
    if rel != [] {
      var init, p := rel[..|rel| - 1], rel[|rel| - 1];
      assert rel == init + [p];
      TaskSetsKeys(init);
      MetricsOfRowsSnoc(init, p);
    }
  }

  lemma {:induction false} TaskSetsValues(rel: seq<Performance>)
    ensures forall m :: m in TaskSets(rel) ==> TaskSets(rel)[m] == Distinct(IdsWithMetric(rel, m))
  {
    if rel != [] {
      var init, p := rel[..|rel| - 1], rel[|rel| - 1];
      TaskSetsValues(init);
      var m, sets := p.metrics, TaskSets(init);
      assert IdsWithMetric(rel, m) == IdsWithMetric(init, m) + [p.taskId];
      DistinctSnoc(IdsWithMetric(init, m), p.taskId);
      if m !in sets {
        TaskSetsKeys(init);
        IdsWithMetricAbsent(init, m);
      }
      forall n | n in TaskSets(rel) && n != m
        ensures TaskSets(rel)[n] == Distinct(IdsWithMetric(rel, n))
      {
        assert IdsWithMetric(rel, n) == IdsWithMetric(init, n);
      }
    }
  }

  /** What the pass holds after the first `i` performances. */
  ghost predicate Collected(ps: seq<Performance>, filteredTaskIds: seq<string>, i: nat,
                            allMetrics: seq<string>, taskSets: map<string, seq<string>>)
    requires i <= |ps|
  {
    var rel := Relevant(ps[..i], filteredTaskIds);
    allMetrics == Distinct(OverallRankTasks.MetricsOfRows(rel)) && taskSets == TaskSets(rel)
  }

  /** One step of the pass: a row of a filtered task adds its metric and its task id. */
  lemma CollectedStep(ps: seq<Performance>, filteredTaskIds: seq<string>, i: nat,
                      allMetrics: seq<string>, taskSets: map<string, seq<string>>)
    requires i < |ps| && Collected(ps, filteredTaskIds, i, allMetrics, taskSets)
    ensures ps[i].taskId !in filteredTaskIds ==> Collected(ps, filteredTaskIds, i + 1, allMetrics, taskSets)
    ensures ps[i].taskId in filteredTaskIds ==>
      var m := ps[i].metrics;
      Collected(ps, filteredTaskIds, i + 1, AddId(allMetrics, m),
                taskSets[m := AddId(if m in taskSets then taskSets[m] else [], ps[i].taskId)])
  {
    RelevantStep(ps, filteredTaskIds, i);
    if ps[i].taskId in filteredTaskIds {
      RowStep(Relevant(ps[..i], filteredTaskIds), ps[i]);
    }
  }

  lemma RowStep(rel: seq<Performance>, p: Performance)
    ensures Distinct(OverallRankTasks.MetricsOfRows(rel + [p])) ==
            AddId(Distinct(OverallRankTasks.MetricsOfRows(rel)), p.metrics)
    ensures var sets := TaskSets(rel);
      TaskSets(rel + [p]) == sets[p.metrics := AddId(if p.metrics in sets then sets[p.metrics] else [], p.taskId)]
  {
    MetricsOfRowsSnoc(rel, p);
    DistinctSnoc(OverallRankTasks.MetricsOfRows(rel), p.metrics);
    assert (rel + [p])[..|rel|] == rel;
  }

  /**
   * The `forEach` over the filtered performances, filling `allAvailableMetrics` and
   * `metricTaskSets` for the rows of filtered tasks.
   */
  method CollectMetricTasks(ps: seq<Performance>, filteredTaskIds: seq<string>)
    returns (allMetrics: seq<string>, taskSets: map<string, seq<string>>)
    ensures allMetrics == Distinct(OverallRankTasks.MetricsOfRows(Relevant(ps, filteredTaskIds)))
    ensures taskSets == TaskSets(Relevant(ps, filteredTaskIds))
  {
    allMetrics := [];
    taskSets := map[];
    for i := 0 to |ps|
      invariant Collected(ps, filteredTaskIds, i, allMetrics, taskSets)
    {
      CollectedStep(ps, filteredTaskIds, i, allMetrics, taskSets);
      var performance := ps[i];
      if performance.taskId in filteredTaskIds {
        var metric := performance.metrics;
        allMetrics := AddId(allMetrics, metric);
        var taskSet := if metric in taskSets then taskSets[metric] else [];
        taskSets := taskSets[metric := AddId(taskSet, performance.taskId)];
      }
    }
    assert ps[..|ps|] == ps;
  }

  // ---------------------------------------------------------------------------------
  // The slices

  datatype Slice = Slice(name: string, value: nat)

  /** The "No tasks available" title, or the pie's data. */
  datatype PieChart = NoTasksAvailable | Pie(slices: seq<Slice>)

  /** `metricsToShow`: every available metric in overall mode, else the selected ones. */
  function MetricsToShow(selected: seq<string>, allMetrics: seq<string>): seq<string>
  {
    if OverallRankTasks.IsOverallMode(selected, allMetrics) then allMetrics else selected
  }

  /** The predicate of `.filter((metric) => metricTaskSets[metric]?.size > 0)`. */
  function HasTasks(sets: map<string, seq<string>>): string -> bool
  {
    (m: string) => m in sets && |sets[m]| > 0
  }

  /** The filter and the `map` to `{ name, value }`, fused, from the end of `names`. */
  function SlicesOf(names: seq<string>, sets: map<string, seq<string>>): seq<Slice>
  {
    if names == [] then []
    else
      var m := names[|names| - 1];
      SlicesOf(names[..|names| - 1], sets) + if m in sets && |sets[m]| > 0 then [Slice(m, |sets[m]|)] else []
  }

  function SliceNames(slices: seq<Slice>): (r: seq<string>)
    ensures |r| == |slices| && forall i :: 0 <= i < |slices| ==> r[i] == slices[i].name
  {
    seq(|slices|, i requires 0 <= i < |slices| => slices[i].name)
  }

  /** Naming the slices after appending at most one more slice. */
  lemma SliceNamesSnoc(r: seq<Slice>, m: string, v: nat, keep: bool)
    ensures SliceNames(r + if keep then [Slice(m, v)] else []) == SliceNames(r) + if keep then [m] else []
  {
    if !keep {
      assert r + [] == r;
    }
  }

  /** The slices name, in order, the metrics with a non-empty Set. */
  lemma {:induction false} SlicesOfNames(names: seq<string>, sets: map<string, seq<string>>)
    ensures SliceNames(SlicesOf(names, sets)) == Filter(names, HasTasks(sets))
  {
    if names != [] {
      var init, m := names[..|names| - 1], names[|names| - 1];
      assert names == init + [m];
      SlicesOfNames(init, sets);
      FilterSnoc(init, m, HasTasks(sets));
      SliceNamesSnoc(SlicesOf(init, sets), m, if m in sets then |sets[m]| else 0, HasTasks(sets)(m));
    }
  }

  /** Every slice carries the size of its metric's Set, which is at least one. */
  lemma {:induction false} SlicesOfValues(names: seq<string>, sets: map<string, seq<string>>)
    ensures forall s :: s in SlicesOf(names, sets) ==> s.name in sets && s.value == |sets[s.name]| >= 1
  {
    if names != [] {
      SlicesOfValues(names[..|names| - 1], sets);
    }
  }

  /** The chart's data for the filtered tasks and performances and the selected metrics. */
  function PieData(filteredTasks: seq<Task>, filteredPerformances: seq<Performance>, selected: seq<string>): PieChart
  {
    if |filteredTasks| == 0 || |filteredPerformances| == 0 then NoTasksAvailable
    else
      var rel := Relevant(filteredPerformances, TaskIds(filteredTasks));
      var allMetrics := Distinct(OverallRankTasks.MetricsOfRows(rel));
      Pie(SlicesOf(MetricsToShow(selected, allMetrics), TaskSets(rel)))
  }

  /** `chartOptions`, reduced to its data. */
  method ChartOptions(filteredTasks: seq<Task>, filteredPerformances: seq<Performance>, selected: seq<string>)
    returns (chart: PieChart)
    ensures chart == PieData(filteredTasks, filteredPerformances, selected)
  {
    if |filteredTasks| == 0 || |filteredPerformances| == 0 {
      return NoTasksAvailable;
    }
    var filteredTaskIds := TaskIds(filteredTasks);
    var allMetrics, metricTaskSets := CollectMetricTasks(filteredPerformances, filteredTaskIds);
    var isOverallMode := |selected| == 0 ||
      (|selected| == |allMetrics| && forall m :: m in selected ==> m in allMetrics);
    var metricsToShow := if isOverallMode then allMetrics else selected;
    chart := Pie(SlicesOf(metricsToShow, metricTaskSets));
  }

  /** A metric has a non-empty Set exactly when some row has it. */
  lemma HasTasksOfRows(rel: seq<Performance>)
    ensures forall m :: HasTasks(TaskSets(rel))(m) <==> m in Distinct(OverallRankTasks.MetricsOfRows(rel))
  {
    TaskSetsContents(rel);
    forall m | m in OverallRankTasks.MetricsOfRows(rel) ensures HasTasks(TaskSets(rel))(m) {
      var k :| 0 <= k < |rel| && OverallRankTasks.MetricsOfRows(rel)[k] == m;
      assert rel[k] in rel && rel[k].metrics == m;
      assert rel[k].taskId in IdsWithMetric(rel, m);
      assert m in TaskSets(rel);
    }
  }

  /**
   * A slice counts the distinct tasks with a row under its metric: at least one, and no
   * more than the distinct filtered tasks when every row is of a filtered task.
   */
  lemma SliceValuesBounded(rel: seq<Performance>, ids: seq<string>, names: seq<string>)
    requires forall p :: p in rel ==> p.taskId in ids
    ensures forall s :: s in SlicesOf(names, TaskSets(rel)) ==>
      && s.value == |Distinct(IdsWithMetric(rel, s.name))|
      && 1 <= s.value <= |Distinct(ids)|
  {
    TaskSetsContents(rel);
    SlicesOfValues(names, TaskSets(rel));
    forall s | s in SlicesOf(names, TaskSets(rel)) ensures s.value <= |Distinct(ids)| {
      NoDupSubsetLength(Distinct(IdsWithMetric(rel, s.name)), Distinct(ids));
    }
  }

  /**
   * The placeholder appears exactly without filtered tasks or performances. Otherwise
   * every slice counts the distinct filtered tasks with a row under its metric, at least
   * one and at most the number of distinct filtered tasks; overall mode shows every
   * metric of those rows, first seen first, and otherwise the selected metrics that
   * occur among them, in selection order.
   */
  lemma PieDataProperties(filteredTasks: seq<Task>, filteredPerformances: seq<Performance>, selected: seq<string>)
    ensures var chart := PieData(filteredTasks, filteredPerformances, selected);
      && (chart.NoTasksAvailable? <==> filteredTasks == [] || filteredPerformances == [])
      && (chart.Pie? ==>
            var ids := TaskIds(filteredTasks);
            var rel := Relevant(filteredPerformances, ids);
            var allMetrics := Distinct(OverallRankTasks.MetricsOfRows(rel));
            && (forall s :: s in chart.slices ==>
                  && s.value == |Distinct(IdsWithMetric(rel, s.name))|
                  && 1 <= s.value <= |Distinct(ids)|)
            && (OverallRankTasks.IsOverallMode(selected, allMetrics) ==> SliceNames(chart.slices) == allMetrics)
            && (!OverallRankTasks.IsOverallMode(selected, allMetrics) ==>
                  && IsSubseq(SliceNames(chart.slices), selected)
                  && (forall m :: m in SliceNames(chart.slices) <==> m in selected && m in allMetrics)
                  && forall m :: multiset(SliceNames(chart.slices))[m] ==
                       if m in allMetrics then multiset(selected)[m] else 0))
  {
    if filteredTasks != [] && filteredPerformances != [] {
      var ids := TaskIds(filteredTasks);
      var rel := Relevant(filteredPerformances, ids);
      var allMetrics := Distinct(OverallRankTasks.MetricsOfRows(rel));
      var shown := MetricsToShow(selected, allMetrics);
      HasTasksOfRows(rel);
      SlicesOfNames(shown, TaskSets(rel));
      SliceValuesBounded(rel, ids, shown);
    }
  }
}
