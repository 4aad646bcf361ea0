/**
 * src/components/charts/OverallRankBarChart.tsx, first stage of `chartOptions`: the
 * tasks that occur among the filtered performances, each with its label and the set of
 * metrics recorded for it, sorted by label in descending order, and the metric
 * selection rule that decides which of them are ranked.
 */
module OverallRankTasks {
  import opened Collections
  import opened Types
  import TaskData
  import EvaluationContext

  /** An element of `allTasksWithMetrics`. */
  datatype TaskRow = TaskRow(id: string, name: string, availableMetrics: seq<string>, task: Option<Task>)

  /** The metric of every row, row by row. */
  function MetricsOfRows(ps: seq<Performance>): (r: seq<string>)
    ensures |r| == |ps| && forall i :: 0 <= i < |ps| ==> r[i] == ps[i].metrics
  {
    seq(|ps|, i requires 0 <= i < |ps| => ps[i].metrics)
  }

  /** A metric is listed exactly when some row carries it. */
  lemma MetricsOfRowsIn(ps: seq<Performance>)
    ensures forall m :: m in MetricsOfRows(ps) <==> exists p :: p in ps && p.metrics == m
  {
    var ms := MetricsOfRows(ps);
    forall m | m in ms ensures exists p :: p in ps && p.metrics == m {
      var k :| 0 <= k < |ms| && ms[k] == m;
      assert ps[k] in ps;
    }
    forall p | p in ps ensures p.metrics in ms {
      var k :| 0 <= k < |ps| && ps[k] == p;
      assert ms[k] == p.metrics;
    }
  }

  /** `filteredPerformances.filter((p) => p.taskId === id)`. */
  function RowsOfTask(ps: seq<Performance>, id: string): (r: seq<Performance>)
    ensures forall p :: p in r <==> p in ps && p.taskId == id
    ensures IsSubseq(r, ps)
    ensures forall p :: multiset(r)[p] == if p.taskId == id then multiset(ps)[p] else 0
  {
    Filter(ps, (p: Performance) => p.taskId == id)
  }

  /** `task.evaluationMetrics[0]` inside a template string; a missing element prints "undefined". */
  function FirstMetricText(t: Task): string
  {
    if |t.evaluationMetrics| > 0 then t.evaluationMetrics[0] else "undefined"
  }

  /** The axis label: "<name>(<organ>)<br/><first metric>" for a known task, else the id. */
  function Label(task: Option<Task>, id: string): string
  {
    match task
    case None => id
    case Some(t) => t.name + "(" + t.organ + ")<br/>" + FirstMetricText(t)
  }

  /** The element built for task id `id`. */
  function TaskRowOf(ps: seq<Performance>, tasks: seq<Task>, id: string): (row: TaskRow)
    ensures row.id == id && row.task == EvaluationContext.GetTaskById(tasks, id)
    ensures NoDup(row.availableMetrics)
    ensures forall m :: m in row.availableMetrics <==> exists p :: p in ps && p.taskId == id && p.metrics == m
  {
    var task := EvaluationContext.GetTaskById(tasks, id);
    var own := RowsOfTask(ps, id);
    MetricsOfRowsIn(own);
    TaskRow(id, Label(task, id), Distinct(MetricsOfRows(own)), task)
  }

  /**
   * The element's label: the bare id when no task has that id, and otherwise a label
   * that starts with the task's name (followed by its organ and first metric).
   */
  lemma TaskRowOfLabel(ps: seq<Performance>, tasks: seq<Task>, id: string)
    ensures var row := TaskRowOf(ps, tasks, id);
      && (row.task.None? ==> row.name == id)
      && (row.task.Some? ==> row.task.value.name <= row.name)
  {
    var task := EvaluationContext.GetTaskById(tasks, id);
    if task.Some? {
      var t := task.value;
      PrefixOfAppend(t.name, "(" + t.organ + ")<br/>" + FirstMetricText(t));
    }
  }

  /** A string is a prefix of itself followed by anything. */
  lemma PrefixOfAppend(a: string, b: string)
    ensures a <= a + b
  {
    assert (a + b)[..|a|] == a;
  }

  /** A row's metric is among the metrics of its task's element. */
  lemma TaskRowOfMetric(ps: seq<Performance>, tasks: seq<Task>, p: Performance)
    requires p in ps
    ensures p.metrics in TaskRowOf(ps, tasks, p.taskId).availableMetrics
  {
  }

  lemma MetricsOfRowsSnoc(ps: seq<Performance>, j: nat)
    requires j < |ps|
    ensures MetricsOfRows(ps[..j + 1]) == MetricsOfRows(ps[..j]) + [ps[j].metrics]
  {
    assert ps[..j + 1] == ps[..j] + [ps[j]];
  }

  /**
   * The `forEach` over one task's rows: its metrics, each once, and the same metrics
   * added to `allAvailableMetrics`.
   */
  method AddTaskMetrics(own: seq<Performance>, allMetrics: seq<string>)
    returns (available: seq<string>, allMetrics': seq<string>)
    requires NoDup(allMetrics)
    ensures available == Distinct(MetricsOfRows(own))
    ensures NoDup(allMetrics')
    ensures forall m :: m in allMetrics' <==> m in allMetrics || m in available
  {
    available := [];
    allMetrics' := allMetrics;
    for j := 0 to |own|
      invariant available == Distinct(MetricsOfRows(own[..j]))
      invariant NoDup(allMetrics')
      invariant forall m :: m in allMetrics' <==> m in allMetrics || m in available
    {
      var m := own[j].metrics;
      MetricsOfRowsSnoc(own, j);
      DistinctSnoc(MetricsOfRows(own[..j]), m);
      if m !in available {
        available := available + [m];
      }
      if m !in allMetrics' {
        NoDupSnoc(allMetrics', m);
        allMetrics' := allMetrics' + [m];
      }
    }
    assert own[..|own|] == own;
  }

  /** `all` holds exactly the metrics of the rows whose task id is among `ids`. */
  ghost predicate MetricsSeen(ps: seq<Performance>, ids: seq<string>, all: seq<string>)
  {
    forall m :: m in all <==> exists p :: p in ps && p.taskId in ids && p.metrics == m
  }

  lemma MetricsSeenStep(ps: seq<Performance>, allIds: seq<string>, i: nat,
                        all: seq<string>, all': seq<string>, available: seq<string>)
    requires i < |allIds|
    requires MetricsSeen(ps, allIds[..i], all)
    requires forall m :: m in available <==> exists p :: p in ps && p.taskId == allIds[i] && p.metrics == m
    requires forall m :: m in all' <==> m in all || m in available
    ensures MetricsSeen(ps, allIds[..i + 1], all')
  {
    var ids, id := allIds[..i], allIds[i];
    assert allIds[..i + 1] == ids + [id];
    forall m | m in all' ensures exists p :: p in ps && p.taskId in ids + [id] && p.metrics == m {
      if m in all {
        var p :| p in ps && p.taskId in ids && p.metrics == m;
        assert p.taskId in ids + [id];
      } else {
        var p :| p in ps && p.taskId == id && p.metrics == m;
        assert p.taskId in ids + [id];
      }
    }
    forall m | exists p :: p in ps && p.taskId in ids + [id] && p.metrics == m ensures m in all' {
      var p :| p in ps && p.taskId in ids + [id] && p.metrics == m;
      if p.taskId in ids { assert m in all; } else { assert m in available; }
    }
  }

  /** The elements built for the task ids `ids`, in that order. */
  function TaskRowsOf(ps: seq<Performance>, tasks: seq<Task>, ids: seq<string>): (rows: seq<TaskRow>)
    ensures |rows| == |ids| && forall i :: 0 <= i < |ids| ==> rows[i] == TaskRowOf(ps, tasks, ids[i])
  {
    if ids == [] then []
    else
      var init := ids[..|ids| - 1];
      assert forall i :: 0 <= i < |init| ==> init[i] == ids[i];
      TaskRowsOf(ps, tasks, init) + [TaskRowOf(ps, tasks, ids[|ids| - 1])]
  }

  lemma TaskRowsOfSnoc(ps: seq<Performance>, tasks: seq<Task>, ids: seq<string>, i: nat)
    requires i < |ids|
    ensures TaskRowsOf(ps, tasks, ids[..i + 1]) == TaskRowsOf(ps, tasks, ids[..i]) + [TaskRowOf(ps, tasks, ids[i])]
  {
    assert ids[..i + 1][..i] == ids[..i];
  }

  /**
   * The `map` over the distinct task ids, which also fills `allAvailableMetrics`:
   * one element per task id in first-occurrence order, and every metric recorded once.
   */
  method CollectTaskRows(ps: seq<Performance>, tasks: seq<Task>)
    returns (rows: seq<TaskRow>, allMetrics: seq<string>)
    ensures rows == TaskRowsOf(ps, tasks, Distinct(TaskData.RowTaskIds(ps)))
    ensures NoDup(allMetrics)
    ensures forall m :: m in allMetrics <==> exists p :: p in ps && p.metrics == m
  {
    var ids := Distinct(TaskData.RowTaskIds(ps));
    rows := [];
    allMetrics := [];
    for i := 0 to |ids|
      invariant rows == TaskRowsOf(ps, tasks, ids[..i])
      invariant NoDup(allMetrics)
      invariant MetricsSeen(ps, ids[..i], allMetrics)
    {
      var row, allMetrics' := BuildTaskRow(ps, tasks, ids[i], allMetrics);
      MetricsSeenStep(ps, ids, i, allMetrics, allMetrics', row.availableMetrics);
      TaskRowsOfSnoc(ps, tasks, ids, i);
      rows := rows + [row];
      allMetrics := allMetrics';
    }
    assert ids[..|ids|] == ids;
    MetricsSeenAllTasks(ps, allMetrics);
  }

  /**
   * The body of the `map` callback for one task id: look the task up, collect its rows'
   * metrics, record them in `allAvailableMetrics`, and build the element.
   */
  method BuildTaskRow(ps: seq<Performance>, tasks: seq<Task>, id: string, allMetrics: seq<string>)
    returns (row: TaskRow, allMetrics': seq<string>)
    requires NoDup(allMetrics)
    ensures row == TaskRowOf(ps, tasks, id)
    ensures NoDup(allMetrics')
    ensures forall m :: m in allMetrics' <==> m in allMetrics || m in row.availableMetrics
  {
    var task := EvaluationContext.GetTaskById(tasks, id);
    var available;
    available, allMetrics' := AddTaskMetrics(RowsOfTask(ps, id), allMetrics);
    row := TaskRow(id, Label(task, id), available, task);
  }

  /** Once every task id has been visited, the metrics seen are those of all the rows. */
  lemma MetricsSeenAllTasks(ps: seq<Performance>, all: seq<string>)
    requires MetricsSeen(ps, Distinct(TaskData.RowTaskIds(ps)), all)
    ensures forall m :: m in all <==> exists p :: p in ps && p.metrics == m
  {
    var ids := Distinct(TaskData.RowTaskIds(ps));
    forall p | p in ps ensures p.taskId in ids {
      var k := IndexOf(ps, p);
      assert TaskData.RowTaskIds(ps)[k] == p.taskId;
    }
  }

  /** The predicate of `.filter((t) => t.availableMetrics.length > 0)`. */
  predicate HasMetrics(t: TaskRow)
  {
    |t.availableMetrics| > 0
  }

  /** Every collected task has a recorded metric, so the filter on a non-empty metric list keeps them all. */
  lemma CollectedRowsHaveMetrics(ps: seq<Performance>, tasks: seq<Task>)
    ensures forall id :: id in TaskData.RowTaskIds(ps) ==> HasMetrics(TaskRowOf(ps, tasks, id))
    ensures var rows := TaskRowsOf(ps, tasks, Distinct(TaskData.RowTaskIds(ps)));
            Filter(rows, HasMetrics) == rows
  {
    forall id | id in TaskData.RowTaskIds(ps) ensures HasMetrics(TaskRowOf(ps, tasks, id)) {
      var k :| 0 <= k < |ps| && TaskData.RowTaskIds(ps)[k] == id;
      TaskRowOfMetric(ps, tasks, ps[k]);
    }
  }

  /** `.sort((a, b) => b.name.localeCompare(a.name))`: by label, descending. */
  function SortByNameDesc(rows: seq<TaskRow>, localeLe: (string, string) -> bool): (r: seq<TaskRow>)
    ensures multiset(r) == multiset(rows)
  {
    SortBy(rows, (a: TaskRow, b: TaskRow) => localeLe(b.name, a.name))
  }

  /** With a total collation order the rows come out in descending label order. */
  lemma SortByNameDescSorted(rows: seq<TaskRow>, localeLe: (string, string) -> bool)
    requires TotalPreorder(localeLe)
    ensures forall i, j :: 0 <= i < j < |SortByNameDesc(rows, localeLe)| ==>
      localeLe(SortByNameDesc(rows, localeLe)[j].name, SortByNameDesc(rows, localeLe)[i].name)
  {
    var le := (a: TaskRow, b: TaskRow) => localeLe(b.name, a.name);
    assert TotalPreorder(le) by {
      forall a: TaskRow, b: TaskRow ensures le(a, b) || le(b, a) {
        PreorderTotal(localeLe, b.name, a.name);
      }
      forall a: TaskRow, b: TaskRow, c: TaskRow | le(a, b) && le(b, c) ensures le(a, c) {
        PreorderTransitive(localeLe, c.name, b.name, a.name);
      }
    }
    SortBySorted(rows, le);
  }

  /**
   * `isOverallMode`: no metric selected, or as many selected as there are metrics and
   * each of them among the metrics.
   */
  predicate IsOverallMode(selected: seq<string>, allMetrics: seq<string>)
  {
    |selected| == 0 || (|selected| == |allMetrics| && forall m :: m in selected ==> m in allMetrics)
  }

  /**
   * With duplicate-free lists, selecting no metric and selecting exactly the available
   * metrics are the two ways to be in overall mode, and a partial selection is not.
   */
  lemma OverallModeMeansNoneOrAll(selected: seq<string>, allMetrics: seq<string>)
    requires NoDup(selected) && NoDup(allMetrics)
    ensures IsOverallMode(selected, allMetrics) <==>
      selected == [] || forall m :: m in selected <==> m in allMetrics
  {
    if selected != [] && forall m :: m in selected <==> m in allMetrics {
      NoDupSubsetLength(selected, allMetrics);
      NoDupSubsetLength(allMetrics, selected);
    }
    if IsOverallMode(selected, allMetrics) && selected != [] {
      NoDupSubsetLength(selected, allMetrics);
    }
  }

  /** Overall mode depends only on which metrics are available, not on their order. */
  lemma OverallModeSameMembers(selected: seq<string>, a: seq<string>, b: seq<string>)
    requires NoDup(a) && NoDup(b)
    requires forall m :: m in a <==> m in b
    ensures IsOverallMode(selected, a) == IsOverallMode(selected, b)
  {
    NoDupSubsetLength(a, b);
    NoDupSubsetLength(b, a);
  }

  /** The predicate of the non-overall filter: some selected metric is among the task's metrics. */
  predicate HasSelectedMetric(selected: seq<string>, row: TaskRow)
  {
    exists m :: m in selected && m in row.availableMetrics
  }

  /** The ranked tasks: all of them in overall mode, else those with a selected metric, order kept. */
  function KeptTasks(rows: seq<TaskRow>, selected: seq<string>, allMetrics: seq<string>): (r: seq<TaskRow>)
    ensures IsOverallMode(selected, allMetrics) ==> r == rows
    ensures !IsOverallMode(selected, allMetrics) ==>
      forall t :: t in r <==> t in rows && HasSelectedMetric(selected, t)
    ensures !IsOverallMode(selected, allMetrics) ==>
      forall t :: multiset(r)[t] == if HasSelectedMetric(selected, t) then multiset(rows)[t] else 0
    ensures IsSubseq(r, rows)
  {
    if IsOverallMode(selected, allMetrics) then IsSubseqRefl(rows); rows
    else Filter(rows, (t: TaskRow) => HasSelectedMetric(selected, t))
  }
}
