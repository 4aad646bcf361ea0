/**
 * src/data/tasks.ts: the task list is rebuilt from the performance rows. A Map keyed
 * by task id is filled row by row (a later row overwrites the entry, but the key keeps
 * the place of its first insertion) and its values are returned in key order.
 */
module TaskData {
  import opened Collections
  import opened Types
  import opened PerformanceData

  /** "<taskName> task for <organ>". */
  function Description(p: Performance): string
  {
    p.taskName + " task for " + p.organ
  }

  /** The task record `taskMap.set` stores for a row. */
  function TaskOf(p: Performance): (t: Task)
    ensures t.id == p.taskId && t.name == p.taskName && t.organ == p.organ
    ensures t.taskType == t.name && t.cohort == t.organ
    ensures t.evaluationMetrics == [p.metrics]
    ensures t.description == Some(Description(p))
    ensures t.info == Some(TaskInfo(Description(p), Some(""), Some("")))
  {
    Task(p.taskId, p.taskName, p.organ, p.taskName, p.organ, [p.metrics],
         Some(Description(p)), Some(TaskInfo(Description(p), Some(""), Some(""))))
  }

  /** The task ids of the rows, row by row. */
  function RowTaskIds(ps: seq<Performance>): (r: seq<string>)
    ensures |r| == |ps| && forall i :: 0 <= i < |ps| ==> r[i] == ps[i].taskId
  {
    seq(|ps|, i requires 0 <= i < |ps| => ps[i].taskId)
  }

  /** Index of the last row carrying task id `id`. */
  function LastRowWith(ps: seq<Performance>, id: string): (k: nat)
    requires id in RowTaskIds(ps)
    ensures k < |ps| && ps[k].taskId == id
    ensures forall j :: k < j < |ps| ==> ps[j].taskId != id
  {
    if ps[|ps| - 1].taskId == id then |ps| - 1
    else
      assert RowTaskIds(ps) == RowTaskIds(ps[..|ps| - 1]) + [ps[|ps| - 1].taskId];
      LastRowWith(ps[..|ps| - 1], id)
  }

  /** The Map after all rows have been set, one `set` per row. */
  function TaskMap(ps: seq<Performance>): map<string, Task>
  {
    if ps == [] then map[]
    else TaskMap(ps[..|ps| - 1])[ps[|ps| - 1].taskId := TaskOf(ps[|ps| - 1])]
  }

  /** One entry per task id, holding the task of the last row with that id. */
  lemma {:induction false} TaskMapContents(ps: seq<Performance>)
    ensures forall id :: id in TaskMap(ps) <==> id in RowTaskIds(ps)
    ensures forall id :: id in TaskMap(ps) ==> TaskMap(ps)[id] == TaskOf(ps[LastRowWith(ps, id)])
  {
    if ps != [] {
      var init, last := ps[..|ps| - 1], ps[|ps| - 1];
      assert RowTaskIds(ps) == RowTaskIds(init) + [last.taskId];
      TaskMapContents(init);
    }
  }

  lemma TaskMapSnoc(ps: seq<Performance>, p: Performance)
    ensures TaskMap(ps + [p]) == TaskMap(ps)[p.taskId := TaskOf(p)]
    ensures RowTaskIds(ps + [p]) == RowTaskIds(ps) + [p.taskId]
  {
    assert (ps + [p])[..|ps|] == ps;
  }

  /**
   * `fetchTasks`: one task per distinct task id, in the order in which the ids first
   * occur among the rows, each built from the last row with that id.
   */
  method FetchTasks(dataType: DataType, competition: CompetitionType, rows: seq<RawRow>)
    returns (tasks: seq<Task>)
    ensures var ps := FetchPerformance(dataType, competition, rows);
      && |tasks| == |Distinct(RowTaskIds(ps))|
      && (forall i :: 0 <= i < |tasks| ==> tasks[i].id == Distinct(RowTaskIds(ps))[i])
      && (forall i :: 0 <= i < |tasks| ==> tasks[i] == TaskOf(ps[LastRowWith(ps, tasks[i].id)]))
  {
    var ps := FetchPerformance(dataType, competition, rows);
    tasks := TasksOfRows(ps);
  }

  /** The `forEach` over the rows and `Array.from(taskMap.values())`. */
  method TasksOfRows(ps: seq<Performance>) returns (tasks: seq<Task>)
    ensures |tasks| == |Distinct(RowTaskIds(ps))|
    ensures forall i :: 0 <= i < |tasks| ==> tasks[i].id == Distinct(RowTaskIds(ps))[i]
    ensures forall i :: 0 <= i < |tasks| ==> tasks[i] == TaskOf(ps[LastRowWith(ps, tasks[i].id)])
  {
    var keys: seq<string> := [];
    var taskMap: map<string, Task> := map[];
    for i := 0 to |ps|
      invariant keys == Distinct(RowTaskIds(ps[..i]))
      invariant taskMap == TaskMap(ps[..i])
    {
      assert ps[..i + 1] == ps[..i] + [ps[i]];
      TaskMapStep(ps[..i], ps[i], keys);
      if ps[i].taskId !in taskMap {
        keys := keys + [ps[i].taskId];
      }
      taskMap := taskMap[ps[i].taskId := TaskOf(ps[i])];
    }
    assert ps[..|ps|] == ps;
    KeysInTaskMap(ps);
    tasks := seq(|keys|, i requires 0 <= i < |keys| => taskMap[keys[i]]);
  }

  /** One row: its id is a new key exactly when the map lacks it, and the map's entry is replaced. */
  lemma TaskMapStep(prefix: seq<Performance>, p: Performance, keys: seq<string>)
    requires keys == Distinct(RowTaskIds(prefix))
    ensures p.taskId in TaskMap(prefix) <==> p.taskId in keys
    ensures Distinct(RowTaskIds(prefix + [p])) == if p.taskId in keys then keys else keys + [p.taskId]
    ensures TaskMap(prefix + [p]) == TaskMap(prefix)[p.taskId := TaskOf(p)]
  {
    TaskMapSnoc(prefix, p);
    DistinctSnoc(RowTaskIds(prefix), p.taskId);
    TaskMapContents(prefix);
  }

  /** Every distinct id is a key of the map, holding the task of the last row with that id. */
  lemma KeysInTaskMap(ps: seq<Performance>)
    ensures forall k :: k in Distinct(RowTaskIds(ps)) ==>
      k in TaskMap(ps) && TaskMap(ps)[k] == TaskOf(ps[LastRowWith(ps, k)])
  {
    TaskMapContents(ps);
  }

  /** The ids of the rebuilt tasks are duplicate-free and are exactly the row task ids. */
  lemma FetchedTaskIdsAreDistinct(ps: seq<Performance>)
    ensures NoDup(Distinct(RowTaskIds(ps)))
    ensures forall id :: id in Distinct(RowTaskIds(ps)) <==> exists p :: p in ps && p.taskId == id
  {
    forall id | id in RowTaskIds(ps) ensures exists p :: p in ps && p.taskId == id {
      var k :| 0 <= k < |ps| && RowTaskIds(ps)[k] == id;
      assert ps[k] in ps;
    }
  }
}
