/**
 * src/components/tables/LeaderboardTable.tsx: the five best models of every task by
 * `rankMean`, the three-state sort of the task column, the medal of a table cell,
 * the order of the task rows, and the mobile and desktop slots built from the top list.
 */
module LeaderboardTable {
  import opened Collections
  import opened Types

  // ---------------------------------------------------------------------------------
  // calculateTaskTopModels

  /** `{ model, average }`, with `average` the model's `rankMean` on the task or `-Infinity`. */
  datatype TaskResult = TaskResult(model: Model, average: ExtReal)

  predicate RowOf(modelName: string, taskId: string, p: Performance)
  {
    p.modelId == modelName && p.taskId == taskId
  }

  /** `performances.find(...)?.rankMean ?? -Infinity`: the first matching row's score, or `-Infinity`. */
  function AverageFor(ps: seq<Performance>, modelName: string, taskId: string): (a: ExtReal)
    ensures a != PosInf
    ensures a == NegInf <==> forall p :: p in ps ==> !RowOf(modelName, taskId, p)
    ensures a.Fin? ==> exists k :: 0 <= k < |ps| && RowOf(modelName, taskId, ps[k]) && a.value == ps[k].rankMean &&
                                   forall j :: 0 <= j < k ==> !RowOf(modelName, taskId, ps[j])
  {
    match Find(ps, p => RowOf(modelName, taskId, p))
    case Some(p) => Fin(p.rankMean)
    case None => NegInf
  }

  /** `allModels.map(...)`: one result per model, in the models' order. */
  function TaskResults(models: seq<Model>, ps: seq<Performance>, task: Task): (r: seq<TaskResult>)
    ensures |r| == |models|
    ensures forall i :: 0 <= i < |models| ==> r[i] == TaskResult(models[i], AverageFor(ps, models[i].name, task.id))
  {
    seq(|models|, i requires 0 <= i < |models| => TaskResult(models[i], AverageFor(ps, models[i].name, task.id)))
  }

  /**
   * The comparator `b.average - a.average` is at most 0 exactly when `a.average >= b.average`,
   * or when both are `-Infinity`: their difference is NaN, which the sort treats as 0.
   */
  predicate ByAverageDesc(a: TaskResult, b: TaskResult)
  {
    ExtLe(b.average, a.average)
  }

  function ResultModels(rs: seq<TaskResult>): (ms: seq<Model>)
    ensures |ms| == |rs| && forall i :: 0 <= i < |rs| ==> ms[i] == rs[i].model
  {
    seq(|rs|, i requires 0 <= i < |rs| => rs[i].model)
  }

  /** The results best first; the `average !== null` filter keeps them all, as no average is null. */
  function RankedResults(models: seq<Model>, ps: seq<Performance>, task: Task): seq<TaskResult>
  {
    SortBy(TaskResults(models, ps, task), ByAverageDesc)
  }

  /** `calculateTaskTopModels(task)`: the models of the first five ranked results. */
  function TopModels(models: seq<Model>, ps: seq<Performance>, task: Task): seq<Model>
  {
    ResultModels(Take(RankedResults(models, ps, task), 5))
  }

  lemma RankedResultsSorted(models: seq<Model>, ps: seq<Performance>, task: Task)
    ensures var rs := RankedResults(models, ps, task);
      && multiset(rs) == multiset(TaskResults(models, ps, task))
      && forall i, j :: 0 <= i < j < |rs| ==> ExtLe(rs[j].average, rs[i].average)
  {
    ExtLeTotalPreorder();
    assert TotalPreorder(ByAverageDesc);
    SortBySorted(TaskResults(models, ps, task), ByAverageDesc);
  }

  /** Each ranked result is the result of some model, with that model's average on the task. */
  lemma RankedResultOfModel(models: seq<Model>, ps: seq<Performance>, task: Task, k: nat)
    requires k < |RankedResults(models, ps, task)|
    ensures var r := RankedResults(models, ps, task)[k];
      r.model in models && r.average == AverageFor(ps, r.model.name, task.id)
  {
    var rs := RankedResults(models, ps, task);
    var results := TaskResults(models, ps, task);
    assert rs[k] in multiset(results);
    var i :| 0 <= i < |results| && results[i] == rs[k];
  }

  /**
   * The top list: at most five models, each one of the given models and never more often
   * than among them, best average first, a model without a row after every model with one.
   */
  lemma TopModelsProperties(models: seq<Model>, ps: seq<Performance>, task: Task)
    ensures var top := TopModels(models, ps, task);
      && |top| == (if |models| < 5 then |models| else 5)
      && multiset(top) <= multiset(models)
      && (NoDup(models) ==> NoDup(top))
      && (forall i, j :: 0 <= i < j < |top| ==>
            ExtLe(AverageFor(ps, top[j].name, task.id), AverageFor(ps, top[i].name, task.id)))
      && (forall i, j :: 0 <= i < j < |top| && AverageFor(ps, top[i].name, task.id) == NegInf ==>
            AverageFor(ps, top[j].name, task.id) == NegInf)
  {
    var rs := RankedResults(models, ps, task);
    var top := TopModels(models, ps, task);
    RankedResultsSorted(models, ps, task);
    forall i | 0 <= i < |top| ensures AverageFor(ps, top[i].name, task.id) == rs[i].average {
      RankedResultOfModel(models, ps, task, i);
    }
    TopIsSubMultiset(models, ps, task);
    if NoDup(models) {
      NoDupMultiset(models);
      NoDupOfSubMultiset(top, models);
    }
  }

  lemma TopIsSubMultiset(models: seq<Model>, ps: seq<Performance>, task: Task)
    ensures multiset(TopModels(models, ps, task)) <= multiset(models)
  {
    var rs := RankedResults(models, ps, task);
    var prefix := Take(rs, 5);
    assert prefix == rs[..|prefix|];
    assert rs == prefix + rs[|prefix|..];
    ModelsOfPrefix(prefix, rs[|prefix|..]);
    ModelsOfPermutation(rs, TaskResults(models, ps, task));
    assert ResultModels(TaskResults(models, ps, task)) == models;
  }

  lemma {:induction false} ModelsOfPrefix(a: seq<TaskResult>, b: seq<TaskResult>)
    ensures multiset(ResultModels(a)) <= multiset(ResultModels(a + b))
  {
    assert ResultModels(a + b) == ResultModels(a) + ResultModels(b);
  }

  lemma ResultModelsAppend(a: seq<TaskResult>, b: seq<TaskResult>)
    ensures ResultModels(a + b) == ResultModels(a) + ResultModels(b)
  {
  }

  /** Rearranging the results rearranges their models. */
  lemma {:induction false} ModelsOfPermutation(a: seq<TaskResult>, b: seq<TaskResult>)
    requires multiset(a) == multiset(b)
    ensures multiset(ResultModels(a)) == multiset(ResultModels(b))
    decreases |a|
  {
    if a != [] {
      var x := a[|a| - 1];
      assert x in multiset(b);
      var i :| 0 <= i < |b| && b[i] == x;
      var a', b1, b2 := a[..|a| - 1], b[..i], b[i + 1..];
      PermutationWithout(a, b, i);
      ModelsOfPermutation(a', b1 + b2);
      assert a == a' + [x];
      assert b == b1 + [x] + b2;
      ResultModelsAppend(a', [x]);
      ResultModelsAppend(b1 + [x], b2);
      ResultModelsAppend(b1, [x]);
      ResultModelsAppend(b1, b2);
    }
  }

  /** A list whose elements occur no more often than in a duplicate-free list is duplicate-free. */
  lemma NoDupOfSubMultiset<T>(a: seq<T>, b: seq<T>)
    requires NoDup(b) && multiset(a) <= multiset(b)
    ensures NoDup(a)
  {
    NoDupMultiset(a);
    NoDupMultiset(b);
  }

  /** A model left out of the top list has no better average than any model in it. */
  lemma TopModelsAreBest(models: seq<Model>, ps: seq<Performance>, task: Task, m: Model)
    requires m in models && m !in TopModels(models, ps, task)
    ensures forall i :: 0 <= i < |TopModels(models, ps, task)| ==>
      ExtLe(AverageFor(ps, m.name, task.id), AverageFor(ps, TopModels(models, ps, task)[i].name, task.id))
  {
    var rs := RankedResults(models, ps, task);
    var top := TopModels(models, ps, task);
    var results := TaskResults(models, ps, task);
    RankedResultsSorted(models, ps, task);
    var mi :| 0 <= mi < |models| && models[mi] == m;
    assert results[mi] in multiset(rs);
    var k :| 0 <= k < |rs| && rs[k] == results[mi];
    assert forall j :: 0 <= j < |top| ==> top[j] == rs[j].model;
    forall i | 0 <= i < |top| ensures ExtLe(AverageFor(ps, m.name, task.id), AverageFor(ps, top[i].name, task.id)) {
      RankedResultOfModel(models, ps, task, i);
    }
  }

  // ---------------------------------------------------------------------------------
  // handleSort

  datatype Direction = Asc | Desc

  /** The pair `(sortField, sortDirection)`; `None` stands for `null`. */
  datatype SortKey = SortKey(field: Option<string>, direction: Option<Direction>)

  /** Both parts are set or both are `null`. */
  predicate Consistent(s: SortKey)
  {
    s.field.None? <==> s.direction.None?
  }

  /**
   * The state after clicking the header of `field`: a new column starts ascending; the
   * same column goes asc, desc, unsorted, and leaving desc also clears the field.
   */
  function NextSort(s: SortKey, field: string): SortKey
  {
    if s.field == Some(field) then
      SortKey(if s.direction == Some(Desc) then None else s.field,
              match s.direction
              case Some(Asc) => Some(Desc)
              case Some(Desc) => None
              case None => Some(Asc))
    else SortKey(Some(field), Some(Asc))
  }

  lemma NextSortCases(s: SortKey, field: string)
    requires Consistent(s)
    ensures s.field != Some(field) ==> NextSort(s, field) == SortKey(Some(field), Some(Asc))
    ensures s == SortKey(Some(field), Some(Asc)) ==> NextSort(s, field) == SortKey(Some(field), Some(Desc))
    ensures s == SortKey(Some(field), Some(Desc)) ==> NextSort(s, field) == SortKey(None, None)
    ensures Consistent(NextSort(s, field))
  {
  }

  /** Three clicks on one column from the unsorted table sort it up, down, and not at all. */
  lemma ThreeClicksCycle(field: string)
    ensures var one := NextSort(SortKey(None, None), field);
      var two := NextSort(one, field);
      && one == SortKey(Some(field), Some(Asc))
      && two == SortKey(Some(field), Some(Desc))
      && NextSort(two, field) == SortKey(None, None)
  {
  }

  /** The header-sort state of the table. */
  class SortState {
    var sortField: Option<string>
    var sortDirection: Option<Direction>

    ghost predicate Valid()
      reads this
    {
      Consistent(SortKey(sortField, sortDirection))
    }

    constructor()
      ensures sortField == None && sortDirection == None
      ensures Valid()
    {
      sortField := None;
      sortDirection := None;
    }

    method HandleSort(field: string)
      requires Valid()
      modifies this
      ensures SortKey(sortField, sortDirection) == NextSort(SortKey(old(sortField), old(sortDirection)), field)
      ensures Valid()
    {
      NextSortCases(SortKey(sortField, sortDirection), field);
      if sortField == Some(field) {
        var next := match sortDirection
          case Some(Asc) => Some(Desc)
          case Some(Desc) => None
          case None => Some(Asc);
        if sortDirection == Some(Desc) {
          sortField := None;
        }
        sortDirection := next;
      } else {
        sortField := Some(field);
        sortDirection := Some(Asc);
      }
    }
  }

  /** Clicking one header three times on a fresh table leaves it unsorted. */
  method ThreeClicks(field: string) returns (f: Option<string>, d: Option<Direction>)
    ensures f == None && d == None
  {
    var state := new SortState();
    ThreeClicksCycle(field);
    state.HandleSort(field);
    state.HandleSort(field);
    state.HandleSort(field);
    f, d := state.sortField, state.sortDirection;
  }

  // ---------------------------------------------------------------------------------
  // getPerformanceLevel

  datatype Level = NoLevel | Gold | Silver | Bronze | Standard

  /** `getPerformanceLevel(average, rank)`; `None` stands for a `null` average. */
  function PerformanceLevel(average: Option<ExtReal>, rank: int): (l: Level)
    ensures average.None? <==> l == NoLevel
    ensures average.Some? ==> (l == Gold <==> rank == 1) && (l == Silver <==> rank == 2) &&
                              (l == Bronze <==> rank == 3) && (l == Standard <==> !(1 <= rank <= 3))
  {
    if average.None? then NoLevel
    else if rank == 1 then Gold
    else if rank == 2 then Silver
    else if rank == 3 then Bronze
    else Standard
  }

  // ---------------------------------------------------------------------------------
  // sortedTasks

  /** The string a task is sorted on: its name, its cohort, or "" for any other field. */
  function SortValue(field: string, t: Task): string
  {
    if field == "taskName" then t.name else if field == "cohort" then t.cohort else ""
  }

  /**
   * The comparator of `sortedTasks` is at most 0: always without a field or direction;
   * `a.localeCompare(b) <= 0` ascending and `b.localeCompare(a) <= 0` descending,
   * with `localeLe` standing for `x.localeCompare(y) <= 0`.
   */
  function TaskLe(s: SortKey, localeLe: (string, string) -> bool): (Task, Task) -> bool
  {
    (a: Task, b: Task) =>
      match s.direction
      case None => true
      case Some(Asc) => s.field.None? || localeLe(SortValue(s.field.value, a), SortValue(s.field.value, b))
      case Some(Desc) => s.field.None? || localeLe(SortValue(s.field.value, b), SortValue(s.field.value, a))
  }

  function SortedTasks(tasks: seq<Task>, s: SortKey, localeLe: (string, string) -> bool): (r: seq<Task>)
    ensures multiset(r) == multiset(tasks) && |r| == |tasks|
  {
    SortBy(tasks, TaskLe(s, localeLe))
  }

  /** Unsorted, or sorted on a field that is neither the name nor the cohort: the order is kept. */
  lemma SortedTasksUnchanged(tasks: seq<Task>, s: SortKey, localeLe: (string, string) -> bool)
    requires localeLe("", "")
    requires s.field.None? || s.direction.None? || (s.field.value != "taskName" && s.field.value != "cohort")
    ensures SortedTasks(tasks, s, localeLe) == tasks
  {
    forall a, b ensures TaskLe(s, localeLe)(a, b) {
      if s.field.Some? && s.direction.Some? {
        assert SortValue(s.field.value, a) == "" && SortValue(s.field.value, b) == "";
      }
    }
    SortByAllEqual(tasks, TaskLe(s, localeLe));
  }

  /** Ascending and descending sorts order the rows by the chosen value, the second in reverse. */
  lemma SortedTasksOrdered(tasks: seq<Task>, field: string, dir: Direction, localeLe: (string, string) -> bool)
    requires TotalPreorder(localeLe)
    ensures var r := SortedTasks(tasks, SortKey(Some(field), Some(dir)), localeLe);
      forall i, j :: 0 <= i < j < |r| ==>
        if dir == Asc then localeLe(SortValue(field, r[i]), SortValue(field, r[j]))
        else localeLe(SortValue(field, r[j]), SortValue(field, r[i]))
  {
    var le := TaskLe(SortKey(Some(field), Some(dir)), localeLe);
    forall a, b ensures le(a, b) || le(b, a) {
      assert localeLe(SortValue(field, a), SortValue(field, b)) || localeLe(SortValue(field, b), SortValue(field, a));
    }
    forall a, b, c | le(a, b) && le(b, c) ensures le(a, c) {
      var x, y, z := SortValue(field, a), SortValue(field, b), SortValue(field, c);
      if dir == Asc {
        assert localeLe(x, y) && localeLe(y, z);
      } else {
        assert localeLe(z, y) && localeLe(y, x);
      }
    }
    SortBySorted(tasks, le);
  }

  // ---------------------------------------------------------------------------------
  // The mobile cards and the desktop row

  /** A mobile line: the model and the displayed rank, its position in the top list plus one. */
  datatype MobileLine = MobileLine(model: Model, rank: nat, average: ExtReal)

  /** `calculateTaskTopModels(task).slice(0, 3).map((model, index) => ...)`. */
  function MobileLines(top: seq<Model>, ps: seq<Performance>, taskId: string): (r: seq<MobileLine>)
    ensures |r| == if |top| < 3 then |top| else 3
    ensures forall i :: 0 <= i < |r| ==>
      r[i] == MobileLine(top[i], i + 1, AverageFor(ps, top[i].name, taskId))
  {
    var shown := Take(top, 3);
    seq(|shown|, i requires 0 <= i < |shown| => MobileLine(shown[i], i + 1, AverageFor(ps, shown[i].name, taskId)))
  }

  /** A desktop cell for ranks 1 to 5: "No Data", or the model with its score and medal. */
  datatype Slot = NoData | Entry(model: Model, average: ExtReal, level: Level)

  function DesktopSlots(top: seq<Model>, ps: seq<Performance>, taskId: string): (r: seq<Slot>)
    ensures |r| == 5
    ensures forall k :: 0 <= k < 5 ==> (r[k].NoData? <==> k >= |top|)
    ensures forall k :: 0 <= k < 5 && k < |top| ==>
      r[k] == Entry(top[k], AverageFor(ps, top[k].name, taskId), PerformanceLevel(Some(AverageFor(ps, top[k].name, taskId)), k + 1))
  {
    seq(5, k requires 0 <= k < 5 =>
      if k < |top| then
        var a := AverageFor(ps, top[k].name, taskId);
        Entry(top[k], a, PerformanceLevel(Some(a), k + 1))
      else NoData)
  }

  /**
   * The desktop row never shows the "none" style: the average passed to the level is never
   * `null`, so the first three slots with a model are gold, silver, bronze and the rest standard.
   */
  lemma DesktopSlotLevels(top: seq<Model>, ps: seq<Performance>, taskId: string)
    ensures var r := DesktopSlots(top, ps, taskId);
      && (forall k :: 0 <= k < 5 && r[k].Entry? ==> r[k].level != NoLevel)
      && (|top| >= 1 ==> r[0].level == Gold)
      && (|top| >= 2 ==> r[1].level == Silver)
      && (|top| >= 3 ==> r[2].level == Bronze)
      && (forall k :: 3 <= k < 5 && k < |top| ==> r[k].level == Standard)
  {
  }
}
