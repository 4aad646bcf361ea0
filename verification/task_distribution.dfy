/**
 * src/components/charts/TaskDistributionChart.tsx: the pie of filtered tasks by organ
 * or by task type. A Record of counts is filled one task at a time; the organ pie lists
 * its entries, the task-type pie follows `allTaskTypes` and keeps the counted types.
 */
module TaskDistribution {
  import opened Collections
  import opened Types
  import EvaluationContext
  import PieDistribution

  // ---------------------------------------------------------------------------------
  // Counting

  /**
   * The Record after counting `keys`: `acc[k] = (acc[k] || 0) + 1` for each key in turn,
   * defined from the end.
   */
  function Counts(keys: seq<string>): map<string, nat>
  {
    if keys == [] then map[]
    else
      var acc := Counts(keys[..|keys| - 1]);
      var k := keys[|keys| - 1];
      acc[k := (if k in acc then acc[k] else 0) + 1]
  }

  lemma CountsSnoc(keys: seq<string>, k: string)
    ensures var acc := Counts(keys);
      Counts(keys + [k]) == acc[k := (if k in acc then acc[k] else 0) + 1]
  {
    assert (keys + [k])[..|keys|] == keys;
  }

  /** A key is in the Record exactly when it occurs, and its count is its number of occurrences. */
  lemma {:induction false} CountsContents(keys: seq<string>)
    ensures forall k :: k in Counts(keys) <==> k in keys
    ensures forall k :: k in Counts(keys) ==> Counts(keys)[k] == multiset(keys)[k] >= 1
  {
    if keys != [] {
      var init, k := keys[..|keys| - 1], keys[|keys| - 1];
      assert keys == init + [k];
      CountsContents(init);
      assert multiset(keys) == multiset(init) + multiset{k};
    }
  }

  /** The Record's keys in insertion order, the order in which `Object.entries` lists them. */
  function KeyOrder(keys: seq<string>): seq<string>
  {
    Distinct(keys)
  }

  lemma OrgansOfSnoc(tasks: seq<Task>, i: nat)
    requires i < |tasks|
    ensures EvaluationContext.OrgansOf(tasks[..i + 1]) == EvaluationContext.OrgansOf(tasks[..i]) + [tasks[i].organ]
  {
  }

  lemma TaskTypesOfSnoc(tasks: seq<Task>, i: nat)
    requires i < |tasks|
    ensures EvaluationContext.TaskTypesOf(tasks[..i + 1]) == EvaluationContext.TaskTypesOf(tasks[..i]) + [tasks[i].taskType]
  {
  }

  /** What the `reduce` holds after the first `i` tasks: the keys in insertion order and the counts. */
  ghost predicate OrgansCounted(tasks: seq<Task>, i: nat, organs: seq<string>, organCounts: map<string, nat>)
    requires i <= |tasks|
  {
    var keys := EvaluationContext.OrgansOf(tasks[..i]);
    organs == Distinct(keys) && organCounts == Counts(keys)
  }

  lemma OrgansCountedStep(tasks: seq<Task>, i: nat, organs: seq<string>, organCounts: map<string, nat>)
    requires i < |tasks| && OrgansCounted(tasks, i, organs, organCounts)
    ensures var organ := tasks[i].organ;
      && (organ in organCounts <==> organ in organs)
      && OrgansCounted(tasks, i + 1, if organ in organs then organs else organs + [organ],
           organCounts[organ := (if organ in organCounts then organCounts[organ] else 0) + 1])
  {
    var keys := EvaluationContext.OrgansOf(tasks[..i]);
    OrgansOfSnoc(tasks, i);
    CountsSnoc(keys, tasks[i].organ);
    DistinctSnoc(keys, tasks[i].organ);
    CountsHasKey(keys, tasks[i].organ);
  }

  lemma CountsHasKey(keys: seq<string>, k: string)
    ensures k in Counts(keys) <==> k in keys
  {
    CountsContents(keys);
  }

  /** The `reduce` counting tasks by organ, with the keys in insertion order. */
  method CountOrgans(filteredTasks: seq<Task>) returns (organs: seq<string>, organCounts: map<string, nat>)
    ensures organs == KeyOrder(EvaluationContext.OrgansOf(filteredTasks))
    ensures organCounts == Counts(EvaluationContext.OrgansOf(filteredTasks))
  {
    organs, organCounts := [], map[];
    for i := 0 to |filteredTasks|
      invariant OrgansCounted(filteredTasks, i, organs, organCounts)
    {
      var organ := filteredTasks[i].organ;
      OrgansCountedStep(filteredTasks, i, organs, organCounts);
      if organ !in organCounts {
        organs := organs + [organ];
      }
      organCounts := organCounts[organ := (if organ in organCounts then organCounts[organ] else 0) + 1];
    }
    assert filteredTasks[..|filteredTasks|] == filteredTasks;
  }

  /** The `forEach` counting tasks by task type. */
  method CountTaskTypes(filteredTasks: seq<Task>) returns (taskTypeCounts: map<string, nat>)
    ensures taskTypeCounts == Counts(EvaluationContext.TaskTypesOf(filteredTasks))
  {
    taskTypeCounts := map[];
    for i := 0 to |filteredTasks|
      invariant taskTypeCounts == Counts(EvaluationContext.TaskTypesOf(filteredTasks[..i]))
    {
      var taskType := filteredTasks[i].taskType;
      TaskTypesOfSnoc(filteredTasks, i);
      CountsSnoc(EvaluationContext.TaskTypesOf(filteredTasks[..i]), taskType);
      taskTypeCounts := taskTypeCounts[taskType := (if taskType in taskTypeCounts then taskTypeCounts[taskType] else 0) + 1];
    }
    assert filteredTasks[..|filteredTasks|] == filteredTasks;
  }

  // ---------------------------------------------------------------------------------
  // Sums of counts

  /** The total of the counts of the keys in `d`. */
  function SumCounts(d: seq<string>, keys: seq<string>): nat
  {
    if d == [] then 0 else SumCounts(d[..|d| - 1], keys) + multiset(keys)[d[|d| - 1]]
  }

  /** One more key adds one to the total exactly when the key is listed in `d`. */
  lemma {:induction false} SumCountsSnoc(d: seq<string>, keys: seq<string>, k: string)
    requires NoDup(d)
    ensures SumCounts(d, keys + [k]) == SumCounts(d, keys) + if k in d then 1 else 0
  {
    if d != [] {
      var init, x := d[..|d| - 1], d[|d| - 1];
      assert d == init + [x];
      NoDupSnoc(init, x);
      SumCountsSnoc(init, keys, k);
      assert multiset(keys + [k]) == multiset(keys) + multiset{k};
    }
  }

  /** The predicate `(k) => d.includes(k)`. */
  function InList(d: seq<string>): string -> bool
  {
    (k: string) => k in d
  }

  /** Over duplicate-free keys `d`, the counts add up to the number of keys listed in `d`. */
  lemma {:induction false} SumCountsIsFilterSize(d: seq<string>, keys: seq<string>)
    requires NoDup(d)
    ensures SumCounts(d, keys) == |Filter(keys, InList(d))|
  {
    if keys == [] {
      SumCountsOfNone(d);
    } else {
      var init, k := keys[..|keys| - 1], keys[|keys| - 1];
      assert keys == init + [k];
      SumCountsIsFilterSize(d, init);
      SumCountsSnoc(d, init, k);
      FilterSnoc(init, k, InList(d));
    }
  }

  lemma {:induction false} SumCountsOfNone(d: seq<string>)
    ensures SumCounts(d, []) == 0
  {
    if d != [] {
      SumCountsOfNone(d[..|d| - 1]);
    }
  }

  // ---------------------------------------------------------------------------------
  // The two pies

  datatype ChartType = OrganChart | TaskTypeChart

  /** The "No tasks available" title, or a titled pie. */
  datatype DistributionChart = NoTasksAvailable | Pie(title: string, slices: seq<PieDistribution.Slice>)

  /** `Object.entries(organCounts).map(...)`. */
  function Entries(keys: seq<string>, counts: map<string, nat>): (r: seq<PieDistribution.Slice>)
    requires forall k :: k in keys ==> k in counts
    ensures |r| == |keys|
    ensures forall i :: 0 <= i < |keys| ==> r[i] == PieDistribution.Slice(keys[i], counts[keys[i]])
  {
    seq(|keys|, i requires 0 <= i < |keys| => PieDistribution.Slice(keys[i], counts[keys[i]]))
  }

  /** `allTaskTypes.filter((t) => taskTypeCounts[t] > 0).map(...)`, fused, from the end. */
  function TypeSlices(allTaskTypes: seq<string>, counts: map<string, nat>): seq<PieDistribution.Slice>
  {
    if allTaskTypes == [] then []
    else
      var t := allTaskTypes[|allTaskTypes| - 1];
      TypeSlices(allTaskTypes[..|allTaskTypes| - 1], counts) +
        if t in counts && counts[t] > 0 then [PieDistribution.Slice(t, counts[t])] else []
  }

  function OrganSlices(filteredTasks: seq<Task>): seq<PieDistribution.Slice>
  {
    var organs := EvaluationContext.OrgansOf(filteredTasks);
    CountsContents(organs);
    Entries(KeyOrder(organs), Counts(organs))
  }

  /** The chart's data for the filtered tasks and the context's `allTaskTypes`. */
  function DistributionData(chartType: ChartType, filteredTasks: seq<Task>, allTaskTypes: seq<string>): DistributionChart
  {
    if |filteredTasks| == 0 then NoTasksAvailable
    else if chartType == OrganChart then Pie("Task Distribution by Organ", OrganSlices(filteredTasks))
    else Pie("Task Distribution by Type", TypeSlices(allTaskTypes, Counts(EvaluationContext.TaskTypesOf(filteredTasks))))
  }

  /** `chartOptions`, reduced to its title and data. */
  method ChartOptions(chartType: ChartType, filteredTasks: seq<Task>, allTaskTypes: seq<string>)
    returns (chart: DistributionChart)
    ensures chart == DistributionData(chartType, filteredTasks, allTaskTypes)
  {
    if |filteredTasks| == 0 {
      return NoTasksAvailable;
    }
    if chartType == OrganChart {
      var organs, organCounts := CountOrgans(filteredTasks);
      CountsContents(EvaluationContext.OrgansOf(filteredTasks));
      chart := Pie("Task Distribution by Organ", Entries(organs, organCounts));
    } else {
      var taskTypeCounts := CountTaskTypes(filteredTasks);
      chart := Pie("Task Distribution by Type", TypeSlices(allTaskTypes, taskTypeCounts));
    }
  }

  /** The sum of the slice values. */
  function Total(slices: seq<PieDistribution.Slice>): nat
  {
    if slices == [] then 0 else Total(slices[..|slices| - 1]) + slices[|slices| - 1].value
  }

  lemma {:induction false} TotalOfEntries(d: seq<string>, keys: seq<string>)
    requires forall k :: k in d ==> k in Counts(keys)
    ensures Total(Entries(d, Counts(keys))) == SumCounts(d, keys)
  {
    CountsContents(keys);
    if d != [] {
      var init := d[..|d| - 1];
      TotalOfEntries(init, keys);
      assert Entries(d, Counts(keys))[..|init|] == Entries(init, Counts(keys));
    }
  }

  /**
   * The organ pie has one slice per distinct organ, first seen first, valued by the
   * number of filtered tasks of that organ; the values are positive and add up to the
   * number of filtered tasks.
   */
  lemma OrganSlicesProperties(filteredTasks: seq<Task>)
    ensures var r := OrganSlices(filteredTasks);
      var organs := EvaluationContext.OrgansOf(filteredTasks);
      && |r| == |Distinct(organs)|
      && (forall i :: 0 <= i < |r| ==>
            && r[i].name == Distinct(organs)[i]
            && r[i].value == multiset(organs)[r[i].name] >= 1)
      && Total(r) == |filteredTasks|
  {
    var organs := EvaluationContext.OrgansOf(filteredTasks);
    OrganTotal(organs);
    OrganValues(organs);
    assert OrganSlices(filteredTasks) == Entries(Distinct(organs), Counts(organs));
  }

  /** Each entry carries the number of occurrences of its key, at least one. */
  lemma OrganValues(organs: seq<string>)
    ensures forall k :: k in Distinct(organs) ==> k in Counts(organs)
    ensures var d := Distinct(organs);
      forall i :: 0 <= i < |d| ==>
        Entries(d, Counts(organs))[i] == PieDistribution.Slice(d[i], multiset(organs)[d[i]]) && multiset(organs)[d[i]] >= 1
  {
    CountsContents(organs);
  }

  /** The counts of the distinct keys add up to the number of keys. */
  lemma OrganTotal(organs: seq<string>)
    ensures forall k :: k in Distinct(organs) ==> k in Counts(organs)
    ensures Total(Entries(Distinct(organs), Counts(organs))) == |organs|
  {
    CountsContents(organs);
    TotalOfEntries(Distinct(organs), organs);
    SumCountsIsFilterSize(Distinct(organs), organs);
  }

  /**
   * The task-type pie lists, in `allTaskTypes` order, the types some filtered task has,
   * each valued by its number of tasks; with a duplicate-free `allTaskTypes` the values
   * add up to the number of filtered tasks whose type is listed there.
   */
  lemma TypeSlicesProperties(allTaskTypes: seq<string>, filteredTasks: seq<Task>)
    ensures var types := EvaluationContext.TaskTypesOf(filteredTasks);
      var r := TypeSlices(allTaskTypes, Counts(types));
      && PieDistribution.SliceNames(r) == Filter(allTaskTypes, InList(types))
      && (forall s :: s in r ==> s.value == multiset(types)[s.name] >= 1)
      && (NoDup(allTaskTypes) ==> Total(r) == |Filter(types, InList(allTaskTypes))|)
  {
    var types := EvaluationContext.TaskTypesOf(filteredTasks);
    TypeSliceNames(allTaskTypes, types);
    TypeSliceValues(allTaskTypes, types);
    TypeSlicesTotal(allTaskTypes, types);
    if NoDup(allTaskTypes) {
      SumCountsIsFilterSize(allTaskTypes, types);
    }
  }

  lemma {:induction false} TypeSliceNames(d: seq<string>, types: seq<string>)
    ensures PieDistribution.SliceNames(TypeSlices(d, Counts(types))) == Filter(d, InList(types))
  {
    if d != [] {
      var init, t := d[..|d| - 1], d[|d| - 1];
      assert d == init + [t];
      TypeSliceNames(init, types);
      FilterSnoc(init, t, InList(types));
      CountsContents(types);
      var counts := Counts(types);
      PieDistribution.SliceNamesSnoc(TypeSlices(init, counts), t, if t in counts then counts[t] else 0,
                                     t in counts && counts[t] > 0);
    }
  }

  lemma {:induction false} TypeSliceValues(d: seq<string>, types: seq<string>)
    ensures forall s :: s in TypeSlices(d, Counts(types)) ==> s.value == multiset(types)[s.name] >= 1
  {
    if d != [] {
      TypeSliceValues(d[..|d| - 1], types);
      CountsContents(types);
    }
  }

  lemma {:induction false} TypeSlicesTotal(d: seq<string>, types: seq<string>)
    ensures Total(TypeSlices(d, Counts(types))) == SumCounts(d, types)
  {
    if d != [] {
      var init, t := d[..|d| - 1], d[|d| - 1];
      TypeSlicesTotal(init, types);
      CountsContents(types);
      var r0 := TypeSlices(init, Counts(types));
      if t in types {
        var r := r0 + [PieDistribution.Slice(t, Counts(types)[t])];
        assert r[..|r0|] == r0;
      } else {
        assert TypeSlices(d, Counts(types)) == r0;
        assert multiset(types)[t] == 0;
      }
    }
  }

  /**
   * In the dashboard `allTaskTypes` holds the type of every task and the filtered tasks
   * are among the tasks, so the task-type values add up to the number of filtered tasks.
   */
  lemma TypeTotalInContext(tasks: seq<Task>, organIds: seq<string>, taskTypes: seq<string>)
    ensures var filtered := EvaluationContext.FilteredTasks(tasks, organIds, taskTypes);
      Total(TypeSlices(EvaluationContext.AllTaskTypes(tasks), Counts(EvaluationContext.TaskTypesOf(filtered)))) == |filtered|
  {
    var filtered := EvaluationContext.FilteredTasks(tasks, organIds, taskTypes);
    var all := EvaluationContext.AllTaskTypes(tasks);
    var types := EvaluationContext.TaskTypesOf(filtered);
    TypeSlicesProperties(all, filtered);
    TaskTypesAmongAll(tasks, filtered);
  }

  /** The types of tasks drawn from `tasks` all appear in `allTaskTypes`, so none is filtered out. */
  lemma TaskTypesAmongAll(tasks: seq<Task>, filtered: seq<Task>)
    requires forall t :: t in filtered ==> t in tasks
    ensures var types := EvaluationContext.TaskTypesOf(filtered);
      Filter(types, InList(EvaluationContext.AllTaskTypes(tasks))) == types
  {
    var all := EvaluationContext.AllTaskTypes(tasks);
    var types := EvaluationContext.TaskTypesOf(filtered);
    forall ty | ty in types ensures InList(all)(ty) {
      var k := IndexOf(types, ty);
      assert filtered[k] in tasks;
    }
  }

  /** The placeholder appears exactly when no task passes the filters. */
  lemma DistributionPlaceholder(chartType: ChartType, filteredTasks: seq<Task>, allTaskTypes: seq<string>)
    ensures DistributionData(chartType, filteredTasks, allTaskTypes).NoTasksAvailable? <==> filteredTasks == []
    ensures filteredTasks != [] && chartType == OrganChart ==>
      DistributionData(chartType, filteredTasks, allTaskTypes).slices != []
  {
    if filteredTasks != [] {
      var organs := EvaluationContext.OrgansOf(filteredTasks);
      assert organs[0] in Distinct(organs);
    }
  }
}
