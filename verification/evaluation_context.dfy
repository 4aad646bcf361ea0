/**
 * src/context/EvaluationContext.tsx: the shared filter state of the dashboard (three
 * selection lists updated by toggles) and the values derived from it on every read:
 * the filtered tasks, models and performances, the distinct task types, organs and
 * metrics, and the look-ups by id.
 */
module EvaluationContext {
  import opened Collections
  import opened Text
  import opened Types

  function TaskTypesOf(tasks: seq<Task>): (r: seq<string>)
    ensures |r| == |tasks| && forall i :: 0 <= i < |tasks| ==> r[i] == tasks[i].taskType
  {
    seq(|tasks|, i requires 0 <= i < |tasks| => tasks[i].taskType)
  }

  function OrgansOf(tasks: seq<Task>): (r: seq<string>)
    ensures |r| == |tasks| && forall i :: 0 <= i < |tasks| ==> r[i] == tasks[i].organ
  {
    seq(|tasks|, i requires 0 <= i < |tasks| => tasks[i].organ)
  }

  /**
   * `allTaskTypes`: every task type once, in the order in which the types first
   * occur among the tasks.
   */
  function AllTaskTypes(tasks: seq<Task>): (r: seq<string>)
    ensures NoDup(r)
    ensures forall ty :: ty in r <==> ty in TaskTypesOf(tasks)
    ensures forall ty :: ty in r <==> exists t :: t in tasks && t.taskType == ty
    ensures forall i, j :: 0 <= i < j < |r| ==>
      IndexOf(TaskTypesOf(tasks), r[i]) < IndexOf(TaskTypesOf(tasks), r[j])
  {
    var types := TaskTypesOf(tasks);
    forall ty | ty in types ensures exists t :: t in tasks && t.taskType == ty {
      var k :| 0 <= k < |types| && types[k] == ty;
      assert tasks[k] in tasks;
    }
    forall i, j | 0 <= i < j < |Distinct(types)|
      ensures IndexOf(types, Distinct(types)[i]) < IndexOf(types, Distinct(types)[j])
    {
      DistinctFirstOccurrenceOrder(types, i, j);
    }
    Distinct(types)
  }

  /** The organ record derived from an organ name. */
  function OrganNamed(name: string): (o: Organ)
    ensures o.name == name && o.id == ToLower(name)
    ensures o.description == name + " related tasks"
  {
    Organ(ToLower(name), name, name + " related tasks")
  }

  /**
   * `allOrgans`: one organ per distinct task organ, in first-occurrence order, whose
   * id is the lower-cased name.
   */
  function AllOrgans(tasks: seq<Task>): (r: seq<Organ>)
    ensures |r| == |Distinct(OrgansOf(tasks))|
    ensures forall i :: 0 <= i < |r| ==> r[i] == OrganNamed(Distinct(OrgansOf(tasks))[i])
    ensures forall i, j :: 0 <= i < j < |r| ==> r[i].name != r[j].name
    ensures forall o :: o in r <==> exists t :: t in tasks && o == OrganNamed(t.organ)
  {
    var names := Distinct(OrgansOf(tasks));
    var r := seq(|names|, i requires 0 <= i < |names| => OrganNamed(names[i]));
    assert forall o :: o in r <==> exists t :: t in tasks && o == OrganNamed(t.organ) by {
      forall o | o in r ensures exists t :: t in tasks && o == OrganNamed(t.organ) {
        var i :| 0 <= i < |r| && r[i] == o;
        assert names[i] in OrgansOf(tasks);
        var k :| 0 <= k < |tasks| && OrgansOf(tasks)[k] == names[i];
        assert tasks[k] in tasks;
      }
      forall t | t in tasks ensures OrganNamed(t.organ) in r {
        var k :| 0 <= k < |tasks| && tasks[k] == t;
        assert OrgansOf(tasks)[k] == t.organ;
        var i := IndexOf(names, t.organ);
        assert r[i] == OrganNamed(t.organ);
      }
    }
    r
  }

  /** `tasks.find((task) => task.id === taskId)`: the first task with that id. */
  function GetTaskById(tasks: seq<Task>, taskId: string): (r: Option<Task>)
    ensures r.Some? <==> taskId in TaskIds(tasks)
    ensures r.Some? ==> r.value == tasks[IndexOf(TaskIds(tasks), taskId)]
  {
    var r := Find(tasks, (t: Task) => t.id == taskId);
    assert (r.Some? <==> taskId in TaskIds(tasks)) &&
           (r.Some? ==> r.value == tasks[IndexOf(TaskIds(tasks), taskId)]) by {
      if r.Some? {
        var k :| 0 <= k < |tasks| && tasks[k] == r.value && tasks[k].id == taskId &&
                 forall j :: 0 <= j < k ==> tasks[j].id != taskId;
        assert TaskIds(tasks)[k] == taskId;
        assert forall x :: x in TaskIds(tasks)[..k] ==> x != taskId;
        IndexOfUnique(TaskIds(tasks), taskId, k);
      } else {
        assert forall i :: 0 <= i < |tasks| ==> tasks[i] in tasks;
      }
    }
    r
  }

  /** `models.find((model) => model.name === modelName)`. */
  function GetModelById(models: seq<Model>, modelName: string): (r: Option<Model>)
    ensures r.Some? <==> modelName in ModelNames(models)
    ensures r.Some? ==> r.value == models[IndexOf(ModelNames(models), modelName)]
  {
    var r := Find(models, (m: Model) => m.name == modelName);
    assert (r.Some? <==> modelName in ModelNames(models)) &&
           (r.Some? ==> r.value == models[IndexOf(ModelNames(models), modelName)]) by {
      if r.Some? {
        var k :| 0 <= k < |models| && models[k] == r.value && models[k].name == modelName &&
                 forall j :: 0 <= j < k ==> models[j].name != modelName;
        assert ModelNames(models)[k] == modelName;
        assert forall x :: x in ModelNames(models)[..k] ==> x != modelName;
        IndexOfUnique(ModelNames(models), modelName, k);
      } else {
        assert forall i :: 0 <= i < |models| ==> models[i] in models;
      }
    }
    r
  }

  /** `allOrgans.find((organ) => organ.id === organId)`. */
  function GetOrganById(tasks: seq<Task>, organId: string): (r: Option<Organ>)
    ensures r.None? <==> forall o :: o in AllOrgans(tasks) ==> o.id != organId
    ensures r.Some? ==> r.value in AllOrgans(tasks) && r.value.id == organId
    ensures r.Some? ==> exists k :: 0 <= k < |AllOrgans(tasks)| && AllOrgans(tasks)[k] == r.value &&
                                    forall j :: 0 <= j < k ==> AllOrgans(tasks)[j].id != organId
  {
    Find(AllOrgans(tasks), (o: Organ) => o.id == organId)
  }

  /** The predicate of the task filter: each selection list empty or matching. */
  predicate TaskPasses(organIds: seq<string>, taskTypes: seq<string>, t: Task)
  {
    && (organIds == [] || ToLower(t.organ) in organIds)
    && (taskTypes == [] || t.taskType in taskTypes)
  }

  /** `filteredTasks`: the tasks passing both selections, in their order. */
  function FilteredTasks(tasks: seq<Task>, organIds: seq<string>, taskTypes: seq<string>): (r: seq<Task>)
    ensures organIds == [] && taskTypes == [] ==> r == tasks
    ensures forall t :: t in r <==> t in tasks && TaskPasses(organIds, taskTypes, t)
    ensures IsSubseq(r, tasks)
    ensures forall t :: multiset(r)[t] == if TaskPasses(organIds, taskTypes, t) then multiset(tasks)[t] else 0
  {
    if organIds == [] && taskTypes == [] then IsSubseqRefl(tasks); tasks
    else Filter(tasks, t => TaskPasses(organIds, taskTypes, t))
  }

  /** `filteredModels`: all models, or those whose name is selected, in their order. */
  function FilteredModels(models: seq<Model>, modelIds: seq<string>): (r: seq<Model>)
    ensures modelIds == [] ==> r == models
    ensures modelIds != [] ==> forall m :: m in r <==> m in models && m.name in modelIds
    ensures modelIds != [] ==> forall m :: multiset(r)[m] == if m.name in modelIds then multiset(models)[m] else 0
    ensures IsSubseq(r, models)
  {
    if modelIds == [] then IsSubseqRefl(models); models else Filter(models, (m: Model) => m.name in modelIds)
  }

  /**
   * `filteredPerformances`: every performance when the filtered tasks or the filtered
   * models are empty; otherwise those of a filtered task and a filtered model.
   */
  function FilteredPerformances(ps: seq<Performance>, tasks: seq<Task>, models: seq<Model>): (r: seq<Performance>)
    ensures tasks == [] || models == [] ==> r == ps
    ensures tasks != [] && models != [] ==>
      forall p :: p in r <==> p in ps && p.taskId in TaskIds(tasks) && p.modelId in ModelNames(models)
    ensures tasks != [] && models != [] ==>
      forall p :: multiset(r)[p] ==
        if p.taskId in TaskIds(tasks) && p.modelId in ModelNames(models) then multiset(ps)[p] else 0
    ensures IsSubseq(r, ps)
  {
    if |tasks| == 0 || |models| == 0 then IsSubseqRefl(ps); ps
    else
      var taskIds, modelIds := TaskIds(tasks), ModelNames(models);
      Filter(ps, (p: Performance) => p.taskId in taskIds && p.modelId in modelIds)
  }

  /**
   * `availableMetrics` (over the filtered tasks) and `allAvailableMetrics` (over all
   * tasks): every metric once, in first-occurrence order.
   */
  function AvailableMetrics(tasks: seq<Task>): (r: seq<string>)
    ensures NoDup(r)
    ensures forall m :: m in r <==> m in MetricsOf(tasks)
    ensures forall m :: m in r <==> exists t :: t in tasks && m in t.evaluationMetrics
    ensures forall i, j :: 0 <= i < j < |r| ==>
      IndexOf(MetricsOf(tasks), r[i]) < IndexOf(MetricsOf(tasks), r[j])
  {
    var all := MetricsOf(tasks);
    forall i, j | 0 <= i < j < |Distinct(all)|
      ensures IndexOf(all, Distinct(all)[i]) < IndexOf(all, Distinct(all)[j])
    {
      DistinctFirstOccurrenceOrder(all, i, j);
    }
    Distinct(all)
  }

  /** The task filter depends only on which values are selected, not on their order or repetition. */
  lemma FilteredTasksBySelectedSet(tasks: seq<Task>, o1: seq<string>, o2: seq<string>,
                                   y1: seq<string>, y2: seq<string>)
    requires forall x :: x in o1 <==> x in o2
    requires forall x :: x in y1 <==> x in y2
    ensures FilteredTasks(tasks, o1, y1) == FilteredTasks(tasks, o2, y2)
  {
    assert o1 == [] <==> o2 == [] by {
      if o1 != [] { assert o1[0] in o2; }
      if o2 != [] { assert o2[0] in o1; }
    }
    assert y1 == [] <==> y2 == [] by {
      if y1 != [] { assert y1[0] in y2; }
      if y2 != [] { assert y2[0] in y1; }
    }
    if !(o1 == [] && y1 == []) {
      FilterCongruent(tasks, t => TaskPasses(o1, y1, t), t => TaskPasses(o2, y2, t));
    }
  }

  /**
   * Filtering to one organ and clearing it again gives the unfiltered tasks back, and
   * so does any double toggle of an organ: the filter sees the same selected set.
   */
  lemma ToggleOrganTwiceRestoresTasks(tasks: seq<Task>, organIds: seq<string>,
                                      taskTypes: seq<string>, organId: string)
    ensures FilteredTasks(tasks, Toggle(Toggle(organIds, organId), organId), taskTypes) ==
            FilteredTasks(tasks, organIds, taskTypes)
    ensures FilteredTasks(tasks, Toggle(Toggle([], organId), organId), []) == tasks
  {
    ToggleTwice(organIds, organId);
    FilteredTasksBySelectedSet(tasks, Toggle(Toggle(organIds, organId), organId), organIds,
                               taskTypes, taskTypes);
    ToggleTwice([], organId);
  }

  /** Selecting the id of every organ that occurs keeps every task. */
  lemma SelectingAllOrgansKeepsAllTasks(tasks: seq<Task>, organIds: seq<string>)
    requires forall t :: t in tasks ==> ToLower(t.organ) in organIds
    ensures FilteredTasks(tasks, organIds, []) == tasks
  {
  }

  /**
   * The provider's state: the fetched data, fixed for the page's life, and the three
   * selection lists, which only the toggles change.
   */
  class EvaluationState {
    const tasks: seq<Task>
    const models: seq<Model>
    const performances: seq<Performance>
    var selectedOrganIds: seq<string>
    var selectedTaskTypes: seq<string>
    var selectedModelIds: seq<string>

    /** Every selection starts empty, so nothing is filtered out. */
    constructor(tasks: seq<Task>, models: seq<Model>, performances: seq<Performance>)
      ensures this.tasks == tasks && this.models == models && this.performances == performances
      ensures selectedOrganIds == [] && selectedTaskTypes == [] && selectedModelIds == []
      ensures GetFilteredTasks() == tasks && GetFilteredModels() == models
    {
      this.tasks := tasks;
      this.models := models;
      this.performances := performances;
      selectedOrganIds := [];
      selectedTaskTypes := [];
      selectedModelIds := [];
    }

    method ToggleOrganSelection(organId: string)
      modifies this
      ensures selectedOrganIds == Toggle(old(selectedOrganIds), organId)
      ensures selectedTaskTypes == old(selectedTaskTypes) && selectedModelIds == old(selectedModelIds)
    {
      selectedOrganIds := if organId in selectedOrganIds then Remove(selectedOrganIds, organId)
                          else selectedOrganIds + [organId];
    }

    method ToggleTaskTypeSelection(taskType: string)
      modifies this
      ensures selectedTaskTypes == Toggle(old(selectedTaskTypes), taskType)
      ensures selectedOrganIds == old(selectedOrganIds) && selectedModelIds == old(selectedModelIds)
    {
      selectedTaskTypes := if taskType in selectedTaskTypes then Remove(selectedTaskTypes, taskType)
                           else selectedTaskTypes + [taskType];
    }

    method ToggleModelSelection(modelId: string)
      modifies this
      ensures selectedModelIds == Toggle(old(selectedModelIds), modelId)
      ensures selectedOrganIds == old(selectedOrganIds) && selectedTaskTypes == old(selectedTaskTypes)
    {
      selectedModelIds := if modelId in selectedModelIds then Remove(selectedModelIds, modelId)
                          else selectedModelIds + [modelId];
    }

    function GetFilteredTasks(): seq<Task>
      reads this
    {
      FilteredTasks(tasks, selectedOrganIds, selectedTaskTypes)
    }

    function GetFilteredModels(): seq<Model>
      reads this
    {
      FilteredModels(models, selectedModelIds)
    }

    function GetFilteredPerformances(): seq<Performance>
      reads this
    {
      FilteredPerformances(performances, GetFilteredTasks(), GetFilteredModels())
    }

    function GetAvailableMetrics(): seq<string>
      reads this
    {
      AvailableMetrics(GetFilteredTasks())
    }

    function GetAllAvailableMetrics(): seq<string>
      reads this
    {
      AvailableMetrics(tasks)
    }
  }

  /** Toggling an organ on and off again, starting from no selection, leaves every task visible. */
  method OrganRoundTrip(tasks: seq<Task>, models: seq<Model>, ps: seq<Performance>, organId: string)
    returns (visible: seq<Task>)
    ensures visible == tasks
  {
    var state := new EvaluationState(tasks, models, ps);
    state.ToggleOrganSelection(organId);
    state.ToggleOrganSelection(organId);
    ToggleOrganTwiceRestoresTasks(tasks, [], [], organId);
    visible := state.GetFilteredTasks();
  }
}
