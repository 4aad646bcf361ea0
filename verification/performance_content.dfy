/**
 * src/components/tables/PerformanceContent.tsx: the detailed-performance page's own
 * filters (a search term and three selection lists), the sorted option lists, the
 * task filter, and the grouping of the filtered tasks by organ.
 */
module PerformanceContent {
  import opened Collections
  import opened Text
  import opened Types
  import EvaluationContext

  // ---------------------------------------------------------------------------------
  // Option lists

  function CohortsOf(tasks: seq<Task>): (r: seq<string>)
    ensures |r| == |tasks| && forall i :: 0 <= i < |tasks| ==> r[i] == tasks[i].cohort
  {
    seq(|tasks|, i requires 0 <= i < |tasks| => tasks[i].cohort)
  }

  /** `[...new Set(values)].sort()`. */
  function OptionList(values: seq<string>): seq<string>
  {
    SortBy(Distinct(values), CodeUnitLe)
  }

  /** An option list is sorted strictly ascending and holds exactly the values that occur. */
  lemma OptionListProperties(values: seq<string>)
    ensures var r := OptionList(values);
      && NoDup(r)
      && (forall x :: x in r <==> x in values)
      && (forall i, j :: 0 <= i < j < |r| ==> CodeUnitLe(r[i], r[j]) && r[i] != r[j])
  {
    var d := Distinct(values);
    var r := OptionList(values);
    CodeUnitOrderIsTotal();
    SortBySorted(d, CodeUnitLe);
    NoDupOfPermutation(d, r);
    forall x ensures x in r <==> x in d {
      assert x in r <==> x in multiset(r);
    }
  }

  function AllOrganOptions(tasks: seq<Task>): seq<string>
  {
    OptionList(EvaluationContext.OrgansOf(tasks))
  }

  function AllTaskTypeOptions(tasks: seq<Task>): seq<string>
  {
    OptionList(EvaluationContext.TaskTypesOf(tasks))
  }

  function AllCohortOptions(tasks: seq<Task>): seq<string>
  {
    OptionList(CohortsOf(tasks))
  }

  /** The option list of a field holds exactly the values the tasks have in it. */
  lemma OptionsOfField(tasks: seq<Task>, values: seq<string>, field: Task -> string, x: string)
    requires |values| == |tasks| && forall i :: 0 <= i < |tasks| ==> values[i] == field(tasks[i])
    ensures x in OptionList(values) <==> exists t :: t in tasks && field(t) == x
  {
    OptionListProperties(values);
    if x in values {
      var k :| 0 <= k < |tasks| && values[k] == x;
      assert tasks[k] in tasks;
    }
    if exists t :: t in tasks && field(t) == x {
      var t :| t in tasks && field(t) == x;
      var k :| 0 <= k < |tasks| && tasks[k] == t;
      assert values[k] == x;
    }
  }

  /** The three option lists hold exactly the organs, task types and cohorts of the tasks. */
  lemma OptionListsMembers(tasks: seq<Task>, x: string)
    ensures x in AllOrganOptions(tasks) <==> exists t :: t in tasks && t.organ == x
    ensures x in AllTaskTypeOptions(tasks) <==> exists t :: t in tasks && t.taskType == x
    ensures x in AllCohortOptions(tasks) <==> exists t :: t in tasks && t.cohort == x
  {
    OptionsOfField(tasks, EvaluationContext.OrgansOf(tasks), (t: Task) => t.organ, x);
    OptionsOfField(tasks, EvaluationContext.TaskTypesOf(tasks), (t: Task) => t.taskType, x);
    OptionsOfField(tasks, CohortsOf(tasks), (t: Task) => t.cohort, x);
  }

  // ---------------------------------------------------------------------------------
  // filteredTasks

  /** The lower-cased search term occurs in the lower-cased name, organ or task type. */
  predicate MatchesSearch(searchTerm: string, t: Task)
  {
    var term := ToLower(searchTerm);
    Contains(ToLower(t.name), term) || Contains(ToLower(t.organ), term) || Contains(ToLower(t.taskType), term)
  }

  /** A selection list restricts nothing when empty, and otherwise must hold the value. */
  predicate Allows(selected: seq<string>, value: string)
  {
    |selected| == 0 || value in selected
  }

  predicate TaskMatches(searchTerm: string, organs: seq<string>, taskTypes: seq<string>, cohorts: seq<string>, t: Task)
  {
    MatchesSearch(searchTerm, t) && Allows(organs, t.organ) && Allows(taskTypes, t.taskType) && Allows(cohorts, t.cohort)
  }

  function FilteredTasks(tasks: seq<Task>, searchTerm: string, organs: seq<string>, taskTypes: seq<string>,
                         cohorts: seq<string>): (r: seq<Task>)
    ensures forall t :: t in r <==> t in tasks && TaskMatches(searchTerm, organs, taskTypes, cohorts, t)
    ensures IsSubseq(r, tasks)
    ensures forall t :: multiset(r)[t] == if TaskMatches(searchTerm, organs, taskTypes, cohorts, t) then multiset(tasks)[t] else 0
  {
    Filter(tasks, t => TaskMatches(searchTerm, organs, taskTypes, cohorts, t))
  }

  /** An empty search with no selection keeps every task, in order. */
  lemma NoFilterKeepsAll(tasks: seq<Task>)
    ensures FilteredTasks(tasks, "", [], [], []) == tasks
  {
    forall t ensures TaskMatches("", [], [], [], t) {
      ContainsEmpty(ToLower(t.name));
    }
    var r := FilteredTasks(tasks, "", [], [], []);
    assert Filter(tasks, t => TaskMatches("", [], [], [], t)) == r;
    FilterAll(tasks, t => TaskMatches("", [], [], [], t));
  }

  lemma {:induction false} FilterAll<T(!new)>(s: seq<T>, p: T -> bool)
    requires forall x :: p(x)
    ensures Filter(s, p) == s
  {
    if s != [] {
      var init := s[..|s| - 1];
      assert s == init + [s[|s| - 1]];
      FilterAll(init, p);
      FilterSnoc(init, s[|s| - 1], p);
    }
  }

  // ---------------------------------------------------------------------------------
  // tasksByOrgan

  /** `{ organ, tasks }`: one group of the page. */
  datatype OrganGroup = OrganGroup(organ: string, tasks: seq<Task>)

  /** The tasks of one organ, in their order: what the map holds for that organ after the loop. */
  function TasksOfOrgan(ts: seq<Task>, organ: string): seq<Task>
  {
    if ts == [] then []
    else
      var init, last := ts[..|ts| - 1], ts[|ts| - 1];
      assert ts == init + [last];
      TasksOfOrgan(init, organ) + (if last.organ == organ then [last] else [])
  }

  lemma {:induction false} TasksOfOrganMembers(ts: seq<Task>, organ: string)
    ensures forall t :: t in TasksOfOrgan(ts, organ) <==> t in ts && t.organ == organ
  {
    if ts != [] {
      var init, last := ts[..|ts| - 1], ts[|ts| - 1];
      assert ts == init + [last];
      TasksOfOrganMembers(init, organ);
    }
  }

  /** Each task of the organ occurs as often as among all tasks; no other task occurs. */
  lemma {:induction false} TasksOfOrganCount(ts: seq<Task>, organ: string, t: Task)
    ensures multiset(TasksOfOrgan(ts, organ))[t] == if t.organ == organ then multiset(ts)[t] else 0
  {
    if ts != [] {
      var init, last := ts[..|ts| - 1], ts[|ts| - 1];
      assert ts == init + [last];
      TasksOfOrganCount(init, organ, t);
    }
  }

  /** An organ no task has gets no tasks. */
  lemma {:induction false} TasksOfOrganEmpty(ts: seq<Task>, organ: string)
    requires organ !in EvaluationContext.OrgansOf(ts)
    ensures TasksOfOrgan(ts, organ) == []
  {
    if ts != [] {
      var init := ts[..|ts| - 1];
      assert ts == init + [ts[|ts| - 1]];
      assert EvaluationContext.OrgansOf(ts) == EvaluationContext.OrgansOf(init) + [ts[|ts| - 1].organ];
      TasksOfOrganEmpty(init, organ);
    }
  }

  lemma TasksOfOrganSnoc(prefix: seq<Task>, t: Task)
    ensures forall o ::
      TasksOfOrgan(prefix + [t], o) == TasksOfOrgan(prefix, o) + (if t.organ == o then [t] else [])
  {
    assert (prefix + [t])[..|prefix|] == prefix;
  }

  /** `(a, b) => a.name.localeCompare(b.name)`, at most 0. */
  function NameLe(localeLe: (string, string) -> bool): (Task, Task) -> bool
  {
    (a: Task, b: Task) => localeLe(a.name, b.name)
  }

  /** The organs in the order the map's keys are sorted: `Array.from(organMap.keys()).sort()`. */
  function SortedOrgans(filtered: seq<Task>): seq<string>
  {
    SortBy(Distinct(EvaluationContext.OrgansOf(filtered)), CodeUnitLe)
  }

  /** The group of one organ: its tasks sorted by name. */
  function GroupOf(filtered: seq<Task>, localeLe: (string, string) -> bool, organ: string): OrganGroup
  {
    OrganGroup(organ, SortBy(TasksOfOrgan(filtered, organ), NameLe(localeLe)))
  }

  /** The groups the page shows. */
  function OrganGroups(filtered: seq<Task>, localeLe: (string, string) -> bool): (r: seq<OrganGroup>)
    ensures |r| == |SortedOrgans(filtered)|
    ensures forall k :: 0 <= k < |r| ==> r[k] == GroupOf(filtered, localeLe, SortedOrgans(filtered)[k])
  {
    var so := SortedOrgans(filtered);
    seq(|so|, k requires 0 <= k < |so| => GroupOf(filtered, localeLe, so[k]))
  }

  /** The map after the first `|ts|` tasks: keys in insertion order, each holding its organ's tasks. */
  ghost predicate OrganMapOf(ts: seq<Task>, keys: seq<string>, organMap: map<string, seq<Task>>)
  {
    && keys == Distinct(EvaluationContext.OrgansOf(ts))
    && (forall o :: o in organMap <==> o in keys)
    && (forall o :: o in organMap ==> organMap[o] == TasksOfOrgan(ts, o))
  }

  /** One step of the first `forEach`: the task `t` is appended to its organ's list, created when new. */
  lemma OrganMapStep(prefix: seq<Task>, t: Task, keys: seq<string>, organMap: map<string, seq<Task>>)
    requires OrganMapOf(prefix, keys, organMap)
    ensures var m0 := if t.organ in organMap then organMap else organMap[t.organ := []];
            var keys' := if t.organ in organMap then keys else keys + [t.organ];
            OrganMapOf(prefix + [t], keys', m0[t.organ := m0[t.organ] + [t]])
  {
    OrganMapKeysStep(prefix, t, keys);
    OrganMapDomainStep(keys, organMap, t);
    OrganMapValuesStep(prefix, t, organMap);
  }

  /** The keys, in first-occurrence order, gain the organ of `t` when it is new. */
  lemma OrganMapKeysStep(prefix: seq<Task>, t: Task, keys: seq<string>)
    requires keys == Distinct(EvaluationContext.OrgansOf(prefix))
    ensures Distinct(EvaluationContext.OrgansOf(prefix + [t])) == if t.organ in keys then keys else keys + [t.organ]
  {
    assert EvaluationContext.OrgansOf(prefix + [t]) == EvaluationContext.OrgansOf(prefix) + [t.organ];
    DistinctSnoc(EvaluationContext.OrgansOf(prefix), t.organ);
  }

  /** The map's domain follows the keys when `t` is appended under its organ. */
  lemma OrganMapDomainStep(keys: seq<string>, organMap: map<string, seq<Task>>, t: Task)
    requires forall o :: o in organMap <==> o in keys
    ensures var m0 := if t.organ in organMap then organMap else organMap[t.organ := []];
            var keys' := if t.organ in organMap then keys else keys + [t.organ];
            forall o :: o in m0[t.organ := m0[t.organ] + [t]] <==> o in keys'
  {
  }

  /** Every list of the map, after `t` is appended to its organ's, holds that organ's tasks. */
  lemma OrganMapValuesStep(prefix: seq<Task>, t: Task, organMap: map<string, seq<Task>>)
    requires forall o :: o in organMap <==> o in EvaluationContext.OrgansOf(prefix)
    requires forall o :: o in organMap ==> organMap[o] == TasksOfOrgan(prefix, o)
    ensures var m0 := if t.organ in organMap then organMap else organMap[t.organ := []];
            var m1 := m0[t.organ := m0[t.organ] + [t]];
            forall o :: o in m1 ==> m1[o] == TasksOfOrgan(prefix + [t], o)
  {
    var m0 := if t.organ in organMap then organMap else organMap[t.organ := []];
    var m1 := m0[t.organ := m0[t.organ] + [t]];
    if t.organ !in organMap {
      TasksOfOrganEmpty(prefix, t.organ);
    }
    TasksOfOrganSnoc(prefix, t);
    forall o | o in m1 ensures m1[o] == TasksOfOrgan(prefix + [t], o) {
      assert TasksOfOrgan(prefix + [t], o) == TasksOfOrgan(prefix, o) + (if t.organ == o then [t] else []);
    }
  }

  /** The first loop of `tasksByOrgan`: the map from organ to its tasks, keys in insertion order. */
  method BuildOrganMap(filtered: seq<Task>) returns (keys: seq<string>, organMap: map<string, seq<Task>>)
    ensures OrganMapOf(filtered, keys, organMap)
  {
    keys := [];
    organMap := map[];
    for i := 0 to |filtered|
      invariant OrganMapOf(filtered[..i], keys, organMap)
    {
      var organ := filtered[i].organ;
      assert filtered[..i + 1] == filtered[..i] + [filtered[i]];
      OrganMapStep(filtered[..i], filtered[i], keys, organMap);
      if organ !in organMap {
        organMap := organMap[organ := []];
        keys := keys + [organ];
      }
      organMap := organMap[organ := organMap[organ] + [filtered[i]]];
    }
    assert filtered[..|filtered|] == filtered;
  }

  /** Groups the filtered tasks by organ: organs in ascending order, tasks by name within each. */
  method TasksByOrgan(filtered: seq<Task>, localeLe: (string, string) -> bool) returns (groups: seq<OrganGroup>)
    ensures groups == OrganGroups(filtered, localeLe)
  {
    var keys, organMap := BuildOrganMap(filtered);
    var sortedOrgans := SortBy(keys, CodeUnitLe);
    groups := [];
    SortedKeys(filtered, keys, organMap);
    for j := 0 to |sortedOrgans|
      invariant GroupsUpTo(filtered, localeLe, sortedOrgans, groups, j)
    {
      var organ := sortedOrgans[j];
      GroupFromMap(filtered, localeLe, keys, organMap, organ);
      var organTasks := SortBy(organMap[organ], NameLe(localeLe));
      GroupsStep(filtered, localeLe, sortedOrgans, groups, j, OrganGroup(organ, organTasks));
      groups := groups + [OrganGroup(organ, organTasks)];
    }
    GroupsDone(filtered, localeLe, groups);
  }

  /** The first `j` groups are in place. */
  ghost predicate GroupsUpTo(filtered: seq<Task>, localeLe: (string, string) -> bool, so: seq<string>,
                             groups: seq<OrganGroup>, j: nat)
  {
    && j <= |so|
    && |groups| == j
    && forall k :: 0 <= k < j ==> groups[k] == GroupOf(filtered, localeLe, so[k])
  }

  lemma GroupsStep(filtered: seq<Task>, localeLe: (string, string) -> bool, so: seq<string>,
                   groups: seq<OrganGroup>, j: nat, g: OrganGroup)
    requires GroupsUpTo(filtered, localeLe, so, groups, j) && j < |so|
    requires g == GroupOf(filtered, localeLe, so[j])
    ensures GroupsUpTo(filtered, localeLe, so, groups + [g], j + 1)
  {
    var groups' := groups + [g];
    forall k | 0 <= k < j + 1 ensures groups'[k] == GroupOf(filtered, localeLe, so[k]) {
      if k < j {
        assert groups'[k] == groups[k];
      }
    }
  }

  lemma GroupsDone(filtered: seq<Task>, localeLe: (string, string) -> bool, groups: seq<OrganGroup>)
    requires GroupsUpTo(filtered, localeLe, SortedOrgans(filtered), groups, |SortedOrgans(filtered)|)
    ensures groups == OrganGroups(filtered, localeLe)
  {
  }

  /** Sorting the map's keys gives the organs of the specification. */
  lemma SortedKeys(filtered: seq<Task>, keys: seq<string>, organMap: map<string, seq<Task>>)
    requires OrganMapOf(filtered, keys, organMap)
    ensures SortBy(keys, CodeUnitLe) == SortedOrgans(filtered)
    ensures forall o :: o in SortBy(keys, CodeUnitLe) ==> o in organMap
  {
    forall o | o in SortBy(keys, CodeUnitLe) ensures o in organMap {
      assert o in multiset(SortBy(keys, CodeUnitLe));
    }
  }

  /** What the second loop reads from the map is the group of the specification. */
  lemma GroupFromMap(filtered: seq<Task>, localeLe: (string, string) -> bool, keys: seq<string>,
                     organMap: map<string, seq<Task>>, organ: string)
    requires OrganMapOf(filtered, keys, organMap) && organ in organMap
    ensures OrganGroup(organ, SortBy(organMap[organ], NameLe(localeLe))) == GroupOf(filtered, localeLe, organ)
  {
  }

  lemma NameLeTotal(localeLe: (string, string) -> bool)
    requires TotalPreorder(localeLe)
    ensures TotalPreorder(NameLe(localeLe))
  {
    var le := NameLe(localeLe);
    forall a, b ensures le(a, b) || le(b, a) {
      assert localeLe(a.name, b.name) || localeLe(b.name, a.name);
    }
    forall a, b, c | le(a, b) && le(b, c) ensures le(a, c) {
      assert localeLe(a.name, b.name) && localeLe(b.name, c.name);
    }
  }

  /** The group organs are the distinct organs of the tasks, strictly ascending. */
  lemma SortedOrgansProperties(filtered: seq<Task>)
    ensures var so := SortedOrgans(filtered);
      && (forall i, j :: 0 <= i < j < |so| ==> CodeUnitLe(so[i], so[j]) && so[i] != so[j])
      && (forall o :: o in so <==> exists t :: t in filtered && t.organ == o)
  {
    var organs := EvaluationContext.OrgansOf(filtered);
    assert SortedOrgans(filtered) == OptionList(organs);
    OptionListProperties(organs);
    forall o ensures o in organs <==> exists t :: t in filtered && t.organ == o {
      OptionsOfField(filtered, organs, (t: Task) => t.organ, o);
    }
  }

  /** A group is non-empty, sorted by name, and holds exactly the tasks of its organ. */
  lemma GroupProperties(filtered: seq<Task>, localeLe: (string, string) -> bool, k: nat)
    requires TotalPreorder(localeLe)
    requires k < |SortedOrgans(filtered)|
    ensures var g := GroupOf(filtered, localeLe, SortedOrgans(filtered)[k]);
      && |g.tasks| > 0
      && SortedBy(g.tasks, NameLe(localeLe))
      && forall t :: multiset(g.tasks)[t] == if t.organ == g.organ then multiset(filtered)[t] else 0
  {
    var o := SortedOrgans(filtered)[k];
    SortedOrgansProperties(filtered);
    assert o in SortedOrgans(filtered);
    var t0 :| t0 in filtered && t0.organ == o;
    OrganGroupProperties(filtered, localeLe, t0);
  }

  /** The group of the organ of a filtered task `t0`, stated for that organ. */
  lemma OrganGroupProperties(filtered: seq<Task>, localeLe: (string, string) -> bool, t0: Task)
    requires TotalPreorder(localeLe)
    requires t0 in filtered
    ensures var g := GroupOf(filtered, localeLe, t0.organ);
      && |g.tasks| > 0
      && SortedBy(g.tasks, NameLe(localeLe))
      && forall t :: multiset(g.tasks)[t] == if t.organ == g.organ then multiset(filtered)[t] else 0
  {
    var o := t0.organ;
    var g := GroupOf(filtered, localeLe, o);
    TasksOfOrganMembers(filtered, o);
    assert t0 in TasksOfOrgan(filtered, o);
    NameLeTotal(localeLe);
    SortBySorted(TasksOfOrgan(filtered, o), NameLe(localeLe));
    forall t ensures multiset(g.tasks)[t] == if t.organ == o then multiset(filtered)[t] else 0 {
      TasksOfOrganCount(filtered, o, t);
    }
  }

  /**
   * The groups: organs strictly ascending, no group empty, every group's tasks exactly the
   * filtered tasks of its organ (each as often as among them), sorted by name, and a group
   * for the organ of every filtered task.
   */
  lemma OrganGroupsProperties(filtered: seq<Task>, localeLe: (string, string) -> bool)
    requires TotalPreorder(localeLe)
    ensures var r := OrganGroups(filtered, localeLe);
      && (forall i, j :: 0 <= i < j < |r| ==> CodeUnitLe(r[i].organ, r[j].organ) && r[i].organ != r[j].organ)
      && (forall k :: 0 <= k < |r| ==> |r[k].tasks| > 0 && SortedBy(r[k].tasks, NameLe(localeLe)))
      && (forall k, t :: 0 <= k < |r| ==>
            multiset(r[k].tasks)[t] == if t.organ == r[k].organ then multiset(filtered)[t] else 0)
      && (forall t :: t in filtered ==> exists k :: 0 <= k < |r| && r[k].organ == t.organ)
  {
    var r := OrganGroups(filtered, localeLe);
    var so := SortedOrgans(filtered);
    SortedOrgansProperties(filtered);
    forall k | 0 <= k < |r|
      ensures |r[k].tasks| > 0 && SortedBy(r[k].tasks, NameLe(localeLe))
      ensures forall t :: multiset(r[k].tasks)[t] == if t.organ == r[k].organ then multiset(filtered)[t] else 0
    {
      GroupProperties(filtered, localeLe, k);
    }
    forall t | t in filtered ensures exists k :: 0 <= k < |r| && r[k].organ == t.organ {
      var k := IndexOf(so, t.organ);
      assert r[k].organ == t.organ;
    }
  }

  // ---------------------------------------------------------------------------------
  // The filter state

  /** `hasActiveFilters`: a non-empty search term or a non-empty selection list. */
  predicate HasActiveFilters(searchTerm: string, organs: seq<string>, taskTypes: seq<string>, cohorts: seq<string>)
  {
    |searchTerm| > 0 || |organs| > 0 || |taskTypes| > 0 || |cohorts| > 0
  }

  /**
   * The number on the filter button, `[...lengths].filter((n) => n > 0).length`: how many
   * of the three lists are non-empty.
   */
  function BadgeCount(organs: seq<string>, taskTypes: seq<string>, cohorts: seq<string>): (n: nat)
    ensures n <= 3
    ensures n == 0 <==> organs == [] && taskTypes == [] && cohorts == []
    ensures n == 3 <==> organs != [] && taskTypes != [] && cohorts != []
  {
    (if |organs| > 0 then 1 else 0) + (if |taskTypes| > 0 then 1 else 0) + (if |cohorts| > 0 then 1 else 0)
  }

  /** The page's filter state: the fixed task list, the search term and the three selection lists. */
  class PerformanceFilters {
    const tasks: seq<Task>
    var searchTerm: string
    var selectedOrgans: seq<string>
    var selectedTaskTypes: seq<string>
    var selectedCohorts: seq<string>

    constructor(tasks: seq<Task>)
      ensures this.tasks == tasks
      ensures searchTerm == "" && selectedOrgans == [] && selectedTaskTypes == [] && selectedCohorts == []
    {
      this.tasks := tasks;
      searchTerm := "";
      selectedOrgans := [];
      selectedTaskTypes := [];
      selectedCohorts := [];
    }

    function GetFilteredTasks(): seq<Task>
      reads this
    {
      FilteredTasks(tasks, searchTerm, selectedOrgans, selectedTaskTypes, selectedCohorts)
    }

    predicate IsFiltering()
      reads this
    {
      HasActiveFilters(searchTerm, selectedOrgans, selectedTaskTypes, selectedCohorts)
    }

    method SetSearchTerm(term: string)
      modifies this
      ensures searchTerm == term
      ensures selectedOrgans == old(selectedOrgans) && selectedTaskTypes == old(selectedTaskTypes)
      ensures selectedCohorts == old(selectedCohorts)
    {
      searchTerm := term;
    }

    method ClearAllFilters()
      modifies this
      ensures searchTerm == "" && selectedOrgans == [] && selectedTaskTypes == [] && selectedCohorts == []
      ensures !IsFiltering() && GetFilteredTasks() == tasks
    {
      searchTerm := "";
      selectedOrgans := [];
      selectedTaskTypes := [];
      selectedCohorts := [];
      NoFilterKeepsAll(tasks);
    }

    method ToggleOrgan(organ: string)
      modifies this
      ensures selectedOrgans == Toggle(old(selectedOrgans), organ)
      ensures searchTerm == old(searchTerm) && selectedTaskTypes == old(selectedTaskTypes)
      ensures selectedCohorts == old(selectedCohorts)
    {
      selectedOrgans := if organ in selectedOrgans then Remove(selectedOrgans, organ) else selectedOrgans + [organ];
    }

    method ToggleTaskType(taskType: string)
      modifies this
      ensures selectedTaskTypes == Toggle(old(selectedTaskTypes), taskType)
      ensures searchTerm == old(searchTerm) && selectedOrgans == old(selectedOrgans)
      ensures selectedCohorts == old(selectedCohorts)
    {
      selectedTaskTypes := if taskType in selectedTaskTypes then Remove(selectedTaskTypes, taskType)
                           else selectedTaskTypes + [taskType];
    }

    method ToggleCohort(cohort: string)
      modifies this
      ensures selectedCohorts == Toggle(old(selectedCohorts), cohort)
      ensures searchTerm == old(searchTerm) && selectedOrgans == old(selectedOrgans)
      ensures selectedTaskTypes == old(selectedTaskTypes)
    {
      selectedCohorts := if cohort in selectedCohorts then Remove(selectedCohorts, cohort)
                         else selectedCohorts + [cohort];
    }
  }

  /** Selecting a cohort and clearing the filters shows every task again. */
  method ClearAfterToggle(tasks: seq<Task>, cohort: string) returns (shown: seq<Task>, filtering: bool)
    ensures shown == tasks && !filtering
  {
    var page := new PerformanceFilters(tasks);
    page.ToggleCohort(cohort);
    page.ClearAllFilters();
    shown, filtering := page.GetFilteredTasks(), page.IsFiltering();
  }
}
