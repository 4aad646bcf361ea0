/**
 * src/components/charts/OverallRankBarChart.tsx, last stage of `chartOptions`: every
 * filtered model's rank on each kept task and its average rank, the models sorted by
 * average rank, the heatmap cells, the bar heights, and the heights of the chart area.
 */
module OverallRankChart {
  import opened Collections
  import opened Types
  import TaskData
  import OverallRankTasks
  import OverallRankRanking

  /** An element of `allModelStats`. */
  datatype ModelStat = ModelStat(name: string, rankings: seq<int>, averageRank: ExtReal, taskCount: nat)

  // ---------------------------------------------------------------------------------
  // Per-model statistics

  /** A model's rank on each of the tasks, in task order. */
  function RanksOver(models: seq<Model>, pm: map<(string, string), Performance>,
                     tasks: seq<OverallRankTasks.TaskRow>, name: string): (r: seq<int>)
    ensures |r| == |tasks|
    ensures forall j :: 0 <= j < |tasks| ==> r[j] == OverallRankRanking.TaskRank(models, pm, tasks[j].id, name)
  {
    if tasks == [] then []
    else RanksOver(models, pm, tasks[..|tasks| - 1], name) + [OverallRankRanking.TaskRank(models, pm, tasks[|tasks| - 1].id, name)]
  }

  lemma RanksOverSnoc(models: seq<Model>, pm: map<(string, string), Performance>,
                      tasks: seq<OverallRankTasks.TaskRow>, j: nat, name: string)
    requires j < |tasks|
    ensures RanksOver(models, pm, tasks[..j + 1], name) ==
            RanksOver(models, pm, tasks[..j], name) + [OverallRankRanking.TaskRank(models, pm, tasks[j].id, name)]
  {
    assert tasks[..j + 1][..j] == tasks[..j];
  }

  /** `totalRank`: the sum of the positive entries. */
  function SumPositive(rs: seq<int>): int
  {
    if rs == [] then 0
    else SumPositive(rs[..|rs| - 1]) + (if rs[|rs| - 1] > 0 then rs[|rs| - 1] else 0)
  }

  /** `validTasks`: the number of positive entries. */
  function CountPositive(rs: seq<int>): (n: nat)
    ensures n <= |rs|
  {
    if rs == [] then 0
    else CountPositive(rs[..|rs| - 1]) + (if rs[|rs| - 1] > 0 then 1 else 0)
  }

  lemma PositiveSnoc(rs: seq<int>, x: int)
    ensures SumPositive(rs + [x]) == SumPositive(rs) + (if x > 0 then x else 0)
    ensures CountPositive(rs + [x]) == CountPositive(rs) + (if x > 0 then 1 else 0)
  {
    assert (rs + [x])[..|rs|] == rs;
  }

  /** `validTasks > 0 ? totalRank / validTasks : Infinity`. */
  function AverageOf(rs: seq<int>): ExtReal
  {
    if CountPositive(rs) > 0 then Fin(SumPositive(rs) as real / CountPositive(rs) as real) else PosInf
  }

  /** The statistics of the model called `name` over the kept tasks. */
  function StatOf(models: seq<Model>, pm: map<(string, string), Performance>,
                  tasks: seq<OverallRankTasks.TaskRow>, name: string): ModelStat
  {
    var rs := RanksOver(models, pm, tasks, name);
    ModelStat(name, rs, AverageOf(rs), CountPositive(rs))
  }

  /** `allModelStats` before sorting: one element per filtered model, in model order. */
  function StatsOf(models: seq<Model>, pm: map<(string, string), Performance>,
                   tasks: seq<OverallRankTasks.TaskRow>): (r: seq<ModelStat>)
    ensures |r| == |models|
    ensures forall i :: 0 <= i < |models| ==> r[i] == StatOf(models, pm, tasks, models[i].name)
  {
    seq(|models|, i requires 0 <= i < |models| => StatOf(models, pm, tasks, models[i].name))
  }

  /**
   * Ranks between 1 and `m` are all counted; their sum lies between their number and
   * `m` times their number.
   */
  lemma {:induction false} PositiveSumBounds(rs: seq<int>, m: int)
    requires forall j :: 0 <= j < |rs| ==> 1 <= rs[j] <= m
    ensures CountPositive(rs) == |rs|
    ensures |rs| <= SumPositive(rs) <= m * |rs|
  {
    if rs != [] {
      var init, x := rs[..|rs| - 1], rs[|rs| - 1];
      PositiveSumBounds(init, m);
      assert m * |rs| == m * |init| + m;
    }
  }

  /** An average of ranks between 1 and `m` lies between 1 and `m`. */
  lemma AverageBounds(rs: seq<int>, m: int)
    requires rs != []
    requires forall j :: 0 <= j < |rs| ==> 1 <= rs[j] <= m
    ensures AverageOf(rs).Fin?
    ensures 1.0 <= AverageOf(rs).value <= m as real
  {
    PositiveSumBounds(rs, m);
    DivBounds(SumPositive(rs) as real, |rs| as real, 1.0, m as real);
  }

  lemma DivBounds(s: real, c: real, lo: real, hi: real)
    requires c > 0.0 && lo * c <= s <= hi * c
    ensures lo <= s / c <= hi
  {
    var a := s / c;
    assert a * c == s;
    assert (a - lo) * c == s - lo * c;
    assert (hi - a) * c == hi * c - s;
  }

  /**
   * A model's statistics: one rank per kept task, each between 1 and the number of
   * filtered models. Every model is in every task's rank groups, so no entry is -1,
   * `taskCount` is the number of kept tasks, and the average is `Infinity` exactly when
   * no task is kept.
   */
  lemma StatOfProperties(models: seq<Model>, pm: map<(string, string), Performance>,
                         tasks: seq<OverallRankTasks.TaskRow>, i: nat)
    requires i < |models|
    ensures var s := StatOf(models, pm, tasks, models[i].name);
      && s.name == models[i].name
      && |s.rankings| == |tasks|
      && (forall j :: 0 <= j < |tasks| ==> 1 <= s.rankings[j] <= |models|)
      && s.taskCount == |tasks|
      && (s.averageRank == PosInf <==> tasks == [])
      && (tasks != [] ==> s.averageRank.Fin? && 1.0 <= s.averageRank.value <= |models| as real)
  {
    var rs := RanksOver(models, pm, tasks, models[i].name);
    forall j | 0 <= j < |tasks| ensures 1 <= rs[j] <= |models| {
      OverallRankRanking.TaskRankBounds(models, pm, tasks[j].id, i);
    }
    PositiveSumBounds(rs, |models|);
    if tasks != [] {
      AverageBounds(rs, |models|);
    }
  }

  /** The entry of model `i` is in the task's list, which is consistent and ranks it as `TaskRank` says. */
  lemma RankOfModel(models: seq<Model>, pm: map<(string, string), Performance>, taskId: string, i: nat)
    requires i < |models|
    ensures OverallRankRanking.Consistent(OverallRankRanking.TaskRankList(models, pm, taskId))
    ensures OverallRankRanking.RankEntry(models[i].name, OverallRankRanking.RawRankOf(pm, taskId, models[i].name))
            in OverallRankRanking.TaskRankList(models, pm, taskId)
    ensures OverallRankRanking.CompetitionRank(OverallRankRanking.TaskRankList(models, pm, taskId),
                                               OverallRankRanking.RawRankOf(pm, taskId, models[i].name))
            == OverallRankRanking.TaskRank(models, pm, taskId, models[i].name)
  {
    var entries := OverallRankRanking.RankEntries(models, pm, taskId);
    var list := OverallRankRanking.TaskRankList(models, pm, taskId);
    OverallRankRanking.RankEntriesConsistent(models, pm, taskId);
    OverallRankRanking.ConsistentPermutation(entries, list);
    assert entries[i] in multiset(list);
    OverallRankRanking.SortedListGivesSameRanks(models, pm, taskId, OverallRankRanking.RawRankOf(pm, taskId, models[i].name));
  }

  /** `taskRanks` as filled for the kept tasks. */
  ghost predicate RanksStored(models: seq<Model>, pm: map<(string, string), Performance>,
                              tasks: seq<OverallRankTasks.TaskRow>, taskRanks: map<string, seq<OverallRankRanking.RankEntry>>)
  {
    forall t :: t in tasks ==> t.id in taskRanks && taskRanks[t.id] == OverallRankRanking.TaskRankList(models, pm, t.id)
  }

  /** `rankings`, `totalRank` and `validTasks` after the tasks `done`. */
  ghost predicate StatProgress(models: seq<Model>, pm: map<(string, string), Performance>,
                               done: seq<OverallRankTasks.TaskRow>, name: string,
                               rankings: seq<int>, totalRank: int, validTasks: int)
  {
    && rankings == RanksOver(models, pm, done, name)
    && totalRank == SumPositive(rankings)
    && validTasks == CountPositive(rankings)
  }

  lemma StatStep(models: seq<Model>, pm: map<(string, string), Performance>,
                 tasks: seq<OverallRankTasks.TaskRow>, j: nat, name: string,
                 rankings: seq<int>, totalRank: int, validTasks: int)
    requires j < |tasks|
    requires StatProgress(models, pm, tasks[..j], name, rankings, totalRank, validTasks)
    ensures var rank := OverallRankRanking.TaskRank(models, pm, tasks[j].id, name);
      StatProgress(models, pm, tasks[..j + 1], name, rankings + [rank], totalRank + rank, validTasks + 1)
  {
    RanksOverSnoc(models, pm, tasks, j, name);
    PositiveSnoc(rankings, OverallRankRanking.TaskRank(models, pm, tasks[j].id, name));
  }

  /**
   * One task of the inner `forEach`: the stored list is grouped and ranked, and the
   * model's rank is `modelRanks.get(model.name) ?? -1`.
   */
  method RankOnTask(models: seq<Model>, pm: map<(string, string), Performance>,
                    taskRanks: map<string, seq<OverallRankRanking.RankEntry>>, taskId: string, i: nat)
    returns (rank: int)
    requires i < |models|
    requires taskId in taskRanks && taskRanks[taskId] == OverallRankRanking.TaskRankList(models, pm, taskId)
    ensures rank == OverallRankRanking.TaskRank(models, pm, taskId, models[i].name)
  {
    RankOfModel(models, pm, taskId, i);
    var modelRanks := OverallRankRanking.AssignRanks(taskRanks[taskId]);
    rank := if models[i].name in modelRanks then modelRanks[models[i].name] else -1;
  }

  /**
   * The body of `filteredModels.map((model) => ...)` for model `i`: the rank groups of
   * every kept task are ranked again, the model's rank is looked up (-1 if missing),
   * and the positive ranks are summed and counted.
   */
  method ModelStatOf(models: seq<Model>, pm: map<(string, string), Performance>, tasks: seq<OverallRankTasks.TaskRow>,
                     taskRanks: map<string, seq<OverallRankRanking.RankEntry>>, i: nat)
    returns (stat: ModelStat)
    requires i < |models|
    requires RanksStored(models, pm, tasks, taskRanks)
    ensures stat == StatOf(models, pm, tasks, models[i].name)
  {
    var name := models[i].name;
    var rankings: seq<int> := [];
    var totalRank := 0;
    var validTasks := 0;
    for j := 0 to |tasks|
      invariant StatProgress(models, pm, tasks[..j], name, rankings, totalRank, validTasks)
    {
      rankings, totalRank, validTasks := AddTaskRank(models, pm, tasks, taskRanks, i, j, rankings, totalRank, validTasks);
    }
    assert tasks[..|tasks|] == tasks;
    stat := ModelStat(name, rankings, if validTasks > 0 then Fin(totalRank as real / validTasks as real) else PosInf, validTasks);
  }

  /**
   * One task of the inner `forEach`: a positive rank is recorded, added to `totalRank`
   * and counted in `validTasks`; any other is recorded as -1.
   */
  method AddTaskRank(models: seq<Model>, pm: map<(string, string), Performance>, tasks: seq<OverallRankTasks.TaskRow>,
                     taskRanks: map<string, seq<OverallRankRanking.RankEntry>>, i: nat, j: nat,
                     rankings: seq<int>, totalRank: int, validTasks: int)
    returns (rankings': seq<int>, totalRank': int, validTasks': int)
    requires i < |models| && j < |tasks|
    requires RanksStored(models, pm, tasks, taskRanks)
    requires StatProgress(models, pm, tasks[..j], models[i].name, rankings, totalRank, validTasks)
    ensures StatProgress(models, pm, tasks[..j + 1], models[i].name, rankings', totalRank', validTasks')
  {
    assert tasks[j] in tasks;
    var rank := RankOnTask(models, pm, taskRanks, tasks[j].id, i);
    StatStep(models, pm, tasks, j, models[i].name, rankings, totalRank, validTasks);
    if rank > 0 {
      rankings', totalRank', validTasks' := rankings + [rank], totalRank + rank, validTasks + 1;
    } else {
      rankings', totalRank', validTasks' := rankings + [-1], totalRank, validTasks;
    }
  }

  /** `filteredModels.map(...)`: the statistics of every filtered model, in model order. */
  method ModelStats(models: seq<Model>, pm: map<(string, string), Performance>, tasks: seq<OverallRankTasks.TaskRow>,
                    taskRanks: map<string, seq<OverallRankRanking.RankEntry>>)
    returns (stats: seq<ModelStat>)
    requires RanksStored(models, pm, tasks, taskRanks)
    ensures stats == StatsOf(models, pm, tasks)
  {
    stats := [];
    for i := 0 to |models|
      invariant |stats| == i
      invariant forall k :: 0 <= k < i ==> stats[k] == StatOf(models, pm, tasks, models[k].name)
    {
      var stat := ModelStatOf(models, pm, tasks, taskRanks, i);
      stats := stats + [stat];
    }
  }

  // ---------------------------------------------------------------------------------
  // Sorting by average rank and the mobile limit

  /** `(a, b) => a.averageRank - b.averageRank` at most zero; `Infinity - Infinity` is NaN, taken as equal. */
  predicate StatLe(a: ModelStat, b: ModelStat)
  {
    ExtLe(a.averageRank, b.averageRank)
  }

  /** `allModelStats.sort(...)`. */
  function SortStats(stats: seq<ModelStat>): (r: seq<ModelStat>)
    ensures multiset(r) == multiset(stats)
  {
    SortBy(stats, StatLe)
  }

  /**
   * The sorted statistics are a rearrangement of the per-model statistics, one per
   * filtered model, in non-decreasing order of average rank.
   */
  lemma SortedStatsProperties(models: seq<Model>, pm: map<(string, string), Performance>, tasks: seq<OverallRankTasks.TaskRow>)
    ensures var r := SortStats(StatsOf(models, pm, tasks));
      && |r| == |models|
      && multiset(r) == multiset(StatsOf(models, pm, tasks))
      && (forall i, j :: 0 <= i < j < |r| ==> ExtLe(r[i].averageRank, r[j].averageRank))
      && (forall s :: s in r ==> exists i :: 0 <= i < |models| && s == StatOf(models, pm, tasks, models[i].name))
  {
    var stats := StatsOf(models, pm, tasks);
    SortStatsOrdered(stats);
    SortStatsMembers(models, pm, tasks);
  }

  lemma SortStatsOrdered(stats: seq<ModelStat>)
    ensures var r := SortStats(stats);
      && |r| == |stats|
      && forall i, j :: 0 <= i < j < |r| ==> ExtLe(r[i].averageRank, r[j].averageRank)
  {
    var r := SortStats(stats);
    assert |r| == |multiset(r)| == |multiset(stats)| == |stats|;
    ExtLeTotalPreorder();
    assert TotalPreorder(StatLe);
    SortBySorted(stats, StatLe);
  }

  lemma SortStatsMembers(models: seq<Model>, pm: map<(string, string), Performance>, tasks: seq<OverallRankTasks.TaskRow>)
    ensures forall s :: s in SortStats(StatsOf(models, pm, tasks)) ==>
      exists i :: 0 <= i < |models| && s == StatOf(models, pm, tasks, models[i].name)
  {
    var stats := StatsOf(models, pm, tasks);
    var r := SortStats(stats);
    forall s | s in r ensures exists i :: 0 <= i < |models| && s == StatOf(models, pm, tasks, models[i].name) {
      assert s in multiset(stats);
      var i :| 0 <= i < |stats| && stats[i] == s;
    }
  }


  /** `isMobile && !showAllModels ? 5 : allModelStats.length`. */
  function MaxModelsToShow(isMobile: bool, showAllModels: bool, count: nat): nat
  {
    if isMobile && !showAllModels then 5 else count
  }

  /** `allModelStats.slice(0, maxModelsToShow)`: the best five on a phone unless all are asked for. */
  function VisibleStats(sorted: seq<ModelStat>, isMobile: bool, showAllModels: bool): (r: seq<ModelStat>)
    ensures |r| <= |sorted| && r == sorted[..|r|]
    ensures isMobile && !showAllModels ==> |r| == if |sorted| < 5 then |sorted| else 5
    ensures !(isMobile && !showAllModels) ==> r == sorted
  {
    Take(sorted, MaxModelsToShow(isMobile, showAllModels, |sorted|))
  }

  // ---------------------------------------------------------------------------------
  // Heatmap cells

  /** `[taskIndex, modelIndex, rank]`. */
  datatype Cell = Cell(taskIndex: int, modelIndex: int, rank: int)

  /** The cells of one model: its positive ranks, in task order. */
  function RowCells(rs: seq<int>, modelIndex: int): seq<Cell>
  {
    if rs == [] then []
    else
      var j := |rs| - 1;
      RowCells(rs[..j], modelIndex) + (if rs[j] > 0 then [Cell(j, modelIndex, rs[j])] else [])
  }

  /** The cells of all models, model after model. */
  function HeatmapCells(stats: seq<ModelStat>): seq<Cell>
  {
    if stats == [] then []
    else HeatmapCells(stats[..|stats| - 1]) + RowCells(stats[|stats| - 1].rankings, |stats| - 1)
  }

  lemma RowCellsSnoc(rs: seq<int>, j: nat, modelIndex: int)
    requires j < |rs|
    ensures RowCells(rs[..j + 1], modelIndex) ==
            RowCells(rs[..j], modelIndex) + (if rs[j] > 0 then [Cell(j, modelIndex, rs[j])] else [])
  {
    assert rs[..j + 1][..j] == rs[..j];
  }

  lemma HeatmapCellsSnoc(stats: seq<ModelStat>, i: nat)
    requires i < |stats|
    ensures HeatmapCells(stats[..i + 1]) == HeatmapCells(stats[..i]) + RowCells(stats[i].rankings, i)
  {
    assert stats[..i + 1][..i] == stats[..i];
  }

  /** A model's cells are exactly its positive ranks, each with its task index. */
  lemma {:induction false} RowCellsMembers(rs: seq<int>, modelIndex: int)
    ensures forall c :: c in RowCells(rs, modelIndex) <==>
      c.modelIndex == modelIndex && 0 <= c.taskIndex < |rs| && rs[c.taskIndex] == c.rank && c.rank > 0
  {
    if rs != [] {
      var j := |rs| - 1;
      RowCellsMembers(rs[..j], modelIndex);
      assert forall k :: 0 <= k < j ==> rs[..j][k] == rs[k];
    }
  }

  /**
   * The heatmap has a cell (task index, model index, rank) exactly for every positive
   * rank of every shown model.
   */
  lemma {:induction false} HeatmapCellsMembers(stats: seq<ModelStat>)
    ensures forall c :: c in HeatmapCells(stats) <==>
      && 0 <= c.modelIndex < |stats|
      && 0 <= c.taskIndex < |stats[c.modelIndex].rankings|
      && stats[c.modelIndex].rankings[c.taskIndex] == c.rank
      && c.rank > 0
  {
    if stats != [] {
      var n := |stats| - 1;
      HeatmapCellsMembers(stats[..n]);
      RowCellsMembers(stats[n].rankings, n);
      assert forall k :: 0 <= k < n ==> stats[..n][k] == stats[k];
    }
  }

  /** `maxRank` starts at 1 and is the largest rank among the cells when one is larger. */
  ghost predicate MaxRankOf(cells: seq<Cell>, maxRank: int)
  {
    && maxRank >= 1
    && (forall c :: c in cells ==> c.rank <= maxRank)
    && (maxRank == 1 || exists c :: c in cells && c.rank == maxRank)
  }

  lemma MaxRankStep(cells: seq<Cell>, maxRank: int, c: Cell)
    requires MaxRankOf(cells, maxRank)
    ensures MaxRankOf(cells + [c], if c.rank > maxRank then c.rank else maxRank)
  {
    var m := if c.rank > maxRank then c.rank else maxRank;
    assert c in cells + [c];
    assert forall d :: d in cells ==> d in cells + [c];
    if m != 1 && m == maxRank {
      var d :| d in cells && d.rank == maxRank;
      assert d in cells + [c];
    }
  }

  /** The inner loop over one model's `rankings`: a cell for every positive rank. */
  method AddRowCells(cells: seq<Cell>, maxRank: int, rs: seq<int>, modelIndex: int)
    returns (cells': seq<Cell>, maxRank': int)
    requires MaxRankOf(cells, maxRank)
    ensures cells' == cells + RowCells(rs, modelIndex)
    ensures MaxRankOf(cells', maxRank')
  {
    cells', maxRank' := cells, maxRank;
    for j := 0 to |rs|
      invariant cells' == cells + RowCells(rs[..j], modelIndex)
      invariant MaxRankOf(cells', maxRank')
    {
      RowCellsSnoc(rs, j, modelIndex);
      if rs[j] > 0 {
        var c := Cell(j, modelIndex, rs[j]);
        assert cells + RowCells(rs[..j + 1], modelIndex) == cells' + [c];
        MaxRankStep(cells', maxRank', c);
        cells' := cells' + [c];
        if rs[j] > maxRank' {
          maxRank' := rs[j];
        }
      }
    }
    assert rs[..|rs|] == rs;
  }

  /** The nested loops that fill `heatmapData` and `maxRank`. */
  method BuildHeatmap(stats: seq<ModelStat>) returns (cells: seq<Cell>, maxRank: int)
    ensures cells == HeatmapCells(stats)
    ensures MaxRankOf(cells, maxRank)
  {
    cells := [];
    maxRank := 1;
    for i := 0 to |stats|
      invariant cells == HeatmapCells(stats[..i])
      invariant MaxRankOf(cells, maxRank)
    {
      cells, maxRank := AddRowCells(cells, maxRank, stats[i].rankings, i);
      HeatmapCellsSnoc(stats, i);
    }
    assert stats[..|stats|] == stats;
  }

  // ---------------------------------------------------------------------------------
  // Bar heights

  /** `Math.max(a, b)` on numbers that are not NaN. */
  function ExtMax(a: ExtReal, b: ExtReal): (r: ExtReal)
    ensures ExtLe(a, r) && ExtLe(b, r)
    ensures r == a || r == b
  {
    if ExtLe(a, b) then b else a
  }

  /** `Math.max(...modelStats.map((m) => m.averageRank))`; `-Infinity` for no models. */
  function MaxAverage(stats: seq<ModelStat>): ExtReal
  {
    if stats == [] then NegInf
    else ExtMax(MaxAverage(stats[..|stats| - 1]), stats[|stats| - 1].averageRank)
  }

  /** `Math.ceil` on a finite number. */
  function Ceil(x: real): (c: int)
    ensures x <= c as real < x + 1.0
  {
    -((-x).Floor)
  }

  /** `Math.ceil` on an extended number; the infinities stay. */
  function ExtCeil(x: ExtReal): ExtReal
  {
    if x.Fin? then Fin(Ceil(x.value) as real) else x
  }

  /** `yAxisMax = Math.max(totalModels, Math.ceil(maxAverageRank))`. */
  function YAxisMax(totalModels: nat, stats: seq<ModelStat>): ExtReal
  {
    ExtMax(Fin(totalModels as real), ExtCeil(MaxAverage(stats)))
  }

  /**
   * `displayValue = yAxisMax - averageRank + 1`, shown when positive and 0 otherwise;
   * `Infinity - Infinity` is NaN, which is not positive.
   */
  function BarValue(yAxisMax: ExtReal, averageRank: ExtReal): (v: ExtReal)
    ensures v == PosInf || (v.Fin? && v.value >= 0.0)
  {
    match (yAxisMax, averageRank)
    case (Fin(y), Fin(a)) => if y - a + 1.0 > 0.0 then Fin(y - a + 1.0) else Fin(0.0)
    case (Fin(_), PosInf) => Fin(0.0)
    case (Fin(_), NegInf) => PosInf
    case (PosInf, PosInf) => Fin(0.0)
    case (PosInf, _) => PosInf
    case (NegInf, _) => Fin(0.0)
  }

  /** `barData`'s values, one per shown model. */
  function BarValues(yAxisMax: ExtReal, stats: seq<ModelStat>): (r: seq<ExtReal>)
    ensures |r| == |stats|
    ensures forall i :: 0 <= i < |stats| ==> r[i] == BarValue(yAxisMax, stats[i].averageRank)
  {
    seq(|stats|, i requires 0 <= i < |stats| => BarValue(yAxisMax, stats[i].averageRank))
  }

  lemma ExtLeTrans(a: ExtReal, b: ExtReal, c: ExtReal)
    requires ExtLe(a, b) && ExtLe(b, c)
    ensures ExtLe(a, c)
  {
  }

  /** The maximum bounds every average and, for shown models, is one of them. */
  lemma {:induction false} MaxAverageIsMax(stats: seq<ModelStat>)
    ensures forall s :: s in stats ==> ExtLe(s.averageRank, MaxAverage(stats))
    ensures stats != [] ==> exists s :: s in stats && s.averageRank == MaxAverage(stats)
  {
    if stats != [] {
      var init, last := stats[..|stats| - 1], stats[|stats| - 1];
      assert stats == init + [last];
      MaxAverageIsMax(init);
      var m0, m := MaxAverage(init), MaxAverage(stats);
      forall s | s in stats ensures ExtLe(s.averageRank, m) {
        if s in init {
          ExtLeTrans(s.averageRank, m0, m);
        }
      }
      if m != last.averageRank {
        assert init != [];
        var s :| s in init && s.averageRank == m0;
        assert s in stats;
      }
    }
  }

  /** Every shown model with a finite average gets a bar at least 1 high; no bar is negative. */
  lemma BarsAtLeastOne(totalModels: nat, stats: seq<ModelStat>)
    ensures forall i :: 0 <= i < |stats| ==>
      var v := BarValues(YAxisMax(totalModels, stats), stats)[i];
      (v == PosInf || (v.Fin? && v.value >= 0.0)) &&
      (stats[i].averageRank.Fin? ==> ExtLe(Fin(1.0), v))
  {
    MaxAverageIsMax(stats);
    ExtLeTotalPreorder();
    var y := YAxisMax(totalModels, stats);
    forall i | 0 <= i < |stats| && stats[i].averageRank.Fin? ensures ExtLe(Fin(1.0), BarValue(y, stats[i].averageRank)) {
      var a := stats[i].averageRank;
      assert stats[i] in stats;
      assert ExtLe(a, MaxAverage(stats));
      assert ExtLe(MaxAverage(stats), ExtCeil(MaxAverage(stats)));
      assert ExtLe(a, y);
    }
  }

  /**
   * When every shown average is a finite value between 1 and the number of models (the
   * case when a task is kept), the y axis ends at the number of models and each bar is
   * `totalModels - averageRank + 1`, between 1 and `totalModels`.
   */
  lemma BarsWhenRanked(totalModels: nat, stats: seq<ModelStat>)
    requires forall s :: s in stats ==> s.averageRank.Fin? && 1.0 <= s.averageRank.value <= totalModels as real
    ensures YAxisMax(totalModels, stats) == Fin(totalModels as real)
    ensures forall i :: 0 <= i < |stats| ==>
      BarValues(YAxisMax(totalModels, stats), stats)[i] == Fin(totalModels as real - stats[i].averageRank.value + 1.0)
    ensures forall i :: 0 <= i < |stats| ==>
      1.0 <= BarValues(YAxisMax(totalModels, stats), stats)[i].value <= totalModels as real
  {
    MaxAverageIsMax(stats);
    var m := MaxAverage(stats);
    if stats != [] {
      var s :| s in stats && s.averageRank == m;
      assert Ceil(m.value) <= totalModels;
    }
  }

  /**
   * When no task is kept every average is `Infinity`: the y axis is unbounded and
   * every bar has height 0.
   */
  lemma BarsWhenNoTask(totalModels: nat, stats: seq<ModelStat>)
    requires stats != []
    requires forall s :: s in stats ==> s.averageRank == PosInf
    ensures YAxisMax(totalModels, stats) == PosInf
    ensures forall i :: 0 <= i < |stats| ==> BarValues(YAxisMax(totalModels, stats), stats)[i] == Fin(0.0)
  {
    MaxAverageIsMax(stats);
    var s :| s in stats && s.averageRank == MaxAverage(stats);
    forall i | 0 <= i < |stats| ensures stats[i].averageRank == PosInf {
      assert stats[i] in stats;
    }
  }

  // ---------------------------------------------------------------------------------
  // Heights

  /** `heatmapHeight = tasks.length * fixedCellHeight`. */
  function HeatmapHeight(taskCount: nat, isMobile: bool, isNarrowScreen: bool): nat
  {
    taskCount * (if isMobile then 25 else if isNarrowScreen then 30 else 40)
  }

  /** `barChartHeight` of the chart options. */
  function BarChartHeight(isMobile: bool, isNarrowScreen: bool): nat
  {
    if isMobile then 200 else if isNarrowScreen then 250 else 350
  }

  /** `containerHeight` from the number of task rows counted for it. */
  function ContainerHeight(taskCount: nat, isMobile: bool): (h: int)
    ensures isMobile ==> h >= 500 && h >= 400 + 25 * taskCount
    ensures !isMobile ==> h >= 800 && h >= 650 + 40 * taskCount
  {
    if isMobile then
      var total := 200 + taskCount * 25 + 200;
      if total > 500 then total else 500
    else
      var total := 350 + taskCount * 40 + 300;
      if total > 800 then total else 800
  }

  /**
   * `tasksWithMetric` as written: with metrics selected, the row test
   * `selectedMetrics.some((metric) => p.metrics != null)` never looks at `metric`.
   */
  function TasksWithMetricAsWritten(ps: seq<Performance>, selected: seq<string>): seq<string>
  {
    Distinct(TaskData.RowTaskIds(Filter(ps, (p: Performance) => if |selected| == 0 then true else exists m :: m in selected)))
  }

  /** The task ids with a row whose metric is selected (every task id when nothing is selected). */
  function TasksWithMetric(ps: seq<Performance>, selected: seq<string>): (r: seq<string>)
    ensures NoDup(r)
    ensures forall id :: id in r <==> exists p :: p in ps && p.taskId == id && (|selected| == 0 || p.metrics in selected)
  {
    var kept := Filter(ps, (p: Performance) => |selected| == 0 || p.metrics in selected);
    TaskData.FetchedTaskIdsAreDistinct(kept);
    Distinct(TaskData.RowTaskIds(kept))
  }

  /** A task id with a row whose metric is selected belongs to a kept task. */
  lemma SelectedIdIsKept(ps: seq<Performance>, ctxTasks: seq<Task>, selected: seq<string>, allMetrics: seq<string>, id: string)
    requires NoDup(selected) && NoDup(allMetrics)
    requires id in TasksWithMetric(ps, selected)
    ensures var rows := OverallRankTasks.TaskRowsOf(ps, ctxTasks, Distinct(TaskData.RowTaskIds(ps)));
      exists t :: t in OverallRankTasks.KeptTasks(rows, selected, allMetrics) && t.id == id
  {
    var ids := Distinct(TaskData.RowTaskIds(ps));
    var rows := OverallRankTasks.TaskRowsOf(ps, ctxTasks, ids);
    var p :| p in ps && p.taskId == id && (|selected| == 0 || p.metrics in selected);
    TaskData.FetchedTaskIdsAreDistinct(ps);
    var k := IndexOf(ids, id);
    var t := rows[k];
    assert t == OverallRankTasks.TaskRowOf(ps, ctxTasks, id);
    OverallRankTasks.TaskRowOfMetric(ps, ctxTasks, p);
    if |selected| != 0 {
      assert OverallRankTasks.HasSelectedMetric(selected, t) by {
        assert p.metrics in selected && p.metrics in t.availableMetrics;
      }
    }
    KeptContains(rows, selected, allMetrics, k);
  }

  /** A row of overall mode, or one with a selected metric, is kept. */
  lemma KeptContains(rows: seq<OverallRankTasks.TaskRow>, selected: seq<string>, allMetrics: seq<string>, k: nat)
    requires k < |rows|
    requires OverallRankTasks.IsOverallMode(selected, allMetrics) || OverallRankTasks.HasSelectedMetric(selected, rows[k])
    ensures rows[k] in OverallRankTasks.KeptTasks(rows, selected, allMetrics)
  {
  }

  /** A kept task has a row whose metric is selected (any row when nothing is selected). */
  lemma KeptIdIsSelected(ps: seq<Performance>, ctxTasks: seq<Task>, selected: seq<string>, allMetrics: seq<string>,
                         t: OverallRankTasks.TaskRow)
    requires NoDup(selected) && NoDup(allMetrics)
    requires forall m :: m in allMetrics <==> exists p :: p in ps && p.metrics == m
    requires t in OverallRankTasks.KeptTasks(OverallRankTasks.TaskRowsOf(ps, ctxTasks, Distinct(TaskData.RowTaskIds(ps))), selected, allMetrics)
    ensures t.id in TasksWithMetric(ps, selected)
  {
    var ids := Distinct(TaskData.RowTaskIds(ps));
    var rows := OverallRankTasks.TaskRowsOf(ps, ctxTasks, ids);
    assert t in rows;
    var k :| 0 <= k < |rows| && rows[k] == t;
    assert t == OverallRankTasks.TaskRowOf(ps, ctxTasks, ids[k]);
    if OverallRankTasks.IsOverallMode(selected, allMetrics) {
      OverallRankTasks.OverallModeMeansNoneOrAll(selected, allMetrics);
      TaskData.FetchedTaskIdsAreDistinct(ps);
      assert ids[k] in ids;
      var p :| p in ps && p.taskId == t.id;
      assert p.metrics in allMetrics;
      RowCounted(ps, selected, p);
    } else {
      var m :| m in selected && m in t.availableMetrics;
      var p :| p in ps && p.taskId == t.id && p.metrics == m;
      RowCounted(ps, selected, p);
    }
  }

  lemma RowCounted(ps: seq<Performance>, selected: seq<string>, p: Performance)
    requires p in ps && (|selected| == 0 || p.metrics in selected)
    ensures p.taskId in TasksWithMetric(ps, selected)
  {
  }

  /**
   * With duplicate-free selections, the corrected count is taken over exactly the ids of
   * the tasks the chart keeps, so the container fits the heatmap.
   */
  lemma TasksWithMetricMatchesKeptTasks(ps: seq<Performance>, ctxTasks: seq<Task>,
                                        selected: seq<string>, allMetrics: seq<string>)
    requires NoDup(selected) && NoDup(allMetrics)
    requires forall m :: m in allMetrics <==> exists p :: p in ps && p.metrics == m
    ensures var rows := OverallRankTasks.TaskRowsOf(ps, ctxTasks, Distinct(TaskData.RowTaskIds(ps)));
      forall id :: id in TasksWithMetric(ps, selected) <==>
        exists t :: t in OverallRankTasks.KeptTasks(rows, selected, allMetrics) && t.id == id
  {
    var rows := OverallRankTasks.TaskRowsOf(ps, ctxTasks, Distinct(TaskData.RowTaskIds(ps)));
    forall id | id in TasksWithMetric(ps, selected)
      ensures exists t :: t in OverallRankTasks.KeptTasks(rows, selected, allMetrics) && t.id == id
    {
      SelectedIdIsKept(ps, ctxTasks, selected, allMetrics, id);
    }
    forall t | t in OverallRankTasks.KeptTasks(rows, selected, allMetrics)
      ensures t.id in TasksWithMetric(ps, selected)
    {
      KeptIdIsSelected(ps, ctxTasks, selected, allMetrics, t);
    }
  }

  /** As written, the count is the number of distinct task ids whatever the selection. */
  lemma AsWrittenIgnoresSelection(ps: seq<Performance>, selected: seq<string>)
    ensures TasksWithMetricAsWritten(ps, selected) == Distinct(TaskData.RowTaskIds(ps))
  {
    var f := (p: Performance) => if |selected| == 0 then true else exists m :: m in selected;
    if |selected| > 0 {
      assert selected[0] in selected;
    }
    assert forall p :: p in ps ==> f(p);
  }

  /** Two rows of two tasks, the first with metric "auc" and the second with "f1". */
  function SampleRows(): (ps: seq<Performance>)
    ensures |ps| == 2 && ps[0].taskId == "t1" && ps[1].taskId == "t2"
    ensures ps[0].metrics == "auc" && ps[1].metrics == "f1"
  {
    [Performance("t1-0", "m", "o", "a", "", "t1", "auc", 1.0, 1),
     Performance("t2-0", "m", "o", "b", "", "t2", "f1", 1.0, 1)]
  }

  /** Rows of two different tasks count as two task ids. */
  lemma TwoTaskIds(ps: seq<Performance>)
    requires |ps| == 2 && ps[0].taskId != ps[1].taskId
    ensures Distinct(TaskData.RowTaskIds(ps)) == [ps[0].taskId, ps[1].taskId]
  {
    assert TaskData.RowTaskIds(ps) == [ps[0].taskId, ps[1].taskId];
    DistinctOfNoDup([ps[0].taskId, ps[1].taskId]);
  }

  /** When the rows with a selected metric all belong to task `id`, only `id` is counted. */
  lemma OnlyTaskWithMetric(ps: seq<Performance>, selected: seq<string>, id: string)
    requires |selected| > 0
    requires exists p :: p in ps && p.taskId == id && p.metrics in selected
    requires forall p :: p in ps && p.metrics in selected ==> p.taskId == id
    ensures TasksWithMetric(ps, selected) == [id]
  {
    var r := TasksWithMetric(ps, selected);
    assert id in r;
    assert forall x :: x in r ==> x in [id];
    NoDupSubsetLength(r, [id]);
    assert |r| == 1 && r[0] in r;
  }

  /**
   * Two tasks with metrics "auc" and "f1" and the selection ["auc"]: one task has the
   * selected metric, but the count as written is two.
   */
  lemma ContainerHeightCounterexample()
    ensures |TasksWithMetricAsWritten(SampleRows(), ["auc"])| == 2
    ensures TasksWithMetric(SampleRows(), ["auc"]) == ["t1"]
  {
    var ps := SampleRows();
    AsWrittenIgnoresSelection(ps, ["auc"]);
    TwoTaskIds(ps);
    SampleAucRows();
    OnlyTaskWithMetric(ps, ["auc"], "t1");
  }

  /** In the sample, exactly the first row has metric "auc", and it is of task "t1". */
  lemma SampleAucRows()
    ensures exists p :: p in SampleRows() && p.taskId == "t1" && p.metrics in ["auc"]
    ensures forall p :: p in SampleRows() && p.metrics in ["auc"] ==> p.taskId == "t1"
  {
    var ps := SampleRows();
    assert ps[0] in ps && ps[0].metrics in ["auc"];
    forall p | p in ps && p.metrics in ["auc"] ensures p.taskId == "t1" {
      var i :| 0 <= i < |ps| && ps[i] == p;
      assert i == 0 || i == 1;
      assert ps[1].metrics[0] != "auc"[0];
    }
  }

  // ---------------------------------------------------------------------------------
  // The whole computation

  /** A statistic over `tasks` for one of `models`: one rank per task, each within the model count. */
  predicate StatRanked(modelCount: nat, tasks: seq<OverallRankTasks.TaskRow>, s: ModelStat)
  {
    && |s.rankings| == |tasks|
    && s.taskCount == |tasks|
    && (forall r :: r in s.rankings ==> 1 <= r <= modelCount)
    && (tasks == [] <==> s.averageRank == PosInf)
    && (tasks != [] ==> s.averageRank.Fin? && 1.0 <= s.averageRank.value <= modelCount as real)
  }

  lemma StatOfRanked(models: seq<Model>, pm: map<(string, string), Performance>,
                     tasks: seq<OverallRankTasks.TaskRow>, i: nat)
    requires i < |models|
    ensures StatRanked(|models|, tasks, StatOf(models, pm, tasks, models[i].name))
  {
    var s := StatOf(models, pm, tasks, models[i].name);
    StatOfProperties(models, pm, tasks, i);
    forall r | r in s.rankings ensures 1 <= r <= |models| {
      var j :| 0 <= j < |s.rankings| && s.rankings[j] == r;
    }
  }

  lemma SortedStatsRanked(models: seq<Model>, pm: map<(string, string), Performance>,
                          tasks: seq<OverallRankTasks.TaskRow>)
    ensures forall s :: s in SortStats(StatsOf(models, pm, tasks)) ==> StatRanked(|models|, tasks, s)
  {
    SortedStatsProperties(models, pm, tasks);
    forall s | s in SortStats(StatsOf(models, pm, tasks)) ensures StatRanked(|models|, tasks, s) {
      var i :| 0 <= i < |models| && s == StatOf(models, pm, tasks, models[i].name);
      StatOfRanked(models, pm, tasks, i);
    }
  }

  /** The shown statistics: sorted by average rank, limited on a phone, each over every kept task. */
  lemma ShownStatsProperties(models: seq<Model>, pm: map<(string, string), Performance>,
                             tasks: seq<OverallRankTasks.TaskRow>, isMobile: bool, showAllModels: bool)
    ensures var shown := VisibleStats(SortStats(StatsOf(models, pm, tasks)), isMobile, showAllModels);
      && (forall i, j :: 0 <= i < j < |shown| ==> ExtLe(shown[i].averageRank, shown[j].averageRank))
      && (isMobile && !showAllModels ==> |shown| <= 5)
      && (!(isMobile && !showAllModels) ==> |shown| == |models|)
      && (forall s :: s in shown ==> StatRanked(|models|, tasks, s))
  {
    var stats := StatsOf(models, pm, tasks);
    var sorted := SortStats(stats);
    var shown := VisibleStats(sorted, isMobile, showAllModels);
    SortStatsOrdered(stats);
    SortedStatsRanked(models, pm, tasks);
    VisibleStatsKept(sorted, isMobile, showAllModels, |models|, tasks);
  }

  /** The shown statistics are a prefix of the sorted ones, so they keep their order and their ranks. */
  lemma VisibleStatsKept(sorted: seq<ModelStat>, isMobile: bool, showAllModels: bool, m: nat,
                         tasks: seq<OverallRankTasks.TaskRow>)
    requires forall i, j :: 0 <= i < j < |sorted| ==> ExtLe(sorted[i].averageRank, sorted[j].averageRank)
    requires forall s :: s in sorted ==> StatRanked(m, tasks, s)
    ensures var shown := VisibleStats(sorted, isMobile, showAllModels);
      && (forall i, j :: 0 <= i < j < |shown| ==> ExtLe(shown[i].averageRank, shown[j].averageRank))
      && (forall s :: s in shown ==> StatRanked(m, tasks, s))
  {
    var shown := VisibleStats(sorted, isMobile, showAllModels);
    forall s | s in shown ensures StatRanked(m, tasks, s) {
      var k :| 0 <= k < |shown| && shown[k] == s;
      assert sorted[k] == s;
    }
  }

  /** What `chartOptions` computes: the "No data available" chart, or the rows behind both grids. */
  datatype ChartData =
    | NoData
    | Chart(tasks: seq<OverallRankTasks.TaskRow>, stats: seq<ModelStat>, cells: seq<Cell>, maxRank: int,
            yAxisMax: ExtReal, barValues: seq<ExtReal>, heatmapHeight: nat)

  /** The kept tasks: one per task id with a metric, sorted by label descending, then filtered by metric. */
  function ChartTasks(ps: seq<Performance>, ctxTasks: seq<Task>, selected: seq<string>,
                      localeLe: (string, string) -> bool): seq<OverallRankTasks.TaskRow>
  {
    var rows := OverallRankTasks.TaskRowsOf(ps, ctxTasks, Distinct(TaskData.RowTaskIds(ps)));
    OverallRankTasks.KeptTasks(OverallRankTasks.SortByNameDesc(Filter(rows, OverallRankTasks.HasMetrics), localeLe),
                               selected, Distinct(OverallRankTasks.MetricsOfRows(ps)))
  }

  lemma MetricsOfRowsMembers(ps: seq<Performance>)
    ensures NoDup(Distinct(OverallRankTasks.MetricsOfRows(ps)))
    ensures forall m :: m in Distinct(OverallRankTasks.MetricsOfRows(ps)) <==> exists p :: p in ps && p.metrics == m
  {
    OverallRankTasks.MetricsOfRowsIn(ps);
  }

  /** The ids of task elements, in order. */
  function RowIds(rows: seq<OverallRankTasks.TaskRow>): (r: seq<string>)
    ensures |r| == |rows| && forall i :: 0 <= i < |rows| ==> r[i] == rows[i].id
  {
    seq(|rows|, i requires 0 <= i < |rows| => rows[i].id)
  }

  /** A collected element is the element built for its own id, and that id is some row's task id. */
  lemma CollectedRowOfId(ps: seq<Performance>, ctxTasks: seq<Task>, t: OverallRankTasks.TaskRow)
    requires t in OverallRankTasks.TaskRowsOf(ps, ctxTasks, Distinct(TaskData.RowTaskIds(ps)))
    ensures t == OverallRankTasks.TaskRowOf(ps, ctxTasks, t.id)
    ensures exists p :: p in ps && p.taskId == t.id
  {
    var ids := Distinct(TaskData.RowTaskIds(ps));
    var rows := OverallRankTasks.TaskRowsOf(ps, ctxTasks, ids);
    var k :| 0 <= k < |rows| && rows[k] == t;
    TaskData.FetchedTaskIdsAreDistinct(ps);
    assert ids[k] in ids;
  }

  /** The collected elements are duplicate-free, since their ids are. */
  lemma CollectedRowsNoDup(ps: seq<Performance>, ctxTasks: seq<Task>)
    ensures NoDup(OverallRankTasks.TaskRowsOf(ps, ctxTasks, Distinct(TaskData.RowTaskIds(ps))))
  {
    var ids := Distinct(TaskData.RowTaskIds(ps));
    var rows := OverallRankTasks.TaskRowsOf(ps, ctxTasks, ids);
    forall i, j | 0 <= i < j < |rows| ensures rows[i] != rows[j] {
      assert rows[i].id == ids[i] && rows[j].id == ids[j];
    }
  }

  /** Lists with the same members keep the same members. */
  lemma KeptTasksSameMembers(a: seq<OverallRankTasks.TaskRow>, b: seq<OverallRankTasks.TaskRow>,
                             selected: seq<string>, allMetrics: seq<string>)
    requires forall t :: t in a <==> t in b
    ensures forall t :: t in OverallRankTasks.KeptTasks(a, selected, allMetrics) <==>
                        t in OverallRankTasks.KeptTasks(b, selected, allMetrics)
  {
  }

  lemma KeptTasksNoDup(a: seq<OverallRankTasks.TaskRow>, selected: seq<string>, allMetrics: seq<string>)
    requires NoDup(a)
    ensures NoDup(OverallRankTasks.KeptTasks(a, selected, allMetrics))
  {
  }

  /** Distinct elements, each the element built for its own id, have distinct ids. */
  lemma RowIdsNoDup(ps: seq<Performance>, ctxTasks: seq<Task>, rs: seq<OverallRankTasks.TaskRow>)
    requires NoDup(rs)
    requires forall t :: t in rs ==> t == OverallRankTasks.TaskRowOf(ps, ctxTasks, t.id)
    ensures NoDup(RowIds(rs))
  {
    var ids := RowIds(rs);
    forall i, j | 0 <= i < j < |ids| ensures ids[i] != ids[j] {
      assert rs[i] in rs && rs[j] in rs;
    }
  }

  /** The chart's tasks are those kept from the label-sorted collected elements. */
  lemma ChartTasksOfSorted(ps: seq<Performance>, ctxTasks: seq<Task>, selected: seq<string>,
                           localeLe: (string, string) -> bool)
    ensures var rows := OverallRankTasks.TaskRowsOf(ps, ctxTasks, Distinct(TaskData.RowTaskIds(ps)));
      ChartTasks(ps, ctxTasks, selected, localeLe) ==
      OverallRankTasks.KeptTasks(OverallRankTasks.SortByNameDesc(rows, localeLe), selected,
                                 Distinct(OverallRankTasks.MetricsOfRows(ps)))
  {
    OverallRankTasks.CollectedRowsHaveMetrics(ps, ctxTasks);
  }

  /** A rearrangement has the same members, and is duplicate-free when the original is. */
  lemma PermutationMembers(a: seq<OverallRankTasks.TaskRow>, b: seq<OverallRankTasks.TaskRow>)
    requires multiset(a) == multiset(b)
    ensures forall t :: t in a <==> t in b
    ensures NoDup(a) ==> NoDup(b)
  {
    forall t ensures t in a <==> t in b {
      assert t in a <==> t in multiset(a);
      assert t in b <==> t in multiset(b);
    }
    if NoDup(a) {
      NoDupOfPermutation(a, b);
    }
  }

  /**
   * Sorting by label does not change which tasks are kept: the chart's tasks are the
   * tasks kept from the collected elements, and their ids are distinct.
   */
  lemma ChartTasksMembers(ps: seq<Performance>, ctxTasks: seq<Task>, selected: seq<string>,
                          localeLe: (string, string) -> bool)
    ensures var rows := OverallRankTasks.TaskRowsOf(ps, ctxTasks, Distinct(TaskData.RowTaskIds(ps)));
      forall t :: t in ChartTasks(ps, ctxTasks, selected, localeLe) <==>
        t in OverallRankTasks.KeptTasks(rows, selected, Distinct(OverallRankTasks.MetricsOfRows(ps)))
    ensures NoDup(RowIds(ChartTasks(ps, ctxTasks, selected, localeLe)))
  {
    var rows := OverallRankTasks.TaskRowsOf(ps, ctxTasks, Distinct(TaskData.RowTaskIds(ps)));
    var allMetrics := Distinct(OverallRankTasks.MetricsOfRows(ps));
    var sorted := OverallRankTasks.SortByNameDesc(rows, localeLe);
    var chart := ChartTasks(ps, ctxTasks, selected, localeLe);
    ChartTasksOfSorted(ps, ctxTasks, selected, localeLe);
    CollectedRowsNoDup(ps, ctxTasks);
    PermutationMembers(rows, sorted);
    KeptTasksSameMembers(sorted, rows, selected, allMetrics);
    KeptTasksNoDup(sorted, selected, allMetrics);
    forall t | t in chart ensures t == OverallRankTasks.TaskRowOf(ps, ctxTasks, t.id) {
      CollectedRowOfId(ps, ctxTasks, t);
    }
    RowIdsNoDup(ps, ctxTasks, chart);
  }

  /** Duplicate-free ids that are exactly the ids of duplicate-free tasks are as many as the tasks. */
  lemma SameIdsSameCount(a: seq<string>, chart: seq<OverallRankTasks.TaskRow>, kept: seq<OverallRankTasks.TaskRow>)
    requires NoDup(a) && NoDup(RowIds(chart))
    requires forall t :: t in chart <==> t in kept
    requires forall id :: id in a <==> exists t :: t in kept && t.id == id
    ensures |a| == |chart|
  {
    var b := RowIds(chart);
    forall id ensures id in a <==> id in b {
      if id in a {
        var t :| t in kept && t.id == id;
        var k :| 0 <= k < |chart| && chart[k] == t;
        assert b[k] == id;
      }
      if id in b {
        var k :| 0 <= k < |b| && b[k] == id;
        assert chart[k] in chart;
      }
    }
    NoDupSubsetLength(a, b);
    NoDupSubsetLength(b, a);
  }

  /** With a duplicate-free selection, the corrected count is the number of tasks the chart keeps. */
  lemma ChartTaskCount(ps: seq<Performance>, ctxTasks: seq<Task>, selected: seq<string>,
                       localeLe: (string, string) -> bool)
    requires NoDup(selected)
    ensures |TasksWithMetric(ps, selected)| == |ChartTasks(ps, ctxTasks, selected, localeLe)|
  {
    var rows := OverallRankTasks.TaskRowsOf(ps, ctxTasks, Distinct(TaskData.RowTaskIds(ps)));
    var allMetrics := Distinct(OverallRankTasks.MetricsOfRows(ps));
    MetricsOfRowsMembers(ps);
    TasksWithMetricMatchesKeptTasks(ps, ctxTasks, selected, allMetrics);
    ChartTasksMembers(ps, ctxTasks, selected, localeLe);
    SameIdsSameCount(TasksWithMetric(ps, selected), ChartTasks(ps, ctxTasks, selected, localeLe),
                     OverallRankTasks.KeptTasks(rows, selected, allMetrics));
  }

  /**
   * With the corrected count and a duplicate-free selection, the container is at least as
   * tall as the bar chart, the heatmap of the kept tasks and the padding the container
   * adds (200 on a phone, 300 otherwise).
   */
  lemma HeatmapFitsContainer(ps: seq<Performance>, ctxTasks: seq<Task>, selected: seq<string>,
                             localeLe: (string, string) -> bool, isMobile: bool, isNarrowScreen: bool)
    requires NoDup(selected)
    ensures BarChartHeight(isMobile, isNarrowScreen)
              + HeatmapHeight(|ChartTasks(ps, ctxTasks, selected, localeLe)|, isMobile, isNarrowScreen)
              + (if isMobile then 200 else 300)
            <= ContainerHeight(|TasksWithMetric(ps, selected)|, isMobile)
  {
    ChartTaskCount(ps, ctxTasks, selected, localeLe);
  }

  /** As written, the count is never below the corrected one, so the container is too tall, never too short. */
  lemma AsWrittenCountsAtLeast(ps: seq<Performance>, selected: seq<string>)
    ensures |TasksWithMetric(ps, selected)| <= |TasksWithMetricAsWritten(ps, selected)|
  {
    AsWrittenIgnoresSelection(ps, selected);
    TaskData.FetchedTaskIdsAreDistinct(ps);
    NoDupSubsetLength(TasksWithMetric(ps, selected), Distinct(TaskData.RowTaskIds(ps)));
  }

  /** A task the chart keeps has the task id of some row. */
  lemma ChartTaskFromRow(ps: seq<Performance>, ctxTasks: seq<Task>, selected: seq<string>,
                         localeLe: (string, string) -> bool, t: OverallRankTasks.TaskRow)
    requires t in ChartTasks(ps, ctxTasks, selected, localeLe)
    ensures exists p :: p in ps && p.taskId == t.id
  {
    ChartTasksMembers(ps, ctxTasks, selected, localeLe);
    CollectedRowOfId(ps, ctxTasks, t);
  }

  /**
   * `chartOptions`: no rows gives the "No data available" chart; otherwise the kept
   * tasks, the shown model statistics in order of average rank, the heatmap cells with
   * `maxRank`, the y-axis maximum, the bar values and the heatmap height. The look-up map
   * is keyed by the (task id, model id) pair.
   */
  method BuildChart(ps: seq<Performance>, models: seq<Model>, ctxTasks: seq<Task>, selected: seq<string>,
                    isMobile: bool, isNarrowScreen: bool, showAllModels: bool, localeLe: (string, string) -> bool)
    returns (chart: ChartData)
    ensures ps == [] <==> chart.NoData?
    ensures chart.Chart? ==>
      && chart.tasks == ChartTasks(ps, ctxTasks, selected, localeLe)
      && chart.stats == VisibleStats(SortStats(StatsOf(models, OverallRankRanking.PairKeyedMap(ps), chart.tasks)),
                                     isMobile, showAllModels)
      && chart.cells == HeatmapCells(chart.stats)
      && MaxRankOf(chart.cells, chart.maxRank)
      && chart.yAxisMax == YAxisMax(|models|, chart.stats)
      && chart.barValues == BarValues(chart.yAxisMax, chart.stats)
      && chart.heatmapHeight == HeatmapHeight(|chart.tasks|, isMobile, isNarrowScreen)
    ensures chart.Chart? && OverallRankRanking.DashFreeTaskIds(ps) ==>
      forall t, modelName :: t in chart.tasks ==>
        OverallRankRanking.RawRankOf(OverallRankRanking.PairKeyedMap(ps), t.id, modelName) ==
        OverallRankRanking.StringRawRankOf(OverallRankRanking.StringKeyedMap(ps), t.id, modelName)
  {
    if |ps| == 0 {
      return NoData;
    }
    var rows, allMetrics := OverallRankTasks.CollectTaskRows(ps, ctxTasks);
    OverallRankTasks.CollectedRowsHaveMetrics(ps, ctxTasks);
    var sorted := OverallRankTasks.SortByNameDesc(Filter(rows, OverallRankTasks.HasMetrics), localeLe);
    MetricsOfRowsMembers(ps);
    OverallRankTasks.OverallModeSameMembers(selected, allMetrics, Distinct(OverallRankTasks.MetricsOfRows(ps)));
    var tasks := OverallRankTasks.KeptTasks(sorted, selected, allMetrics);
    var pm := OverallRankRanking.BuildPerformanceMap(ps);
    var taskRanks := OverallRankRanking.BuildTaskRanks(tasks, models, pm);
    var stats := ModelStats(models, pm, tasks, taskRanks);
    var shown := VisibleStats(SortStats(stats), isMobile, showAllModels);
    var cells, maxRank := BuildHeatmap(shown);
    var yAxisMax := YAxisMax(|models|, shown);
    chart := Chart(tasks, shown, cells, maxRank, yAxisMax, BarValues(yAxisMax, shown),
                   HeatmapHeight(|tasks|, isMobile, isNarrowScreen));
    if OverallRankRanking.DashFreeTaskIds(ps) {
      forall t, modelName | t in tasks
        ensures OverallRankRanking.RawRankOf(OverallRankRanking.PairKeyedMap(ps), t.id, modelName) ==
                OverallRankRanking.StringRawRankOf(OverallRankRanking.StringKeyedMap(ps), t.id, modelName)
      {
        ChartTaskFromRow(ps, ctxTasks, selected, localeLe, t);
        OverallRankRanking.StringRawRankAgrees(ps, t.id, modelName);
      }
    }
  }
}
