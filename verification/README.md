# model-bench leaderboard: a verified model of the dashboard's data logic

model-bench is a Next.js / React dashboard that ranks pathology foundation models on
a set of benchmark tasks. Every page works on one list of result rows, one row per
(task, model) pair. A row carries the model, the organ, the task name, the metric,
the mean score `rankMean` and a raw `rank`. From those rows the dashboard derives:

- the tasks, rebuilt from the rows;
- the filter state: selected organs, task types and models;
- the overall-rank chart: per task, tie-aware competition ranks, then an average rank per model, a heatmap and bar heights;
- the leaderboard table of the five best models per task;
- the detailed-performance page: filters and organ groups;
- the per-task cohort chart;
- the two distribution pies;
- the in-house dataset table;
- the two metric selectors;
- the organ colours;
- the image loader.

This project restates that logic in Dafny, one module per source file, and proves what
the code promises:

- orders and tie handling;
- that nothing is lost or duplicated when rows are grouped, filtered or sorted;
- toggle round trips;
- sums that add up;
- bounds on ranks and heights.

The code's own shape is kept:
- `forEach` loops over rows that fill a `Map` are methods with loops and invariants, proved against a function of the input;
- state that the UI changes through setters is a class whose methods change its fields;
- the rest is functions and lemmas.

Library behaviour the code relies on is modelled once, in `Collections` and `Text`:
- `Array.prototype.sort` is a stable insertion sort over a comparator that is a total preorder;
- a `Set` or `Map` keeps insertion order, modelled by `Distinct`;
- `includes`, `split` and `join` are modelled on strings of Unicode scalar values;
- `toLowerCase` and `toUpperCase` are modelled on the ASCII letters only (see "## Left out").

Files:

| file | source file |
|---|---|
| `collections.dfy`, `text.dfy` | library behaviour the components rely on |
| `types.dfy` | `src/types/index.ts` |
| `performance.dfy` | `src/data/performance.ts` |
| `tasks.dfy` | `src/data/tasks.ts` |
| `evaluation_context.dfy` | `src/context/EvaluationContext.tsx` |
| `overall_rank_tasks.dfy`, `overall_rank_ranking.dfy`, `overall_rank_chart.dfy` | `src/components/charts/OverallRankBarChart.tsx`, in three stages |
| `leaderboard.dfy` | `src/components/tables/LeaderboardTable.tsx` |
| `performance_content.dfy` | `src/components/tables/PerformanceContent.tsx` |
| `detailed_performance.dfy` | `src/components/charts/DetailedPerformanceChart.tsx` |
| `dataset_info.dfy` | `src/components/tables/DatasetInfoTable.tsx` |
| `task_distribution.dfy` | `src/components/charts/TaskDistributionChart.tsx` |
| `pie_distribution.dfy` | `src/components/charts/PieDataDistributionChart.tsx` |
| `metric_selector.dfy` | `src/components/selectors/MetricSelector.tsx` |
| `task_metric_selector.dfy` | `src/components/metrics/MetricSelector.tsx` |
| `organ_colors.dfy` | `src/utils/organColors.ts` |
| `image_loader.dfy` | `image-loader.js` |

Where the written description of the system and the code disagree, the model follows the
code:
- A model without a result row for a kept task is not left out of the overall-rank average. `Infinity` sorts after every real rank, so the model gets the shared last rank: one more than the number of models that have a row. That rank counts towards `averageRank`, and `taskCount` is the number of kept tasks. The `-1` branch is never taken. The lemmas `OverallRankRanking.UnrankedShareLastRank` and `OverallRankChart.StatOfRanked` state this.
- The `modelRankMap` the chart fills is never read.
- The chart's look-up map is built keyed by the (task id, model id) pair, the corrected form of the string key `${taskId}-${modelId}` (see "## Findings"). `OverallRankRanking.StringRawRankAgrees` proves that the look-up as written gives the same rank whenever no task id contains '-', and `OverallRankChart.BuildChart` states that agreement for every task of the chart.

## Model

| member | source | states |
|---|---|---|
| Types.ExtLeTotalPreorder | src/types/index.ts:46-47 | the order on numbers extended with `-Infinity` and `Infinity` is a total preorder, and antisymmetric |
| Types.MetricsOf | src/context/EvaluationContext.tsx:215-217 | `flatMap` over `evaluationMetrics`: a metric is in the result exactly when some task lists it |
| Text.ToLower | src/context/EvaluationContext.tsx:129 | `toLowerCase` on the ASCII letters: the length is kept and every character is the ASCII lower-case form of the one at that position |
| Text.ToLowerIdempotent | src/context/EvaluationContext.tsx:164 | lower-casing an already lower-cased id changes nothing, so comparing lower-cased organ names with stored ids is stable |
| Text.Contains | src/components/tables/PerformanceContent.tsx:67-76 | `includes`: true exactly when the needle occurs at some position of the string |
| Text.ContainsEmpty | src/components/tables/PerformanceContent.tsx:67-76 | the empty search term occurs in every string |
| Text.CodeUnitOrderIsTotal | src/components/tables/PerformanceContent.tsx:45-61 | the order of the default `.sort()` on strings is total, transitive and antisymmetric |
| Text.Split | src/components/metrics/MetricSelector.tsx:42-47 | `split`: there is at least one piece, and no piece contains the separator |
| Text.JoinSplit | src/components/metrics/MetricSelector.tsx:42-47 | joining the pieces of a split with the same separator gives the string back |
| Collections.Distinct | src/context/EvaluationContext.tsx:116-121 | `Array.from(new Set(s))`: no duplicates, the same members as `s`, never longer |
| Collections.DistinctFirstOccurrenceOrder | src/context/EvaluationContext.tsx:116-121 | the distinct values come in the order of their first occurrence |
| Collections.Remove | src/context/EvaluationContext.tsx:84-87 | `filter((y) => y !== x)`: `x` is gone, every other value keeps its multiplicity, order is kept, and the list gets shorter when `x` was present |
| Collections.Toggle | src/context/EvaluationContext.tsx:84-87 | `includes ? filter(!==) : [...prev, x]`: `x` flips membership, every other value keeps it; removing keeps order and shortens; adding appends at the end; no duplicate is created |
| Collections.ToggleTwice | src/context/EvaluationContext.tsx:84-87 | toggling twice restores the list when `x` was absent; when `x` was present it moves to the end; the members are always the same |
| Collections.ToggleTwiceLast | src/context/EvaluationContext.tsx:84-87 | when `x` is the last element of a duplicate-free list, toggling twice restores the list exactly |
| Collections.Find | src/context/EvaluationContext.tsx:136-138 | `find`: the first element satisfying the predicate, or none when no element does |
| Collections.SortBy | src/components/charts/OverallRankBarChart.tsx:220-222 | `Array.prototype.sort` with a comparator: the result is a permutation of the input |
| Collections.SortBySorted | src/components/charts/OverallRankBarChart.tsx:220-222 | with a comparator that is a total preorder the result is sorted by it |
| Collections.SortByAllEqual | src/components/tables/LeaderboardTable.tsx:89-90 | a comparator that ranks every pair as equal leaves the list unchanged (the sort is stable) |
| Collections.Filter | src/context/EvaluationContext.tsx:161-169 | `filter`: exactly the elements satisfying the predicate, in their order, each kept as many times as it occurs and the others not at all; all of them when every element does; no duplicates created |
| Collections.FilterCongruent | src/context/EvaluationContext.tsx:161-169 | two predicates that agree on every element of the list give the same filtered list |
| Collections.Take | src/components/tables/LeaderboardTable.tsx:46 | `slice(0, n)`: the first `min(n, |s|)` elements |
| PerformanceData.TaskIdOf | src/data/performance.ts:17 | `id.slice(0, -2)`: the id without its last two characters, or the empty string for a shorter id; always a prefix of the id |
| PerformanceData.ToPerformance | src/data/performance.ts:10-21 | each field is copied from the fixture row's snake-case key, and the task id is derived from the row id |
| PerformanceData.PerformanceAll | src/data/performance.ts:10-21 | one record per fixture row, in row order |
| PerformanceData.FetchPerformance | src/data/performance.ts:23-29 | one record per fixture row, each with the row's id and a task id that is a prefix of it |
| PerformanceData.FetchPerformanceIgnoresArguments | src/data/performance.ts:23-29 | the data type and competition are only logged: every call returns the same list |
| TaskData.TaskOf | src/data/tasks.ts:17-30 | the task stored for a row: id from the row's task id, type equal to the name, cohort equal to the organ, the single metric of the row, the description "<taskName> task for <organ>" both on the task and in its info, and empty reference fields |
| TaskData.LastRowWith | src/data/tasks.ts:16-31 | the index of the row whose `set` is the last for that id: it carries the id and no later row does |
| TaskData.TaskMapContents | src/data/tasks.ts:16-31 | after the `forEach` the map has one key per task id of the rows, each holding the task of the last row with that id |
| TaskData.TaskMapSnoc | src/data/tasks.ts:17 | one more row: its id is set to its task, every other entry is unchanged |
| TaskData.TaskMapStep | src/data/tasks.ts:17 | one row: its id is a new key exactly when the map lacks it, and its entry is replaced by the row's task |
| TaskData.KeysInTaskMap | src/data/tasks.ts:33 | every distinct id is a key of the map and holds the task of the last row with that id |
| TaskData.TasksOfRows | src/data/tasks.ts:16-33 | the loop and `Array.from(taskMap.values())`: one task per distinct task id, in the order the ids first occur, each built from the last row with that id |
| TaskData.FetchTasks | src/data/tasks.ts:5-34 | `fetchTasks` returns the tasks of the fetched rows as `TasksOfRows` describes |
| TaskData.FetchedTaskIdsAreDistinct | src/data/tasks.ts:33 | the rebuilt tasks' ids have no duplicates and are exactly the task ids of the rows |
| ImageLoader.LoadProperties | image-loader.js:1-17 | the result ends with `src`; an `http` URL, or any path outside production, is returned unchanged; a local path in production gets `/model-bench` in front; width and quality make no difference |
| OverallRankTasks.MetricsOfRows | src/components/charts/OverallRankBarChart.tsx:87-95 | the metric of every row, row by row |
| OverallRankTasks.RowsOfTask | src/components/charts/OverallRankBarChart.tsx:81-84 | exactly the filtered rows of task `id`, in order, each as often as it occurs |
| OverallRankTasks.TaskRowOf | src/components/charts/OverallRankBarChart.tsx:79-104 | the element for `id` carries the looked-up task and lists each metric of that task's rows once, and no other |
| OverallRankTasks.TaskRowOfLabel | src/components/charts/OverallRankBarChart.tsx:99-101 | the element is labelled by the bare id when no task is found, and otherwise by a label starting with the task's name |
| OverallRankTasks.TaskRowOfMetric | src/components/charts/OverallRankBarChart.tsx:87-95 | a row's metric is among the metrics of its task's element |
| OverallRankTasks.AddTaskMetrics | src/components/charts/OverallRankBarChart.tsx:85-95 | the `forEach` over one task's rows: `availableMetrics` is its distinct metrics in first-occurrence order; `allAvailableMetrics` gains them and stays duplicate-free |
| OverallRankTasks.MetricsSeenStep | src/components/charts/OverallRankBarChart.tsx:93 | after one more task id, `allAvailableMetrics` holds exactly the metrics of the rows of the ids seen so far |
| OverallRankTasks.TaskRowsOf | src/components/charts/OverallRankBarChart.tsx:76-105 | one element per id, in the order of the ids |
| OverallRankTasks.BuildTaskRow | src/components/charts/OverallRankBarChart.tsx:79-104 | one call of the `map` callback builds exactly the element for its id and adds that task's metrics, and no others, to a still duplicate-free `allAvailableMetrics` |
| OverallRankTasks.CollectTaskRows | src/components/charts/OverallRankBarChart.tsx:75-105 | one element per distinct task id in first-occurrence order, and `allAvailableMetrics` holds every metric of the filtered rows exactly once |
| OverallRankTasks.MetricsSeenAllTasks | src/components/charts/OverallRankBarChart.tsx:75-105 | once every task id is visited, the metrics seen are those of all the rows |
| OverallRankTasks.CollectedRowsHaveMetrics | src/components/charts/OverallRankBarChart.tsx:106 | every collected task has at least one metric, so `.filter((t) => t.availableMetrics.length > 0)` keeps all of them |
| OverallRankTasks.SortByNameDesc | src/components/charts/OverallRankBarChart.tsx:107 | the sort by label is a permutation of the collected tasks |
| OverallRankTasks.SortByNameDescSorted | src/components/charts/OverallRankBarChart.tsx:107 | with a total collation order, the labels come out in descending order |
| OverallRankTasks.OverallModeMeansNoneOrAll | src/components/charts/OverallRankBarChart.tsx:110-116 | for duplicate-free lists, overall mode holds exactly when no metric is selected or the selection has the same members as the available metrics |
| OverallRankTasks.OverallModeSameMembers | src/components/charts/OverallRankBarChart.tsx:110-116 | overall mode depends only on which metrics are available, not on their order |
| OverallRankTasks.KeptTasks | src/components/charts/OverallRankBarChart.tsx:119-131 | overall mode keeps every task; otherwise exactly the tasks with a selected metric are kept, in their order, each as often as it occurs |
| OverallRankRanking.RawLeTotalPreorder | src/components/charts/OverallRankBarChart.tsx:156 | the order `a.rank - b.rank <= 0`, with `Infinity` after every real rank and `Infinity - Infinity` (NaN) counted as equal, is a total preorder; two distinct raw ranks in that order are strictly ordered |
| OverallRankRanking.StringKey | src/components/charts/OverallRankBarChart.tsx:139 | the key `${taskId}-${modelId}` is one character longer than the two ids together |
| OverallRankRanking.PairKeyedMapSnoc | src/components/charts/OverallRankBarChart.tsx:138-141 | one more row sets its own (task, model) entry and changes no other |
| OverallRankRanking.PairKeyedMapContents | src/components/charts/OverallRankBarChart.tsx:138-141 | the look-up map has an entry for exactly the (task, model) pairs that occur, and each entry is the last row with that pair |
| OverallRankRanking.PairKeysStep | src/components/charts/OverallRankBarChart.tsx:140 | one `set` keeps the map's keys equal to the pairs of the rows seen so far |
| OverallRankRanking.LastRowsStep | src/components/charts/OverallRankBarChart.tsx:140 | one `set` keeps every entry equal to the last row seen with its pair |
| OverallRankRanking.BuildPerformanceMap | src/components/charts/OverallRankBarChart.tsx:135-141 | the `forEach` builds the pair-keyed map (the corrected key), whose keys are exactly the pairs that occur |
| OverallRankRanking.DashIndex | src/components/charts/OverallRankBarChart.tsx:139 | in the key of a task id without '-', the first '-' sits right after the task id |
| OverallRankRanking.StringKeyInjective | src/components/charts/OverallRankBarChart.tsx:139 | for task ids without '-', two pairs share a string key exactly when they are the same pair |
| OverallRankRanking.StringKeyedMapAgrees | src/components/charts/OverallRankBarChart.tsx:135-141 | when no row's task id contains '-', the string-keyed `performanceMap` has an entry for a pair's key exactly when the pair-keyed map has one for the pair, and it is the same row |
| OverallRankRanking.StringRawRankAgrees | src/components/charts/OverallRankBarChart.tsx:145-151 | when no task id contains '-', `performanceMap.get(key)?.rank ?? Infinity` as written gives the rank the pair-keyed look-up gives |
| OverallRankRanking.StringKeyCollision | src/components/charts/OverallRankBarChart.tsx:139-146 | task "a-b" with model "c" and task "a" with model "b-c" share the string key, so the look-up for the first pair returns the second pair's row; the pair-keyed map returns the right row |
| OverallRankRanking.RankEntries | src/components/charts/OverallRankBarChart.tsx:144-152 | one entry per filtered model, in model order, with its raw rank on the task |
| OverallRankRanking.RankEntriesConsistent | src/components/charts/OverallRankBarChart.tsx:144-152 | entries with the same model name carry the same raw rank |
| OverallRankRanking.SortRanks | src/components/charts/OverallRankBarChart.tsx:155-157 | the list is a permutation of the entries, and unchanged when no model has a row |
| OverallRankRanking.TaskRankList | src/components/charts/OverallRankBarChart.tsx:144-159 | the list stored for a task is a permutation of its entries, one per filtered model |
| OverallRankRanking.ConsistentPermutation | src/components/charts/OverallRankBarChart.tsx:155-157 | sorting keeps equal names on equal raw ranks |
| OverallRankRanking.BuildTaskRanks | src/components/charts/OverallRankBarChart.tsx:134-160 | `taskRanks` has a key for exactly the kept tasks, each holding that task's sorted list |
| OverallRankRanking.CompetitionRank | src/components/charts/OverallRankBarChart.tsx:184-193 | standard competition ranking: one more than the number of entries with a strictly smaller raw rank, between 1 and one more than the number of entries |
| OverallRankRanking.CountBelowPermutation | src/components/charts/OverallRankBarChart.tsx:155-157 | the number of entries below a raw rank does not depend on their order |
| OverallRankRanking.CountBelowOfPresent | src/components/charts/OverallRankBarChart.tsx:184-193 | a raw rank carried by some entry has fewer entries below it than there are entries |
| OverallRankRanking.GroupOf | src/components/charts/OverallRankBarChart.tsx:173-181 | the group of a raw rank has one name per entry carrying it |
| OverallRankRanking.GroupOfMembers | src/components/charts/OverallRankBarChart.tsx:173-181 | a group holds the names of exactly the entries with its raw rank |
| OverallRankRanking.GroupStep | src/components/charts/OverallRankBarChart.tsx:176-179 | one push keeps the keys in first-occurrence order and every group equal to the names of its entries so far |
| OverallRankRanking.GroupStepKeys | src/components/charts/OverallRankBarChart.tsx:176-178 | the keys gain the entry's raw rank exactly when it is new |
| OverallRankRanking.GroupStepDomain | src/components/charts/OverallRankBarChart.tsx:176-179 | after the push the map's keys are the updated key list |
| OverallRankRanking.GroupStepValues | src/components/charts/OverallRankBarChart.tsx:179 | after the push every group holds the names of its entries, the new one at the end |
| OverallRankRanking.GroupByRank | src/components/charts/OverallRankBarChart.tsx:173-181 | `rankGroups`: the distinct raw ranks in first-occurrence order, each mapped to the names of its entries |
| OverallRankRanking.SortedKeys | src/components/charts/OverallRankBarChart.tsx:186-187 | sorting the group keys gives the same keys, strictly ascending, covering every entry's raw rank |
| OverallRankRanking.SortedDistinctKeys | src/components/charts/OverallRankBarChart.tsx:186-187 | sorted distinct keys are strictly ascending and have the same members |
| OverallRankRanking.SetGroupRank | src/components/charts/OverallRankBarChart.tsx:189-191 | every name of the group is set to the current rank; other entries of `modelRanks` are unchanged |
| OverallRankRanking.CurrentRankIsCompetitionRank | src/components/charts/OverallRankBarChart.tsx:184-193 | at the `g`-th group in ascending order, the competition rank is one plus the number of entries in the earlier groups |
| OverallRankRanking.AssignStep | src/components/charts/OverallRankBarChart.tsx:188-191 | after one more group every model of the groups done so far has its competition rank |
| OverallRankRanking.AssignLoopStep | src/components/charts/OverallRankBarChart.tsx:188-193 | one iteration keeps `currentRank` at one plus the entries done, and the ranks assigned so far correct |
| OverallRankRanking.AssignInOrder | src/components/charts/OverallRankBarChart.tsx:184-193 | the `currentRank` loop gives every entry's model the competition rank of its raw rank, and names no other model |
| OverallRankRanking.AssignRanks | src/components/charts/OverallRankBarChart.tsx:172-193 | grouping, sorting and the `currentRank` loop together give every model its competition rank on the task, and name no other model |
| OverallRankRanking.TaskRank | src/components/charts/OverallRankBarChart.tsx:195 | the rank `modelRanks.get(model.name)` yields is at least 1, so the `?? -1` default is never used for a filtered model |
| OverallRankRanking.SortedListGivesSameRanks | src/components/charts/OverallRankBarChart.tsx:155-157 | sorting the list before grouping changes no model's rank |
| OverallRankRanking.TaskRankBounds | src/components/charts/OverallRankBarChart.tsx:184-195 | every rank a filtered model receives lies between 1 and the number of filtered models |
| OverallRankRanking.CompetitionRankGap | src/components/charts/OverallRankBarChart.tsx:184-193 | ties share a rank, and a strictly larger raw rank comes after every entry at the smaller one |
| OverallRankRanking.TieScenario | src/components/charts/OverallRankBarChart.tsx:184-193 | raw ranks 2, 2, 5 give ranks 1, 1, 3 |
| OverallRankRanking.CountRanked | src/components/charts/OverallRankBarChart.tsx:150 | the number of entries with a real rank is at most the number of entries |
| OverallRankRanking.UnrankedShareLastRank | src/components/charts/OverallRankBarChart.tsx:150-195 | the models without a row share rank one plus the number of models with a row (1 when none has a row), which no other model exceeds |
| OverallRankRanking.CountBelowMonotone | src/components/charts/OverallRankBarChart.tsx:184-193 | a higher raw rank has at least as many entries below it |
| OverallRankChart.RanksOver | src/components/charts/OverallRankBarChart.tsx:169-206 | one rank per kept task, in task order, each the model's rank on that task |
| OverallRankChart.RanksOverSnoc | src/components/charts/OverallRankBarChart.tsx:200-204 | one more task appends that task's rank |
| OverallRankChart.PositiveSnoc | src/components/charts/OverallRankBarChart.tsx:199-205 | a positive rank adds itself to `totalRank` and one to `validTasks`; any other adds nothing |
| OverallRankChart.StatsOf | src/components/charts/OverallRankBarChart.tsx:164-217 | one statistic per filtered model, in model order |
| OverallRankChart.PositiveSumBounds | src/components/charts/OverallRankBarChart.tsx:199-202 | when every rank lies between 1 and `m`, all are counted and their sum lies between their number and `m` times it |
| OverallRankChart.AverageBounds | src/components/charts/OverallRankBarChart.tsx:211-214 | the average of ranks between 1 and `m` is finite and lies between 1 and `m` |
| OverallRankChart.StatOfProperties | src/components/charts/OverallRankBarChart.tsx:164-217 | every model gets a rank between 1 and the number of filtered models on every kept task, `taskCount` is the number of kept tasks, and the average is `Infinity` exactly when no task is kept |
| OverallRankChart.RankOfModel | src/components/charts/OverallRankBarChart.tsx:170-195 | the model's entry is in the stored list, which is consistent, and its competition rank there is the model's rank |
| OverallRankChart.StatStep | src/components/charts/OverallRankBarChart.tsx:199-205 | one task keeps `rankings`, `totalRank` and `validTasks` equal to the ranks, sum and count over the tasks done |
| OverallRankChart.RankOnTask | src/components/charts/OverallRankBarChart.tsx:170-195 | the rank looked up in `modelRanks` is the model's competition rank on the task |
| OverallRankChart.ModelStatOf | src/components/charts/OverallRankBarChart.tsx:164-217 | the statistics built for model `i` are its ranks over the kept tasks, their average and the number of positive ones |
| OverallRankChart.AddTaskRank | src/components/charts/OverallRankBarChart.tsx:195-205 | one task of the inner `forEach` keeps the three accumulators equal to the ranks, sum and count so far |
| OverallRankChart.ModelStats | src/components/charts/OverallRankBarChart.tsx:164-217 | `allModelStats` before sorting is the statistics of every filtered model, in model order |
| OverallRankChart.SortStats | src/components/charts/OverallRankBarChart.tsx:220-222 | the sorted statistics are a rearrangement of the unsorted ones |
| OverallRankChart.SortedStatsProperties | src/components/charts/OverallRankBarChart.tsx:164-222 | one statistic per filtered model, in non-decreasing order of average rank, each one of a filtered model's statistics |
| OverallRankChart.SortStatsOrdered | src/components/charts/OverallRankBarChart.tsx:220-222 | sorting by `averageRank` gives a non-decreasing order and keeps the length |
| OverallRankChart.SortStatsMembers | src/components/charts/OverallRankBarChart.tsx:220-222 | every sorted statistic belongs to one of the filtered models |
| OverallRankChart.VisibleStats | src/components/charts/OverallRankBarChart.tsx:225-230 | the shown models are a prefix of the sorted ones: the first five (or fewer) on a phone unless all are asked for, all of them otherwise |
| OverallRankChart.RowCellsSnoc | src/components/charts/OverallRankBarChart.tsx:258-267 | one more ranking adds a cell exactly when it is positive |
| OverallRankChart.HeatmapCellsSnoc | src/components/charts/OverallRankBarChart.tsx:252-269 | one more model appends its cells |
| OverallRankChart.RowCellsMembers | src/components/charts/OverallRankBarChart.tsx:258-267 | a model's cells are exactly its positive ranks, each with its task index |
| OverallRankChart.HeatmapCellsMembers | src/components/charts/OverallRankBarChart.tsx:249-269 | `heatmapData` holds `[taskIndex, modelIndex, rank]` exactly for the positive ranks of the shown models |
| OverallRankChart.MaxRankStep | src/components/charts/OverallRankBarChart.tsx:266 | one more cell keeps `maxRank` the largest rank seen, or 1 |
| OverallRankChart.AddRowCells | src/components/charts/OverallRankBarChart.tsx:258-268 | the inner loop appends the model's cells and keeps `maxRank` the largest rank seen, or 1 |
| OverallRankChart.BuildHeatmap | src/components/charts/OverallRankBarChart.tsx:249-269 | the nested loops produce the heatmap cells, and `maxRank` is at least 1, bounds every cell and is either 1 or one of their ranks |
| OverallRankChart.ExtMax | src/components/charts/OverallRankBarChart.tsx:274-280 | `Math.max` is an upper bound of both arguments and equal to one of them |
| OverallRankChart.Ceil | src/components/charts/OverallRankBarChart.tsx:279 | `Math.ceil` is the least integer not below its argument |
| OverallRankChart.BarValue | src/components/charts/OverallRankBarChart.tsx:283-286 | the bar value is `Infinity` or a non-negative number |
| OverallRankChart.BarValues | src/components/charts/OverallRankBarChart.tsx:282-298 | one bar per shown model, from its average rank |
| OverallRankChart.MaxAverageIsMax | src/components/charts/OverallRankBarChart.tsx:274-276 | `maxAverageRank` bounds every shown average and, when models are shown, is one of them |
| OverallRankChart.BarsAtLeastOne | src/components/charts/OverallRankBarChart.tsx:274-286 | no bar is negative, and every model with a finite average gets a bar at least 1 high |
| OverallRankChart.BarsWhenRanked | src/components/charts/OverallRankBarChart.tsx:271-286 | when every average lies between 1 and the number of models, the axis ends at that number and each bar is `totalModels - averageRank + 1`, between 1 and `totalModels` |
| OverallRankChart.BarsWhenNoTask | src/components/charts/OverallRankBarChart.tsx:274-286 | when every average is `Infinity` the axis is unbounded and every bar is 0 |
| OverallRankChart.HeatmapFitsContainer | src/components/charts/OverallRankBarChart.tsx:743-786 | with the corrected count, `containerHeight` is at least the bar chart's height plus the heatmap of the kept tasks (`tasks.length * fixedCellHeight`, lines 301-311) plus the container's padding, on a phone, a narrow screen and a wide one |
| OverallRankChart.ChartTaskCount | src/components/charts/OverallRankBarChart.tsx:743-766 | with a duplicate-free selection, the corrected count equals the number of tasks the chart keeps |
| OverallRankChart.ChartTasksMembers | src/components/charts/OverallRankBarChart.tsx:110-131 | sorting by label does not change which tasks are kept, and the kept tasks' ids are distinct |
| OverallRankChart.KeptTasksSameMembers | src/components/charts/OverallRankBarChart.tsx:115-131 | the kept tasks depend only on which tasks there are, not on their order |
| OverallRankChart.KeptTasksNoDup | src/components/charts/OverallRankBarChart.tsx:115-131 | filtering a duplicate-free list of tasks keeps it duplicate-free |
| OverallRankChart.ChartTasksOfSorted | src/components/charts/OverallRankBarChart.tsx:107-131 | the `length > 0` filter keeps every collected task, so the chart's tasks are those kept from the label-sorted list |
| OverallRankChart.CollectedRowOfId | src/components/charts/OverallRankBarChart.tsx:74-104 | each collected task element is the one built for its own id, which is the task id of some row |
| OverallRankChart.CollectedRowsNoDup | src/components/charts/OverallRankBarChart.tsx:74-104 | the collected task elements are distinct, one per distinct task id |
| OverallRankChart.ChartTaskFromRow | src/components/charts/OverallRankBarChart.tsx:74-131 | every task the chart keeps has the task id of some row |
| OverallRankChart.AsWrittenCountsAtLeast | src/components/charts/OverallRankBarChart.tsx:743-766 | the count as written is never below the corrected one, so the container as written is too tall but never too short |
| OverallRankChart.ContainerHeight | src/components/charts/OverallRankBarChart.tsx:768-785 | the container is at least 500 pixels and 400 plus 25 per counted task on a phone, at least 800 and 650 plus 40 per task otherwise |
| OverallRankChart.TasksWithMetric | src/components/charts/OverallRankBarChart.tsx:743-766 | the corrected count: the distinct ids of the tasks with a row whose metric is selected (any row when nothing is selected) |
| OverallRankChart.SelectedIdIsKept | src/components/charts/OverallRankBarChart.tsx:118-131 | a task id with a selected metric belongs to a kept task |
| OverallRankChart.KeptContains | src/components/charts/OverallRankBarChart.tsx:118-131 | in overall mode, or with one of its metrics selected, a task row is kept |
| OverallRankChart.KeptIdIsSelected | src/components/charts/OverallRankBarChart.tsx:118-131 | a kept task has a row whose metric is selected |
| OverallRankChart.RowCounted | src/components/charts/OverallRankBarChart.tsx:746-766 | a row whose metric is selected has its task counted |
| OverallRankChart.TasksWithMetricMatchesKeptTasks | src/components/charts/OverallRankBarChart.tsx:743-766 | the corrected count is taken over exactly the ids of the kept tasks (with lines 118-131 of the same file); `HeatmapFitsContainer` draws the height consequence |
| OverallRankChart.AsWrittenIgnoresSelection | src/components/charts/OverallRankBarChart.tsx:746-766 | as written, the count is the number of distinct task ids whatever metrics are selected |
| OverallRankChart.OnlyTaskWithMetric | src/components/charts/OverallRankBarChart.tsx:746-766 | when the rows with a selected metric all belong to one task, the corrected count holds only that task |
| OverallRankChart.ContainerHeightCounterexample | src/components/charts/OverallRankBarChart.tsx:758-762 | with tasks having metrics "auc" and "f1" and "auc" selected, the count as written is two while one task is kept |
| OverallRankChart.StatOfRanked | src/components/charts/OverallRankBarChart.tsx:164-217 | every model has one rank per kept task, none of them -1, and its average is finite and within the model count exactly when a task is kept |
| OverallRankChart.SortedStatsRanked | src/components/charts/OverallRankBarChart.tsx:220-222 | sorting keeps every statistic ranked over every kept task |
| OverallRankChart.ShownStatsProperties | src/components/charts/OverallRankBarChart.tsx:164-230 | the shown statistics are in order of average rank, at most five on a phone unless all are asked for, one per filtered model otherwise, each ranked over every kept task |
| OverallRankChart.VisibleStatsKept | src/components/charts/OverallRankBarChart.tsx:225-230 | a prefix of the sorted statistics keeps their order and their ranks |
| OverallRankChart.MetricsOfRowsMembers | src/components/charts/OverallRankBarChart.tsx:74-95 | the available metrics are duplicate-free and are exactly the metrics of the rows |
| OverallRankChart.BuildChart | src/components/charts/OverallRankBarChart.tsx:56-311 | no rows gives the "No data available" chart; otherwise the kept tasks, the shown statistics, the heatmap cells with `maxRank`, the y-axis maximum, the bars and the heatmap height, with the look-up keyed by the (task id, model id) pair; when no row's task id contains '-', every rank that look-up gives for a kept task equals the one the string-keyed look-up as written gives |
| LeaderboardTable.AverageFor | src/components/tables/LeaderboardTable.tsx:35-38 | the score is the `rankMean` of the first row for the model and task, and `-Infinity` exactly when there is no such row; never `+Infinity` |
| LeaderboardTable.TaskResults | src/components/tables/LeaderboardTable.tsx:34-40 | one result per model, in model order, with its score on the task |
| LeaderboardTable.ResultModels | src/components/tables/LeaderboardTable.tsx:47 | the models of the results, in order |
| LeaderboardTable.RankedResultsSorted | src/components/tables/LeaderboardTable.tsx:43-45 | the ranked results are a rearrangement of the per-model results, best score first |
| LeaderboardTable.RankedResultOfModel | src/components/tables/LeaderboardTable.tsx:34-45 | every ranked result belongs to one of the models and carries that model's score |
| LeaderboardTable.TopModelsProperties | src/components/tables/LeaderboardTable.tsx:33-48 | the top list has five models (fewer when there are fewer models), drawn from the models without repeats, best score first, and a model without a row comes after every model with one |
| LeaderboardTable.TopIsSubMultiset | src/components/tables/LeaderboardTable.tsx:43-47 | no model occurs in the top list more often than among the models |
| LeaderboardTable.ModelsOfPrefix | src/components/tables/LeaderboardTable.tsx:46-47 | the models of a prefix of the results are among the models of all of them |
| LeaderboardTable.ResultModelsAppend | src/components/tables/LeaderboardTable.tsx:47 | mapping the results to their models distributes over concatenation |
| LeaderboardTable.ModelsOfPermutation | src/components/tables/LeaderboardTable.tsx:45-47 | rearranging the results rearranges their models |
| LeaderboardTable.NoDupOfSubMultiset | src/components/tables/LeaderboardTable.tsx:43-47 | a list drawn from a duplicate-free list without repeats is duplicate-free |
| LeaderboardTable.TopModelsAreBest | src/components/tables/LeaderboardTable.tsx:43-47 | a model left out of the top list scores no better than any model in it |
| LeaderboardTable.NextSortCases | src/components/tables/LeaderboardTable.tsx:50-66 | a new column starts ascending; ascending becomes descending; descending becomes unsorted with no column; the field and direction stay both set or both null |
| LeaderboardTable.ThreeClicksCycle | src/components/tables/LeaderboardTable.tsx:50-66 | three clicks on one header from the unsorted table sort it up, down, and not at all |
| LeaderboardTable.SortState.constructor | src/components/tables/LeaderboardTable.tsx:29-30 | the table starts with no sort field and no direction |
| LeaderboardTable.SortState.HandleSort | src/components/tables/LeaderboardTable.tsx:50-66 | the new field and direction are the next state of the header cycle, and they stay both set or both null |
| LeaderboardTable.ThreeClicks | src/components/tables/LeaderboardTable.tsx:29-66 | three calls of `handleSort` on one field of a fresh table leave it unsorted |
| LeaderboardTable.PerformanceLevel | src/components/tables/LeaderboardTable.tsx:68-75 | a null average gives "none"; otherwise rank 1, 2 and 3 give gold, silver and bronze and every other rank "standard" |
| LeaderboardTable.SortedTasks | src/components/tables/LeaderboardTable.tsx:89-112 | the sorted tasks are a rearrangement of the tasks |
| LeaderboardTable.SortedTasksUnchanged | src/components/tables/LeaderboardTable.tsx:89-101 | without a field or direction, or with a field other than the name and the cohort, the task order is kept |
| LeaderboardTable.SortedTasksOrdered | src/components/tables/LeaderboardTable.tsx:95-107 | sorting on a field orders the rows by its value, ascending or in reverse |
| LeaderboardTable.MobileLines | src/components/tables/LeaderboardTable.tsx:183-191 | a card lists the first three top models (fewer when there are fewer), each with its position plus one and its score |
| LeaderboardTable.DesktopSlots | src/components/tables/LeaderboardTable.tsx:342-369 | five slots; slot `k` is "No Data" exactly when the top list has no `k`-th model, otherwise that model with its score and the level of rank `k + 1` |
| LeaderboardTable.DesktopSlotLevels | src/components/tables/LeaderboardTable.tsx:342-369 | no slot has the "none" level; the first three filled slots are gold, silver and bronze and the rest standard |
| EvaluationContext.TaskTypesOf | src/context/EvaluationContext.tsx:118 | the task type of every task, in task order |
| EvaluationContext.OrgansOf | src/context/EvaluationContext.tsx:126 | the organ of every task, in task order |
| EvaluationContext.AllTaskTypes | src/context/EvaluationContext.tsx:116-121 | `allTaskTypes`: every task type exactly once, no other value, in the order the types first occur |
| EvaluationContext.OrganNamed | src/context/EvaluationContext.tsx:128-132 | an organ's id is its lower-cased name and its description "<name> related tasks" |
| EvaluationContext.AllOrgans | src/context/EvaluationContext.tsx:124-133 | `allOrgans`: one organ record per distinct organ name, in first-occurrence order, exactly the records of the tasks' organs |
| EvaluationContext.GetTaskById | src/context/EvaluationContext.tsx:136-138 | a task is found exactly when some task has the id, and it is the first such task |
| EvaluationContext.GetModelById | src/context/EvaluationContext.tsx:140-142 | a model is found exactly when some model has the name, and it is the first such model |
| EvaluationContext.GetOrganById | src/context/EvaluationContext.tsx:144-151 | an organ is found exactly when some organ record has the id, and the one found is the first organ record with the id |
| EvaluationContext.FilteredTasks | src/context/EvaluationContext.tsx:154-170 | no selection returns the tasks themselves; otherwise exactly the tasks whose lower-cased organ is selected (or no organ is) and whose type is selected (or no type is), in order, each as often as it occurs |
| EvaluationContext.FilteredModels | src/context/EvaluationContext.tsx:172-178 | no selection returns all models; otherwise exactly those whose name is selected, in order, each as often as it occurs |
| EvaluationContext.FilteredPerformances | src/context/EvaluationContext.tsx:180-198 | every performance when no task or no model passes; otherwise exactly the rows of a passing task and a passing model, in order, each as often as it occurs |
| EvaluationContext.AvailableMetrics | src/context/EvaluationContext.tsx:214-226 | every metric of the tasks exactly once, no other value, in first-occurrence order |
| EvaluationContext.FilteredTasksBySelectedSet | src/context/EvaluationContext.tsx:154-170 | the task filter depends only on which values are selected, not on their order or repetition |
| EvaluationContext.ToggleOrganTwiceRestoresTasks | src/context/EvaluationContext.tsx:154-170 | toggling an organ twice leaves the filtered tasks as they were; from no selection it shows every task (with lines 82-91 of the same file) |
| EvaluationContext.SelectingAllOrgansKeepsAllTasks | src/context/EvaluationContext.tsx:161-169 | selecting the id of every organ that occurs keeps every task |
| EvaluationContext.EvaluationState.constructor | src/context/EvaluationContext.tsx:65-79 | the fetched data is stored and every selection starts empty, so every task and model passes |
| EvaluationContext.EvaluationState.ToggleOrganSelection | src/context/EvaluationContext.tsx:82-91 | the organ id flips in the selection; the other two lists are unchanged |
| EvaluationContext.EvaluationState.ToggleTaskTypeSelection | src/context/EvaluationContext.tsx:93-102 | the task type flips in the selection; the other two lists are unchanged |
| EvaluationContext.EvaluationState.ToggleModelSelection | src/context/EvaluationContext.tsx:104-113 | the model id flips in the selection; the other two lists are unchanged |
| EvaluationContext.OrganRoundTrip | src/context/EvaluationContext.tsx:154-170 | toggling an organ on and off from a fresh state leaves every task visible (with lines 82-91 of the same file) |
| PerformanceContent.CohortsOf | src/components/tables/PerformanceContent.tsx:59 | the cohort of every task, in task order |
| PerformanceContent.OptionListProperties | src/components/tables/PerformanceContent.tsx:45-61 | `[...new Set(values)].sort()`: strictly ascending, no duplicates, exactly the values that occur |
| PerformanceContent.OptionsOfField | src/components/tables/PerformanceContent.tsx:45-61 | the option list of a field holds exactly the values the tasks have in it |
| PerformanceContent.OptionListsMembers | src/components/tables/PerformanceContent.tsx:45-61 | the organ, task-type and cohort lists hold exactly the organs, task types and cohorts of the tasks |
| PerformanceContent.FilteredTasks | src/components/tables/PerformanceContent.tsx:64-106 | exactly the tasks whose lower-cased name, organ or type contains the lower-cased search term and whose organ, type and cohort pass their selections, in order, each as often as it occurs |
| PerformanceContent.NoFilterKeepsAll | src/components/tables/PerformanceContent.tsx:64-106 | an empty search with no selection keeps every task, in order |
| PerformanceContent.FilterAll | src/components/tables/PerformanceContent.tsx:65-99 | a filter whose test always holds keeps the list |
| PerformanceContent.TasksOfOrganMembers | src/components/tables/PerformanceContent.tsx:112-117 | an organ's list holds exactly the tasks of that organ |
| PerformanceContent.TasksOfOrganCount | src/components/tables/PerformanceContent.tsx:112-117 | each task of the organ is in its list as often as among the tasks, and no other task is |
| PerformanceContent.TasksOfOrganEmpty | src/components/tables/PerformanceContent.tsx:112-117 | an organ no task has gets no tasks |
| PerformanceContent.TasksOfOrganSnoc | src/components/tables/PerformanceContent.tsx:116 | one more task is appended to its own organ's list only |
| PerformanceContent.OrganGroups | src/components/tables/PerformanceContent.tsx:119-128 | one group per sorted organ, each that organ's tasks sorted by name |
| PerformanceContent.OrganMapStep | src/components/tables/PerformanceContent.tsx:112-117 | one step of the `forEach` keeps the keys in insertion order and every list equal to its organ's tasks so far |
| PerformanceContent.OrganMapKeysStep | src/components/tables/PerformanceContent.tsx:113-115 | the keys gain the task's organ exactly when it is new |
| PerformanceContent.OrganMapDomainStep | src/components/tables/PerformanceContent.tsx:113-116 | the map's keys follow the key list |
| PerformanceContent.OrganMapValuesStep | src/components/tables/PerformanceContent.tsx:113-116 | after the push every list holds its organ's tasks, the new one at the end |
| PerformanceContent.BuildOrganMap | src/components/tables/PerformanceContent.tsx:110-117 | the map after the first loop: keys in insertion order, each holding its organ's tasks in order |
| PerformanceContent.TasksByOrgan | src/components/tables/PerformanceContent.tsx:109-131 | `tasksByOrgan` is one group per organ in ascending order, each with its tasks sorted by name |
| PerformanceContent.GroupsStep | src/components/tables/PerformanceContent.tsx:123-128 | one more push keeps the groups built so far correct |
| PerformanceContent.GroupsDone | src/components/tables/PerformanceContent.tsx:123-130 | after the last organ the result is the whole list of groups |
| PerformanceContent.SortedKeys | src/components/tables/PerformanceContent.tsx:120 | sorting the map's keys gives the sorted distinct organs, each a key of the map |
| PerformanceContent.GroupFromMap | src/components/tables/PerformanceContent.tsx:124-127 | the list read from the map and sorted by name is the group of that organ |
| PerformanceContent.NameLeTotal | src/components/tables/PerformanceContent.tsx:126 | comparing tasks by name with a total preorder is a total preorder |
| PerformanceContent.SortedOrgansProperties | src/components/tables/PerformanceContent.tsx:120 | the group organs are strictly ascending and are exactly the organs of the tasks |
| PerformanceContent.GroupProperties | src/components/tables/PerformanceContent.tsx:119-128 | a group is non-empty, sorted by name, and holds exactly the tasks of its organ, each as often as among the tasks |
| PerformanceContent.OrganGroupProperties | src/components/tables/PerformanceContent.tsx:119-128 | the group of a filtered task's organ is non-empty, sorted by name and holds exactly that organ's tasks |
| PerformanceContent.OrganGroupsProperties | src/components/tables/PerformanceContent.tsx:109-131 | organs strictly ascending, no group empty, each group's tasks exactly the tasks of its organ sorted by name, and a group for the organ of every filtered task |
| PerformanceContent.BadgeCount | src/components/tables/PerformanceContent.tsx:234-239 | the number on the filter button counts the non-empty selection lists: 0 exactly when none is, 3 exactly when all are |
| PerformanceContent.PerformanceFilters.constructor | src/components/tables/PerformanceContent.tsx:30-42 | the page starts with an empty search and no selection |
| PerformanceContent.PerformanceFilters.SetSearchTerm | src/components/tables/PerformanceContent.tsx:33 | the search term changes and the selection lists do not |
| PerformanceContent.PerformanceFilters.ClearAllFilters | src/components/tables/PerformanceContent.tsx:134-171 | every filter is cleared, nothing counts as filtering, and every task is shown |
| PerformanceContent.PerformanceFilters.ToggleOrgan | src/components/tables/PerformanceContent.tsx:142-148 | the organ flips in its selection; the other filters are unchanged |
| PerformanceContent.PerformanceFilters.ToggleTaskType | src/components/tables/PerformanceContent.tsx:150-156 | the task type flips in its selection; the other filters are unchanged |
| PerformanceContent.PerformanceFilters.ToggleCohort | src/components/tables/PerformanceContent.tsx:158-164 | the cohort flips in its selection; the other filters are unchanged |
| PerformanceContent.ClearAfterToggle | src/components/tables/PerformanceContent.tsx:134-164 | selecting a cohort and clearing the filters shows every task again and nothing is filtering |
| DatasetInfo.SumSnoc | src/components/tables/DatasetInfoTable.tsx:32-33 | one more row adds its value to the `reduce` total |
| DatasetInfo.Sources | src/components/tables/DatasetInfoTable.tsx:34 | the source hospital of every row, in row order |
| DatasetInfo.Organs | src/components/tables/DatasetInfoTable.tsx:35 | the organ of every row, in row order |
| DatasetInfo.DistinctCount | src/components/tables/DatasetInfoTable.tsx:34-35 | a Set's size is at most the number of values and at least 1 when there is one |
| DatasetInfo.ColumnOf | src/components/tables/DatasetInfoTable.tsx:32-33 | one column of the table, in row order |
| DatasetInfo.SumIsSumOfColumn | src/components/tables/DatasetInfoTable.tsx:32-33 | the `reduce` total is the sum of the column |
| DatasetInfo.SumOfNatsAppend | src/components/tables/DatasetInfoTable.tsx:32-33 | the sum of two lists joined is the sum of their sums |
| DatasetInfo.FixedCases | src/components/tables/DatasetInfoTable.tsx:11-32 | the table covers 8549 cases |
| DatasetInfo.CasesColumn | src/components/tables/DatasetInfoTable.tsx:11-24 | the case column of the table |
| DatasetInfo.CasesColumnSum | src/components/tables/DatasetInfoTable.tsx:11-32 | the case column adds up to 8549 |
| DatasetInfo.FixedSlides | src/components/tables/DatasetInfoTable.tsx:11-33 | the table covers 16159 slides |
| DatasetInfo.SlidesColumn | src/components/tables/DatasetInfoTable.tsx:11-24 | the slide column of the table |
| DatasetInfo.SlidesColumnSum | src/components/tables/DatasetInfoTable.tsx:11-33 | the slide column adds up to 16159 |
| DatasetInfo.DistinctCountIs | src/components/tables/DatasetInfoTable.tsx:34-35 | a Set's size is the length of any duplicate-free list with the same members |
| DatasetInfo.FixedHospitalCount | src/components/tables/DatasetInfoTable.tsx:11-34 | the table draws on 9 hospitals |
| DatasetInfo.FixedOrganCount | src/components/tables/DatasetInfoTable.tsx:11-35 | the table covers 5 organs |
| DatasetInfo.FixedSummary | src/components/tables/DatasetInfoTable.tsx:11-35 | the four figures shown are 8549 cases, 16159 slides, 9 hospitals and 5 organs |
| DatasetInfo.GroupedContents | src/components/tables/DatasetInfoTable.tsx:150-156 | the Record is keyed by exactly the organs of the rows, and an organ's array holds that organ's rows in their order |
| DatasetInfo.GroupedAbsent | src/components/tables/DatasetInfoTable.tsx:150-156 | an organ no row has keeps no row |
| DatasetInfo.GroupedStep | src/components/tables/DatasetInfoTable.tsx:151-155 | one row creates its organ's array when missing and appends itself, keeping the keys in insertion order |
| DatasetInfo.GroupedHasKey | src/components/tables/DatasetInfoTable.tsx:151-153 | the Record has a key for an organ exactly when some row has it |
| DatasetInfo.GroupByOrgan | src/components/tables/DatasetInfoTable.tsx:149-157 | the `reduce` leaves the organs in first-occurrence order, each with its rows in order |
| DatasetInfo.CardsOf | src/components/tables/DatasetInfoTable.tsx:157-160 | one card per organ, each built from its group |
| DatasetInfo.SumGroupsSnoc | src/components/tables/DatasetInfoTable.tsx:158-159 | one more row adds its value to the per-organ totals exactly when its organ is listed |
| DatasetInfo.SumGroupsOfNone | src/components/tables/DatasetInfoTable.tsx:158-159 | no rows give zero per-organ totals |
| DatasetInfo.SumGroupsIsFilterSum | src/components/tables/DatasetInfoTable.tsx:158-159 | over distinct organs, the per-organ totals add up to the total of the rows of those organs |
| DatasetInfo.CardsTotalIsSumGroups | src/components/tables/DatasetInfoTable.tsx:157-159 | the cards' totals add up to the per-organ totals of the rows |
| DatasetInfo.CardsAddUp | src/components/tables/DatasetInfoTable.tsx:149-159 | the per-organ case and slide totals add up to the grand totals (with lines 32-33 of the same file) |
| DatasetInfo.CardsProperties | src/components/tables/DatasetInfoTable.tsx:149-177 | one card per distinct organ, in first-occurrence order; each holds its organ's rows in order, counts between 1 and that many hospitals, and gives each count the suffix "s" when it exceeds one and "" otherwise |
| DatasetInfo.OrganHasRows | src/components/tables/DatasetInfoTable.tsx:150-156 | an organ that occurs has at least one row |
| DatasetInfo.CardOfCounts | src/components/tables/DatasetInfoTable.tsx:160 | a card with rows counts between one hospital and one per row |
| TaskDistribution.CountsSnoc | src/components/charts/TaskDistributionChart.tsx:67 | one more key adds one to its count, starting from 0 |
| TaskDistribution.CountsContents | src/components/charts/TaskDistributionChart.tsx:65-71 | a key is in the Record exactly when it occurs, and its count is its number of occurrences |
| TaskDistribution.OrgansOfSnoc | src/components/charts/TaskDistributionChart.tsx:65-71 | one more task appends its organ |
| TaskDistribution.TaskTypesOfSnoc | src/components/charts/TaskDistributionChart.tsx:166-170 | one more task appends its type |
| TaskDistribution.OrgansCountedStep | src/components/charts/TaskDistributionChart.tsx:66-68 | one task adds one to its organ's count and keeps the keys in insertion order |
| TaskDistribution.CountsHasKey | src/components/charts/TaskDistributionChart.tsx:67 | the Record has a key exactly when it occurs |
| TaskDistribution.CountOrgans | src/components/charts/TaskDistributionChart.tsx:65-71 | the `reduce` leaves the organs in insertion order, each with its number of tasks |
| TaskDistribution.CountTaskTypes | src/components/charts/TaskDistributionChart.tsx:165-170 | the `forEach` leaves each task type with its number of tasks |
| TaskDistribution.SumCountsSnoc | src/components/charts/TaskDistributionChart.tsx:165-178 | one more key adds one to the total of the listed counts exactly when it is listed |
| TaskDistribution.SumCountsIsFilterSize | src/components/charts/TaskDistributionChart.tsx:165-178 | over duplicate-free keys, the counts add up to the number of keys that are listed |
| TaskDistribution.SumCountsOfNone | src/components/charts/TaskDistributionChart.tsx:165-178 | no keys give a zero total |
| TaskDistribution.Entries | src/components/charts/TaskDistributionChart.tsx:74-79 | one slice per key, in key order, valued by its count |
| TaskDistribution.ChartOptions | src/components/charts/TaskDistributionChart.tsx:48-178 | the chart's title and data: "No tasks available" without tasks, otherwise the organ or the task-type pie |
| TaskDistribution.TotalOfEntries | src/components/charts/TaskDistributionChart.tsx:74-79 | the slice values add up to the listed counts |
| TaskDistribution.OrganSlicesProperties | src/components/charts/TaskDistributionChart.tsx:63-79 | the organ pie has one slice per distinct organ, first seen first, valued by its number of tasks; the values are positive and add up to the number of filtered tasks |
| TaskDistribution.OrganValues | src/components/charts/TaskDistributionChart.tsx:74-79 | each organ's slice carries its number of tasks, at least one |
| TaskDistribution.OrganTotal | src/components/charts/TaskDistributionChart.tsx:65-79 | the organ counts add up to the number of tasks |
| TaskDistribution.TypeSlicesProperties | src/components/charts/TaskDistributionChart.tsx:163-178 | the task-type pie lists, in `allTaskTypes` order, the types some filtered task has, each valued by its positive count; with a duplicate-free `allTaskTypes` the values add up to the number of filtered tasks whose type is listed |
| TaskDistribution.TypeSliceNames | src/components/charts/TaskDistributionChart.tsx:173-174 | the slices name exactly the listed types that occur, in list order |
| TaskDistribution.TypeSliceValues | src/components/charts/TaskDistributionChart.tsx:175-178 | each type slice carries its number of tasks, at least one |
| TaskDistribution.TypeSlicesTotal | src/components/charts/TaskDistributionChart.tsx:173-178 | the type slice values add up to the listed counts |
| TaskDistribution.TypeTotalInContext | src/context/EvaluationContext.tsx:116-121 | with `allTaskTypes` from the context, the task-type values add up to the number of filtered tasks |
| TaskDistribution.TaskTypesAmongAll | src/context/EvaluationContext.tsx:116-121 | the type of every filtered task is in `allTaskTypes`, so none is dropped |
| TaskDistribution.DistributionPlaceholder | src/components/charts/TaskDistributionChart.tsx:51-60 | the placeholder appears exactly when no task passes the filters; otherwise the organ pie has a slice |
| PieDistribution.Relevant | src/components/charts/PieDataDistributionChart.tsx:79 | exactly the rows of a filtered task, in order, each as often as it occurs |
| PieDistribution.RelevantStep | src/components/charts/PieDataDistributionChart.tsx:77-90 | one more row joins the relevant rows exactly when its task is filtered |
| PieDistribution.IdsWithMetric | src/components/charts/PieDataDistributionChart.tsx:83-86 | the task ids collected under a metric are exactly those of the rows with that metric |
| PieDistribution.MetricsOfRowsSnoc | src/components/charts/PieDataDistributionChart.tsx:80-82 | one more row appends its metric |
| PieDistribution.IdsWithMetricAbsent | src/components/charts/PieDataDistributionChart.tsx:83-86 | a metric no row has collects no task id |
| PieDistribution.TaskSetsContents | src/components/charts/PieDataDistributionChart.tsx:74-90 | the Sets are keyed by exactly the metrics of the rows, and each holds the task ids of its rows once, first seen first |
| PieDistribution.TaskSetsKeys | src/components/charts/PieDataDistributionChart.tsx:83-85 | a metric has a Set exactly when some row has it |
| PieDistribution.TaskSetsValues | src/components/charts/PieDataDistributionChart.tsx:86 | each Set holds the distinct task ids of its metric's rows |
| PieDistribution.CollectedStep | src/components/charts/PieDataDistributionChart.tsx:79-88 | one row of a filtered task adds its metric and its task id; any other row changes nothing |
| PieDistribution.RowStep | src/components/charts/PieDataDistributionChart.tsx:80-86 | one row adds its metric to `allAvailableMetrics` and its task id to its metric's Set, creating the Set when missing |
| PieDistribution.CollectMetricTasks | src/components/charts/PieDataDistributionChart.tsx:67-90 | the single pass leaves `allAvailableMetrics` as the distinct metrics of the relevant rows and each Set as its metric's distinct task ids |
| PieDistribution.SliceNames | src/components/charts/PieDataDistributionChart.tsx:107-110 | the names of the slices, in order |
| PieDistribution.SlicesOfNames | src/components/charts/PieDataDistributionChart.tsx:105-110 | the slices name, in order, the metrics whose Set is non-empty |
| PieDistribution.SlicesOfValues | src/components/charts/PieDataDistributionChart.tsx:106-110 | every slice carries the size of its metric's Set, at least one |
| PieDistribution.ChartOptions | src/components/charts/PieDataDistributionChart.tsx:49-110 | the pie's data: "No tasks available" without tasks or rows, otherwise the slices of the metrics to show |
| PieDistribution.HasTasksOfRows | src/components/charts/PieDataDistributionChart.tsx:106 | a metric has a non-empty Set exactly when some relevant row has it |
| PieDistribution.SliceValuesBounded | src/components/charts/PieDataDistributionChart.tsx:106-110 | a slice counts the distinct tasks with a row under its metric: at least one, at most the number of distinct filtered tasks |
| PieDistribution.PieDataProperties | src/components/charts/PieDataDistributionChart.tsx:49-110 | the placeholder appears exactly without filtered tasks or rows; otherwise each slice counts its metric's distinct filtered tasks, between 1 and the number of filtered tasks; overall mode shows every metric of those rows, first seen first, and otherwise the selected metrics that occur, in selection order and as often as they are selected |
| DetailedPerformance.TaskPerformances | src/components/charts/DetailedPerformanceChart.tsx:328-330 | exactly the rows of the task, in order, each as often as it occurs |
| DetailedPerformance.DefaultCohort | src/components/charts/DetailedPerformanceChart.tsx:347-348 | the cohort of the first task with the id when it is non-empty, "unknown" otherwise; never empty |
| DetailedPerformance.GroupByCohort | src/components/charts/DetailedPerformanceChart.tsx:351-359 | every row goes to the default cohort: no key without rows, otherwise that one key holding all rows in order |
| DetailedPerformance.StatsOf | src/components/charts/DetailedPerformanceChart.tsx:368-377 | one `{ modelName, mean, cohort }` per row, in row order |
| DetailedPerformance.ByMeanDescTotalPreorder | src/components/charts/DetailedPerformanceChart.tsx:380-383 | the descending-mean comparator is a total preorder |
| DetailedPerformance.CohortCharts | src/components/charts/DetailedPerformanceChart.tsx:326-395 | `cohortCharts`: the charts built by the grouping loop, as `CohortChartsOf` gives them |
| DetailedPerformance.CohortChartsProperties | src/components/charts/DetailedPerformanceChart.tsx:326-412 | at most one chart; none, and so the "No data available for this task" card, exactly when the task has no rows or its first row's metric is empty; otherwise one chart for the task's cohort (or "unknown"), labelled "0" (the first key `Object.keys` gives for a non-empty metric string), with one statistic per row in non-increasing order of mean, each tagged with that cohort |
| DetailedPerformance.SortedStatsProperties | src/components/charts/DetailedPerformanceChart.tsx:368-383 | the sorted statistics are the group's own, one per row, means non-increasing, all tagged with the cohort |
| MetricSelector.MetricsSoFarStep | src/components/selectors/MetricSelector.tsx:28 | one more metric of the current task is added after the ones before it |
| MetricSelector.MetricsOfTaskDone | src/components/selectors/MetricSelector.tsx:27-29 | after all metrics of task `i` the Set has seen the metrics of the first `i + 1` tasks |
| MetricSelector.CollectMetrics | src/components/selectors/MetricSelector.tsx:25-31 | the nested `forEach` leaves every metric of the tasks once, in first-occurrence order |
| MetricSelector.AddTaskMetrics | src/components/selectors/MetricSelector.tsx:28 | the inner `forEach` adds the metrics of one task to the Set |
| MetricSelector.GetValidMetricsForTasks | src/components/selectors/MetricSelector.tsx:20-32 | the context's metrics without filtered tasks, otherwise the distinct metrics of the filtered tasks |
| MetricSelector.ValidMetricsOfTasks | src/components/selectors/MetricSelector.tsx:20-32 | with filtered tasks, the valid metrics are each metric of a filtered task once, first seen first |
| MetricSelector.ValidMetricsInContext | src/components/selectors/MetricSelector.tsx:15-32 | with the context's metrics as `allMetrics`, the valid metrics are exactly those metrics whether or not a task passes |
| MetricSelector.HandleMetricToggleRoundTrip | src/components/selectors/MetricSelector.tsx:36-41 | ticking a box flips whether its metric is selected and no other, keeps a duplicate-free selection duplicate-free, and ticking an unselected box twice restores the selection |
| MetricSelector.ValidSelections | src/components/selectors/MetricSelector.tsx:45 | exactly the selected metrics that are valid, in selection order and as often as they are selected |
| MetricSelector.CleanupCalls | src/components/selectors/MetricSelector.tsx:44-49 | the effect calls `onChange` exactly when a selected metric is not valid, and then with a shorter list of exactly the valid ones, in order and as often as they were selected |
| MetricSelector.CleanupIdempotent | src/components/selectors/MetricSelector.tsx:44-49 | after the clean-up every selection is valid, so the effect runs again without calling `onChange` |
| MetricSelector.ReplaceFirstUnderscore | src/components/selectors/MetricSelector.tsx:79 | `replace("_", " ")` turns only the first underscore into a space and keeps the length |
| MetricSelector.Checkboxes | src/components/selectors/MetricSelector.tsx:60-83 | one box per metric in `allMetrics` order, ticked exactly when selected, disabled exactly when not valid, labelled with the first underscore replaced |
| MetricSelector.NoBoxDisabledInContext | src/components/selectors/MetricSelector.tsx:15-68 | with the context's metrics, no box is ever disabled |
| TaskMetricSelector.AvailableMetrics | src/components/metrics/MetricSelector.tsx:22-39 | the memoised list: the metrics of the selected task, or the distinct metrics of the filtered tasks |
| TaskMetricSelector.AvailableMetricsCases | src/components/metrics/MetricSelector.tsx:22-39 | with a non-empty task id, the metrics of the first task with it or none for an unknown id; otherwise each metric of a filtered task once |
| TaskMetricSelector.Capitalize | src/components/metrics/MetricSelector.tsx:45 | the word's first character upper-cased (ASCII letters only), the rest unchanged; the length is kept |
| TaskMetricSelector.CapitalizeAll | src/components/metrics/MetricSelector.tsx:45 | every word capitalised, in order |
| TaskMetricSelector.FormatMetricNameChars | src/components/metrics/MetricSelector.tsx:42-47 | under ASCII upper-casing, the formatted name has the metric's length; each underscore becomes a space and only the first character of each word is upper-cased |
| TaskMetricSelector.CapitalizeChars | src/components/metrics/MetricSelector.tsx:45 | a word without underscore is formatted character by character as the rule says |
| TaskMetricSelector.FormattedCharPrefix | src/components/metrics/MetricSelector.tsx:42-47 | a prefix is formatted like the start of the whole name |
| TaskMetricSelector.FormattedCharSuffix | src/components/metrics/MetricSelector.tsx:42-47 | the part after an underscore is formatted like the rest of the whole name |
| TaskMetricSelector.FormatMetricNameUnfold | src/components/metrics/MetricSelector.tsx:43-46 | a name with an underscore formats as its first word capitalised, a space, and the rest formatted |
| TaskMetricSelector.FormatWordsCons | src/components/metrics/MetricSelector.tsx:45-46 | joining capitalised words puts a space between the first word and the rest |
| TaskMetricSelector.CapitalizeAllCons | src/components/metrics/MetricSelector.tsx:45 | capitalising a list capitalises its head and its tail |
| TaskMetricSelector.FormatMetricNameSimple | src/components/metrics/MetricSelector.tsx:42-47 | the formatted name has no underscore, and a name without one only has its first character upper-cased |
| TaskMetricSelector.Choices | src/components/metrics/MetricSelector.tsx:59-72 | "No metrics available" exactly when there is no metric; otherwise one radio item per metric with its formatted name |
| OrganColors.OrganColorLookup | src/utils/organColors.ts:2-18 | the six organs of the table get their colours, Colon and Colorectal the same yellow, and any other name grey |
| OrganColors.DigitValue | src/utils/organColors.ts:32-34 | a hex digit's value is below 16 |
| OrganColors.LeadingHexDigits | src/utils/organColors.ts:32-34 | `parseInt` reads the longest prefix of hex digits |
| OrganColors.Slice | src/utils/organColors.ts:32-34 | `slice` with bounds inside the string is the substring |
| OrganColors.OrganColorIsHex | src/utils/organColors.ts:2-18 | every colour looked up is "#" followed by six hex digits |
| OrganColors.HexColorChannels | src/utils/organColors.ts:32-34 | a hex colour's channel is the value of its digit pair, at most 255 |
| OrganColors.OrganColorWithOpacityChannels | src/utils/organColors.ts:26-36 | every channel of an organ colour is a number between 0 and 255, and the opacity is passed through |
| OrganColors.UnknownOrganChannels | src/utils/organColors.ts:17-35 | an organ outside the table gets red 107, green 114 and blue 128 |

## Left out

- Rendering: all JSX, ECharts option styling (colours, grids, axes, legends, tooltips, animation settings), the `SortIcon` component and the `getColor` palette of the bar chart. None of it changes the data.
- DOM and timing glue: the resize listeners with `debounce` become the parameters `isMobile` and `isNarrowScreen`; the `showFilters` and dataset-table visibility toggles are view state only.
- `NODE_ENV` in `image-loader.js` becomes the parameter `isProd`; the environment is not read.
- The JSON fixture loading and the `console.log` calls in `src/data/performance.ts` and `src/data/tasks.ts`: the fixture rows are an input sequence.
- `useMemo`/`useCallback` caching and React re-rendering: each derived value is a function of its inputs, so a cached value equals a recomputed one.
- The error thrown by `useEvaluation` outside its provider.
- `isLightColor` in `src/utils/organColors.ts` (a floating-point luminance test), the `rgba(...)` string formatting and `toFixed`/`toLocaleString` number formatting.
- `parseInt`'s handling of leading white space, signs and a `0x` prefix: the colours parsed are always two hex digits, so these cases never arise.
- `localeCompare` collation: an abstract comparator `localeLe`, required to be a total preorder where an ordering lemma needs it.
- `Performance.metrics` is declared as a string, so the `!== undefined && !== null` guards in the bar chart and the pie always hold and are not modelled as branches.
- `result.average !== null` in `calculateTaskTopModels` never removes a result (the average is a number or `-Infinity`), and the "none" level of `getPerformanceLevel` is never reached from the table; both are stated rather than modelled as live branches.
- The numeric branch of the `sortedTasks` comparator (`Number(aValue) - Number(bValue)`) is unreachable, because both sort values are always strings.
- `NaN` scores: `rankMean` is a real, so the `|| 0` fallback of the cohort chart's comparator and a `NaN` average never arise.
- `Object.entries` lists integer-like keys first; the organ and metric keys of this data are names, and the model keeps insertion order. Keys that clash with `Object.prototype` members are not modelled either.
- The `modelRankMap` of the bar chart is filled but never read, so it is not modelled.
- The series options of the "No data available" and "No tasks available" placeholders: only the fact that the placeholder is shown is modelled.
- `handleChange` of the radio list only forwards the chosen value to `onSelectMetric`.
- `OverallRankChart.ContainerHeight`: states lower bounds for the height from the task count, not the exact `Math.max` value; the count itself is modelled by `TasksWithMetricAsWritten` and the corrected `TasksWithMetric`.
- Text.ToLower: lower-cases only the ASCII letters A to Z. JavaScript's `toLowerCase` also maps other letters, and may change the length ("İ" becomes two characters). So the length and per-character statements hold of the ASCII mapping only, and so do the organ ids of `EvaluationContext.OrganNamed` and the organ filter of `EvaluationContext.FilteredTasks`.
- TaskMetricSelector.Capitalize: upper-cases only the ASCII letters a to z. JavaScript's `toUpperCase` also maps other letters, and may lengthen a word ("ß" becomes "SS").
- TaskMetricSelector.FormatMetricNameChars: the formatted name keeps the metric's length only under ASCII upper-casing. With JavaScript's full mapping, a word starting with "ß" makes it longer.
- PerformanceContent.FilteredTasks: the search ignores case for ASCII letters only. JavaScript lower-cases the term "ÉTUDE" and the name "étude" alike and finds the task; the model keeps "É" and does not.
- Text.CodeUnitLe: characters compare by Unicode scalar value. The default `.sort()` compares UTF-16 code units, which differs only for a character above U+FFFF against one in U+E000 to U+FFFF.

## Findings

| source | as written | input that shows it | evidently intended | confidence | as-written member | corrected member |
|---|---|---|---|---|---|---|
| src/components/charts/OverallRankBarChart.tsx:139-146 | the look-up map is keyed by the string `${p.taskId}-${p.modelId}` | a task "a-b" with model "c" and a task "a" with model "b-c" share the key "a-b-c", so one row's rank is read for the other pair | key each row by its (task id, model id) pair | medium, not executed | OverallRankRanking.StringKeyCollision | OverallRankRanking.PairKeyedMapContents |
| src/components/charts/OverallRankBarChart.tsx:758-762 | with metrics selected, a row counts when `selectedMetrics.some((metric) => p.metrics !== undefined && p.metrics !== null)`, which never looks at `metric` | rows of tasks "t1" (metric "auc") and "t2" (metric "f1") with "auc" selected: two tasks are counted while the chart keeps one | count a row only when `p.metrics` is one of the selected metrics, so the container height follows the kept tasks | high, not executed | OverallRankChart.ContainerHeightCounterexample | OverallRankChart.TasksWithMetricMatchesKeptTasks |
