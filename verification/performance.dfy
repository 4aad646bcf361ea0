/**
 * src/data/performance.ts: the raw result rows (JSON keys in snake case) become
 * `Performance` records; the task id is the row id without its last two characters.
 * The fixture itself is not modelled: the rows are an input.
 */
module PerformanceData {
  import opened Types

  /** A row of the results fixture, with the fixture's own key names. */
  datatype RawRow = RawRow(
    id: string,
    model_id: string,
    organ: string,
    task_name: string,
    data_type: string,
    metrics: string,
    rank_mean: real,
    rank: int)

  /** `id.slice(0, -2)`: drop the last two characters; nothing is left of a shorter id. */
  function TaskIdOf(id: string): (r: string)
    ensures |id| >= 2 ==> |r| == |id| - 2 && id == r + id[|id| - 2..]
    ensures |id| < 2 ==> r == ""
    ensures r <= id
  {
    if |id| >= 2 then id[..|id| - 2] else ""
  }

  /** The record built for one row: every field copied, `taskId` derived. */
  function ToPerformance(row: RawRow): (p: Performance)
    ensures p.id == row.id && p.modelId == row.model_id && p.organ == row.organ
    ensures p.taskName == row.task_name && p.dataType == row.data_type
    ensures p.metrics == row.metrics && p.rankMean == row.rank_mean && p.rank == row.rank
    ensures p.taskId <= p.id && p.taskId == TaskIdOf(row.id)
  {
    Performance(row.id, row.model_id, row.organ, row.task_name, row.data_type,
                TaskIdOf(row.id), row.metrics, row.rank_mean, row.rank)
  }

  /** `performanceAllData.map(...)`: one record per row, in row order. */
  function PerformanceAll(rows: seq<RawRow>): (ps: seq<Performance>)
    ensures |ps| == |rows|
    ensures forall i :: 0 <= i < |rows| ==> ps[i] == ToPerformance(rows[i])
  {
    seq(|rows|, i requires 0 <= i < |rows| => ToPerformance(rows[i]))
  }

  /** `fetchPerformance`: the arguments are only logged; the mapped rows are returned. */
  function FetchPerformance(dataType: DataType, competition: CompetitionType, rows: seq<RawRow>): (ps: seq<Performance>)
    ensures |ps| == |rows|
    ensures forall i :: 0 <= i < |rows| ==> ps[i].id == rows[i].id && ps[i].taskId <= ps[i].id
  {
    PerformanceAll(rows)
  }

  /** Whatever data type and competition are asked for, the same list comes back. */
  lemma FetchPerformanceIgnoresArguments(d1: DataType, c1: CompetitionType, d2: DataType, c2: CompetitionType, rows: seq<RawRow>)
    ensures FetchPerformance(d1, c1, rows) == FetchPerformance(d2, c2, rows)
  {
  }
}
