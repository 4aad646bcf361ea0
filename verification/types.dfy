/**
 * The records the dashboard works on (src/types/index.ts) and the extended reals
 * that stand for JavaScript numbers with the `Infinity` / `-Infinity` sentinels.
 */
module Types {
  import opened Collections

  datatype Organ = Organ(id: string, name: string, description: string)

  datatype TaskInfo = TaskInfo(
    description: string,
    referenceUrl: Option<string>,
    referenceTitle: Option<string>)

  /** `description` and `info` are optional in the interface. */
  datatype Task = Task(
    id: string,
    name: string,
    organ: string,
    taskType: string,
    cohort: string,
    evaluationMetrics: seq<string>,
    description: Option<string>,
    info: Option<TaskInfo>)

  datatype Model = Model(
    name: string,
    citation: string,
    slides: string,
    patches: string,
    parameters: string,
    architecture: string,
    pretrainingStrategy: string,
    pretrainingDataSource: string,
    stain: string,
    releasedDate: string,
    publication: string)

  /** One (task, model) result row; `rankMean` is the score, `rank` the raw rank. */
  datatype Performance = Performance(
    id: string,
    modelId: string,
    organ: string,
    taskName: string,
    dataType: string,
    taskId: string,
    metrics: string,
    rankMean: real,
    rank: int)

  datatype DataType = AllData
  datatype CompetitionType = Segment

  /** A JavaScript number that is finite or one of the two infinities. */
  datatype ExtReal = NegInf | Fin(value: real) | PosInf

  /** `a <= b` on such numbers. */
  predicate ExtLe(a: ExtReal, b: ExtReal)
  {
    a == NegInf || b == PosInf || (a.Fin? && b.Fin? && a.value <= b.value)
  }

  lemma ExtLeTotalPreorder()
    ensures TotalPreorder(ExtLe)
    ensures forall a, b :: ExtLe(a, b) && ExtLe(b, a) ==> a == b
  {
  }

  function TaskIds(ts: seq<Task>): (r: seq<string>)
    ensures |r| == |ts| && forall i :: 0 <= i < |ts| ==> r[i] == ts[i].id
  {
    seq(|ts|, i requires 0 <= i < |ts| => ts[i].id)
  }

  function ModelNames(ms: seq<Model>): (r: seq<string>)
    ensures |r| == |ms| && forall i :: 0 <= i < |ms| ==> r[i] == ms[i].name
  {
    seq(|ms|, i requires 0 <= i < |ms| => ms[i].name)
  }

  /** `tasks.flatMap((task) => task.evaluationMetrics)`. */
  function MetricsOf(ts: seq<Task>): (r: seq<string>)
    ensures forall m :: m in r <==> exists t :: t in ts && m in t.evaluationMetrics
  {
    if ts == [] then []
    else
      var init := ts[..|ts| - 1];
      assert ts == init + [ts[|ts| - 1]];
      MetricsOf(init) + ts[|ts| - 1].evaluationMetrics
  }

  lemma MetricsOfSnoc(ts: seq<Task>, t: Task)
    ensures MetricsOf(ts + [t]) == MetricsOf(ts) + t.evaluationMetrics
  {
    assert (ts + [t])[..|ts|] == ts;
  }
}
