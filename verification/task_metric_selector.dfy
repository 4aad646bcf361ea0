/**
 * src/components/metrics/MetricSelector.tsx: the radio list of metrics for one task,
 * or for all filtered tasks, with each metric name shown word-capitalised.
 */
module TaskMetricSelector {
  import opened Collections
  import opened Text
  import opened Types
  import EvaluationContext
  import MetricSelector

  // ---------------------------------------------------------------------------------
  // availableMetrics

  /**
   * With a non-empty `selectedTaskId`, the metrics of the first task with that id, or none
   * for an unknown id; otherwise every metric of the filtered tasks once, first seen first.
   */
  function AvailableMetricsFor(selectedTaskId: Option<string>, tasks: seq<Task>, filteredTasks: seq<Task>): seq<string>
  {
    if selectedTaskId.Some? && |selectedTaskId.value| > 0 then
      match EvaluationContext.GetTaskById(tasks, selectedTaskId.value)
      case Some(task) => task.evaluationMetrics
      case None => []
    else Distinct(MetricsOf(filteredTasks))
  }

  /** The memoised computation; the loop over the filtered tasks is the same Set-filling loop as the check-box list's. */
  method AvailableMetrics(selectedTaskId: Option<string>, tasks: seq<Task>, filteredTasks: seq<Task>)
    returns (metrics: seq<string>)
    ensures metrics == AvailableMetricsFor(selectedTaskId, tasks, filteredTasks)
  {
    if selectedTaskId.Some? && |selectedTaskId.value| > 0 {
      var task := EvaluationContext.GetTaskById(tasks, selectedTaskId.value);
      return if task.Some? then task.value.evaluationMetrics else [];
    }
    metrics := MetricSelector.CollectMetrics(filteredTasks);
  }

  lemma AvailableMetricsCases(selectedTaskId: Option<string>, tasks: seq<Task>, filteredTasks: seq<Task>)
    ensures var r := AvailableMetricsFor(selectedTaskId, tasks, filteredTasks);
      && (selectedTaskId.Some? && |selectedTaskId.value| > 0 ==>
            if selectedTaskId.value in TaskIds(tasks)
            then r == tasks[IndexOf(TaskIds(tasks), selectedTaskId.value)].evaluationMetrics
            else r == [])
      && (!(selectedTaskId.Some? && |selectedTaskId.value| > 0) ==>
            && NoDup(r)
            && forall m :: m in r <==> exists t :: t in filteredTasks && m in t.evaluationMetrics)
  {
  }

  // ---------------------------------------------------------------------------------
  // formatMetricName

  /** `word.charAt(0).toUpperCase() + word.slice(1)`, with ASCII upper-casing. */
  function Capitalize(word: string): (r: string)
    ensures |r| == |word|
    ensures word != [] ==> r[0] == UpperChar(word[0]) && r[1..] == word[1..]
  {
    if word == [] then [] else [UpperChar(word[0])] + word[1..]
  }

  function CapitalizeAll(words: seq<string>): (r: seq<string>)
    ensures |r| == |words| && forall i :: 0 <= i < |words| ==> r[i] == Capitalize(words[i])
  {
    seq(|words|, i requires 0 <= i < |words| => Capitalize(words[i]))
  }

  /** `metric.split('_').map(capitalise).join(' ')`. */
  function FormatMetricName(metric: string): string
  {
    Join(CapitalizeAll(Split(metric, '_')), ' ')
  }

  /** What `formatMetricName` puts at position `i`: a space, an upper-cased word start, or the character. */
  function FormattedChar(s: string, i: nat): char
    requires i < |s|
  {
    if s[i] == '_' then ' '
    else if i == 0 || s[i - 1] == '_' then UpperChar(s[i])
    else s[i]
  }

  /**
   * The formatted name has the length of the metric; every underscore becomes a space and
   * only the first character of each word is upper-cased.
   */
  lemma {:induction false} FormatMetricNameChars(s: string)
    ensures |FormatMetricName(s)| == |s|
    ensures forall i :: 0 <= i < |s| ==> FormatMetricName(s)[i] == FormattedChar(s, i)
    decreases |s|
  {
    if '_' !in s {
      assert Split(s, '_') == [s];
      CapitalizeChars(s);
    } else {
      var k := IndexOf(s, '_');
      var w, rest := s[..k], s[k + 1..];
      FormatMetricNameUnfold(s, k);
      FormatMetricNameChars(rest);
      CapitalizeChars(w);
      var r := FormatMetricName(s);
      forall i | 0 <= i < |s| ensures r[i] == FormattedChar(s, i) {
        if i < k {
          FormattedCharPrefix(s, k, i);
        } else if i > k {
          FormattedCharSuffix(s, k, i);
        }
      }
    }
  }

  /** A word without underscores: only its first character is upper-cased. */
  lemma CapitalizeChars(w: string)
    requires '_' !in w
    ensures forall i :: 0 <= i < |w| ==> Capitalize(w)[i] == FormattedChar(w, i)
  {
    forall i | 0 <= i < |w| ensures Capitalize(w)[i] == FormattedChar(w, i) {
      assert w[i] in w;
      if i > 0 {
        assert w[i - 1] in w;
        assert Capitalize(w)[i] == w[1..][i - 1];
      }
    }
  }

  lemma FormattedCharPrefix(s: string, n: nat, i: nat)
    requires i < n <= |s|
    ensures FormattedChar(s[..n], i) == FormattedChar(s, i)
  {
  }

  lemma FormattedCharSuffix(s: string, k: nat, i: nat)
    requires k < i < |s| && s[k] == '_'
    ensures FormattedChar(s[k + 1..], i - k - 1) == FormattedChar(s, i)
  {
  }

  /** Up to the first underscore, the first word capitalised, a space, and the rest formatted. */
  lemma FormatMetricNameUnfold(s: string, k: nat)
    requires k < |s| && s[k] == '_' && '_' !in s[..k]
    ensures FormatMetricName(s) == Capitalize(s[..k]) + [' '] + FormatMetricName(s[k + 1..])
  {
    IndexOfUnique(s, '_', k);
    var w, rest := s[..k], s[k + 1..];
    SplitUnfold(s, '_');
    FormatWordsCons(w, Split(rest, '_'));
  }

  /** Formatting a first word followed by more words. */
  lemma FormatWordsCons(w: string, ws: seq<string>)
    requires ws != []
    ensures Join(CapitalizeAll([w] + ws), ' ') == Capitalize(w) + [' '] + Join(CapitalizeAll(ws), ' ')
  {
    CapitalizeAllCons(w, ws);
    JoinCons(Capitalize(w), CapitalizeAll(ws), ' ');
  }

  lemma CapitalizeAllCons(w: string, ws: seq<string>)
    ensures CapitalizeAll([w] + ws) == [Capitalize(w)] + CapitalizeAll(ws)
  {
  }

  /** The result holds no underscore, and a name without one only gets its first character upper-cased. */
  lemma FormatMetricNameSimple(s: string)
    ensures '_' !in FormatMetricName(s)
    ensures '_' !in s ==> FormatMetricName(s) == Capitalize(s)
    ensures s == [] ==> FormatMetricName(s) == []
  {
    FormatMetricNameChars(s);
    var r := FormatMetricName(s);
    forall i | 0 <= i < |r| ensures r[i] != '_' {
      assert r[i] == FormattedChar(s, i);
    }
    if '_' !in s {
      assert Split(s, '_') == [s];
    }
  }

  // ---------------------------------------------------------------------------------
  // The radio list

  datatype RadioItem = RadioItem(value: string, caption: string)

  /** "No metrics available", or one radio item per metric with its formatted name. */
  datatype MetricChoices = NoMetricsAvailable | Radios(items: seq<RadioItem>)

  function Choices(metrics: seq<string>): (r: MetricChoices)
    ensures r.NoMetricsAvailable? <==> metrics == []
    ensures r.Radios? ==> |r.items| == |metrics|
    ensures r.Radios? ==>
      forall i :: 0 <= i < |metrics| ==> r.items[i] == RadioItem(metrics[i], FormatMetricName(metrics[i]))
  {
    if |metrics| == 0 then NoMetricsAvailable
    else Radios(seq(|metrics|, i requires 0 <= i < |metrics| => RadioItem(metrics[i], FormatMetricName(metrics[i]))))
  }
}
