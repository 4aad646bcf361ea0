/**
 * src/components/charts/OverallRankBarChart.tsx, second stage of `chartOptions`: the
 * look-up map from (task, model) to the performance row, the per-task list of raw
 * ranks (`Infinity` for a model without a row), and the tie-aware "standard
 * competition" ranks (1, 1, 3) given to the models of one task.
 */
module OverallRankRanking {
  import opened Collections
  import opened Types
  import OverallRankTasks

  /** `performance?.rank ?? Infinity`: `Unranked` stands for `Infinity`. */
  datatype RawRank = Ranked(rank: int) | Unranked

  /** `a - b < 0`; `Infinity - Infinity` is NaN, which is not below zero. */
  predicate RawLess(a: RawRank, b: RawRank)
  {
    a.Ranked? && (b.Unranked? || a.rank < b.rank)
  }

  /** `a - b <= 0` as the sort sees it: a NaN result counts as equal. */
  predicate RawLe(a: RawRank, b: RawRank)
  {
    !RawLess(b, a)
  }

  lemma RawLeTotalPreorder()
    ensures TotalPreorder(RawLe)
    ensures forall a, b :: RawLe(a, b) && a != b ==> RawLess(a, b)
  {
  }

  /** An element of the per-task `ranks` list. */
  datatype RankEntry = RankEntry(modelName: string, rank: RawRank)

  // ---------------------------------------------------------------------------------
  // The performance look-up map

  /** The key the source builds: `${taskId}-${modelId}`. */
  function StringKey(taskId: string, modelId: string): (k: string)
    ensures |k| == |taskId| + 1 + |modelId|
  {
    taskId + "-" + modelId
  }

  /** `performanceMap` as written: one `set` per row under the string key, later rows winning. */
  function StringKeyedMap(ps: seq<Performance>): map<string, Performance>
  {
    if ps == [] then map[]
    else
      var p := ps[|ps| - 1];
      StringKeyedMap(ps[..|ps| - 1])[StringKey(p.taskId, p.modelId) := p]
  }

  /** The map keyed by the (task id, model id) pair itself, which the look-ups mean. */
  function PairKeyedMap(ps: seq<Performance>): map<(string, string), Performance>
  {
    if ps == [] then map[]
    else
      var p := ps[|ps| - 1];
      PairKeyedMap(ps[..|ps| - 1])[(p.taskId, p.modelId) := p]
  }

  lemma PairKeyedMapSnoc(ps: seq<Performance>, p: Performance)
    ensures PairKeyedMap(ps + [p]) == PairKeyedMap(ps)[(p.taskId, p.modelId) := p]
  {
    assert (ps + [p])[..|ps|] == ps;
  }

  /**
   * Each pair that occurs has an entry, and that entry is the last row of exactly that
   * task and that model.
   */
  lemma {:induction false} PairKeyedMapContents(ps: seq<Performance>)
    ensures PairKeys(ps, PairKeyedMap(ps))
    ensures LastRows(ps, PairKeyedMap(ps))
  {
    if ps != [] {
      var init, p := ps[..|ps| - 1], ps[|ps| - 1];
      assert ps == init + [p];
      PairKeyedMapContents(init);
      PairKeyedMapSnoc(init, p);
      PairKeysStep(init, p, PairKeyedMap(init));
      LastRowsStep(init, p, PairKeyedMap(init));
    }
  }

  /** The keys of `m` are the pairs that occur in `ps`. */
  ghost predicate PairKeys(ps: seq<Performance>, m: map<(string, string), Performance>)
  {
    forall k :: k in m <==> exists p :: p in ps && (p.taskId, p.modelId) == k
  }

  /** Every entry of `m` is the last row of `ps` with its pair. */
  ghost predicate LastRows(ps: seq<Performance>, m: map<(string, string), Performance>)
  {
    forall k :: k in m ==>
      exists i :: 0 <= i < |ps| && ps[i] == m[k] && (ps[i].taskId, ps[i].modelId) == k &&
                  forall j :: i < j < |ps| ==> (ps[j].taskId, ps[j].modelId) != k
  }

  lemma PairKeysStep(init: seq<Performance>, p: Performance, m: map<(string, string), Performance>)
    requires PairKeys(init, m)
    ensures PairKeys(init + [p], m[(p.taskId, p.modelId) := p])
  {
    var ps, m' := init + [p], m[(p.taskId, p.modelId) := p];
    forall k ensures k in m' <==> exists q :: q in ps && (q.taskId, q.modelId) == k {
      if k in m' && k != (p.taskId, p.modelId) {
        var q :| q in init && (q.taskId, q.modelId) == k;
        assert q in ps;
      }
      if k == (p.taskId, p.modelId) {
        assert p in ps;
      }
    }
  }

  lemma LastRowsStep(init: seq<Performance>, p: Performance, m: map<(string, string), Performance>)
    requires LastRows(init, m)
    ensures LastRows(init + [p], m[(p.taskId, p.modelId) := p])
  {
    var ps, m' := init + [p], m[(p.taskId, p.modelId) := p];
    forall k | k in m'
      ensures exists i :: 0 <= i < |ps| && ps[i] == m'[k] && (ps[i].taskId, ps[i].modelId) == k &&
                          forall j :: i < j < |ps| ==> (ps[j].taskId, ps[j].modelId) != k
    {
      if k == (p.taskId, p.modelId) {
        assert ps[|ps| - 1] == m'[k];
      } else {
        var i :| 0 <= i < |init| && init[i] == m[k] && (init[i].taskId, init[i].modelId) == k &&
                 forall j :: i < j < |init| ==> (init[j].taskId, init[j].modelId) != k;
        assert ps[i] == m'[k];
      }
    }
  }

  /** The `forEach` that fills `performanceMap`, keyed by the pair. */
  method BuildPerformanceMap(ps: seq<Performance>) returns (pm: map<(string, string), Performance>)
    ensures pm == PairKeyedMap(ps)
    ensures forall k :: k in pm <==> exists p :: p in ps && (p.taskId, p.modelId) == k
  {
    pm := map[];
    for i := 0 to |ps|
      invariant pm == PairKeyedMap(ps[..i])
    {
      assert ps[..i + 1] == ps[..i] + [ps[i]];
      PairKeyedMapSnoc(ps[..i], ps[i]);
      pm := pm[(ps[i].taskId, ps[i].modelId) := ps[i]];
    }
    assert ps[..|ps|] == ps;
    PairKeyedMapContents(ps);
  }

  /**
   * With the string key, task "a-b" with model "c" and task "a" with model "b-c" share
   * the key "a-b-c": the look-up for the first pair returns the second pair's row, while
   * the pair-keyed map returns the right one.
   */
  lemma StringKeyCollision()
    ensures var p1 := Performance("a-b11", "c", "", "", "", "a-b", "", 0.5, 1);
            var p2 := Performance("a11", "b-c", "", "", "", "a", "", 0.5, 7);
            && StringKey("a-b", "c") == StringKey("a", "b-c")
            && StringKeyedMap([p1, p2])[StringKey("a-b", "c")] == p2
            && StringKeyedMap([p1, p2])[StringKey("a-b", "c")].taskId != "a-b"
            && PairKeyedMap([p1, p2])[("a-b", "c")] == p1
  {
    var p1 := Performance("a-b11", "c", "", "", "", "a-b", "", 0.5, 1);
    var p2 := Performance("a11", "b-c", "", "", "", "a", "", 0.5, 7);
    assert [p1, p2][..1] == [p1];
    assert [p1][..0] == [];
    assert StringKey("a-b", "c") == "a-b-c";
    assert StringKey("a", "b-c") == "a-b-c";
  }

  /** No row's task id contains '-', the separator of the string key. */
  predicate DashFreeTaskIds(ps: seq<Performance>)
  {
    forall p :: p in ps ==> '-' !in p.taskId
  }

  /** In the key of a task id without '-', the first '-' is the separator. */
  lemma DashIndex(taskId: string, modelId: string)
    requires '-' !in taskId
    ensures IndexOf(StringKey(taskId, modelId), '-') == |taskId|
  {
    var k := StringKey(taskId, modelId);
    assert k[..|taskId|] == taskId;
    IndexOfUnique(k, '-', |taskId|);
  }

  /** For task ids without '-', two pairs share a string key only when they are the same pair. */
  lemma StringKeyInjective(t1: string, m1: string, t2: string, m2: string)
    requires '-' !in t1 && '-' !in t2
    ensures StringKey(t1, m1) == StringKey(t2, m2) <==> t1 == t2 && m1 == m2
  {
    var k1, k2 := StringKey(t1, m1), StringKey(t2, m2);
    DashIndex(t1, m1);
    DashIndex(t2, m2);
    assert k1[..|t1|] == t1 && k1[|t1| + 1..] == m1;
    assert k2[..|t2|] == t2 && k2[|t2| + 1..] == m2;
  }

  /**
   * When no task id contains '-', the string-keyed map has an entry for a pair's key
   * exactly when the pair-keyed map has one for the pair, and it is the same row.
   */
  lemma {:induction false} StringKeyedMapAgrees(ps: seq<Performance>, taskId: string, modelId: string)
    requires DashFreeTaskIds(ps) && '-' !in taskId
    ensures StringKey(taskId, modelId) in StringKeyedMap(ps) <==> (taskId, modelId) in PairKeyedMap(ps)
    ensures (taskId, modelId) in PairKeyedMap(ps) ==>
      StringKeyedMap(ps)[StringKey(taskId, modelId)] == PairKeyedMap(ps)[(taskId, modelId)]
  {
    if ps != [] {
      var init, p := ps[..|ps| - 1], ps[|ps| - 1];
      assert p in ps;
      assert DashFreeTaskIds(init) by {
        forall q | q in init ensures '-' !in q.taskId {
          assert q in ps;
        }
      }
      StringKeyedMapAgrees(init, taskId, modelId);
      StringKeyInjective(taskId, modelId, p.taskId, p.modelId);
    }
  }

  // ---------------------------------------------------------------------------------
  // Raw ranks per task

  /** The raw rank of a model on a task: its row's `rank`, or `Infinity` without a row. */
  function RawRankOf(pm: map<(string, string), Performance>, taskId: string, modelName: string): RawRank
  {
    if (taskId, modelName) in pm then Ranked(pm[(taskId, modelName)].rank) else Unranked
  }

  /** The look-up as written: `performanceMap.get(`${task.id}-${model.name}`)?.rank ?? Infinity`. */
  function StringRawRankOf(sm: map<string, Performance>, taskId: string, modelName: string): RawRank
  {
    var k := StringKey(taskId, modelName);
    if k in sm then Ranked(sm[k].rank) else Unranked
  }

  /** When no task id contains '-', the look-up as written gives the rank the pair-keyed map gives. */
  lemma StringRawRankAgrees(ps: seq<Performance>, taskId: string, modelName: string)
    requires DashFreeTaskIds(ps) && '-' !in taskId
    ensures StringRawRankOf(StringKeyedMap(ps), taskId, modelName) == RawRankOf(PairKeyedMap(ps), taskId, modelName)
  {
    StringKeyedMapAgrees(ps, taskId, modelName);
  }

  /** `filteredModels.map(...)`: one entry per filtered model, in model order. */
  function RankEntries(models: seq<Model>, pm: map<(string, string), Performance>, taskId: string): (r: seq<RankEntry>)
    ensures |r| == |models|
    ensures forall i :: 0 <= i < |models| ==>
      r[i] == RankEntry(models[i].name, RawRankOf(pm, taskId, models[i].name))
  {
    seq(|models|, i requires 0 <= i < |models| => RankEntry(models[i].name, RawRankOf(pm, taskId, models[i].name)))
  }

  /** Entries with the same model name carry the same raw rank. */
  predicate Consistent(entries: seq<RankEntry>)
  {
    forall i, j :: 0 <= i < |entries| && 0 <= j < |entries| && entries[i].modelName == entries[j].modelName ==>
      entries[i].rank == entries[j].rank
  }

  /** The raw rank is looked up by name, so the entries of a task are consistent. */
  lemma RankEntriesConsistent(models: seq<Model>, pm: map<(string, string), Performance>, taskId: string)
    ensures Consistent(RankEntries(models, pm, taskId))
  {
  }

  /** `if (ranks.some((r) => r.rank !== Infinity)) ranks.sort((a, b) => a.rank - b.rank)`. */
  function SortRanks(entries: seq<RankEntry>): (r: seq<RankEntry>)
    ensures multiset(r) == multiset(entries)
    ensures (forall e :: e in entries ==> e.rank.Unranked?) ==> r == entries
  {
    if exists e :: e in entries && e.rank.Ranked? then
      SortBy(entries, (a: RankEntry, b: RankEntry) => RawLe(a.rank, b.rank))
    else entries
  }

  /** The list stored in `taskRanks` for a task. */
  function TaskRankList(models: seq<Model>, pm: map<(string, string), Performance>, taskId: string): (r: seq<RankEntry>)
    ensures multiset(r) == multiset(RankEntries(models, pm, taskId))
    ensures |r| == |models|
  {
    SortRanks(RankEntries(models, pm, taskId))
  }

  /** Rearranging the entries keeps them consistent. */
  lemma ConsistentPermutation(s: seq<RankEntry>, t: seq<RankEntry>)
    requires multiset(s) == multiset(t) && Consistent(s)
    ensures Consistent(t)
  {
    forall i, j | 0 <= i < |t| && 0 <= j < |t| && t[i].modelName == t[j].modelName
      ensures t[i].rank == t[j].rank
    {
      assert t[i] in multiset(s) && t[j] in multiset(s);
      var i' :| 0 <= i' < |s| && s[i'] == t[i];
      var j' :| 0 <= j' < |s| && s[j'] == t[j];
    }
  }

  /** The `forEach` over the kept tasks that fills `taskRanks`. */
  method BuildTaskRanks(tasks: seq<OverallRankTasks.TaskRow>, models: seq<Model>, pm: map<(string, string), Performance>)
    returns (taskRanks: map<string, seq<RankEntry>>)
    ensures forall id :: id in taskRanks <==> exists t :: t in tasks && t.id == id
    ensures forall id :: id in taskRanks ==> taskRanks[id] == TaskRankList(models, pm, id)
  {
    taskRanks := map[];
    for i := 0 to |tasks|
      invariant forall id :: id in taskRanks <==> exists t :: t in tasks[..i] && t.id == id
      invariant forall id :: id in taskRanks ==> taskRanks[id] == TaskRankList(models, pm, id)
    {
      assert tasks[..i + 1] == tasks[..i] + [tasks[i]];
      taskRanks := taskRanks[tasks[i].id := TaskRankList(models, pm, tasks[i].id)];
    }
    assert tasks[..|tasks|] == tasks;
  }

  // ---------------------------------------------------------------------------------
  // Counting entries

  /** How many entries have a raw rank strictly below `raw`. */
  function CountBelow(s: seq<RankEntry>, raw: RawRank): (n: nat)
    ensures n <= |s|
  {
    if s == [] then 0
    else CountBelow(s[..|s| - 1], raw) + (if RawLess(s[|s| - 1].rank, raw) then 1 else 0)
  }

  /** How many entries have raw rank `raw`. */
  function CountEq(s: seq<RankEntry>, raw: RawRank): (n: nat)
    ensures n <= |s|
  {
    if s == [] then 0
    else CountEq(s[..|s| - 1], raw) + (if s[|s| - 1].rank == raw then 1 else 0)
  }

  /** How many entries have a raw rank among `ks`. */
  function CountIn(s: seq<RankEntry>, ks: seq<RawRank>): (n: nat)
    ensures n <= |s|
  {
    if s == [] then 0
    else CountIn(s[..|s| - 1], ks) + (if s[|s| - 1].rank in ks then 1 else 0)
  }

  /**
   * Standard competition ranking: one more than the number of entries with a strictly
   * smaller raw rank.
   */
  function CompetitionRank(s: seq<RankEntry>, raw: RawRank): (r: int)
    ensures 1 <= r <= |s| + 1
  {
    1 + CountBelow(s, raw)
  }

  lemma {:induction false} CountBelowAppend(a: seq<RankEntry>, b: seq<RankEntry>, raw: RawRank)
    ensures CountBelow(a + b, raw) == CountBelow(a, raw) + CountBelow(b, raw)
    decreases |b|
  {
    if b != [] {
      var b', x := b[..|b| - 1], b[|b| - 1];
      assert (a + b)[..|a + b| - 1] == a + b';
      assert (a + b)[|a + b| - 1] == x;
      CountBelowAppend(a, b', raw);
    } else {
      assert a + b == a;
    }
  }

  /** Taking one entry out of the middle removes its contribution. */
  lemma CountBelowSplit(pre: seq<RankEntry>, x: RankEntry, post: seq<RankEntry>, raw: RawRank)
    ensures CountBelow(pre + [x] + post, raw) ==
            CountBelow(pre + post, raw) + (if RawLess(x.rank, raw) then 1 else 0)
  {
    CountBelowAppend(pre + [x], post, raw);
    CountBelowAppend(pre, [x], raw);
    CountBelowAppend(pre, post, raw);
    assert [x][..0] == [];
  }

  /** The count depends only on the multiset of entries. */
  lemma {:induction false} CountBelowPermutation(s: seq<RankEntry>, t: seq<RankEntry>, raw: RawRank)
    requires multiset(s) == multiset(t)
    ensures CountBelow(s, raw) == CountBelow(t, raw)
    decreases |s|
  {
    if s == [] {
      assert |t| == |multiset(t)| == 0;
    } else {
      var s', x := s[..|s| - 1], s[|s| - 1];
      assert x in multiset(s);
      var i :| 0 <= i < |t| && t[i] == x;
      var pre, post := t[..i], t[i + 1..];
      assert t == pre + [x] + post;
      PermutationWithout(s, t, i);
      CountBelowPermutation(s', pre + post, raw);
      CountBelowSplit(pre, x, post, raw);
    }
  }

  /** An entry is never strictly below itself, so a present raw rank has competition rank at most `|s|`. */
  lemma {:induction false} CountBelowOfPresent(s: seq<RankEntry>, raw: RawRank)
    requires exists e :: e in s && e.rank == raw
    ensures CountBelow(s, raw) < |s|
  {
    var init, last := s[..|s| - 1], s[|s| - 1];
    assert s == init + [last];
    if last.rank != raw {
      var e :| e in s && e.rank == raw;
      assert e in init;
      CountBelowOfPresent(init, raw);
    }
  }

  lemma {:induction false} CountInNone(s: seq<RankEntry>)
    ensures CountIn(s, []) == 0
  {
    if s != [] {
      CountInNone(s[..|s| - 1]);
    }
  }

  /** Adding a new key adds the entries carrying it. */
  lemma {:induction false} CountInSnoc(s: seq<RankEntry>, ks: seq<RawRank>, k: RawRank)
    requires k !in ks
    ensures CountIn(s, ks + [k]) == CountIn(s, ks) + CountEq(s, k)
  {
    if s != [] {
      CountInSnoc(s[..|s| - 1], ks, k);
    }
  }

  /** Counting "strictly below" is counting "among `ks`" when the two agree on every entry. */
  lemma {:induction false} CountBelowIsCountIn(s: seq<RankEntry>, raw: RawRank, ks: seq<RawRank>)
    requires forall e :: e in s ==> (RawLess(e.rank, raw) <==> e.rank in ks)
    ensures CountBelow(s, raw) == CountIn(s, ks)
  {
    if s != [] {
      var init := s[..|s| - 1];
      assert forall e :: e in init ==> e in s;
      CountBelowIsCountIn(init, raw, ks);
    }
  }

  // ---------------------------------------------------------------------------------
  // Rank groups

  function EntryRanks(s: seq<RankEntry>): (r: seq<RawRank>)
    ensures |r| == |s| && forall i :: 0 <= i < |s| ==> r[i] == s[i].rank
  {
    seq(|s|, i requires 0 <= i < |s| => s[i].rank)
  }

  /** The names pushed into `rankGroups.get(k)`: those of the entries with raw rank `k`, in order. */
  function GroupOf(s: seq<RankEntry>, k: RawRank): (g: seq<string>)
    ensures |g| == CountEq(s, k)
  {
    if s == [] then []
    else GroupOf(s[..|s| - 1], k) + (if s[|s| - 1].rank == k then [s[|s| - 1].modelName] else [])
  }

  /** A group holds the names of exactly the entries with its raw rank. */
  lemma {:induction false} GroupOfMembers(s: seq<RankEntry>, k: RawRank, n: string)
    ensures n in GroupOf(s, k) <==> exists e :: e in s && e.rank == k && e.modelName == n
  {
    if s != [] {
      var init, last := s[..|s| - 1], s[|s| - 1];
      assert s == init + [last];
      GroupOfMembers(init, k, n);
    }
  }

  lemma GroupOfSnoc(s: seq<RankEntry>, e: RankEntry)
    ensures forall k :: GroupOf(s + [e], k) == GroupOf(s, k) + (if e.rank == k then [e.modelName] else [])
  {
    assert (s + [e])[..|s|] == s;
  }

  /** A raw rank that no entry carries has an empty group. */
  lemma {:induction false} GroupOfAbsent(s: seq<RankEntry>, k: RawRank)
    requires k !in EntryRanks(s)
    ensures GroupOf(s, k) == []
  {
    if s != [] {
      var init := s[..|s| - 1];
      assert EntryRanks(s) == EntryRanks(init) + [s[|s| - 1].rank];
      GroupOfAbsent(init, k);
    }
  }

  /** Strictly increasing raw ranks. */
  predicate StrictlyAscending(ks: seq<RawRank>)
  {
    forall i, j :: 0 <= i < j < |ks| ==> RawLess(ks[i], ks[j])
  }

  /** In a strictly ascending list, the keys below the `g`-th are exactly the earlier ones. */
  lemma BelowMeansEarlier(ks: seq<RawRank>, g: nat, r: RawRank)
    requires StrictlyAscending(ks) && g < |ks| && r in ks
    ensures RawLess(r, ks[g]) <==> r in ks[..g]
  {
    var h :| 0 <= h < |ks| && ks[h] == r;
    if h < g {
      assert ks[..g][h] == r;
    } else {
      assert forall i :: 0 <= i < g ==> RawLess(ks[i], r);
    }
  }

  /** The keys and groups after all entries up to `prefix` have been pushed. */
  ghost predicate GroupsOf(prefix: seq<RankEntry>, keys: seq<RawRank>, groups: map<RawRank, seq<string>>)
  {
    && keys == Distinct(EntryRanks(prefix))
    && (forall k :: k in groups <==> k in keys)
    && (forall k :: k in groups ==> groups[k] == GroupOf(prefix, k))
  }

  /** One step of the grouping `forEach`. */
  lemma GroupStep(prefix: seq<RankEntry>, e: RankEntry, keys: seq<RawRank>, groups: map<RawRank, seq<string>>)
    requires GroupsOf(prefix, keys, groups)
    ensures var g0 := if e.rank in groups then groups else groups[e.rank := []];
            var keys' := if e.rank in groups then keys else keys + [e.rank];
            GroupsOf(prefix + [e], keys', g0[e.rank := g0[e.rank] + [e.modelName]])
  {
    GroupStepKeys(prefix, e, keys);
    GroupStepDomain(keys, groups, e);
    GroupStepValues(prefix, e, groups);
  }

  lemma GroupStepKeys(prefix: seq<RankEntry>, e: RankEntry, keys: seq<RawRank>)
    requires keys == Distinct(EntryRanks(prefix))
    ensures Distinct(EntryRanks(prefix + [e])) == if e.rank in keys then keys else keys + [e.rank]
  {
    assert EntryRanks(prefix + [e]) == EntryRanks(prefix) + [e.rank];
    DistinctSnoc(EntryRanks(prefix), e.rank);
  }

  lemma GroupStepDomain(keys: seq<RawRank>, groups: map<RawRank, seq<string>>, e: RankEntry)
    requires forall k :: k in groups <==> k in keys
    ensures var g0 := if e.rank in groups then groups else groups[e.rank := []];
            var keys' := if e.rank in groups then keys else keys + [e.rank];
            forall x :: x in g0[e.rank := g0[e.rank] + [e.modelName]] <==> x in keys'
  {
  }

  lemma GroupStepValues(prefix: seq<RankEntry>, e: RankEntry, groups: map<RawRank, seq<string>>)
    requires forall k :: k in groups <==> k in EntryRanks(prefix)
    requires forall k :: k in groups ==> groups[k] == GroupOf(prefix, k)
    ensures var g0 := if e.rank in groups then groups else groups[e.rank := []];
            var g1 := g0[e.rank := g0[e.rank] + [e.modelName]];
            forall x :: x in g1 ==> g1[x] == GroupOf(prefix + [e], x)
  {
    var k := e.rank;
    var g0 := if k in groups then groups else groups[k := []];
    var g1 := g0[k := g0[k] + [e.modelName]];
    GroupOfSnoc(prefix, e);
    if k !in groups {
      GroupOfAbsent(prefix, k);
    }
    forall x | x in g1 ensures g1[x] == GroupOf(prefix + [e], x) {
      if x != k {
        assert g1[x] == groups[x];
      }
    }
  }

  /** `rankGroups`: the distinct raw ranks in first-occurrence order and each one's names. */
  method GroupByRank(entries: seq<RankEntry>) returns (keys: seq<RawRank>, groups: map<RawRank, seq<string>>)
    ensures keys == Distinct(EntryRanks(entries))
    ensures forall k :: k in groups <==> k in keys
    ensures forall k :: k in groups ==> groups[k] == GroupOf(entries, k)
  {
    keys := [];
    groups := map[];
    for i := 0 to |entries|
      invariant GroupsOf(entries[..i], keys, groups)
    {
      var e := entries[i];
      assert entries[..i + 1] == entries[..i] + [e];
      GroupStep(entries[..i], e, keys, groups);
      if e.rank !in groups {
        keys := keys + [e.rank];
        groups := groups[e.rank := []];
      }
      groups := groups[e.rank := groups[e.rank] + [e.modelName]];
    }
    assert entries[..|entries|] == entries;
  }

  /** `[...rankGroups.entries()].sort(([a], [b]) => a - b)`, on the keys: strictly ascending, covering every entry. */
  lemma SortedKeys(entries: seq<RankEntry>, keys: seq<RawRank>)
    requires keys == Distinct(EntryRanks(entries))
    ensures StrictlyAscending(SortBy(keys, RawLe))
    ensures forall k :: k in SortBy(keys, RawLe) <==> k in keys
    ensures forall e :: e in entries ==> e.rank in SortBy(keys, RawLe)
  {
    SortedDistinctKeys(keys);
    forall e | e in entries ensures e.rank in EntryRanks(entries) {
      var i := IndexOf(entries, e);
      assert EntryRanks(entries)[i] == e.rank;
    }
  }

  /** Sorting distinct keys gives the same keys, strictly ascending. */
  lemma SortedDistinctKeys(keys: seq<RawRank>)
    requires NoDup(keys)
    ensures StrictlyAscending(SortBy(keys, RawLe))
    ensures forall k :: k in SortBy(keys, RawLe) <==> k in keys
  {
    var sorted := SortBy(keys, RawLe);
    RawLeTotalPreorder();
    SortBySorted(keys, RawLe);
    NoDupOfPermutation(keys, sorted);
    forall k ensures k in sorted <==> k in keys {
      assert k in sorted <==> k in multiset(sorted);
      assert k in keys <==> k in multiset(keys);
    }
  }

  /** `modelRanks'` is `modelRanks` with every name of `names` set to `rank`. */
  ghost predicate SetTo(modelRanks: map<string, int>, names: seq<string>, rank: int, modelRanks': map<string, int>)
  {
    && (forall n :: n in modelRanks' <==> n in modelRanks || n in names)
    && (forall n :: n in names ==> modelRanks'[n] == rank)
    && (forall n :: n in modelRanks && n !in names ==> modelRanks'[n] == modelRanks[n])
  }

  /** The inner `forEach`: every name of the group is set to `rank`, nothing else changes. */
  method SetGroupRank(modelRanks: map<string, int>, names: seq<string>, rank: int)
    returns (modelRanks': map<string, int>)
    ensures SetTo(modelRanks, names, rank, modelRanks')
  {
    modelRanks' := modelRanks;
    for j := 0 to |names|
      invariant SetTo(modelRanks, names[..j], rank, modelRanks')
    {
      assert names[..j + 1] == names[..j] + [names[j]];
      modelRanks' := modelRanks'[names[j] := rank];
    }
    assert names[..|names|] == names;
  }

  /** The rank the loop reaches at the `g`-th group is that group's competition rank. */
  lemma CurrentRankIsCompetitionRank(entries: seq<RankEntry>, sorted: seq<RawRank>, g: nat)
    requires StrictlyAscending(sorted) && g < |sorted|
    requires forall e :: e in entries ==> e.rank in sorted
    ensures CompetitionRank(entries, sorted[g]) == 1 + CountIn(entries, sorted[..g])
  {
    forall e | e in entries ensures RawLess(e.rank, sorted[g]) <==> e.rank in sorted[..g] {
      BelowMeansEarlier(sorted, g, e.rank);
    }
    CountBelowIsCountIn(entries, sorted[g], sorted[..g]);
  }

  /** The models of the entries whose raw rank is among `done` have their competition rank. */
  ghost predicate RanksAssigned(entries: seq<RankEntry>, done: seq<RawRank>, modelRanks: map<string, int>)
  {
    && (forall e :: e in entries && e.rank in done ==>
          e.modelName in modelRanks && modelRanks[e.modelName] == CompetitionRank(entries, e.rank))
    && (forall n :: n in modelRanks ==> exists e :: e in entries && e.modelName == n)
  }

  /** One group of the `currentRank` loop. */
  lemma AssignStep(entries: seq<RankEntry>, sorted: seq<RawRank>, g: nat,
                   modelRanks: map<string, int>, modelRanks': map<string, int>)
    requires Consistent(entries) && StrictlyAscending(sorted) && g < |sorted|
    requires RanksAssigned(entries, sorted[..g], modelRanks)
    requires SetTo(modelRanks, GroupOf(entries, sorted[g]), CompetitionRank(entries, sorted[g]), modelRanks')
    ensures RanksAssigned(entries, sorted[..g + 1], modelRanks')
  {
    var key := sorted[g];
    var names := GroupOf(entries, key);
    forall n ensures n in names <==> exists e :: e in entries && e.rank == key && e.modelName == n {
      GroupOfMembers(entries, key, n);
    }
    assert key !in sorted[..g];
    assert sorted[..g + 1] == sorted[..g] + [key];
    forall e | e in entries && e.rank in sorted[..g] ensures e.modelName !in names {
      forall e0 | e0 in entries && e0.rank == key ensures e0.modelName != e.modelName {
        var a :| 0 <= a < |entries| && entries[a] == e;
        var b :| 0 <= b < |entries| && entries[b] == e0;
      }
    }
  }

  /** One iteration of the `currentRank` loop keeps both of its invariants. */
  lemma AssignLoopStep(entries: seq<RankEntry>, sorted: seq<RawRank>, groups: map<RawRank, seq<string>>,
                       g: nat, currentRank: int, before: map<string, int>, after: map<string, int>)
    requires Consistent(entries) && StrictlyAscending(sorted) && g < |sorted|
    requires forall e :: e in entries ==> e.rank in sorted
    requires forall k :: k in sorted ==> k in groups && groups[k] == GroupOf(entries, k)
    requires currentRank == 1 + CountIn(entries, sorted[..g])
    requires RanksAssigned(entries, sorted[..g], before)
    requires SetTo(before, groups[sorted[g]], currentRank, after)
    ensures currentRank + |groups[sorted[g]]| == 1 + CountIn(entries, sorted[..g + 1])
    ensures RanksAssigned(entries, sorted[..g + 1], after)
  {
    var key := sorted[g];
    CurrentRankIsCompetitionRank(entries, sorted, g);
    AssignStep(entries, sorted, g, before, after);
    assert sorted[..g + 1] == sorted[..g] + [key];
    CountInSnoc(entries, sorted[..g], key);
  }

  /**
   * The `currentRank` loop over the groups in ascending raw-rank order: each name of a
   * group is given the current rank, which then grows by the group's size.
   */
  method AssignInOrder(entries: seq<RankEntry>, sorted: seq<RawRank>, groups: map<RawRank, seq<string>>)
    returns (modelRanks: map<string, int>)
    requires Consistent(entries) && StrictlyAscending(sorted)
    requires forall e :: e in entries ==> e.rank in sorted
    requires forall k :: k in sorted ==> k in groups && groups[k] == GroupOf(entries, k)
    ensures RanksAssigned(entries, sorted, modelRanks)
  {
    var currentRank := 1;
    modelRanks := map[];
    CountInNone(entries);
    for g := 0 to |sorted|
      invariant currentRank == 1 + CountIn(entries, sorted[..g])
      invariant RanksAssigned(entries, sorted[..g], modelRanks)
    {
      var names := groups[sorted[g]];
      ghost var before := modelRanks;
      modelRanks := SetGroupRank(modelRanks, names, currentRank);
      AssignLoopStep(entries, sorted, groups, g, currentRank, before, modelRanks);
      currentRank := currentRank + |names|;
    }
    assert sorted[..|sorted|] == sorted;
  }

  /**
   * `rankGroups` and the `currentRank` loop: every entry's model ends up with the
   * competition rank of its raw rank. The entries are built by name, so equal names
   * carry equal raw ranks.
   */
  method AssignRanks(entries: seq<RankEntry>) returns (modelRanks: map<string, int>)
    requires Consistent(entries)
    ensures forall e :: e in entries ==> e.modelName in modelRanks && modelRanks[e.modelName] == CompetitionRank(entries, e.rank)
    ensures forall n :: n in modelRanks ==> exists e :: e in entries && e.modelName == n
  {
    var keys, groups := GroupByRank(entries);
    var sorted := SortBy(keys, RawLe);
    SortedKeys(entries, keys);
    modelRanks := AssignInOrder(entries, sorted, groups);
  }

  // ---------------------------------------------------------------------------------
  // Properties of the ranking

  /** A model's rank on a task, as `modelRanks.get(model.name)` yields it. */
  function TaskRank(models: seq<Model>, pm: map<(string, string), Performance>, taskId: string, modelName: string): (r: int)
    ensures r >= 1
  {
    CompetitionRank(RankEntries(models, pm, taskId), RawRankOf(pm, taskId, modelName))
  }

  /** The sort before grouping changes no rank. */
  lemma SortedListGivesSameRanks(models: seq<Model>, pm: map<(string, string), Performance>, taskId: string, raw: RawRank)
    ensures CompetitionRank(TaskRankList(models, pm, taskId), raw) == CompetitionRank(RankEntries(models, pm, taskId), raw)
  {
    CountBelowPermutation(TaskRankList(models, pm, taskId), RankEntries(models, pm, taskId), raw);
  }

  /** Every rank a filtered model receives lies in 1..(number of filtered models). */
  lemma TaskRankBounds(models: seq<Model>, pm: map<(string, string), Performance>, taskId: string, i: nat)
    requires i < |models|
    ensures 1 <= TaskRank(models, pm, taskId, models[i].name) <= |models|
  {
    var entries := RankEntries(models, pm, taskId);
    assert entries[i] in entries;
    CountBelowOfPresent(entries, RawRankOf(pm, taskId, models[i].name));
  }

  /**
   * Ties share a rank, and a strictly larger raw rank is placed after every entry at
   * the smaller one: with raw ranks 2, 2, 5 the ranks are 1, 1, 3.
   */
  lemma {:induction false} CompetitionRankGap(s: seq<RankEntry>, a: RawRank, b: RawRank)
    requires RawLess(a, b)
    ensures CompetitionRank(s, b) >= CompetitionRank(s, a) + CountEq(s, a)
  {
    if s != [] {
      CompetitionRankGap(s[..|s| - 1], a, b);
    }
  }

  lemma TieScenario()
    ensures var s := [RankEntry("A", Ranked(2)), RankEntry("B", Ranked(2)), RankEntry("C", Ranked(5))];
            CompetitionRank(s, Ranked(2)) == 1 && CompetitionRank(s, Ranked(5)) == 3
  {
    var s := [RankEntry("A", Ranked(2)), RankEntry("B", Ranked(2)), RankEntry("C", Ranked(5))];
    var s2, s1 := s[..2], s[..1];
    assert s2 == [RankEntry("A", Ranked(2)), RankEntry("B", Ranked(2))] && s2[..1] == s1;
    assert s1 == [RankEntry("A", Ranked(2))] && s1[..0] == [];
    assert CountBelow(s1, Ranked(2)) == 0 && CountBelow(s1, Ranked(5)) == 1;
    assert CountBelow(s2, Ranked(2)) == 0 && CountBelow(s2, Ranked(5)) == 2;
  }

  /** How many entries carry a real rank. */
  function CountRanked(s: seq<RankEntry>): (n: nat)
    ensures n <= |s|
  {
    if s == [] then 0
    else CountRanked(s[..|s| - 1]) + (if s[|s| - 1].rank.Ranked? then 1 else 0)
  }

  /**
   * The models without a row share the last rank, one more than the number of models
   * with a row; when no model has a row, that rank is 1.
   */
  lemma {:induction false} UnrankedShareLastRank(s: seq<RankEntry>)
    ensures CompetitionRank(s, Unranked) == 1 + CountRanked(s)
    ensures CountRanked(s) == 0 ==> CompetitionRank(s, Unranked) == 1
    ensures forall e :: e in s ==> CompetitionRank(s, e.rank) <= CompetitionRank(s, Unranked)
  {
    if s != [] {
      var init := s[..|s| - 1];
      assert s == init + [s[|s| - 1]];
      UnrankedShareLastRank(init);
      forall e | e in s ensures CompetitionRank(s, e.rank) <= CompetitionRank(s, Unranked) {
        CountBelowMonotone(s, e.rank, Unranked);
      }
    }
  }

  lemma {:induction false} CountBelowMonotone(s: seq<RankEntry>, a: RawRank, b: RawRank)
    requires RawLe(a, b)
    ensures CountBelow(s, a) <= CountBelow(s, b)
  {
    if s != [] {
      CountBelowMonotone(s[..|s| - 1], a, b);
    }
  }
}
