/**
 * Sequence operations that the dashboard uses over and over: the first-occurrence
 * de-duplication done by `Array.from(new Set(xs))`, `Array.prototype.filter`, the
 * "toggle" update of a selection list, `slice(0, n)` and a stable sort standing for
 * `Array.prototype.sort` with a comparator.
 */
module Collections {

  datatype Option<T> = None | Some(value: T)

  /** No element occurs twice. */
  predicate NoDup<T(==)>(s: seq<T>)
  {
    forall i, j :: 0 <= i < j < |s| ==> s[i] != s[j]
  }

  /** Appending an element keeps a list duplicate-free exactly when the element is new. */
  lemma NoDupSnoc<T>(s: seq<T>, x: T)
    ensures NoDup(s + [x]) <==> NoDup(s) && x !in s
  {
    var t := s + [x];
    assert forall i :: 0 <= i < |s| ==> t[i] == s[i];
    assert t[|s|] == x;
    if NoDup(s) && x !in s {
      forall i, j | 0 <= i < j < |t| ensures t[i] != t[j] {
        if j == |s| { assert t[i] in s; }
      }
    }
  }

  /** Deleting the element at `i` from a duplicate-free list removes exactly that value. */
  lemma NoDupRemoveAt<T>(s: seq<T>, i: nat)
    requires NoDup(s) && i < |s|
    ensures NoDup(s[..i] + s[i + 1..])
    ensures forall x :: x in s[..i] + s[i + 1..] <==> x in s && x != s[i]
  {
    var t := s[..i] + s[i + 1..];
    assert forall k :: 0 <= k < |t| ==> t[k] == s[if k < i then k else k + 1];
    forall x | x in s && x != s[i] ensures x in t {
      var j :| 0 <= j < |s| && s[j] == x;
      if j < i { assert t[j] == x; } else { assert t[j - 1] == x; }
    }
  }

  /** `a` can be obtained from `b` by deleting elements: an order-preserving sub-list. */
  predicate IsSubseq<T(==)>(a: seq<T>, b: seq<T>)
    decreases |b|
  {
    a == [] ||
    (b != [] &&
     ((a[|a| - 1] == b[|b| - 1] && IsSubseq(a[..|a| - 1], b[..|b| - 1])) ||
      IsSubseq(a, b[..|b| - 1])))
  }

  lemma {:induction false} IsSubseqRefl<T>(s: seq<T>)
    ensures IsSubseq(s, s)
    decreases |s|
  {
    if s != [] {
      IsSubseqRefl(s[..|s| - 1]);
    }
  }

  /** Position of the first occurrence of `x` in `s`. */
  function IndexOf<T(==)>(s: seq<T>, x: T): (i: nat)
    requires x in s
    ensures i < |s| && s[i] == x && x !in s[..i]
  {
    if s[0] == x then 0 else 1 + IndexOf(s[1..], x)
  }

  /** An occurrence with no earlier one is the first occurrence. */
  lemma {:induction false} IndexOfUnique<T>(s: seq<T>, x: T, k: nat)
    requires k < |s| && s[k] == x && x !in s[..k]
    ensures IndexOf(s, x) == k
  {
    if s[0] == x {
      assert x in s[..k + 1];
    } else {
      assert s[1..][..k - 1] == s[1..k];
      assert forall y :: y in s[1..k] ==> y in s[..k];
      IndexOfUnique(s[1..], x, k - 1);
    }
  }

  /**
   * `Array.from(new Set(s))`: the distinct elements of `s`, each in the place of its
   * first occurrence. Defined from the end of `s`, the way a loop that adds to a Set
   * one element at a time builds it.
   */
  function Distinct<T(==,!new)>(s: seq<T>): (r: seq<T>)
    ensures NoDup(r)
    ensures forall x :: x in r <==> x in s
    ensures |r| <= |s|
  {
    if s == [] then []
    else
      var init := s[..|s| - 1];
      assert s == init + [s[|s| - 1]];
      var d := Distinct(init);
      if s[|s| - 1] in d then d else d + [s[|s| - 1]]
  }

  lemma DistinctSnoc<T(!new)>(s: seq<T>, x: T)
    ensures Distinct(s + [x]) == if x in Distinct(s) then Distinct(s) else Distinct(s) + [x]
  {
    assert (s + [x])[..|s|] == s;
  }

  lemma {:induction false} IndexOfAppend<T>(a: seq<T>, b: seq<T>, x: T)
    requires x in a
    ensures IndexOf(a + b, x) == IndexOf(a, x)
  {
    if a[0] != x {
      assert (a + b)[1..] == a[1..] + b;
      IndexOfAppend(a[1..], b, x);
    }
  }

  /** Distinct keeps the order of first occurrence. */
  lemma {:induction false} DistinctFirstOccurrenceOrder<T(!new)>(s: seq<T>, i: nat, j: nat)
    requires i < j < |Distinct(s)|
    ensures IndexOf(s, Distinct(s)[i]) < IndexOf(s, Distinct(s)[j])
  {
    var init, last := s[..|s| - 1], s[|s| - 1];
    assert s == init + [last];
    var d := Distinct(init);
    var xi, xj := Distinct(s)[i], Distinct(s)[j];
    if j < |d| {
      assert xi == d[i] && xj == d[j];
      DistinctFirstOccurrenceOrder(init, i, j);
      IndexOfAppend(init, [last], xi);
      IndexOfAppend(init, [last], xj);
    } else {
      assert xj == last && last !in init;
      assert xi == d[i] && xi in init;
      IndexOfAppend(init, [last], xi);
      assert IndexOf(s, xj) == |init| by {
        assert s[|init|] == last;
        assert last !in s[..|init|];
      }
    }
  }

  /** A list that is already duplicate-free is its own Set round trip. */
  lemma {:induction false} DistinctOfNoDup<T(!new)>(s: seq<T>)
    requires NoDup(s)
    ensures Distinct(s) == s
  {
    if s != [] {
      var init := s[..|s| - 1];
      assert s == init + [s[|s| - 1]];
      DistinctOfNoDup(init);
    }
  }

  /** A duplicate-free list inside another list is no longer than the other's distinct part. */
  lemma {:induction false} NoDupSubsetLength<T>(a: seq<T>, b: seq<T>)
    requires NoDup(a) && NoDup(b)
    requires forall m :: m in a ==> m in b
    ensures |a| <= |b|
    ensures |a| == |b| ==> forall m :: m in b ==> m in a
  {
    if a != [] {
      var x := a[|a| - 1];
      var i := IndexOf(b, x);
      var b' := b[..i] + b[i + 1..];
      NoDupRemoveAt(b, i);
      var a' := a[..|a| - 1];
      assert a == a' + [x];
      NoDupSnoc(a', x);
      assert forall m :: m in a' ==> m in a && m != x;
      NoDupSubsetLength(a', b');
      if |a| == |b| {
        assert forall m :: m in b && m != x ==> m in b';
      }
    }
  }

  /** `s.filter(p)`: the elements of `s` satisfying `p`, in their order. */
  function Filter<T(!new)>(s: seq<T>, p: T -> bool): (r: seq<T>)
    ensures |r| <= |s|
    ensures forall x :: x in r <==> x in s && p(x)
    ensures IsSubseq(r, s)
    ensures |r| == |s| <==> forall x :: x in s ==> p(x)
    ensures (forall x :: x in s ==> p(x)) ==> r == s
    ensures NoDup(s) ==> NoDup(r)
    ensures forall x :: multiset(r)[x] == if p(x) then multiset(s)[x] else 0
  {
    if s == [] then []
    else
      var init, last := s[..|s| - 1], s[|s| - 1];
      assert s == init + [last];
      var f := Filter(init, p);
      FilterStep(init, last, p, f);
      if p(last) then f + [last] else f
  }

  /** What `Filter` promises of `r` as the filtered `s`. */
  ghost predicate FilterSpec<T(!new)>(s: seq<T>, p: T -> bool, r: seq<T>)
  {
    && |r| <= |s|
    && (forall x :: x in r <==> x in s && p(x))
    && IsSubseq(r, s)
    && (|r| == |s| <==> forall x :: x in s ==> p(x))
    && ((forall x :: x in s ==> p(x)) ==> r == s)
    && (NoDup(s) ==> NoDup(r))
    && (forall x :: multiset(r)[x] == if p(x) then multiset(s)[x] else 0)
  }

  /** One step of `Filter`: the promise carries over from `init` to `init + [last]`. */
  lemma FilterStep<T(!new)>(init: seq<T>, last: T, p: T -> bool, f: seq<T>)
    requires FilterSpec(init, p, f)
    ensures FilterSpec(init + [last], p, if p(last) then f + [last] else f)
  {
    if p(last) {
      FilterStepKeep(init, last, p, f);
    } else {
      FilterStepDrop(init, last, p, f);
    }
  }

  lemma FilterStepKeep<T(!new)>(init: seq<T>, last: T, p: T -> bool, f: seq<T>)
    requires FilterSpec(init, p, f) && p(last)
    ensures FilterSpec(init + [last], p, f + [last])
  {
    var s, r := init + [last], f + [last];
    assert s[..|s| - 1] == init && s[|s| - 1] == last;
    assert r[..|r| - 1] == f && r[|r| - 1] == last;
    assert IsSubseq(r, s);
    assert forall x :: x in r <==> x in s && p(x);
    assert (forall x :: x in s ==> p(x)) <==> (forall x :: x in init ==> p(x));
    NoDupSnoc(init, last);
    NoDupSnoc(f, last);
    assert NoDup(s) ==> NoDup(r);
    assert multiset(s) == multiset(init) + multiset{last};
    assert multiset(r) == multiset(f) + multiset{last};
  }

  lemma FilterStepDrop<T(!new)>(init: seq<T>, last: T, p: T -> bool, f: seq<T>)
    requires FilterSpec(init, p, f) && !p(last)
    ensures FilterSpec(init + [last], p, f)
  {
    var s := init + [last];
    assert s[..|s| - 1] == init && s[|s| - 1] == last;
    assert IsSubseq(f, s);
    assert forall x :: x in f <==> x in s && p(x);
    assert |f| < |s| && !(forall x :: x in s ==> p(x));
    NoDupSnoc(init, last);
    assert NoDup(s) ==> NoDup(f);
    assert multiset(s) == multiset(init) + multiset{last};
  }

  lemma FilterSnoc<T(!new)>(s: seq<T>, x: T, p: T -> bool)
    ensures Filter(s + [x], p) == if p(x) then Filter(s, p) + [x] else Filter(s, p)
  {
    assert (s + [x])[..|s|] == s;
  }

  /** Two predicates that agree on the elements of `s` filter it alike. */
  lemma {:induction false} FilterCongruent<T(!new)>(s: seq<T>, p: T -> bool, q: T -> bool)
    requires forall x :: x in s ==> p(x) == q(x)
    ensures Filter(s, p) == Filter(s, q)
  {
    if s != [] {
      var init := s[..|s| - 1];
      assert s == init + [s[|s| - 1]];
      FilterCongruent(init, p, q);
    }
  }

  /** `s.filter((y) => y !== x)`. */
  function Remove<T(==,!new)>(s: seq<T>, x: T): (r: seq<T>)
    ensures x !in r
    ensures forall y :: y != x ==> (y in r <==> y in s)
    ensures multiset(r) == multiset(s)[x := 0]
    ensures IsSubseq(r, s)
    ensures x in s ==> |r| < |s|
  {
    var p := (y: T) => y != x;
    FilterAllBut(s, p, x);
    Filter(s, p)
  }

  /** Filtering by "is not `x`" keeps every other element as often as it occurs. */
  lemma {:induction false} FilterAllBut<T(!new)>(s: seq<T>, p: T -> bool, x: T)
    requires forall y :: p(y) <==> y != x
    ensures multiset(Filter(s, p)) == multiset(s)[x := 0]
  {
    if s != [] {
      var init, last := s[..|s| - 1], s[|s| - 1];
      assert s == init + [last];
      FilterSnoc(init, last, p);
      FilterAllBut(init, p, x);
    }
  }

  /**
   * `s.includes(x) ? s.filter((y) => y !== x) : [...s, x]`, the update every
   * check box of the dashboard applies to its selection list.
   */
  function Toggle<T(==,!new)>(s: seq<T>, x: T): (r: seq<T>)
    ensures x in r <==> x !in s
    ensures forall y :: y != x ==> (y in r <==> y in s)
    ensures x in s ==> IsSubseq(r, s) && |r| < |s|
    ensures x !in s ==> |r| == |s| + 1 && r[..|s|] == s && r[|s|] == x
    ensures NoDup(s) ==> NoDup(r)
  {
    if x in s then Remove(s, x) else s + [x]
  }

  /**
   * Toggling an absent element twice gives the list back; toggling a present one
   * twice moves it to the end, so only the set of selected values comes back.
   */
  lemma ToggleTwice<T(!new)>(s: seq<T>, x: T)
    ensures x !in s ==> Toggle(Toggle(s, x), x) == s
    ensures x in s ==> Toggle(Toggle(s, x), x) == Remove(s, x) + [x]
    ensures forall y :: y in Toggle(Toggle(s, x), x) <==> y in s
  {
    if x !in s {
      FilterSnoc(s, x, y => y != x);
    }
  }

  /** With a duplicate-free list whose last element is `x`, the double toggle is exact. */
  lemma ToggleTwiceLast<T(!new)>(s: seq<T>, x: T)
    requires NoDup(s) && s != [] && s[|s| - 1] == x
    ensures Toggle(Toggle(s, x), x) == s
  {
    var init := s[..|s| - 1];
    assert s == init + [x];
    assert x !in init;
    FilterSnoc(init, x, y => y != x);
    assert Remove(init, x) == init;
  }

  /** `s.find(p)`: the first element satisfying `p`, if there is one. */
  function Find<T(!new)>(s: seq<T>, p: T -> bool): (r: Option<T>)
    ensures r.None? <==> forall x :: x in s ==> !p(x)
    ensures r.Some? ==> exists k :: 0 <= k < |s| && s[k] == r.value && p(s[k]) &&
                                    forall j :: 0 <= j < k ==> !p(s[j])
  {
    if s == [] then None
    else if p(s[0]) then Some(s[0])
    else
      var r := Find(s[1..], p);
      assert forall x :: x in s ==> x == s[0] || x in s[1..];
      assert r.Some? ==> exists k :: 0 <= k < |s| && s[k] == r.value && p(s[k]) &&
                                     forall j :: 0 <= j < k ==> !p(s[j]) by {
        if r.Some? {
          var k :| 0 <= k < |s[1..]| && s[1..][k] == r.value && p(s[1..][k]) &&
                   forall j :: 0 <= j < k ==> !p(s[1..][j]);
          assert s[k + 1] == r.value;
          forall j | 0 <= j < k + 1 ensures !p(s[j]) {
            if j > 0 { assert s[j] == s[1..][j - 1]; }
          }
        }
      }
      r
  }

  /** Duplicate-freedom is a property of the multiset of elements. */
  lemma {:induction false} NoDupMultiset<T>(s: seq<T>)
    ensures NoDup(s) <==> forall x :: multiset(s)[x] <= 1
  {
    if s != [] {
      var init, last := s[..|s| - 1], s[|s| - 1];
      assert s == init + [last];
      NoDupMultiset(init);
      if NoDup(s) {
        assert NoDup(init) by {
          forall i, j | 0 <= i < j < |init| ensures init[i] != init[j] {
            assert init[i] == s[i] && init[j] == s[j];
          }
        }
        assert forall k :: 0 <= k < |init| ==> init[k] != last by {
          forall k | 0 <= k < |init| ensures init[k] != last {
            assert init[k] == s[k];
          }
        }
      }
      if forall x :: multiset(s)[x] <= 1 {
        assert forall x :: multiset(init)[x] <= 1 by {
          forall x ensures multiset(init)[x] <= 1 {
            assert multiset(s)[x] == multiset(init)[x] + multiset([last])[x];
          }
        }
        assert last !in init by {
          assert multiset(s)[last] == multiset(init)[last] + 1;
        }
        forall i, j | 0 <= i < j < |s| ensures s[i] != s[j] {
          if j < |init| {
            assert s[i] == init[i] && s[j] == init[j];
          } else {
            assert s[i] in init;
          }
        }
      }
    }
  }

  /** A rearrangement of a duplicate-free list is duplicate-free. */
  lemma NoDupOfPermutation<T>(s: seq<T>, t: seq<T>)
    requires multiset(s) == multiset(t)
    requires NoDup(s)
    ensures NoDup(t)
  {
    NoDupMultiset(s);
    NoDupMultiset(t);
  }

  /** Taking the last element of `s` out of a rearrangement `t` leaves a rearrangement of the rest. */
  lemma PermutationWithout<T>(s: seq<T>, t: seq<T>, i: nat)
    requires multiset(s) == multiset(t) && s != [] && i < |t| && t[i] == s[|s| - 1]
    ensures multiset(s[..|s| - 1]) == multiset(t[..i] + t[i + 1..])
  {
    var x := s[|s| - 1];
    assert s == s[..|s| - 1] + [x];
    assert t == t[..i] + [x] + t[i + 1..];
    assert multiset(s[..|s| - 1]) == multiset(s) - multiset{x};
    assert multiset(t[..i] + t[i + 1..]) == multiset(t) - multiset{x};
  }

  /** `s.slice(0, n)`. */
  function Take<T>(s: seq<T>, n: nat): (r: seq<T>)
    ensures |r| == if n < |s| then n else |s|
    ensures forall i :: 0 <= i < |r| ==> r[i] == s[i]
  {
    if n < |s| then s[..n] else s
  }

  /** `le` is total and transitive: what a comparator must be for sorting to be meaningful. */
  ghost predicate TotalPreorder<T(!new)>(le: (T, T) -> bool)
  {
    && (forall a, b :: le(a, b) || le(b, a))
    && (forall a, b, c :: le(a, b) && le(b, c) ==> le(a, c))
  }

  lemma PreorderTotal<T(!new)>(le: (T, T) -> bool, a: T, b: T)
    requires TotalPreorder(le)
    ensures le(a, b) || le(b, a)
  {
  }

  lemma PreorderTransitive<T(!new)>(le: (T, T) -> bool, a: T, b: T, c: T)
    requires TotalPreorder(le) && le(a, b) && le(b, c)
    ensures le(a, c)
  {
  }

  /** Every element may come before every later one. */
  predicate SortedBy<T>(s: seq<T>, le: (T, T) -> bool)
  {
    forall i, j :: 0 <= i < j < |s| ==> le(s[i], s[j])
  }

  /** Inserts `x` just before the first element it may precede. */
  function Insert<T>(x: T, s: seq<T>, le: (T, T) -> bool): (r: seq<T>)
    ensures multiset(r) == multiset(s) + multiset{x}
    ensures |r| == |s| + 1
  {
    if s == [] then [x]
    else if le(x, s[0]) then [x] + s
    else
      assert s == [s[0]] + s[1..];
      [s[0]] + Insert(x, s[1..], le)
  }

  /**
   * `Array.prototype.sort` with a comparator `cmp`, where `le(x, y)` stands for
   * `cmp(x, y) <= 0`. An insertion sort: like the engine's sort it is stable, so
   * elements the comparator calls equal keep their order.
   */
  function SortBy<T>(s: seq<T>, le: (T, T) -> bool): (r: seq<T>)
    ensures multiset(r) == multiset(s)
    ensures |r| == |s|
  {
    if s == [] then [] else
      assert s == [s[0]] + s[1..];
      Insert(s[0], SortBy(s[1..], le), le)
  }

  lemma {:induction false} InsertSorted<T(!new)>(x: T, s: seq<T>, le: (T, T) -> bool)
    requires TotalPreorder(le)
    requires SortedBy(s, le)
    ensures SortedBy(Insert(x, s, le), le)
  {
    if s != [] && !le(x, s[0]) {
      var rest := Insert(x, s[1..], le);
      InsertSorted(x, s[1..], le);
      assert le(s[0], x);
      forall k | 0 <= k < |rest| ensures le(s[0], rest[k]) {
        assert rest[k] in multiset(rest);
        assert rest[k] == x || rest[k] in multiset(s[1..]);
        if rest[k] != x {
          var m :| 0 <= m < |s[1..]| && s[1..][m] == rest[k];
          assert s[1 + m] == rest[k];
        }
      }
    }
  }

  /** With a total preorder the sort really sorts. */
  lemma {:induction false} SortBySorted<T(!new)>(s: seq<T>, le: (T, T) -> bool)
    requires TotalPreorder(le)
    ensures SortedBy(SortBy(s, le), le)
  {
    if s != [] {
      SortBySorted(s[1..], le);
      InsertSorted(s[0], SortBy(s[1..], le), le);
    }
  }

  /** A comparator that calls every pair equal leaves the order unchanged. */
  lemma {:induction false} SortByAllEqual<T>(s: seq<T>, le: (T, T) -> bool)
    requires forall a, b :: le(a, b)
    ensures SortBy(s, le) == s
  {
    if s != [] {
      SortByAllEqual(s[1..], le);
    }
  }
}
