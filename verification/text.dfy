/**
 * The string operations the dashboard calls: ASCII case mapping, `startsWith`,
 * `includes`, `split`/`join` on one character, and the default order of
 * `Array.prototype.sort()`. A Dafny `char` is a Unicode scalar value, so strings here
 * are sequences of scalar values rather than of UTF-16 code units.
 */
module Text {
  import opened Collections

  function LowerChar(c: char): (r: char)
    ensures 'A' <= c <= 'Z' ==> r as int == c as int + 32
    ensures !('A' <= c <= 'Z') ==> r == c
    ensures !('A' <= r <= 'Z')
  {
    if 'A' <= c <= 'Z' then (c as int + 32) as char else c
  }

  function UpperChar(c: char): (r: char)
    ensures 'a' <= c <= 'z' ==> r as int == c as int - 32
    ensures !('a' <= c <= 'z') ==> r == c
    ensures !('a' <= r <= 'z')
  {
    if 'a' <= c <= 'z' then (c as int - 32) as char else c
  }

  /**
   * `s.toLowerCase()`, restricted to the ASCII letters A to Z; every other character is
   * kept as it is.
   */
  function ToLower(s: string): (r: string)
    ensures |r| == |s|
    ensures forall i :: 0 <= i < |s| ==> r[i] == LowerChar(s[i])
  {
    if s == [] then [] else [LowerChar(s[0])] + ToLower(s[1..])
  }

  /** Lower-casing twice is lower-casing once. */
  lemma ToLowerIdempotent(s: string)
    ensures ToLower(ToLower(s)) == ToLower(s)
  {
    var once := ToLower(s);
    assert forall i :: 0 <= i < |once| ==> LowerChar(once[i]) == once[i];
  }

  /** `s.startsWith(prefix)`. */
  predicate StartsWith(s: string, prefix: string)
  {
    |prefix| <= |s| && s[..|prefix|] == prefix
  }

  /** `needle` occurs in `hay` starting at position `i`. */
  predicate OccursAt(hay: string, needle: string, i: int)
  {
    0 <= i <= |hay| - |needle| && hay[i..i + |needle|] == needle
  }

  /** `hay.includes(needle)`: `needle` occurs at some position of `hay`. */
  function Contains(hay: string, needle: string): (r: bool)
    ensures r <==> exists i :: OccursAt(hay, needle, i)
    decreases |hay|
  {
    if StartsWith(hay, needle) then
      assert OccursAt(hay, needle, 0);
      true
    else if |hay| <= |needle| then
      assert forall i :: OccursAt(hay, needle, i) ==> i == 0;
      false
    else
      var rest := Contains(hay[1..], needle);
      OccursInTail(hay, needle);
      rest
  }

  /** Past the first position, the occurrences in `hay` are those in its tail, shifted by one. */
  lemma OccursInTail(hay: string, needle: string)
    requires hay != []
    ensures (exists i :: OccursAt(hay, needle, i)) <==>
      OccursAt(hay, needle, 0) || exists k :: OccursAt(hay[1..], needle, k)
  {
    if i :| OccursAt(hay, needle, i) && i != 0 {
      SliceOfTail(hay, i - 1, |needle|);
      assert OccursAt(hay[1..], needle, i - 1);
    }
    if k :| OccursAt(hay[1..], needle, k) {
      SliceOfTail(hay, k, |needle|);
      assert OccursAt(hay, needle, k + 1);
    }
  }

  lemma SliceOfTail(s: string, k: nat, n: nat)
    requires k + n < |s|
    ensures s[1..][k..k + n] == s[k + 1..k + 1 + n]
  {
    var a, b := s[1..][k..k + n], s[k + 1..k + 1 + n];
    forall j | 0 <= j < n ensures a[j] == b[j] {
    }
  }

  /** The empty string occurs in every string, so an empty search matches everything. */
  lemma ContainsEmpty(hay: string)
    ensures Contains(hay, "")
  {
    assert OccursAt(hay, "", 0);
  }

  /**
   * The order of `Array.prototype.sort()` without a comparator on strings: character by
   * character, a proper prefix first. Characters compare by scalar value; JavaScript
   * compares UTF-16 code units, which orders the same except that a character above
   * U+FFFF (a surrogate pair) sorts before the characters U+E000 to U+FFFF.
   */
  predicate CodeUnitLe(a: string, b: string)
    decreases |a|
  {
    a == [] ||
    (b != [] && (a[0] < b[0] || (a[0] == b[0] && CodeUnitLe(a[1..], b[1..]))))
  }

  lemma {:induction false} CodeUnitLeTotal(a: string, b: string)
    ensures CodeUnitLe(a, b) || CodeUnitLe(b, a)
    decreases |a|
  {
    if a != [] && b != [] && a[0] == b[0] {
      CodeUnitLeTotal(a[1..], b[1..]);
    }
  }

  lemma {:induction false} CodeUnitLeTransitive(a: string, b: string, c: string)
    requires CodeUnitLe(a, b) && CodeUnitLe(b, c)
    ensures CodeUnitLe(a, c)
    decreases |a|
  {
    if a != [] && a[0] == b[0] && b[0] == c[0] {
      CodeUnitLeTransitive(a[1..], b[1..], c[1..]);
    }
  }

  lemma {:induction false} CodeUnitLeAntisymmetric(a: string, b: string)
    requires CodeUnitLe(a, b) && CodeUnitLe(b, a)
    ensures a == b
    decreases |a|
  {
    if a != [] {
      CodeUnitLeAntisymmetric(a[1..], b[1..]);
      assert a == [a[0]] + a[1..] && b == [b[0]] + b[1..];
    }
  }

  /** The default string order is a total order, so default sorting is meaningful. */
  lemma CodeUnitOrderIsTotal()
    ensures TotalPreorder(CodeUnitLe)
    ensures forall a, b :: CodeUnitLe(a, b) && CodeUnitLe(b, a) ==> a == b
  {
    forall a, b ensures CodeUnitLe(a, b) || CodeUnitLe(b, a) {
      CodeUnitLeTotal(a, b);
    }
    forall a, b, c | CodeUnitLe(a, b) && CodeUnitLe(b, c) ensures CodeUnitLe(a, c) {
      CodeUnitLeTransitive(a, b, c);
    }
    forall a, b | CodeUnitLe(a, b) && CodeUnitLe(b, a) ensures a == b {
      CodeUnitLeAntisymmetric(a, b);
    }
  }

  /** `s.split(sep)`: the pieces between the separators, always at least one. */
  function Split(s: string, sep: char): (r: seq<string>)
    ensures |r| >= 1
    ensures forall k :: 0 <= k < |r| ==> sep !in r[k]
    decreases |s|
  {
    if sep !in s then [s]
    else
      var i := IndexOf(s, sep);
      [s[..i]] + Split(s[i + 1..], sep)
  }

  /** `ws.join(sep)`. */
  function Join(ws: seq<string>, sep: char): (r: string)
  {
    if ws == [] then [] else if |ws| == 1 then ws[0] else ws[0] + [sep] + Join(ws[1..], sep)
  }

  lemma SplitUnfold(s: string, sep: char)
    requires sep in s
    ensures Split(s, sep) == [s[..IndexOf(s, sep)]] + Split(s[IndexOf(s, sep) + 1..], sep)
  {
  }

  lemma JoinCons(w: string, ws: seq<string>, sep: char)
    requires ws != []
    ensures Join([w] + ws, sep) == w + [sep] + Join(ws, sep)
  {
    assert ([w] + ws)[1..] == ws;
  }

  /** Splitting and joining on the same character gives the string back. */
  lemma {:induction false} JoinSplit(s: string, sep: char)
    ensures Join(Split(s, sep), sep) == s
    decreases |s|
  {
    if sep in s {
      var i := IndexOf(s, sep);
      var rest := Split(s[i + 1..], sep);
      JoinSplit(s[i + 1..], sep);
      assert s == s[..i] + [sep] + s[i + 1..];
    }
  }
}
