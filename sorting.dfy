/** Python's `sorted(...)` as a stable insertion sort with respect to a
    strict order `lt`, with the facts the rest of the model relies on:
    the result is ordered, it is a permutation of the input, and under a
    total order it is the only ordered permutation, so any correct sort
    would give the same sequence. */
module Sorting {

  ghost predicate StrictOrder<T(!new)>(lt: (T, T) -> bool) {
    (forall a :: !lt(a, a)) &&
    (forall a, b, c :: lt(a, b) && lt(b, c) ==> lt(a, c))
  }

  /** Any two elements of `s` are equal or comparable. */
  ghost predicate TotalOn<T>(s: seq<T>, lt: (T, T) -> bool) {
    forall i, j :: 0 <= i < |s| && 0 <= j < |s| ==> s[i] == s[j] || lt(s[i], s[j]) || lt(s[j], s[i])
  }

  /** No element is strictly below an earlier one. */
  predicate SortedBy<T>(s: seq<T>, lt: (T, T) -> bool) {
    forall i, j :: 0 <= i < j < |s| ==> !lt(s[j], s[i])
  }

  /** Place `x` before the first element strictly above it, so after any equal ones. */
  function Insert<T>(x: T, s: seq<T>, lt: (T, T) -> bool): (r: seq<T>)
    ensures multiset(r) == multiset(s) + multiset{x}
    ensures |r| == |s| + 1
  {
    if |s| == 0 then [x]
    else if lt(x, s[0]) then [x] + s
    else
      assert s == [s[0]] + s[1..];
      [s[0]] + Insert(x, s[1..], lt)
  }

  /** Insertion sort: each element goes after the ones already placed that are not above it. */
  function Sort<T>(s: seq<T>, lt: (T, T) -> bool): (r: seq<T>)
    ensures multiset(r) == multiset(s)
    ensures |r| == |s|
  {
    if |s| == 0 then []
    else
      assert s == s[..|s| - 1] + [s[|s| - 1]];
      Insert(s[|s| - 1], Sort(s[..|s| - 1], lt), lt)
  }

  lemma {:induction false} InsertSorted<T(!new)>(x: T, s: seq<T>, lt: (T, T) -> bool)
    requires StrictOrder(lt) && SortedBy(s, lt)
    ensures SortedBy(Insert(x, s, lt), lt)
  {
    if |s| == 0 {
    } else if lt(x, s[0]) {
      forall j | 0 <= j < |s|
        ensures !lt(s[j], x)
      {
        assert j == 0 || !lt(s[j], s[0]);
      }
      ConsSorted(x, s, lt);
    } else {
      InsertSorted(x, s[1..], lt);
      var t := Insert(x, s[1..], lt);
      forall j | 0 <= j < |t|
        ensures !lt(t[j], s[0])
      {
        assert t[j] in multiset(t);
        assert t[j] == x || t[j] in multiset(s[1..]);
        if t[j] != x {
          var k :| 0 <= k < |s[1..]| && s[1..][k] == t[j];
          assert s[k + 1] == t[j];
        }
      }
      ConsSorted(s[0], t, lt);
    }
  }

  /** An element no later one is strictly below extends an ordered sequence at the front. */
  lemma ConsSorted<T>(x: T, s: seq<T>, lt: (T, T) -> bool)
    requires SortedBy(s, lt) && forall j :: 0 <= j < |s| ==> !lt(s[j], x)
    ensures SortedBy([x] + s, lt)
  {
    var r := [x] + s;
    forall i, j | 0 <= i < j < |r|
      ensures !lt(r[j], r[i])
    {
      if i == 0 {
        assert r[j] == s[j - 1];
      } else {
        assert r[i] == s[i - 1] && r[j] == s[j - 1];
      }
    }
  }

  /** The sort orders its result. */
  lemma {:induction false} SortSorted<T(!new)>(s: seq<T>, lt: (T, T) -> bool)
    requires StrictOrder(lt)
    ensures SortedBy(Sort(s, lt), lt)
  {
    if |s| > 0 {
      SortSorted(s[..|s| - 1], lt);
      InsertSorted(s[|s| - 1], Sort(s[..|s| - 1], lt), lt);
    }
  }

  lemma SortedTail<T>(s: seq<T>, lt: (T, T) -> bool)
    requires |s| > 0 && SortedBy(s, lt)
    ensures SortedBy(s[1..], lt)
  {
    forall i, j | 0 <= i < j < |s| - 1
      ensures !lt(s[1..][j], s[1..][i])
    {
      assert s[1..][j] == s[j + 1] && s[1..][i] == s[i + 1];
    }
  }

  lemma TotalOnTail<T>(s: seq<T>, lt: (T, T) -> bool)
    requires |s| > 0 && TotalOn(s, lt)
    ensures TotalOn(s[1..], lt)
  {
    forall i, j | 0 <= i < |s| - 1 && 0 <= j < |s| - 1
      ensures s[1..][i] == s[1..][j] || lt(s[1..][i], s[1..][j]) || lt(s[1..][j], s[1..][i])
    {
      assert s[1..][i] == s[i + 1] && s[1..][j] == s[j + 1];
    }
  }

  /** Two ordered permutations of each other start with the same element. */
  lemma SortedSameHead<T(!new)>(a: seq<T>, b: seq<T>, lt: (T, T) -> bool)
    requires StrictOrder(lt) && TotalOn(a, lt)
    requires SortedBy(a, lt) && SortedBy(b, lt)
    requires multiset(a) == multiset(b) && |a| > 0
    ensures |b| > 0 && a[0] == b[0]
  {
    assert |b| == |multiset(b)| == |a|;
    assert a[0] in multiset(b) && b[0] in multiset(a);
    var k :| 0 <= k < |b| && b[k] == a[0];
    var m :| 0 <= m < |a| && a[m] == b[0];
    assert !lt(a[0], b[0]) by {
      assert k == 0 || !lt(b[k], b[0]);
    }
    assert !lt(b[0], a[0]) by {
      assert m == 0 || !lt(a[m], a[0]);
    }
    TotalOnAt(a, lt, 0, m);
  }

  lemma TotalOnAt<T>(s: seq<T>, lt: (T, T) -> bool, i: nat, j: nat)
    requires TotalOn(s, lt) && i < |s| && j < |s|
    ensures s[i] == s[j] || lt(s[i], s[j]) || lt(s[j], s[i])
  {
  }

  /** Two ordered permutations of each other are equal when all elements are comparable. */
  lemma {:induction false} SortedUnique<T(!new)>(a: seq<T>, b: seq<T>, lt: (T, T) -> bool)
    requires StrictOrder(lt) && TotalOn(a, lt)
    requires SortedBy(a, lt) && SortedBy(b, lt)
    requires multiset(a) == multiset(b)
    ensures a == b
  {
    if |a| > 0 {
      SortedSameHead(a, b, lt);
      SameTails(a, b);
      SortedTail(a, lt);
      SortedTail(b, lt);
      TotalOnTail(a, lt);
      SortedUnique(a[1..], b[1..], lt);
    } else {
      assert |b| == |multiset(b)| == 0;
    }
  }

  /** Removing the same first element from two permutations leaves permutations. */
  lemma SameTails<T>(a: seq<T>, b: seq<T>)
    requires |a| > 0 && |b| > 0 && a[0] == b[0] && multiset(a) == multiset(b)
    ensures multiset(a[1..]) == multiset(b[1..])
  {
    assert a == [a[0]] + a[1..] && b == [b[0]] + b[1..];
    assert multiset(a[1..]) == multiset(a) - multiset{a[0]};
    assert multiset(b[1..]) == multiset(b) - multiset{b[0]};
  }

  /** Under a total order the sort is determined by its properties alone. */
  lemma SortCharacterized<T(!new)>(s: seq<T>, r: seq<T>, lt: (T, T) -> bool)
    requires StrictOrder(lt) && TotalOn(r, lt)
    requires SortedBy(r, lt) && multiset(r) == multiset(s)
    ensures Sort(s, lt) == r
  {
    SortSorted(s, lt);
    SortedUnique(r, Sort(s, lt), lt);
  }

  /** Two positions of a permutation of a duplicate-free sequence hold different entries. */
  lemma DistinctPositions<T>(s: seq<T>, g: seq<T>, i: nat, j: nat, p: nat, q: nat)
    requires multiset(s) == multiset(g)
    requires i < j < |s| && p < |g| && q < |g| && g[p] == s[i] && g[q] == s[j]
    requires forall a, b :: 0 <= a < b < |g| ==> g[a] != g[b]
    ensures s[i] != s[j]
  {
    MultiplicityOne(g, p);
    assert s == s[..i] + [s[i]] + s[i + 1..j] + [s[j]] + s[j + 1..];
    assert multiset(s) == multiset(s[..i]) + multiset{s[i]} + multiset(s[i + 1..j]) + multiset{s[j]} + multiset(s[j + 1..]);
    assert multiset{s[j]}[s[i]] == 0;
  }

  lemma MultiplicityOne<T>(g: seq<T>, p: nat)
    requires p < |g| && forall a, b :: 0 <= a < b < |g| ==> g[a] != g[b]
    ensures multiset(g)[g[p]] == 1
  {
    assert g == g[..p] + [g[p]] + g[p + 1..];
    assert g[p] !in g[..p] && g[p] !in g[p + 1..];
  }
}
