/**
 qsort, as callers may rely on it: the result is some permutation that is sorted
 under the comparator. Ties may come out in any order.
 */
module Sorting {

  ghost predicate Antisymmetric<T>(cmp: (T, T) -> int, a: T, b: T) {
    cmp(a, b) < 0 <==> cmp(b, a) > 0
  }

  ghost predicate Transitive<T>(cmp: (T, T) -> int, a: T, b: T, c: T) {
    cmp(a, b) <= 0 && cmp(b, c) <= 0 ==> cmp(a, c) <= 0
  }

  /** What a comparator must be for qsort: a total preorder. */
  ghost predicate TotalPreorder<T(!new)>(cmp: (T, T) -> int) {
    && (forall a, b :: Antisymmetric(cmp, a, b))
    && (forall a, b, c :: Transitive(cmp, a, b, c))
  }

  ghost predicate SortedBy<T>(cmp: (T, T) -> int, s: seq<T>) {
    forall i, j :: 0 <= i < j < |s| ==> cmp(s[i], s[j]) <= 0
  }

  ghost predicate SortedPermutation<T>(cmp: (T, T) -> int, s: seq<T>, t: seq<T>) {
    SortedBy(cmp, t) && multiset(s) == multiset(t)
  }

  function InsertInOrder<T(!new)>(cmp: (T, T) -> int, x: T, s: seq<T>): (r: seq<T>)
    ensures multiset(r) == multiset(s) + multiset{x}
  {
    if s == [] || cmp(x, s[0]) <= 0 then [x] + s
    else
      assert s == [s[0]] + s[1..];
      [s[0]] + InsertInOrder(cmp, x, s[1..])
  }

  lemma PrependSorted<T>(cmp: (T, T) -> int, x: T, s: seq<T>)
    requires SortedBy(cmp, s) && forall k :: 0 <= k < |s| ==> cmp(x, s[k]) <= 0
    ensures SortedBy(cmp, [x] + s)
  {
  }

  lemma {:induction false} InsertKeepsSorted<T(!new)>(cmp: (T, T) -> int, x: T, s: seq<T>)
    requires TotalPreorder(cmp) && SortedBy(cmp, s)
    ensures SortedBy(cmp, InsertInOrder(cmp, x, s))
  {
    if s == [] {
    } else if cmp(x, s[0]) <= 0 {
      forall k | 0 <= k < |s|
        ensures cmp(x, s[k]) <= 0
      {
        assert Transitive(cmp, x, s[0], s[k]);
      }
      PrependSorted(cmp, x, s);
    } else {
      InsertKeepsSorted(cmp, x, s[1..]);
      assert Antisymmetric(cmp, s[0], x);
      var r := InsertInOrder(cmp, x, s[1..]);
      forall k | 0 <= k < |r|
        ensures cmp(s[0], r[k]) <= 0
      {
        assert r[k] in multiset(r);
        assert r[k] == x || r[k] in s[1..];
      }
      PrependSorted(cmp, s[0], r);
    }
  }

  function InsertionSort<T(!new)>(cmp: (T, T) -> int, s: seq<T>): (r: seq<T>)
    ensures multiset(r) == multiset(s)
  {
    if s == [] then [] else
      assert s == [s[0]] + s[1..];
      InsertInOrder(cmp, s[0], InsertionSort(cmp, s[1..]))
  }

  lemma {:induction false} InsertionSortSorts<T(!new)>(cmp: (T, T) -> int, s: seq<T>)
    requires TotalPreorder(cmp)
    ensures SortedPermutation(cmp, s, InsertionSort(cmp, s))
  {
    if s != [] {
      InsertionSortSorts(cmp, s[1..]);
      InsertKeepsSorted(cmp, s[0], InsertionSort(cmp, s[1..]));
    }
  }

  /** Sorts the first n elements in place. */
  method QSort<T(!new)>(a: array<T>, n: nat, cmp: (T, T) -> int)
    requires n <= a.Length && TotalPreorder(cmp)
    modifies a
    ensures SortedPermutation(cmp, old(a[..n]), a[..n])
    ensures a[n..] == old(a[n..])
  {
    var sorted := InsertionSort(cmp, a[..n]);
    InsertionSortSorts(cmp, a[..n]);
    assert |sorted| == n by {
      assert |multiset(sorted)| == |multiset(a[..n])|;
    }
    forall i | 0 <= i < n {
      a[i] := sorted[i];
    }
    assert a[..n] == sorted;
  }

  function Without<T>(s: seq<T>, j: nat): seq<T>
    requires j < |s|
  {
    s[..j] + s[j + 1..]
  }

  lemma WithoutOne<T>(s: seq<T>, j: nat)
    requires j < |s|
    ensures multiset(Without(s, j)) == multiset(s) - multiset{s[j]}
  {
    assert s == s[..j] + [s[j]] + s[j + 1..];
  }

  lemma WithoutSorted<T(!new)>(cmp: (T, T) -> int, s: seq<T>, j: nat)
    requires j < |s| && SortedBy(cmp, s)
    ensures SortedBy(cmp, Without(s, j))
    ensures multiset(Without(s, j)) == multiset(s) - multiset{s[j]}
  {
    WithoutOne(s, j);
  }

  /** If an element comes first in one sorted permutation, everything before it in another ties with it. */
  lemma LeastTiesWithEarlier<T(!new)>(cmp: (T, T) -> int, s: seq<T>, t: seq<T>, j: nat)
    requires TotalPreorder(cmp) && SortedBy(cmp, s) && SortedBy(cmp, t) && multiset(s) == multiset(t)
    requires s != [] && j < |t| && t[j] == s[0]
    ensures forall i :: 0 <= i <= j ==> cmp(s[0], t[i]) == 0
  {
    forall i | 0 <= i <= j
      ensures cmp(s[0], t[i]) == 0
    {
      assert t[i] in multiset(s);
      var k :| 0 <= k < |s| && s[k] == t[i];
      assert Antisymmetric(cmp, s[0], s[0]) && Antisymmetric(cmp, s[0], t[i]);
    }
  }

  lemma TieTransitive<T(!new)>(cmp: (T, T) -> int, a: T, b: T, c: T)
    requires TotalPreorder(cmp) && cmp(b, a) == 0 && cmp(b, c) == 0
    ensures cmp(a, c) == 0
  {
    assert Antisymmetric(cmp, a, b) && Antisymmetric(cmp, b, a) && Antisymmetric(cmp, b, c) && Antisymmetric(cmp, c, b);
    assert Transitive(cmp, a, b, c) && Transitive(cmp, c, b, a);
    assert Antisymmetric(cmp, c, a) && Antisymmetric(cmp, a, c);
  }

  /** Two sorted permutations of the same elements agree, position by position, up to ties. */
  lemma {:induction false} SortedPermutationsTie<T(!new)>(cmp: (T, T) -> int, s: seq<T>, t: seq<T>)
    requires TotalPreorder(cmp) && SortedBy(cmp, s) && SortedBy(cmp, t) && multiset(s) == multiset(t)
    ensures |s| == |t|
    ensures forall i :: 0 <= i < |s| ==> cmp(s[i], t[i]) == 0
  {
    assert |multiset(s)| == |s| && |multiset(t)| == |t|;
    if s != [] {
      assert s[0] in multiset(t);
      var j :| 0 <= j < |t| && t[j] == s[0];
      var t' := Without(t, j);
      WithoutSorted(cmp, t, j);
      assert Without(s, 0) == s[1..];
      WithoutSorted(cmp, s, 0);
      LeastTiesWithEarlier(cmp, s, t, j);
      SortedPermutationsTie(cmp, s[1..], t');
      forall i | 0 < i < |s|
        ensures cmp(s[i], t[i]) == 0
      {
        assert s[1..][i - 1] == s[i];
        TieAt(cmp, s[0], s[i], t, j, i);
      }
    }
  }

  /** Putting back an element that was taken out at j, where all up to j tie with it, keeps the ties. */
  lemma TieAt<T(!new)>(cmp: (T, T) -> int, least: T, x: T, t: seq<T>, j: nat, i: nat)
    requires TotalPreorder(cmp) && j < |t| && 0 < i < |t|
    requires forall k :: 0 <= k <= j ==> cmp(least, t[k]) == 0
    requires cmp(x, Without(t, j)[i - 1]) == 0
    ensures cmp(x, t[i]) == 0
  {
    if i <= j {
      var b := t[i - 1];
      assert Without(t, j)[i - 1] == b;
      assert Antisymmetric(cmp, x, b) && Antisymmetric(cmp, b, x);
      assert cmp(least, b) == 0 && cmp(least, t[i]) == 0;
      TieTransitive(cmp, b, least, t[i]);
      TieTransitive(cmp, x, b, t[i]);
    } else {
      assert Without(t, j)[i - 1] == t[i];
    }
  }

  /** Without ties between different elements there is only one sorted permutation. */
  lemma SortedPermutationIsUnique<T(!new)>(cmp: (T, T) -> int, s: seq<T>, t: seq<T>)
    requires TotalPreorder(cmp) && SortedBy(cmp, s) && SortedBy(cmp, t) && multiset(s) == multiset(t)
    requires forall a, b :: a in s && b in s && cmp(a, b) == 0 ==> a == b
    ensures s == t
  {
    SortedPermutationsTie(cmp, s, t);
    forall i | 0 <= i < |s|
      ensures s[i] == t[i]
    {
      assert t[i] in multiset(s);
      assert t[i] in s;
    }
  }
}
