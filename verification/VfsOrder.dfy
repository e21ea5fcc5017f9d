/**
 When the overlay depends on the order roots are given in, or on how qsort breaks ties, and
 when it does not.
 */
module VfsOrder {
  import opened CStrings
  import opened Sorting
  import opened VfsGenerate
  import opened VfsPaths
  import opened VfsText
  import opened VfsTree
  import opened VfsViews

  /** Roots spelled alike are refused or shown alike. */
  ghost predicate TiesAgree(roots: seq<Root>) {
    forall a, b :: a in roots && b in roots && a.generic == b.generic ==> BuildRoot(a) == BuildRoot(b)
  }

  lemma {:induction false} SameBuilds(s: seq<Root>, t: seq<Root>)
    requires |s| == |t|
    requires forall i :: 0 <= i < |s| ==> s[i].generic == t[i].generic && BuildRoot(s[i]) == BuildRoot(t[i])
    ensures BuildRoots(s) == BuildRoots(t)
  {
    if s != [] {
      SameBuilds(s[1..], t[1..]);
    }
  }

  /** Two orders of the same roots give the same overlay, or the same error, if ties agree. */
  lemma RootOrderIrrelevant(s: seq<Root>, t: seq<Root>, a: seq<Root>, b: seq<Root>)
    requires multiset(s) == multiset(t) && TiesAgree(s)
    requires SortedPermutation(CompareRoots, s, a) && SortedPermutation(CompareRoots, t, b)
    ensures OverlayOf(a) == OverlayOf(b)
  {
    CompareRootsIsTotal();
    SortedPermutationsTie(CompareRoots, a, b);
    forall i | 0 <= i < |a|
      ensures a[i].generic == b[i].generic && BuildRoot(a[i]) == BuildRoot(b[i])
    {
      assert CompareRoots(a[i], b[i]) == 0;
      StrCmpZero(a[i].generic, b[i].generic);
      assert a[i] in multiset(s) && b[i] in multiset(s);
      assert a[i] in s && b[i] in s;
    }
    SameBuilds(a, b);
  }

  /** Roots of distinct spellings give the same overlay in whatever order they are given. */
  lemma DistinctSpellingsAnyOrder(s: seq<Root>, t: seq<Root>, a: seq<Root>, b: seq<Root>)
    requires forall i, j :: 0 <= i < j < |s| ==> s[i].generic != s[j].generic
    requires multiset(s) == multiset(t)
    requires SortedPermutation(CompareRoots, s, a) && SortedPermutation(CompareRoots, t, b)
    ensures a == b && OverlayOf(a) == OverlayOf(b)
  {
    CompareRootsIsTotal();
    forall x, y | x in a && y in a && CompareRoots(x, y) == 0
      ensures x == y
    {
      StrCmpZero(x.generic, y.generic);
      assert x in multiset(s) && y in multiset(s);
    }
    SortedPermutationIsUnique(CompareRoots, a, b);
  }

  function Swapped(s: seq<Root>, i: nat, j: nat): seq<Root>
    requires i < |s| && j < |s|
  {
    s[i := s[j]][j := s[i]]
  }

  lemma SwappedSorted(s: seq<Root>, i: nat, j: nat)
    requires i < j < |s| && s[i].generic == s[j].generic && SortedBy(CompareRoots, s)
    ensures SortedPermutation(CompareRoots, s, Swapped(s, i, j))
  {
    var t := Swapped(s, i, j);
    assert forall k :: 0 <= k < |s| ==> t[k].generic == s[k].generic;
    forall k, l | 0 <= k < l < |t|
      ensures CompareRoots(t[k], t[l]) <= 0
    {
      assert CompareRoots(s[k], s[l]) <= 0;
    }
    SwappedPermutes(s, i, j);
  }

  lemma SwappedPermutes(s: seq<Root>, i: nat, j: nat)
    requires i < j < |s|
    ensures multiset(s) == multiset(Swapped(s, i, j))
  {
    var once := s[i := s[j]];
    assert multiset(once) == multiset(s) - multiset{s[i]} + multiset{s[j]};
    assert once[j] == s[j];
  }

  /** Roots of one generic spelling look the same below it. */
  ghost predicate TiesLookAlike(roots: seq<Root>) {
    forall x, y :: x in roots && y in roots && x.generic == y.generic ==> SameView(x.node, y.node)
  }

  ghost predicate WellSpelled(roots: seq<Root>) {
    forall r :: r in roots ==> r.generic == GenericPath(r.path)
  }

  ghost predicate AllAcceptable(roots: seq<Root>) {
    forall r :: r in roots ==> Acceptable(r.node)
  }

  lemma TiesAgreeMeaning(roots: seq<Root>)
    requires WellSpelled(roots) && AllAcceptable(roots)
    ensures TiesAgree(roots) <==> TiesLookAlike(roots)
  {
    forall x, y | x in roots && y in roots && x.generic == y.generic
      ensures BuildRoot(x) == BuildRoot(y) <==> SameView(x.node, y.node)
    {
      SameTreeMeaning(x.path, y.path, x.node, y.node);
    }
  }

  /** Whatever order qsort produces, the result is the same. */
  ghost predicate OneOutcome(roots: seq<Root>) {
    forall a, b :: SortedPermutation(CompareRoots, roots, a) && SortedPermutation(CompareRoots, roots, b) ==>
      OverlayOf(a) == OverlayOf(b)
  }

  lemma AgreeingTies(roots: seq<Root>)
    requires TiesAgree(roots)
    ensures OneOutcome(roots)
  {
    forall a, b | SortedPermutation(CompareRoots, roots, a) && SortedPermutation(CompareRoots, roots, b)
      ensures OverlayOf(a) == OverlayOf(b)
    {
      RootOrderIrrelevant(roots, roots, a, b);
    }
  }

  // ---------- refused roots ----------

  /** A refused root with the least spelling of those refused. */
  ghost predicate FirstRefused(roots: seq<Root>, r: Root) {
    && r in roots && !Acceptable(r.node)
    && forall q :: q in roots && !Acceptable(q.node) ==> StrCmp(r.generic, q.generic) <= 0
  }

  /** What is reported when this root is the first to be refused. */
  ghost function Refusal(r: Root): Result<string, GenerateError>
    requires !Acceptable(r.node)
  {
    RootAccepted(r.path, r.generic, r.node);
    Failure(WalkFailed(r.generic, BuildRoot(r).error))
  }

  lemma {:induction false} RefusedAt(order: seq<Root>, i: nat)
    requires i < |order| && !Acceptable(order[i].node) && forall k :: 0 <= k < i ==> Acceptable(order[k].node)
    ensures OverlayOf(order) == Refusal(order[i])
  {
    RootAccepted(order[i].path, order[i].generic, order[i].node);
    forall k | 0 <= k < i
      ensures BuildRoot(order[k]).Success?
    {
      RootAccepted(order[k].path, order[k].generic, order[k].node);
    }
    StopsAt(order, i);
  }

  lemma {:induction false} StopsAt(order: seq<Root>, i: nat)
    requires i < |order| && BuildRoot(order[i]).Failure? && forall k :: 0 <= k < i ==> BuildRoot(order[k]).Success?
    ensures BuildRoots(order) == Failure(WalkFailed(order[i].generic, BuildRoot(order[i]).error))
  {
    if i > 0 {
      var rest := order[1..];
      assert rest[i - 1] == order[i];
      forall k | 0 <= k < i - 1
        ensures BuildRoot(rest[k]).Success?
      {
        assert rest[k] == order[k + 1];
      }
      StopsAt(rest, i - 1);
      PastAccepted(order, BuildRoots(rest).error);
    } else {
      StopsFirst(order);
    }
  }

  lemma StopsFirst(order: seq<Root>)
    requires order != [] && BuildRoot(order[0]).Failure?
    ensures BuildRoots(order) == Failure(WalkFailed(order[0].generic, BuildRoot(order[0]).error))
  {
  }

  lemma PastAccepted(order: seq<Root>, e: GenerateError)
    requires order != [] && BuildRoot(order[0]).Success? && BuildRoots(order[1..]) == Failure(e)
    ensures BuildRoots(order) == Failure(e)
  {
  }

  lemma FirstIn(order: seq<Root>) returns (i: nat)
    requires !AllAcceptable(order)
    ensures i < |order| && !Acceptable(order[i].node) && forall k :: 0 <= k < i ==> Acceptable(order[k].node)
  {
    i := 0;
    while i < |order| && Acceptable(order[i].node)
      invariant i <= |order| && forall k :: 0 <= k < i ==> Acceptable(order[k].node)
    {
      i := i + 1;
    }
  }

  lemma SameRoots(roots: seq<Root>, a: seq<Root>)
    requires multiset(roots) == multiset(a)
    ensures forall r :: r in roots <==> r in a
  {
    assert forall r :: r in roots <==> r in multiset(roots);
    assert forall r :: r in a <==> r in multiset(a);
  }

  /** With a refused root among them, what is reported is a refused root of the least spelling, and its error. */
  lemma ReportedRefusal(roots: seq<Root>, a: seq<Root>) returns (r: Root)
    requires !AllAcceptable(roots) && SortedPermutation(CompareRoots, roots, a)
    ensures FirstRefused(roots, r) && OverlayOf(a) == Refusal(r)
  {
    SameRoots(roots, a);
    var i := FirstIn(a);
    r := a[i];
    RefusedAt(a, i);
    forall q | q in roots && !Acceptable(q.node)
      ensures StrCmp(r.generic, q.generic) <= 0
    {
      var j :| 0 <= j < |a| && a[j] == q;
      StrCmpZero(r.generic, q.generic);
      assert i < j ==> CompareRoots(a[i], a[j]) <= 0;
    }
  }

  /** And each of these can be the one: some sorted order puts it before the others of its spelling. */
  lemma EachCanBeReported(roots: seq<Root>, r: Root) returns (a: seq<Root>)
    requires FirstRefused(roots, r)
    ensures SortedPermutation(CompareRoots, roots, a) && OverlayOf(a) == Refusal(r)
  {
    CompareRootsIsTotal();
    InsertionSortSorts(CompareRoots, roots);
    var s := InsertionSort(CompareRoots, roots);
    var j := IndexOf(roots, s, r);
    var i := FirstSpelled(s, j);
    a := if i == j then s else Swapped(s, i, j);
    if i < j {
      SwappedSorted(s, i, j);
    }
    assert a[i] == r;
    SameRoots(roots, s);
    forall k | 0 <= k < i
      ensures Acceptable(a[k].node)
    {
      assert a[k] == s[k] && s[k] in roots;
      StrCmpFlip(s[k].generic, r.generic);
    }
    RefusedAt(a, i);
  }

  /** The first root spelled like s[j]; those before it have lesser spellings. */
  lemma FirstSpelled(s: seq<Root>, j: nat) returns (i: nat)
    requires j < |s| && SortedBy(CompareRoots, s)
    ensures i <= j && s[i].generic == s[j].generic
    ensures forall k :: 0 <= k < i ==> StrCmp(s[k].generic, s[j].generic) < 0
  {
    i := j;
    while i > 0 && s[i - 1].generic == s[j].generic
      invariant i <= j && s[i].generic == s[j].generic
    {
      i := i - 1;
    }
    forall k | 0 <= k < i
      ensures StrCmp(s[k].generic, s[j].generic) < 0
    {
      LesserBefore(s, k, i, j);
    }
  }

  lemma LesserBefore(s: seq<Root>, k: nat, i: nat, j: nat)
    requires k < i <= j < |s| && SortedBy(CompareRoots, s)
    requires s[i].generic == s[j].generic && s[i - 1].generic != s[i].generic
    ensures StrCmp(s[k].generic, s[j].generic) < 0
  {
    var x, y, z := s[k].generic, s[i - 1].generic, s[j].generic;
    assert CompareRoots(s[k], s[i]) <= 0 && CompareRoots(s[i - 1], s[i]) <= 0;
    assert k < i - 1 ==> CompareRoots(s[k], s[i - 1]) <= 0;
    StrCmpZero(x, z);
    StrCmpZero(x, y);
    StrCmpZero(y, z);
    if x == z {
      StrCmpFlip(y, z);
      assert k < i - 1;
    }
  }

  /** All refused roots of the least refused spelling are refused for the same reason. */
  ghost predicate RefusalsAgree(roots: seq<Root>) {
    forall x, y :: FirstRefused(roots, x) && FirstRefused(roots, y) ==> Refusal(x) == Refusal(y)
  }

  lemma RefusalsDecide(roots: seq<Root>)
    requires !AllAcceptable(roots)
    ensures OneOutcome(roots) <==> RefusalsAgree(roots)
  {
    if OneOutcome(roots) {
      forall x, y | FirstRefused(roots, x) && FirstRefused(roots, y)
        ensures Refusal(x) == Refusal(y)
      {
        var a := EachCanBeReported(roots, x);
        var b := EachCanBeReported(roots, y);
      }
    }
    if RefusalsAgree(roots) {
      forall a, b | SortedPermutation(CompareRoots, roots, a) && SortedPermutation(CompareRoots, roots, b)
        ensures OverlayOf(a) == OverlayOf(b)
      {
        var x := ReportedRefusal(roots, a);
        var y := ReportedRefusal(roots, b);
      }
    }
  }

  // ---------- the exact condition ----------

  /**
   Every order qsort may produce gives the same result if and only if, with all roots
   acceptable, those of one spelling look alike, and otherwise the refused roots of the
   least refused spelling are refused for one reason. Spellings can be equal without the
   paths being so, as with "a/b" and "a\b".
   */
  lemma SortChoiceMatters(roots: seq<Root>)
    requires roots != [] && WellSpelled(roots)
    ensures OneOutcome(roots) <==> if AllAcceptable(roots) then TiesLookAlike(roots) else RefusalsAgree(roots)
  {
    if AllAcceptable(roots) {
      TiesAgreeMeaning(roots);
      if TiesAgree(roots) {
        AgreeingTies(roots);
      } else {
        var a, b := DisagreeingTies(roots);
        assert OverlayOf(a) != OverlayOf(b);
      }
    } else {
      RefusalsDecide(roots);
    }
  }

  /** The roots that the generator makes are spelled well. */
  lemma RootsAreWellSpelled(inputs: seq<(string, Node)>)
    ensures WellSpelled(RootsOf(inputs))
  {
  }

  /** Two paths of one spelling, an empty directory and one with a file: two orders, two texts. */
  lemma SameSpellingRoots()
    ensures var empty, full := MakeRoot("a/b", Directory(map[])), MakeRoot("a\\b", Directory(map["f" := Regular]));
      && SortedPermutation(CompareRoots, [empty, full], [empty, full])
      && SortedPermutation(CompareRoots, [empty, full], [full, empty])
      && OverlayOf([empty, full]) != OverlayOf([full, empty])
  {
    var empty, full := MakeRoot("a/b", Directory(map[])), MakeRoot("a\\b", Directory(map["f" := Regular]));
    assert empty.generic == "a/b" == full.generic;
    EmptyBesideFull(empty, full, "f");
  }

  lemma EmptyBesideFull(empty: Root, full: Root, name: string)
    requires empty.generic == full.generic && WellSpelled([empty, full])
    requires empty.node == Directory(map[]) && full.node == Directory(map[name := Regular])
    ensures SortedPermutation(CompareRoots, [empty, full], [empty, full])
    ensures SortedPermutation(CompareRoots, [empty, full], [full, empty])
    ensures OverlayOf([empty, full]) != OverlayOf([full, empty])
  {
    EmptyIsAcceptable(empty.node);
    OneFileIsAcceptable(name, full.node);
    EmptyShowsLess(empty, full, name);
    TiedPair([empty, full]);
    SwappedPair(empty, full);
  }

  /** Two acceptable roots of one spelling that are shown differently: both orders are sorted, and the texts differ. */
  lemma TiedPair(pair: seq<Root>)
    requires |pair| == 2 && pair[0].generic == pair[1].generic && AllAcceptable(pair)
    requires BuildRoot(pair[0]) != BuildRoot(pair[1])
    ensures SortedPermutation(CompareRoots, pair, pair) && SortedPermutation(CompareRoots, pair, Swapped(pair, 0, 1))
    ensures OverlayOf(pair) != OverlayOf(Swapped(pair, 0, 1))
  {
    TwoSorted(pair);
    TiesShow(pair, pair, 0, 1);
  }

  lemma TwoSorted(a: seq<Root>)
    requires |a| == 2 && a[0].generic == a[1].generic
    ensures SortedPermutation(CompareRoots, a, a)
  {
    StrCmpZero(a[0].generic, a[1].generic);
  }

  lemma SwappedPair(x: Root, y: Root)
    ensures Swapped([x, y], 0, 1) == [y, x]
  {
  }

  lemma EmptyIsAcceptable(node: Node)
    requires node == Directory(map[])
    ensures Acceptable(node)
  {
    forall names: seq<string>, n: Node | Reach(node, names) == Some(n)
      ensures Supported(n)
    {
      assert names == [];
    }
  }

  lemma EmptyShowsLess(empty: Root, full: Root, name: string)
    requires empty.node == Directory(map[]) && full.node == Directory(map[name := Regular])
    ensures BuildRoot(empty) != BuildRoot(full)
  {
    OneFileIsAcceptable(name, full.node);
    EmptyIsAcceptable(empty.node);
    RootAccepted(empty.path, empty.generic, empty.node);
    RootAccepted(full.path, full.generic, full.node);
    var external := GenericPath(JoinAll(full.path, [name]));
    EveryCaseVariantResolves(full.path, full.generic, full.node, [name], [name]);
    RootLookup(empty.path, empty.generic, empty.node, [name], external);
    assert !Resolves(empty.path, empty.node, [name], external);
  }

  lemma IndexOf(roots: seq<Root>, a: seq<Root>, x: Root) returns (i: nat)
    requires multiset(roots) == multiset(a) && x in roots
    ensures i < |a| && a[i] == x
  {
    assert x in multiset(a);
    i :| 0 <= i < |a| && a[i] == x;
  }

  lemma DisagreeingTies(roots: seq<Root>) returns (a: seq<Root>, b: seq<Root>)
    requires roots != [] && AllAcceptable(roots) && !TiesAgree(roots)
    ensures SortedPermutation(CompareRoots, roots, a) && SortedPermutation(CompareRoots, roots, b)
    ensures OverlayOf(a) != OverlayOf(b)
  {
    var x, y :| x in roots && y in roots && x.generic == y.generic && BuildRoot(x) != BuildRoot(y);
    var low, high;
    a, low, high := SortedWith(roots, x, y);
    b := Swapped(a, low, high);
    TiesShow(roots, a, low, high);
  }

  /** A sorted order, and where two different roots stand in it. */
  lemma SortedWith(roots: seq<Root>, x: Root, y: Root) returns (a: seq<Root>, low: nat, high: nat)
    requires x in roots && y in roots && x != y
    ensures SortedPermutation(CompareRoots, roots, a) && low < high < |a|
    ensures (a[low] == x && a[high] == y) || (a[low] == y && a[high] == x)
  {
    CompareRootsIsTotal();
    InsertionSortSorts(CompareRoots, roots);
    a := InsertionSort(CompareRoots, roots);
    low := IndexOf(roots, a, x);
    high := IndexOf(roots, a, y);
    if high < low {
      low, high := high, low;
    }
  }

  lemma TiesShow(roots: seq<Root>, a: seq<Root>, i: nat, j: nat)
    requires roots != [] && AllAcceptable(roots) && SortedPermutation(CompareRoots, roots, a)
    requires i < j < |a| && a[i].generic == a[j].generic && BuildRoot(a[i]) != BuildRoot(a[j])
    ensures SortedPermutation(CompareRoots, roots, Swapped(a, i, j)) && OverlayOf(a) != OverlayOf(Swapped(a, i, j))
  {
    var b := Swapped(a, i, j);
    SwappedSorted(a, i, j);
    AcceptableInOrder(roots, a);
    AcceptableInOrder(roots, b);
    OverlayReadsBack(a);
    OverlayReadsBack(b);
    var treesA, treesB := BuildRoots(a).value, BuildRoots(b).value;
    assert treesA[i] != treesB[i];
    DifferentTreesDifferentText(treesA, treesB);
  }

  lemma DifferentTreesDifferentText(a: seq<Tree>, b: seq<Tree>)
    requires a != [] && b != [] && a != b
    ensures PrintOverlay(a) != PrintOverlay(b)
  {
    if PrintOverlay(a) == PrintOverlay(b) {
      OverlayTextInjective(a, b);
    }
  }

  lemma AcceptableInOrder(roots: seq<Root>, a: seq<Root>)
    requires AllAcceptable(roots) && multiset(roots) == multiset(a)
    ensures forall i :: 0 <= i < |a| ==> Acceptable(a[i].node)
  {
    forall i | 0 <= i < |a|
      ensures Acceptable(a[i].node)
    {
      assert a[i] in multiset(roots);
    }
  }
}
