/**
 Which spelling of each name a directory is listed under: what the sorted entries
 say about case collisions, and what collapsing each fold class keeps and drops.
 */
module PreferredEntries {
  import opened CStrings
  import opened Sorting

  datatype Entry = Entry(name: string, folded: string)

  function EntryOf(name: string): Entry {
    Entry(name, Fold(name))
  }

  function CompareEntries(a: Entry, b: Entry): int {
    var folded := StrCmp(a.folded, b.folded);
    if folded != 0 then folded else StrCmp(a.name, b.name)
  }

  lemma CompareEntriesIsTotal()
    ensures TotalPreorder(CompareEntries)
    ensures forall a, b :: CompareEntries(a, b) == 0 ==> a == b
  {
    forall a, b
      ensures Antisymmetric(CompareEntries, a, b)
      ensures CompareEntries(a, b) == 0 ==> a == b
    {
      StrCmpFlip(a.folded, b.folded);
      StrCmpFlip(a.name, b.name);
      StrCmpZero(a.folded, b.folded);
      StrCmpZero(a.name, b.name);
    }
    forall a, b, c
      ensures Transitive(CompareEntries, a, b, c)
    {
      CompareEntriesTransitive(a, b, c);
    }
  }

  lemma CompareEntriesTransitive(a: Entry, b: Entry, c: Entry)
    ensures Transitive(CompareEntries, a, b, c)
  {
    if CompareEntries(a, b) <= 0 && CompareEntries(b, c) <= 0 {
      StrCmpTransitive(a.folded, b.folded, c.folded);
      StrCmpZero(a.folded, b.folded);
      StrCmpZero(b.folded, c.folded);
      StrCmpZero(a.folded, c.folded);
      if a.folded == c.folded {
        StrCmpFlip(a.folded, b.folded);
        StrCmpTransitive(a.name, b.name, c.name);
      }
    }
  }

  // ---------- fold classes in a sequence of entries ----------

  /** Where the run of entries folding like s[start] ends, searching from `end`. */
  function RunEnd(s: seq<Entry>, start: nat, end: nat): (r: nat)
    requires start < end <= |s|
    ensures end <= r <= |s|
    ensures forall i :: end <= i < r ==> s[i].folded == s[start].folded
    ensures r < |s| ==> s[r].folded != s[start].folded
    decreases |s| - end
  {
    if end < |s| && s[start].folded == s[end].folded then RunEnd(s, start, end + 1) else end
  }

  /** The first all-lowercase entry in s[i..end], or `end`. */
  function FindLower(s: seq<Entry>, i: nat, end: nat): (r: nat)
    requires i <= end <= |s|
    ensures i <= r <= end
    ensures r < end ==> s[r].name == s[r].folded
    ensures forall k :: i <= k < r ==> s[k].name != s[k].folded
    decreases end - i
  {
    if i == end || s[i].name == s[i].folded then i else FindLower(s, i + 1, end)
  }

  function Selected(s: seq<Entry>, start: nat, end: nat): (r: nat)
    requires start < end <= |s|
    ensures start <= r < end
  {
    var lower := FindLower(s, start, end);
    if lower == end then start else lower
  }

  /** The names reported for the first class that has several members and no lowercase one. */
  function FirstClash(s: seq<Entry>, start: nat): Option<(string, string)>
    requires start <= |s|
    decreases |s| - start
  {
    if start == |s| then None
    else
      var end := RunEnd(s, start, start + 1);
      if end - start > 1 && FindLower(s, start, end) == end then Some((s[start].name, s[start + 1].name))
      else FirstClash(s, end)
  }

  /** One entry per run, from `start` on. */
  function Collapsed(s: seq<Entry>, start: nat): seq<Entry>
    requires start <= |s|
    decreases |s| - start
  {
    if start == |s| then []
    else
      var end := RunEnd(s, start, start + 1);
      [s[Selected(s, start, end)]] + Collapsed(s, end)
  }

  /** The entries that collapsing drops, from `start` on. */
  function Dropped(s: seq<Entry>, start: nat): seq<Entry>
    requires start <= |s|
    decreases |s| - start
  {
    if start == |s| then []
    else
      var end := RunEnd(s, start, start + 1);
      var selected := Selected(s, start, end);
      s[start..selected] + s[selected + 1..end] + Dropped(s, end)
  }

  lemma SplitRun(s: seq<Entry>, start: nat, k: nat, end: nat)
    requires start <= k < end <= |s|
    ensures multiset(s[start..]) == multiset([s[k]]) + multiset(s[start..k] + s[k + 1..end]) + multiset(s[end..])
  {
    assert s[start..] == s[start..k] + [s[k]] + s[k + 1..end] + s[end..];
  }

  lemma AddRun(kept: seq<Entry>, dropped: seq<Entry>, all: seq<Entry>, x: Entry, laterKept: seq<Entry>,
               others: seq<Entry>, laterDropped: seq<Entry>, rest: seq<Entry>)
    requires kept == [x] + laterKept && dropped == others + laterDropped
    requires multiset(laterKept) + multiset(laterDropped) == multiset(rest)
    requires multiset(all) == multiset([x]) + multiset(others) + multiset(rest)
    ensures multiset(kept) + multiset(dropped) == multiset(all)
  {
  }

  lemma FirstRun(s: seq<Entry>, start: nat)
    requires start < |s|
    ensures var end := RunEnd(s, start, start + 1); var selected := Selected(s, start, end);
      && Collapsed(s, start) == [s[selected]] + Collapsed(s, end)
      && Dropped(s, start) == s[start..selected] + s[selected + 1..end] + Dropped(s, end)
  {
  }

  /** Every entry is either kept or dropped, and none is both: each string has exactly one owner. */
  lemma {:induction false} KeptPlusDropped(s: seq<Entry>, start: nat)
    requires start <= |s|
    ensures multiset(Collapsed(s, start)) + multiset(Dropped(s, start)) == multiset(s[start..])
    decreases |s| - start
  {
    if start < |s| {
      var end := RunEnd(s, start, start + 1);
      var selected := Selected(s, start, end);
      KeptPlusDropped(s, end);
      SplitRun(s, start, selected, end);
      FirstRun(s, start);
      AddRun(Collapsed(s, start), Dropped(s, start), s[start..], s[selected], Collapsed(s, end),
             s[start..selected] + s[selected + 1..end], Dropped(s, end), s[end..]);
    } else {
      assert s[start..] == [] && Collapsed(s, start) == [] && Dropped(s, start) == [];
    }
  }

  // ---------- what a directory's names mean ----------

  /** Two different names fold alike and their lowercase spelling is not there to be preferred. */
  ghost predicate Ambiguous(names: set<string>) {
    exists a, b :: a in names && b in names && a != b && Fold(a) == Fold(b) && Fold(a) !in names
  }

  /** The lowercase spelling, or the only member of its fold class. */
  ghost predicate Preferred(names: set<string>, n: string) {
    n in names && (n == Fold(n) || forall m :: m in names && Fold(m) == Fold(n) ==> m == n)
  }

  ghost predicate NoDuplicates<T>(s: seq<T>) {
    forall i, j :: 0 <= i < j < |s| ==> s[i] != s[j]
  }

  /** The entries of a directory holding exactly these names, in some order. */
  ghost predicate EntriesOf(names: set<string>, s: seq<Entry>) {
    NoDuplicates(s) && forall e :: e in s <==> e.name in names && e == EntryOf(e.name)
  }

  lemma {:induction false} MultiplicityOfDistinct<T>(s: seq<T>, x: T)
    requires NoDuplicates(s)
    ensures multiset(s)[x] == if x in s then 1 else 0
  {
    if s != [] {
      MultiplicityOfDistinct(s[1..], x);
      assert s == [s[0]] + s[1..];
    }
  }

  lemma SameEntries(names: set<string>, s: seq<Entry>, t: seq<Entry>)
    requires EntriesOf(names, s) && EntriesOf(names, t)
    ensures multiset(s) == multiset(t)
  {
    forall e
      ensures multiset(s)[e] == multiset(t)[e]
    {
      MultiplicityOfDistinct(s, e);
      MultiplicityOfDistinct(t, e);
    }
  }

  ghost function SomeListing(names: set<string>): (s: seq<Entry>)
    ensures EntriesOf(names, s)
  {
    if names == {} then [] else
      var n :| n in names;
      [EntryOf(n)] + SomeListing(names - {n})
  }

  lemma PermutedEntries(names: set<string>, s: seq<Entry>, t: seq<Entry>)
    requires EntriesOf(names, s) && multiset(s) == multiset(t)
    ensures EntriesOf(names, t)
  {
    forall e
      ensures e in s <==> e in t
    {
      assert e in s <==> e in multiset(s);
    }
    forall i, j | 0 <= i < j < |t|
      ensures t[i] != t[j]
    {
      assert t == t[..i] + [t[i]] + t[i + 1..j] + [t[j]] + t[j + 1..];
      MultiplicityOfDistinct(s, t[i]);
    }
  }

  /** The directory's entries in qsort order. */
  ghost function SortedEntries(names: set<string>): (s: seq<Entry>)
    ensures EntriesOf(names, s) && SortedBy(CompareEntries, s)
  {
    var s := SomeListing(names);
    CompareEntriesIsTotal();
    InsertionSortSorts(CompareEntries, s);
    PermutedEntries(names, s, InsertionSort(CompareEntries, s));
    InsertionSort(CompareEntries, s)
  }

  /** Whatever order the directory was read in, sorting gives the same sequence. */
  lemma SortedEntriesUnique(names: set<string>, s: seq<Entry>)
    requires EntriesOf(names, s) && SortedBy(CompareEntries, s)
    ensures s == SortedEntries(names)
  {
    CompareEntriesIsTotal();
    SameEntries(names, s, SortedEntries(names));
    SortedPermutationIsUnique(CompareEntries, s, SortedEntries(names));
  }

  /** The entries a directory is listed under, or the two names that make it ambiguous. */
  ghost function Collected(names: set<string>): Result<seq<Entry>, (string, string)> {
    var s := SortedEntries(names);
    match FirstClash(s, 0)
    case Some(clash) => Failure(clash)
    case None => Success(Collapsed(s, 0))
  }

  // ---------- sorted runs are fold classes ----------

  /** Entries that fold alike are next to each other. */
  ghost predicate Contiguous(s: seq<Entry>) {
    forall i, m, j :: 0 <= i <= m <= j < |s| && s[i].folded == s[j].folded ==> s[m].folded == s[i].folded
  }

  lemma SortedIsContiguous(s: seq<Entry>)
    requires SortedBy(CompareEntries, s)
    ensures Contiguous(s)
  {
    forall i, m, j | 0 <= i < m < j < |s| && s[i].folded == s[j].folded
      ensures s[m].folded == s[i].folded
    {
      assert CompareEntries(s[i], s[m]) <= 0 && CompareEntries(s[m], s[j]) <= 0;
      StrCmpFlip(s[i].folded, s[m].folded);
      StrCmpZero(s[i].folded, s[m].folded);
    }
  }

  lemma RunApart(s: seq<Entry>, start: nat)
    requires Contiguous(s) && start < |s|
    ensures var end := RunEnd(s, start, start + 1);
      forall i, k :: start <= i < end <= k < |s| ==> s[i].folded != s[k].folded
  {
    var end := RunEnd(s, start, start + 1);
    assert end < |s| ==> s[end].folded != s[start].folded;
  }

  lemma {:induction false} CollapsedFrom(s: seq<Entry>, start: nat)
    requires start <= |s|
    ensures forall e :: e in Collapsed(s, start) ==> e in s[start..]
    decreases |s| - start
  {
    if start < |s| {
      var end := RunEnd(s, start, start + 1);
      CollapsedFrom(s, end);
      assert s[end..] == s[start..][end - start..];
      assert s[Selected(s, start, end)] == s[start..][Selected(s, start, end) - start];
    }
  }

  ghost predicate StrictlyIncreasing(s: seq<Entry>) {
    forall i, j :: 0 <= i < j < |s| ==> StrCmp(s[i].folded, s[j].folded) < 0
  }

  lemma PrependIncreasing(e: Entry, s: seq<Entry>)
    requires StrictlyIncreasing(s) && forall x :: x in s ==> StrCmp(e.folded, x.folded) < 0
    ensures StrictlyIncreasing([e] + s)
  {
  }

  lemma SortedApart(s: seq<Entry>, i: nat, k: nat)
    requires SortedBy(CompareEntries, s) && i < k < |s| && s[i].folded != s[k].folded
    ensures StrCmp(s[i].folded, s[k].folded) < 0
  {
    assert CompareEntries(s[i], s[k]) <= 0;
    StrCmpZero(s[i].folded, s[k].folded);
  }

  lemma {:induction false} CollapsedIncreasing(s: seq<Entry>, start: nat)
    requires SortedBy(CompareEntries, s) && Contiguous(s) && start <= |s|
    ensures StrictlyIncreasing(Collapsed(s, start))
    decreases |s| - start
  {
    if start < |s| {
      var end := RunEnd(s, start, start + 1);
      CollapsedIncreasing(s, end);
      CollapsedFrom(s, end);
      RunApart(s, start);
      var selected, rest := Selected(s, start, end), Collapsed(s, end);
      forall x | x in rest
        ensures StrCmp(s[selected].folded, x.folded) < 0
      {
        var k :| end <= k < |s| && s[k] == x;
        SortedApart(s, selected, k);
      }
      PrependIncreasing(s[selected], rest);
    }
  }

  ghost predicate HasLower(s: seq<Entry>, start: nat, folded: string) {
    exists k :: start <= k < |s| && s[k].folded == folded && s[k].name == folded
  }

  /** Every class with two members from `start` on has a lowercase one there. */
  ghost predicate ClashFree(s: seq<Entry>, start: nat) {
    forall i, j :: start <= i < j < |s| && s[i].folded == s[j].folded ==> HasLower(s, start, s[i].folded)
  }

  lemma ClashFreeStep(s: seq<Entry>, start: nat, end: nat, lower: nat)
    requires start < end <= |s| && ClashFree(s, end)
    requires end - start > 1 ==> start <= lower < end && s[lower].name == s[lower].folded
    requires forall i :: start <= i < end ==> s[i].folded == s[start].folded
    requires forall i, k :: start <= i < end <= k < |s| ==> s[i].folded != s[k].folded
    ensures ClashFree(s, start)
  {
    forall i, j | start <= i < j < |s| && s[i].folded == s[j].folded
      ensures HasLower(s, start, s[i].folded)
    {
      if i < end {
        assert s[lower].folded == s[i].folded;
      } else {
        assert HasLower(s, end, s[i].folded);
      }
    }
  }

  /** A lowercase member of a later class is not in the first run. */
  lemma LowerIsLater(s: seq<Entry>, start: nat, i: nat)
    requires Contiguous(s) && start < |s| && RunEnd(s, start, start + 1) <= i < |s|
    ensures HasLower(s, start, s[i].folded) ==> HasLower(s, RunEnd(s, start, start + 1), s[i].folded)
  {
    RunApart(s, start);
  }

  lemma {:induction false} ClashMeaning(s: seq<Entry>, start: nat)
    requires Contiguous(s) && start <= |s|
    ensures FirstClash(s, start).None? <==> ClashFree(s, start)
    decreases |s| - start
  {
    if start < |s| {
      var end := RunEnd(s, start, start + 1);
      ClashMeaning(s, end);
      RunApart(s, start);
      var lower := FindLower(s, start, end);
      if end - start > 1 && lower == end {
        assert s[start].folded == s[start + 1].folded;
        assert !HasLower(s, start, s[start].folded);
      } else if ClashFree(s, end) {
        ClashFreeStep(s, start, end, lower);
      } else {
        var i, j :| end <= i < j < |s| && s[i].folded == s[j].folded && !HasLower(s, end, s[i].folded);
        LowerIsLater(s, start, i);
      }
    }
  }

  ghost predicate PreferredIn(s: seq<Entry>, start: nat, e: Entry) {
    e.name == e.folded || forall k :: start <= k < |s| && s[k].folded == e.folded ==> s[k] == e
  }

  lemma SelectedIsPreferred(s: seq<Entry>, start: nat, j: nat)
    requires Contiguous(s) && NoDuplicates(s) && start < |s| && FirstClash(s, start).None?
    requires forall i :: 0 <= i < |s| ==> s[i] == EntryOf(s[i].name)
    requires start <= j < RunEnd(s, start, start + 1)
    ensures j == Selected(s, start, RunEnd(s, start, start + 1)) <==> PreferredIn(s, start, s[j])
  {
    var end := RunEnd(s, start, start + 1);
    var selected := Selected(s, start, end);
    RunApart(s, start);
    if j != selected {
      assert s[selected].folded == s[j].folded && s[selected] != s[j];
    }
  }

  lemma {:induction false} CollapsedMeaning(s: seq<Entry>, start: nat, j: nat)
    requires Contiguous(s) && NoDuplicates(s) && start <= j < |s| && FirstClash(s, start).None?
    requires forall i :: 0 <= i < |s| ==> s[i] == EntryOf(s[i].name)
    ensures s[j] in Collapsed(s, start) <==> PreferredIn(s, start, s[j])
    decreases |s| - start
  {
    var end := RunEnd(s, start, start + 1);
    RunApart(s, start);
    if j < end {
      CollapsedFrom(s, end);
      assert s[j] !in s[end..];
      SelectedIsPreferred(s, start, j);
    } else {
      CollapsedMeaning(s, end, j);
    }
  }

  /** What is kept, as a condition on names: the preferred ones. */
  lemma CollectedNames(names: set<string>)
    ensures Collected(names).Success? <==> !Ambiguous(names)
    ensures Collected(names).Success? ==>
      var kept := Collected(names).value;
      && StrictlyIncreasing(kept)
      && (forall e :: e in kept <==> Preferred(names, e.name) && e == EntryOf(e.name))
  {
    var s := SortedEntries(names);
    SortedIsContiguous(s);
    ClashMeaning(s, 0);
    NamesOfEntries(names, s);
    AmbiguousEntries(names, s);
    if Collected(names).Success? {
      CollapsedIncreasing(s, 0);
      CollapsedFrom(s, 0);
      forall e
        ensures e in Collapsed(s, 0) <==> Preferred(names, e.name) && e == EntryOf(e.name)
      {
        if e in s {
          var j :| 0 <= j < |s| && s[j] == e;
          CollapsedMeaning(s, 0, j);
          PreferredEntry(names, s, e);
        }
      }
    }
  }

  /** Every name of a directory without ambiguity folds like a preferred one. */
  lemma ClassHasPreferred(names: set<string>, n: string) returns (m: string)
    requires !Ambiguous(names) && n in names
    ensures Preferred(names, m) && Fold(m) == Fold(n)
  {
    FoldIdempotent(n);
    m := if Fold(n) in names then Fold(n) else n;
  }

  /**
   Collecting fails exactly on ambiguous directories. Otherwise it keeps the preferred
   names and nothing else, strictly increasing in folded name, one for every fold class.
   */
  lemma CollectedMeaning(names: set<string>)
    ensures Collected(names).Success? <==> !Ambiguous(names)
    ensures Collected(names).Success? ==>
      var kept := Collected(names).value;
      && StrictlyIncreasing(kept)
      && (forall e :: e in kept <==> Preferred(names, e.name) && e == EntryOf(e.name))
      && (forall n :: n in names ==> exists e :: e in kept && e.folded == Fold(n))
  {
    CollectedNames(names);
    if Collected(names).Success? {
      forall n | n in names
        ensures exists e :: e in Collected(names).value && e.folded == Fold(n)
      {
        var m := ClassHasPreferred(names, n);
        assert EntryOf(m) in Collected(names).value;
      }
    }
  }

  /** Only names of the directory are kept. */
  lemma KeptAreNames(names: set<string>)
    ensures Collected(names).Success? ==> forall e :: e in Collected(names).value ==> e.name in names
  {
    CollectedNames(names);
  }

  lemma NamesOfEntries(names: set<string>, s: seq<Entry>)
    requires EntriesOf(names, s)
    ensures forall n :: n in names <==> EntryOf(n) in s
    ensures forall i :: 0 <= i < |s| ==> s[i].name in names && s[i] == EntryOf(s[i].name)
  {
    forall n
      ensures n in names <==> EntryOf(n) in s
    {
      assert EntryOf(n).name == n;
    }
  }

  lemma PreferredEntry(names: set<string>, s: seq<Entry>, e: Entry)
    requires EntriesOf(names, s) && e in s
    ensures PreferredIn(s, 0, e) <==> Preferred(names, e.name)
  {
    NamesOfEntries(names, s);
    if Preferred(names, e.name) {
    } else {
      var m :| m in names && Fold(m) == Fold(e.name) && m != e.name;
      var k :| 0 <= k < |s| && s[k] == EntryOf(m);
    }
  }

  lemma AmbiguousEntries(names: set<string>, s: seq<Entry>)
    requires EntriesOf(names, s)
    ensures Ambiguous(names) <==> !ClashFree(s, 0)
  {
    NamesOfEntries(names, s);
    forall f
      ensures HasLower(s, 0, f) <==> f in names && f == Fold(f)
    {
      if f in names && f == Fold(f) {
        assert EntryOf(f) in s;
      }
    }
    if Ambiguous(names) {
      var a, b :| a in names && b in names && a != b && Fold(a) == Fold(b) && Fold(a) !in names;
      var i :| 0 <= i < |s| && s[i] == EntryOf(a);
      var j :| 0 <= j < |s| && s[j] == EntryOf(b);
      assert !HasLower(s, 0, s[i].folded) && !HasLower(s, 0, s[j].folded);
      assert i < j || j < i;
    } else {
      forall i, j | 0 <= i < j < |s| && s[i].folded == s[j].folded
        ensures HasLower(s, 0, s[i].folded)
      {
        FoldIdempotent(s[i].name);
      }
    }
  }
}
