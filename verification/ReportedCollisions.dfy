/** Which collision makes a directory ambiguous: the names in the error, told from the directory alone. */
module ReportedCollisions {
  import opened CStrings
  import opened Sorting
  import opened PreferredEntries
  import opened CaseFolding

  /** The entry folds like no other, or like one that is without capitals. */
  ghost predicate Decided(s: seq<Entry>, start: nat, k: nat)
    requires start <= k < |s|
  {
    || (forall m :: start <= m < |s| && s[m].folded == s[k].folded ==> m == k)
    || HasLower(s, start, s[k].folded)
  }

  ghost predicate ReportedAt(s: seq<Entry>, start: nat, i: nat) {
    && start <= i && i + 1 < |s| && s[i].folded == s[i + 1].folded
    && !HasLower(s, start, s[i].folded)
    && forall k :: start <= k < i ==> Decided(s, start, k)
  }

  lemma {:induction false} ClashReported(s: seq<Entry>, start: nat) returns (i: nat)
    requires Contiguous(s) && start <= |s| && FirstClash(s, start).Some?
    ensures ReportedAt(s, start, i) && FirstClash(s, start) == Some((s[i].name, s[i + 1].name))
    decreases |s| - start
  {
    var end := RunEnd(s, start, start + 1);
    if end - start > 1 && FindLower(s, start, end) == end {
      i := start;
      RunApart(s, start);
    } else {
      i := ClashReported(s, end);
      LowerIsLater(s, start, i);
      forall k | start <= k < i
        ensures Decided(s, start, k)
      {
        if k < end {
          FirstRunDecided(s, start, k);
        } else {
          LaterDecided(s, start, k);
        }
      }
    }
  }

  lemma LaterDecided(s: seq<Entry>, start: nat, k: nat)
    requires Contiguous(s) && start < |s| && RunEnd(s, start, start + 1) <= k < |s|
    requires Decided(s, RunEnd(s, start, start + 1), k)
    ensures Decided(s, start, k)
  {
    RunApart(s, start);
  }

  lemma FirstRunDecided(s: seq<Entry>, start: nat, k: nat)
    requires Contiguous(s) && start < |s| && start <= k < RunEnd(s, start, start + 1)
    requires var end := RunEnd(s, start, start + 1); end - start == 1 || FindLower(s, start, end) < end
    ensures Decided(s, start, k)
  {
    RunApart(s, start);
  }

  lemma IndexOfName(names: set<string>, s: seq<Entry>, n: string) returns (k: nat)
    requires EntriesOf(names, s) && n in names
    ensures k < |s| && s[k] == EntryOf(n)
  {
    assert EntryOf(n) in s;
    k :| 0 <= k < |s| && s[k] == EntryOf(n);
  }

  lemma NameAt(names: set<string>, s: seq<Entry>, k: nat)
    requires EntriesOf(names, s) && k < |s|
    ensures s[k].name in names && s[k] == EntryOf(s[k].name)
  {
    assert s[k] in s;
  }

  lemma LowerByLetters(names: set<string>, s: seq<Entry>, n: string)
    requires EntriesOf(names, s)
    ensures HasLower(s, 0, Fold(n)) <==> exists m :: m in names && SameLetters(m, n) && NoCapital(m)
  {
    FoldedIsThere(names, n);
    FoldIdempotent(n);
    if Fold(n) in names {
      var k := IndexOfName(names, s, Fold(n));
      assert s[k].name == Fold(n) && s[k].folded == Fold(n);
    }
    if k :| 0 <= k < |s| && s[k].folded == Fold(n) && s[k].name == Fold(n) {
      NameAt(names, s, k);
    }
  }

  lemma LaterName(s: seq<Entry>, i: nat, k: nat)
    requires SortedBy(CompareEntries, s) && i < k < |s| && s[i].folded == s[k].folded && s[i].name != s[k].name
    ensures StrCmp(s[i].name, s[k].name) < 0
  {
    assert CompareEntries(s[i], s[k]) <= 0;
    StrCmpZero(s[i].folded, s[k].folded);
    StrCmpZero(s[i].name, s[k].name);
  }

  lemma DecidedWithOther(s: seq<Entry>, k: nat, m: nat)
    requires k < |s| && m < |s| && k != m && s[k].folded == s[m].folded
    ensures Decided(s, 0, k) ==> HasLower(s, 0, s[k].folded)
  {
  }

  lemma FirstOfClass(names: set<string>, s: seq<Entry>, i: nat)
    requires EntriesOf(names, s) && SortedBy(CompareEntries, s) && ReportedAt(s, 0, i)
    ensures var a, b := s[i].name, s[i + 1].name;
      && Undecided(names, a) && b in names && SameLetters(a, b) && StrCmp(a, b) < 0
      && forall n :: n in names && SameLetters(n, a) ==> n == a || n == b || StrCmp(b, n) < 0
  {
    var a, b := s[i].name, s[i + 1].name;
    NameAt(names, s, i);
    NameAt(names, s, i + 1);
    FoldsAlike(a, b);
    FoldsAlike(b, a);
    LowerByLetters(names, s, a);
    assert a != b;
    LaterName(s, i, i + 1);
    forall n | n in names && SameLetters(n, a) && n != a && n != b
      ensures StrCmp(b, n) < 0
    {
      FoldsAlike(n, a);
      var k := IndexOfName(names, s, n);
      DecidedWithOther(s, k, i);
      LaterName(s, i + 1, k);
    }
  }

  lemma UndecidedTwice(names: set<string>, s: seq<Entry>, n: string) returns (k: nat, j: nat)
    requires EntriesOf(names, s) && Undecided(names, n)
    ensures k < |s| && j < |s| && k != j && s[k].folded == s[j].folded == Fold(n)
    ensures !HasLower(s, 0, Fold(n))
  {
    var m :| m in names && m != n && SameLetters(m, n);
    FoldsAlike(m, n);
    k := IndexOfName(names, s, n);
    j := IndexOfName(names, s, m);
    LowerByLetters(names, s, n);
  }

  lemma LaterClass(names: set<string>, s: seq<Entry>, i: nat, n: string)
    requires EntriesOf(names, s) && SortedBy(CompareEntries, s) && ReportedAt(s, 0, i)
    requires Undecided(names, n) && Fold(n) != s[i].folded
    ensures StrCmp(s[i].folded, Fold(n)) < 0
  {
    var k, j := UndecidedTwice(names, s, n);
    DecidedWithOther(s, k, j);
    SortedApart(s, i, k);
  }

  /**
   The two names reported are the first two, as bytes, of an undecided class, and every other
   undecided class comes later in the order of folded names.
   */
  lemma CollisionReported(names: set<string>)
    requires Collected(names).Failure?
    ensures var (a, b) := Collected(names).error;
      && Undecided(names, a) && b in names && SameLetters(a, b) && StrCmp(a, b) < 0
      && (forall n :: n in names && SameLetters(n, a) ==> n == a || n == b || StrCmp(b, n) < 0)
      && (forall n :: Undecided(names, n) && !SameLetters(n, a) ==> StrCmp(Fold(a), Fold(n)) < 0)
  {
    var s := SortedEntries(names);
    SortedIsContiguous(s);
    var i := ClashReported(s, 0);
    var a, b := s[i].name, s[i + 1].name;
    FirstOfClass(names, s, i);
    forall n | Undecided(names, n) && !SameLetters(n, a)
      ensures StrCmp(Fold(a), Fold(n)) < 0
    {
      FoldsAlike(n, a);
      LaterClass(names, s, i, n);
    }
  }
}
