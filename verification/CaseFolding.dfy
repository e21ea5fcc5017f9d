/**
 What folding case means for the bytes of a name: the letters from A to Z stand for those 32
 higher, and nothing else changes. Collisions, preferred names and lookups in these terms.
 */
module CaseFolding {
  import opened CStrings
  import opened PreferredEntries
  import opened VfsTree

  /** A capital letter by its byte. */
  predicate Capital(c: char) {
    65 <= c as int <= 90
  }

  /** The same byte, or the two cases of a letter. */
  predicate SameLetter(c: char, d: char) {
    c == d || (Capital(c) && d as int == c as int + 32) || (Capital(d) && c as int == d as int + 32)
  }

  predicate SameLetters(a: string, b: string) {
    |a| == |b| && forall i :: 0 <= i < |a| ==> SameLetter(a[i], b[i])
  }

  predicate NoCapital(s: string) {
    forall i :: 0 <= i < |s| ==> !Capital(s[i])
  }

  lemma ToLowerByByte(c: char)
    ensures ToLower(c) as int == if 65 <= c as int <= 90 then c as int + 32 else c as int
  {
  }

  lemma FoldByByte(s: string)
    ensures |Fold(s)| == |s|
    ensures forall i :: 0 <= i < |s| ==> Fold(s)[i] as int == if Capital(s[i]) then s[i] as int + 32 else s[i] as int
    ensures Fold(s) == s <==> NoCapital(s)
  {
    forall i | 0 <= i < |s|
      ensures Fold(s)[i] as int == if Capital(s[i]) then s[i] as int + 32 else s[i] as int
    {
      ToLowerByByte(s[i]);
    }
  }

  /** Two names fold alike exactly when they differ at most in the case of letters. */
  lemma FoldsAlike(a: string, b: string)
    ensures Fold(a) == Fold(b) <==> SameLetters(a, b)
  {
    FoldByByte(a);
    FoldByByte(b);
    if SameLetters(a, b) {
      forall i | 0 <= i < |a|
        ensures Fold(a)[i] == Fold(b)[i]
      {
        assert SameLetter(a[i], b[i]);
      }
    } else if |a| == |b| {
      var i :| 0 <= i < |a| && !SameLetter(a[i], b[i]);
      assert Fold(a)[i] != Fold(b)[i];
    }
  }

  // ---------- collisions and preferred names ----------

  ghost predicate Collides(names: set<string>, n: string) {
    exists m :: m in names && m != n && SameLetters(m, n)
  }

  /** A name that collides with another, where no spelling without capitals is there. */
  ghost predicate Undecided(names: set<string>, n: string) {
    n in names && Collides(names, n) && forall m :: m in names && SameLetters(m, n) ==> !NoCapital(m)
  }

  ghost predicate ListedAs(kept: seq<Entry>, n: string) {
    exists e :: e in kept && e.name == n
  }

  /**
   Collecting fails exactly when some names collide and none of them is without capitals.
   Otherwise it keeps the names without capitals and those that collide with none.
   */
  lemma CollectedByLetters(names: set<string>)
    ensures Collected(names).Failure? <==> exists n :: Undecided(names, n)
    ensures Collected(names).Success? ==>
      forall n :: ListedAs(Collected(names).value, n) <==> n in names && (NoCapital(n) || !Collides(names, n))
  {
    CollectedNames(names);
    AmbiguousByLetters(names);
    if Collected(names).Success? {
      var kept := Collected(names).value;
      forall n
        ensures ListedAs(kept, n) <==> n in names && (NoCapital(n) || !Collides(names, n))
      {
        PreferredByLetters(names, n);
        ListedIfPreferred(names, kept, n);
      }
    }
  }

  lemma ListedIfPreferred(names: set<string>, kept: seq<Entry>, n: string)
    requires forall e :: e in kept <==> Preferred(names, e.name) && e == EntryOf(e.name)
    ensures ListedAs(kept, n) <==> Preferred(names, n)
  {
    if Preferred(names, n) {
      assert EntryOf(n) in kept;
    }
  }

  lemma FoldedIsThere(names: set<string>, n: string)
    ensures Fold(n) in names <==> exists m :: m in names && SameLetters(m, n) && NoCapital(m)
  {
    FoldIdempotent(n);
    FoldsAlike(Fold(n), n);
    FoldByByte(Fold(n));
    forall m | m in names && SameLetters(m, n) && NoCapital(m)
      ensures m == Fold(n)
    {
      FoldsAlike(m, n);
      FoldByByte(m);
    }
  }

  lemma AmbiguousByLetters(names: set<string>)
    ensures Ambiguous(names) <==> exists n :: Undecided(names, n)
  {
    if a, b :| a in names && b in names && a != b && Fold(a) == Fold(b) && Fold(a) !in names {
      FoldsAlike(b, a);
      FoldedIsThere(names, a);
      assert Undecided(names, a);
    }
    if n :| Undecided(names, n) {
      var m :| m in names && m != n && SameLetters(m, n);
      FoldsAlike(m, n);
      FoldedIsThere(names, n);
    }
  }

  lemma PreferredByLetters(names: set<string>, n: string)
    ensures Preferred(names, n) <==> n in names && (NoCapital(n) || !Collides(names, n))
  {
    FoldByByte(n);
    forall m | m in names
      ensures Fold(m) == Fold(n) <==> SameLetters(m, n)
    {
      FoldsAlike(m, n);
    }
  }

  lemma CapitalFreeSame(a: string, b: string)
    requires SameLetters(a, b) && NoCapital(a) && NoCapital(b)
    ensures a == b
  {
    forall i | 0 <= i < |a|
      ensures a[i] == b[i]
    {
      assert SameLetter(a[i], b[i]);
    }
  }

  /** Of two spellings, one of them without capitals, only that one is listed. */
  lemma TwoSpellings(upper: string, lower: string)
    requires SameLetters(upper, lower) && upper != lower && NoCapital(lower)
    ensures Collected({upper, lower}) == Success([EntryOf(lower)])
  {
    var names := {upper, lower};
    if NoCapital(upper) {
      CapitalFreeSame(upper, lower);
    }
    FoldsAlike(upper, lower);
    FoldByByte(lower);
    FoldedWins(upper, lower);
    CollectedNames(names);
    var kept := Collected(names).value;
    forall e | e in kept
      ensures e == EntryOf(lower)
    {
      assert Preferred(names, e.name);
    }
    assert EntryOf(lower) in kept;
    OnlyEntry(kept, EntryOf(lower));
  }

  lemma FoldedWins(upper: string, lower: string)
    requires Fold(upper) == lower && Fold(lower) == lower && upper != lower
    ensures !Ambiguous({upper, lower})
    ensures forall n :: Preferred({upper, lower}, n) <==> n == lower
  {
    var names := {upper, lower};
    assert upper in names && lower in names;
  }

  lemma OnlyEntry(kept: seq<Entry>, e: Entry)
    requires StrictlyIncreasing(kept) && e in kept && forall x :: x in kept ==> x == e
    ensures kept == [e]
  {
    if |kept| > 1 {
      assert kept[0] in kept && kept[1] in kept;
      StrCmpZero(e.folded, e.folded);
    }
  }

  /** A header that is there in two spellings is listed without the capital. */
  lemma BothHeaders()
    ensures Collected({"Windows.h", "windows.h"}) == Success([EntryOf("windows.h")])
  {
    var upper, lower := "Windows.h", "windows.h";
    assert upper[0] as int == 87 && lower[0] as int == 119;
    assert forall i :: 0 < i < 9 ==> upper[i] == lower[i];
    TwoSpellings(upper, lower);
  }

  // ---------- lookups ----------

  lemma VariantByLetters(a: seq<string>, b: seq<string>)
    ensures CaseVariant(a, b) <==> |a| == |b| && forall i :: 0 <= i < |a| ==> SameLetters(a[i], b[i])
  {
    forall i | 0 <= i < |a| && i < |b|
      ensures Fold(a[i]) == Fold(b[i]) <==> SameLetters(a[i], b[i])
    {
      FoldsAlike(a[i], b[i]);
    }
  }

  /** Whatever letters of a file's path are written in the other case, the lookup finds the file and nothing else. */
  lemma AnyCaseResolves(path: string, name: string, node: Node, names: seq<string>, query: seq<string>)
    requires BuildDirectory(path, name, node).Success?
    requires Reach(node, names).Some? && IsRegularFile(Reach(node, names).value)
    requires |names| == |query| && forall i :: 0 <= i < |names| ==> SameLetters(names[i], query[i])
    ensures forall x ::
      Finds(BuildDirectory(path, name, node).value, query, x) <==> x == GenericPath(JoinAll(path, names))
  {
    VariantByLetters(names, query);
    EveryCaseVariantResolves(path, name, node, names, query);
  }

  /** The names reach a regular file, and are the query but for the case of letters. */
  ghost predicate Spelled(node: Node, names: seq<string>, query: seq<string>) {
    && Reach(node, names).Some? && IsRegularFile(Reach(node, names).value)
    && |names| == |query| && forall i :: 0 <= i < |names| ==> SameLetters(names[i], query[i])
  }

  /** And only such spellings find it. */
  lemma FoundByLetters(path: string, name: string, node: Node, query: seq<string>, external: string)
    requires BuildDirectory(path, name, node).Success?
    requires Finds(BuildDirectory(path, name, node).value, query, external)
    ensures exists names :: Spelled(node, names, query) && external == GenericPath(JoinAll(path, names))
  {
    RootLookup(path, name, node, query, external);
    ResolvedBySpelling(path, node, query, external);
  }

  lemma ResolvedBySpelling(path: string, node: Node, query: seq<string>, external: string)
    requires Resolves(path, node, query, external)
    ensures exists names :: Spelled(node, names, query) && external == GenericPath(JoinAll(path, names))
  {
    var names: seq<string>, n :| Reach(node, names) == Some(n) && IsRegularFile(n) && CaseVariant(names, query) &&
      external == GenericPath(JoinAll(path, names));
    VariantByLetters(names, query);
    assert Spelled(node, names, query);
  }
}
