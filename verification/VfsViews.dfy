/** When two directories of one spelling are shown by the same tree: when they look the same. */
module VfsViews {
  import opened CStrings
  import opened PreferredEntries
  import StringSets
  import opened VfsTree

  /** Nothing in both places, or a directory in both, or no directory in either. */
  ghost predicate SameKind(a: Option<Node>, b: Option<Node>) {
    match (a, b)
    case (None, None) => true
    case (Some(m), Some(n)) => m.Directory? <==> n.Directory?
    case _ => false
  }

  /** Every list of names leads, through preferred entries, to the same kind of thing. */
  ghost predicate SameView(x: Node, y: Node) {
    forall names: seq<string> :: SameKind(Reach(x, names), Reach(y, names))
  }

  lemma SameViewHere(x: Node, y: Node)
    requires SameView(x, y)
    ensures x.Directory? <==> y.Directory?
  {
    assert SameKind(Reach(x, []), Reach(y, []));
  }

  lemma ReachThrough(x: Node, n: string, names: seq<string>)
    requires x.Directory?
    ensures Reach(x, [n] + names) == if Preferred(x.entries.Keys, n) then Reach(x.entries[n], names) else None
  {
    assert ([n] + names)[0] == n && ([n] + names)[1..] == names;
  }

  lemma SameViewBelow(x: Node, y: Node, n: string)
    requires SameView(x, y) && x.Directory? && y.Directory?
    ensures Preferred(x.entries.Keys, n) <==> Preferred(y.entries.Keys, n)
    ensures Preferred(x.entries.Keys, n) ==> SameView(x.entries[n], y.entries[n])
  {
    ReachThrough(x, n, []);
    ReachThrough(y, n, []);
    assert SameKind(Reach(x, [n] + []), Reach(y, [n] + []));
    if Preferred(x.entries.Keys, n) {
      forall names: seq<string>
        ensures SameKind(Reach(x.entries[n], names), Reach(y.entries[n], names))
      {
        ReachThrough(x, n, names);
        ReachThrough(y, n, names);
        assert SameKind(Reach(x, [n] + names), Reach(y, [n] + names));
      }
    }
  }

  function FoldedNames(s: seq<Entry>): seq<string> {
    seq(|s|, i requires 0 <= i < |s| => s[i].folded)
  }

  lemma FoldedElements(s: seq<Entry>, t: seq<Entry>)
    requires forall e :: e in s ==> e in t
    ensures StringSets.ElementsOf(FoldedNames(s)) <= StringSets.ElementsOf(FoldedNames(t))
  {
    forall f | f in FoldedNames(s)
      ensures f in FoldedNames(t)
    {
      var i :| 0 <= i < |s| && FoldedNames(s)[i] == f;
      assert s[i] in t;
      var j :| 0 <= j < |t| && t[j] == s[i];
      assert FoldedNames(t)[j] == f;
    }
  }

  /** What is kept has only one order. */
  lemma KeptUnique(s: seq<Entry>, t: seq<Entry>)
    requires StrictlyIncreasing(s) && StrictlyIncreasing(t) && forall e :: e in s <==> e in t
    ensures s == t
  {
    FoldedElements(s, t);
    FoldedElements(t, s);
    StringSets.IncreasingUnique(FoldedNames(s), FoldedNames(t));
    assert |s| == |FoldedNames(s)| == |t|;
    forall i | 0 <= i < |s|
      ensures s[i] == t[i]
    {
      assert s[i] in t;
      var j :| 0 <= j < |t| && t[j] == s[i];
      assert FoldedNames(s)[i] == FoldedNames(t)[i];
      StrCmpZero(t[i].folded, t[j].folded);
    }
  }

  lemma SameKept(x: Node, y: Node)
    requires x.Directory? && y.Directory? && Collected(x.entries.Keys).Success? && Collected(y.entries.Keys).Success?
    requires forall n :: Preferred(x.entries.Keys, n) <==> Preferred(y.entries.Keys, n)
    ensures Collected(x.entries.Keys) == Collected(y.entries.Keys)
  {
    CollectedNames(x.entries.Keys);
    CollectedNames(y.entries.Keys);
    KeptUnique(Collected(x.entries.Keys).value, Collected(y.entries.Keys).value);
  }

  lemma GenericConcat(a: string, b: string)
    ensures GenericPath(a + b) == GenericPath(a) + GenericPath(b)
  {
  }

  /** Joining the same name keeps the generic spellings the same. */
  lemma JoinSpelledAlike(p: string, q: string, n: string)
    requires GenericPath(p) == GenericPath(q)
    ensures GenericPath(JoinPath(p, n)) == GenericPath(JoinPath(q, n))
  {
    assert |p| == |GenericPath(p)| == |q|;
    if p != [] {
      assert GenericPath(p)[|p| - 1] == GenericPath(q)[|p| - 1];
    }
    GenericConcat(p, n);
    GenericConcat(q, n);
    GenericConcat(p, "/");
    GenericConcat(q, "/");
    GenericConcat(p + "/", n);
    GenericConcat(q + "/", n);
  }

  /** Places that look the same are shown by the same tree. */
  lemma {:induction false} SameViewSameTree(p: string, q: string, name: string, x: Node, y: Node)
    requires GenericPath(p) == GenericPath(q) && SameView(x, y)
    requires BuildEntry(p, name, x).Success? && BuildEntry(q, name, y).Success?
    ensures BuildEntry(p, name, x) == BuildEntry(q, name, y)
    decreases x
  {
    EntryName(p, name, x);
    EntryName(q, name, y);
    SameViewHere(x, y);
    if x.Directory? {
      DirectorySucceeds(p, name, x);
      DirectorySucceeds(q, name, y);
      forall n
        ensures Preferred(x.entries.Keys, n) <==> Preferred(y.entries.Keys, n)
      {
        SameViewBelow(x, y, n);
      }
      SameKept(x, y);
      CollectedNames(x.entries.Keys);
      var kept := Collected(x.entries.Keys).value;
      var xs, ys := BuildContents(p, x, kept).value, BuildContents(q, y, kept).value;
      forall i | 0 <= i < |kept|
        ensures xs[i] == ys[i]
      {
        var n := kept[i].name;
        assert kept[i] in kept;
        ContentsAt(p, x, kept, i);
        ContentsAt(q, y, kept, i);
        SameViewBelow(x, y, n);
        JoinSpelledAlike(p, q, n);
        SameViewSameTree(JoinPath(p, n), JoinPath(q, n), n, x.entries[n], y.entries[n]);
      }
      assert xs == ys;
    }
  }

  /** What it takes for a directory to be shown, and by what. */
  lemma DirectorySucceeds(path: string, name: string, node: Node)
    requires node.Directory? && BuildEntry(path, name, node).Success?
    ensures Collected(node.entries.Keys).Success?
    ensures forall e :: e in Collected(node.entries.Keys).value ==> e.name in node.entries
    ensures BuildContents(path, node, Collected(node.entries.Keys).value).Success?
    ensures BuildEntry(path, name, node).value ==
      Dir(name, BuildContents(path, node, Collected(node.entries.Keys).value).value)
  {
    KeptAreNames(node.entries.Keys);
    assert BuildEntry(path, name, node) == BuildDirectory(path, name, node);
  }

  /** Places shown by the same tree look the same. */
  lemma {:induction false} SameTreeSameView(p: string, q: string, name: string, x: Node, y: Node, names: seq<string>)
    requires BuildEntry(p, name, x).Success? && BuildEntry(p, name, x) == BuildEntry(q, name, y)
    ensures SameKind(Reach(x, names), Reach(y, names))
    decreases |names|
  {
    EntryName(p, name, x);
    EntryName(q, name, y);
    if names != [] && x.Directory? {
      DirectorySucceeds(p, name, x);
      DirectorySucceeds(q, name, y);
      var keptX, keptY := Collected(x.entries.Keys).value, Collected(y.entries.Keys).value;
      SameEntryAt(p, q, x, y, keptX, keptY, names[0]);
      if Preferred(x.entries.Keys, names[0]) {
        var n := names[0];
        SameTreeSameView(JoinPath(p, n), JoinPath(q, n), n, x.entries[n], y.entries[n], names[1..]);
      }
    }
  }

  lemma SameEntryAt(p: string, q: string, x: Node, y: Node, keptX: seq<Entry>, keptY: seq<Entry>, n: string)
    requires x.Directory? && y.Directory?
    requires Collected(x.entries.Keys) == Success(keptX) && Collected(y.entries.Keys) == Success(keptY)
    requires (forall e :: e in keptX ==> e.name in x.entries) && (forall e :: e in keptY ==> e.name in y.entries)
    requires BuildContents(p, x, keptX).Success? && BuildContents(p, x, keptX) == BuildContents(q, y, keptY)
    ensures Preferred(x.entries.Keys, n) <==> Preferred(y.entries.Keys, n)
    ensures Preferred(x.entries.Keys, n) ==>
      var built := BuildEntry(JoinPath(p, n), n, x.entries[n]);
      built.Success? && built == BuildEntry(JoinPath(q, n), n, y.entries[n])
  {
    CollectedNames(x.entries.Keys);
    CollectedNames(y.entries.Keys);
    forall i | 0 <= i < |keptX|
      ensures keptX[i].name == keptY[i].name
    {
      ContentsAt(p, x, keptX, i);
      ContentsAt(q, y, keptY, i);
      EntryName(JoinPath(p, keptX[i].name), keptX[i].name, x.entries[keptX[i].name]);
      EntryName(JoinPath(q, keptY[i].name), keptY[i].name, y.entries[keptY[i].name]);
    }
    if Preferred(x.entries.Keys, n) {
      assert EntryOf(n) in keptX;
      var i :| 0 <= i < |keptX| && keptX[i] == EntryOf(n);
      assert keptY[i] in keptY;
      ContentsAt(p, x, keptX, i);
      ContentsAt(q, y, keptY, i);
    }
    if Preferred(y.entries.Keys, n) {
      assert EntryOf(n) in keptY;
      var i :| 0 <= i < |keptY| && keptY[i] == EntryOf(n);
      assert keptX[i] in keptX;
    }
  }

  /**
   Two acceptable directories of one generic spelling give the same tree exactly when every
   list of names leads to nothing in both, to a directory in both or to a file in both.
   */
  lemma SameTreeMeaning(p: string, q: string, x: Node, y: Node)
    requires GenericPath(p) == GenericPath(q) && Acceptable(x) && Acceptable(y)
    ensures BuildDirectory(p, GenericPath(p), x) == BuildDirectory(q, GenericPath(q), y) <==> SameView(x, y)
  {
    var name := GenericPath(p);
    RootAccepted(p, name, x);
    RootAccepted(q, name, y);
    assert BuildEntry(p, name, x) == BuildDirectory(p, name, x);
    assert BuildEntry(q, name, y) == BuildDirectory(q, name, y);
    if SameView(x, y) {
      SameViewSameTree(p, q, name, x, y);
    }
    if BuildEntry(p, name, x) == BuildEntry(q, name, y) {
      forall names: seq<string>
        ensures SameKind(Reach(x, names), Reach(y, names))
      {
        SameTreeSameView(p, q, name, x, y, names);
      }
    }
  }
}
