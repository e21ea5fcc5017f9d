/**
 Directory listings in any order, and the bookkeeping of a walk that keeps the directories
 still to be visited on a stack.
 */
module OverlayWalk {
  import opened CStrings
  import opened OverlayPaths
  import opened OverlayTrees

  datatype Entry = Entry(path: Path, isDir: bool)

  ghost predicate IsEntry(p: Path, dir: Path) {
    p != [] && Parent(p) == dir
  }

  ghost function EntryPaths(entries: seq<Entry>): set<Path> {
    set e | e in entries :: e.path
  }

  lemma ReadOneMore(entries: seq<Entry>, i: nat)
    requires i < |entries|
    ensures entries[..i + 1] == entries[..i] + [entries[i]]
    ensures EntryPaths(entries[..i + 1]) == EntryPaths(entries[..i]) + {entries[i].path}
  {
    var read, more := entries[..i], entries[..i + 1];
    assert more == read + [entries[i]];
    assert entries[i] in more;
  }

  /** What a directory listing gives: every entry of the directory once, in any order. */
  ghost predicate Lists(t: Tree, dir: Path, entries: seq<Entry>) {
    && (forall i, j :: 0 <= i < j < |entries| ==> entries[i].path != entries[j].path)
    && (forall p :: Entry(p, true) in entries <==> IsEntry(p, dir) && p in t.dirs)
    && (forall p :: Entry(p, false) in entries <==> IsEntry(p, dir) && p in t.files)
  }

  method Readdir(t: Tree, relativeDir: string) returns (entries: Option<seq<Entry>>)
    requires ValidTree(t)
    ensures entries.Some? <==> Resolve(relativeDir) in t.dirs
    ensures entries.Some? ==> Lists(t, Resolve(relativeDir), entries.value)
  {
    var dir := Resolve(relativeDir);
    if dir !in t.dirs {
      return None;
    }
    var rest := set p | p in t.dirs + t.files.Keys && p != [] && Parent(p) == dir;
    ghost var all, done: set<Path> := rest, {};
    assert forall p :: p in all <==> IsEntry(p, dir) && Has(t, p);
    var list: seq<Entry> := [];
    while rest != {}
      invariant done !! rest && done + rest == all
      invariant ListsSome(t, done, list)
      decreases |rest|
    {
      var p :| p in rest;
      ListsOneMore(t, done, list, p);
      MoveOne(done, rest, all, p);
      list := list + [Entry(p, p in t.dirs)];
      rest, done := rest - {p}, done + {p};
    }
    assert done == all;
    ListsAll(t, dir, all, list);
    entries := Some(list);
  }

  lemma MoveOne(done: set<Path>, rest: set<Path>, all: set<Path>, p: Path)
    requires done !! rest && done + rest == all && p in rest
    ensures done + {p} !! rest - {p} && (done + {p}) + (rest - {p}) == all
  {
  }

  lemma ListsAll(t: Tree, dir: Path, all: set<Path>, list: seq<Entry>)
    requires ValidTree(t) && ListsSome(t, all, list) && forall p :: p in all <==> IsEntry(p, dir) && Has(t, p)
    ensures Lists(t, dir, list)
  {
  }

  ghost predicate ListsSome(t: Tree, paths: set<Path>, list: seq<Entry>) {
    && (forall i, j :: 0 <= i < j < |list| ==> list[i].path != list[j].path)
    && (forall e :: e in list <==> e.path in paths && (e.isDir <==> e.path in t.dirs))
  }

  lemma ListsOneMore(t: Tree, paths: set<Path>, list: seq<Entry>, p: Path)
    requires ListsSome(t, paths, list) && p !in paths
    ensures ListsSome(t, paths + {p}, list + [Entry(p, p in t.dirs)])
  {
    var more := list + [Entry(p, p in t.dirs)];
    forall i, j | 0 <= i < j < |more|
      ensures more[i].path != more[j].path
    {
      assert more[i] in list;
    }
  }

  lemma ListedPaths(t: Tree, dir: Path, entries: seq<Entry>)
    requires Lists(t, dir, entries)
    ensures forall p :: p in EntryPaths(entries) <==> IsEntry(p, dir) && Has(t, p)
  {
    forall p | p in EntryPaths(entries)
      ensures IsEntry(p, dir) && Has(t, p)
    {
      var e :| e in entries && e.path == p;
      assert e == Entry(p, true) || e == Entry(p, false);
    }
    forall p | IsEntry(p, dir) && Has(t, p)
      ensures p in EntryPaths(entries)
    {
      assert Entry(p, true) in entries || Entry(p, false) in entries;
    }
  }

  lemma EntrySpelling(t: Tree, dir: Path, entries: seq<Entry>, i: nat)
    requires ValidTree(t) && Lists(t, dir, entries) && i < |entries|
    ensures var p := entries[i].path; IsEntry(p, dir) && Has(t, p) && ProperPath(p)
    ensures var p := entries[i].path;
            Spell(p) == RelativePath(Spell(dir), Base(p)) && Resolve(Spell(p)) == p && p !in EntryPaths(entries[..i])
    ensures (entries[i].isDir <==> entries[i].path in t.dirs) && (!entries[i].isDir <==> entries[i].path in t.files)
  {
    var e := entries[i];
    assert e in entries;
    assert e == Entry(e.path, true) || e == Entry(e.path, false);
    assert e.path == dir + [Base(e.path)];
    SpellChild(dir, Base(e.path));
    SpellRoundTrip(e.path);
  }

  // ---------- the stack ----------

  /** How many directories a walk visits before it gives up. */
  const MAX_OVERLAY_DIRECTORIES: nat := 1_000_000

  ghost predicate Distinct(s: seq<Path>) {
    forall i, j :: 0 <= i < j < |s| ==> s[i] != s[j]
  }

  ghost predicate Spelled(stack: seq<string>, pending: seq<Path>) {
    |stack| == |pending| && forall i :: 0 <= i < |stack| ==> stack[i] == Spell(pending[i])
  }

  ghost function Elements(s: seq<Path>): set<Path> {
    set p | p in s
  }

  /**
   Between two steps: no directory is visited twice or pending twice, all are directories of
   the overlay, and those next to come are exactly the subdirectories of the visited ones.
   */
  ghost predicate Walking(overlay: Tree, order: seq<Path>, pending: seq<Path>) {
    && Distinct(order) && Distinct(pending)
    && (forall p :: p in order ==> p !in pending)
    && (forall p :: p in order || p in pending <==> p in overlay.dirs && (p == [] || Parent(p) in order))
  }

  /** The subdirectories of a directory, each once. */
  ghost predicate Subdirectories(overlay: Tree, dir: Path, subdirs: seq<Path>) {
    Distinct(subdirs) && forall p :: p in subdirs <==> IsEntry(p, dir) && p in overlay.dirs
  }

  /** The top of the stack is the spelling of a directory not visited yet. */
  lemma WalkingPop(overlay: Tree, order: seq<Path>, stack: seq<string>, rest: seq<Path>, dir: Path)
    requires ValidTree(overlay) && Walking(overlay, order, rest + [dir]) && Spelled(stack, rest + [dir])
    ensures dir in overlay.dirs && dir !in order && ProperPath(dir)
    ensures stack[|stack| - 1] == Spell(dir) && Resolve(Spell(dir)) == dir && Spelled(stack[..|stack| - 1], rest)
  {
    var pending := rest + [dir];
    assert pending[|rest|] == dir && dir in pending;
    assert forall i :: 0 <= i < |rest| ==> pending[i] == rest[i];
    assert Has(overlay, dir);
    SpellRoundTrip(dir);
  }

  lemma WalkingStarts(overlay: Tree)
    requires ValidTree(overlay)
    ensures Walking(overlay, [], [[]])
  {
  }

  /** Taking a directory off the stack and pushing its subdirectories keeps the walk in order. */
  lemma WalkingStep(overlay: Tree, order: seq<Path>, pending: seq<Path>, dir: Path, subdirs: seq<Path>)
    requires ValidTree(overlay) && Walking(overlay, order, pending + [dir]) && Subdirectories(overlay, dir, subdirs)
    ensures Walking(overlay, order + [dir], pending + subdirs) && Elements(order + [dir]) == Elements(order) + {dir}
  {
    DistinctInit(pending, dir);
    InConcat(pending, [dir]);
    InConcat(order, [dir]);
    InConcat(pending, subdirs);
    assert dir in pending + [dir] && dir !in order && [dir][0] == dir;
    forall p | p in subdirs
      ensures p !in pending && p !in order && p != dir
    {
      assert Parent(p) == dir && |p| == |dir| + 1;
    }
    DistinctConcat(order, [dir]);
    DistinctConcat(pending, subdirs);
  }

  lemma InConcat(a: seq<Path>, b: seq<Path>)
    ensures forall p :: p in a + b <==> p in a || p in b
  {
  }

  lemma DistinctInit(a: seq<Path>, last: Path)
    requires Distinct(a + [last])
    ensures Distinct(a) && last !in a
  {
    var s := a + [last];
    assert forall i :: 0 <= i < |a| ==> s[i] == a[i];
    assert s[|a|] == last;
  }

  lemma DistinctConcat(a: seq<Path>, b: seq<Path>)
    requires Distinct(a) && Distinct(b) && forall p :: p in b ==> p !in a
    ensures Distinct(a + b)
  {
    var s := a + b;
    forall i, j | 0 <= i < j < |s|
      ensures s[i] != s[j]
    {
      if i < |a| <= j {
        assert s[i] in a && s[j] == b[j - |a|] && s[j] in b;
      }
    }
  }

  lemma {:induction false} AllReached(overlay: Tree, order: seq<Path>, p: Path)
    requires ValidTree(overlay) && Walking(overlay, order, []) && p in overlay.dirs
    ensures p in order
    decreases |p|
  {
    if p != [] {
      AllReached(overlay, order, Parent(p));
    }
    assert p in order || p in [];
  }

  lemma {:induction false} DistinctCounts(s: seq<Path>)
    requires Distinct(s)
    ensures |Elements(s)| == |s|
  {
    if s != [] {
      var init, last := s[..|s| - 1], s[|s| - 1];
      DistinctCounts(init);
      assert s == init + [last];
      assert last !in init;
      assert Elements(s) == Elements(init) + {last};
    }
  }

  /** A walk with an empty stack has visited every overlay directory once. */
  lemma WalkingDone(overlay: Tree, order: seq<Path>)
    requires ValidTree(overlay) && Walking(overlay, order, [])
    ensures Elements(order) == overlay.dirs && |order| == |overlay.dirs|
  {
    forall p | p in overlay.dirs
      ensures p in order
    {
      AllReached(overlay, order, p);
    }
    assert Elements(order) == overlay.dirs;
    DistinctCounts(order);
  }

  /** A walk with a pending directory has more to visit. */
  lemma WalkingNotDone(overlay: Tree, order: seq<Path>, pending: seq<Path>)
    requires Walking(overlay, order, pending) && pending != []
    ensures |order| < |overlay.dirs|
  {
    DistinctCounts(order);
    assert pending[0] in pending && pending[0] in overlay.dirs && pending[0] !in Elements(order);
    SubsetSmaller(Elements(order) + {pending[0]}, overlay.dirs);
  }

  lemma {:induction false} SubsetSmaller(a: set<Path>, b: set<Path>)
    requires a <= b
    ensures |a| <= |b|
    decreases a
  {
    if p :| p in a {
      SubsetSmaller(a - {p}, b - {p});
    }
  }

  // ---------- what one directory's entries put on the stack ----------

  /** The directories among the entries read so far: pushed once each, and their names recorded. */
  ghost predicate Pushed(dir: Path, read: seq<Entry>, subdirs: seq<Path>, names: set<string>) {
    && Distinct(subdirs)
    && (forall p :: p in subdirs <==> Entry(p, true) in read)
    && (forall p :: IsEntry(p, dir) ==> (Base(p) in names <==> Entry(p, true) in read))
  }

  lemma PushedFile(dir: Path, read: seq<Entry>, subdirs: seq<Path>, names: set<string>, p: Path)
    requires Pushed(dir, read, subdirs, names)
    ensures Pushed(dir, read + [Entry(p, false)], subdirs, names)
  {
  }

  lemma PushedDirectory(dir: Path, read: seq<Entry>, subdirs: seq<Path>, names: set<string>, p: Path)
    requires Pushed(dir, read, subdirs, names) && IsEntry(p, dir) && p !in EntryPaths(read)
    ensures Pushed(dir, read + [Entry(p, true)], subdirs + [p], names + {Base(p)})
  {
    assert Entry(p, true) !in read;
    DistinctConcat(subdirs, [p]);
    forall q | IsEntry(q, dir)
      ensures Base(q) == Base(p) <==> q == p
    {
      assert q == dir + [Base(q)] && p == dir + [Base(p)];
    }
  }

  lemma PushedAll(overlay: Tree, dir: Path, entries: seq<Entry>, subdirs: seq<Path>, names: set<string>)
    requires Lists(overlay, dir, entries) && Pushed(dir, entries, subdirs, names)
    ensures Subdirectories(overlay, dir, subdirs)
    ensures forall p :: IsEntry(p, dir) ==> (Base(p) in names <==> p in overlay.dirs)
  {
  }

  lemma Appended(a: seq<Path>, b: seq<Path>, p: Path)
    ensures a + (b + [p]) == a + b + [p]
  {
  }

  lemma SpelledPush(stack: seq<string>, pending: seq<Path>, p: Path)
    requires Spelled(stack, pending)
    ensures Spelled(stack + [Spell(p)], pending + [p])
  {
  }
}
