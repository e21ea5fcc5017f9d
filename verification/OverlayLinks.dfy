/** The walk that merges the overlay over the source tree by links, with its explicit stack. */
module OverlayLinks {
  import opened OverlayPaths
  import opened OverlayTrees
  import opened OverlayWalk
  import opened Repositories

  /** Links to their own paths have been added at these paths, where there were none. */
  ghost predicate Added(before: Links, after: Links, paths: set<Path>, origin: Origin) {
    && (forall p :: p in paths ==> p !in before)
    && (forall p :: p in after <==> p in before || p in paths)
    && (forall p :: p in after ==> after[p] == if p in before then before[p] else Target(origin, p))
  }

  lemma NoLinkAboveSibling(before: Links, after: Links, paths: set<Path>, origin: Origin, dir: Path, p: Path)
    requires Added(before, after, paths, origin) && dir !in before && !LinkAbove(before, dir)
    requires forall q :: q in paths ==> IsEntry(q, dir)
    requires IsEntry(p, dir)
    ensures !LinkAbove(after, p)
  {
    forall a | a in after
      ensures !ProperPrefix(a, p)
    {
      PrefixOfEntry(a, p);
    }
  }

  /** Links each listed entry whose name is not to be skipped. */
  method LinkSourceEntries(repo: Repository, source: Tree, relativeDir: string, skip: set<string>,
                           entries: seq<Entry>, ghost dir: Path) returns (ok: bool, ghost paths: set<Path>)
    requires ProperPath(dir) && relativeDir == Spell(dir) && ValidTree(source) && Lists(source, dir, entries)
    requires dir !in repo.links && !LinkAbove(repo.links, dir)
    modifies repo`links
    ensures ok <==> forall p :: IsEntry(p, dir) && Has(source, p) && Base(p) !in skip ==> p !in old(repo.links)
    ensures ok ==> Added(old(repo.links), repo.links, paths, FromSource)
    ensures ok ==> forall p :: p in paths <==> IsEntry(p, dir) && Has(source, p) && Base(p) !in skip
  {
    paths := {};
    ListedPaths(source, dir, entries);
    for i := 0 to |entries|
      invariant Added(old(repo.links), repo.links, paths, FromSource)
      invariant forall p :: p in paths <==> p in EntryPaths(entries[..i]) && Base(p) !in skip
    {
      var entry := entries[i];
      ReadOneMore(entries, i);
      EntrySpelling(source, dir, entries, i);
      NoLinkAboveSibling(old(repo.links), repo.links, paths, FromSource, dir, entry.path);
      if Base(entry.path) !in skip {
        var linked := repo.Symlink(Target(FromSource, entry.path), RelativePath(relativeDir, Base(entry.path)));
        if !linked {
          return false, {};
        }
        paths := paths + {entry.path};
      }
    }
    assert entries[..|entries|] == entries;
    ok := true;
  }

  /** Links each file of an overlay directory, pushes each subdirectory and records its name. */
  method LinkOverlayEntries(repo: Repository, overlay: Tree, relativeDir: string, below: seq<string>,
                            entries: seq<Entry>, ghost dir: Path, ghost pending: seq<Path>)
    returns (ok: bool, stack: seq<string>, overlayDirs: set<string>, ghost files: set<Path>, ghost subdirs: seq<Path>)
    requires ProperPath(dir) && relativeDir == Spell(dir) && ValidTree(overlay) && Lists(overlay, dir, entries)
    requires dir !in repo.links && !LinkAbove(repo.links, dir) && Spelled(below, pending)
    modifies repo`links
    ensures ok <==> forall p :: IsEntry(p, dir) && p in overlay.files ==> p !in old(repo.links)
    ensures ok ==> Added(old(repo.links), repo.links, files, FromOverlay)
    ensures ok ==> forall p :: p in files <==> IsEntry(p, dir) && p in overlay.files
    ensures ok ==> Subdirectories(overlay, dir, subdirs) && Spelled(stack, pending + subdirs)
    ensures ok ==> forall p :: IsEntry(p, dir) ==> (Base(p) in overlayDirs <==> p in overlay.dirs)
  {
    ok, stack, overlayDirs, files, subdirs := true, below, {}, {}, [];
    assert pending + subdirs == pending;
    for i := 0 to |entries|
      invariant ok && Added(old(repo.links), repo.links, files, FromOverlay)
      invariant forall p :: p in files <==> Entry(p, false) in entries[..i]
      invariant Pushed(dir, entries[..i], subdirs, overlayDirs)
      invariant Spelled(stack, pending + subdirs)
    {
      var entry := entries[i];
      ReadOneMore(entries, i);
      EntrySpelling(overlay, dir, entries, i);
      var relativePath := RelativePath(relativeDir, Base(entry.path));
      if entry.isDir {
        SpelledPush(stack, pending + subdirs, entry.path);
        PushedDirectory(dir, entries[..i], subdirs, overlayDirs, entry.path);
        stack := stack + [relativePath];
        Appended(pending, subdirs, entry.path);
        subdirs := subdirs + [entry.path];
        overlayDirs := overlayDirs + {Base(entry.path)};
      } else {
        PushedFile(dir, entries[..i], subdirs, overlayDirs, entry.path);
        LinkedSoFar(overlay, dir, entries, i, files);
        NoLinkAboveSibling(old(repo.links), repo.links, files, FromOverlay, dir, entry.path);
        var linked := repo.Symlink(Target(FromOverlay, entry.path), relativePath);
        if !linked {
          ok := false;
          return;
        }
        files := files + {entry.path};
      }
    }
    assert entries[..|entries|] == entries;
    PushedAll(overlay, dir, entries, subdirs, overlayDirs);
  }

  lemma LinkedSoFar(overlay: Tree, dir: Path, entries: seq<Entry>, i: nat, files: set<Path>)
    requires Lists(overlay, dir, entries) && i < |entries|
    requires forall p :: p in files <==> Entry(p, false) in entries[..i]
    ensures entries[i].path !in files
    ensures forall p :: p in files ==> IsEntry(p, dir) && p in overlay.files
  {
    forall p | p in files
      ensures IsEntry(p, dir) && p in overlay.files && p != entries[i].path
    {
      assert Entry(p, false) in entries;
      var j :| 0 <= j < i && entries[j] == Entry(p, false);
    }
  }

  // ---------- one directory of the walk ----------

  /** No file of this overlay directory hides a source path. */
  ghost predicate Clear(overlay: Tree, source: Tree, dir: Path) {
    forall p :: IsEntry(p, dir) && p in overlay.files ==> !Has(source, p)
  }

  lemma LinksForNext(before: Links, middle: Links, after: Links, overlay: Tree, source: Tree, visited: set<Path>,
                     dir: Path, files: set<Path>, others: set<Path>)
    requires ValidTree(overlay) && LinksFor(before, overlay, source, visited) && dir in overlay.dirs && dir !in visited
    requires Added(before, middle, files, FromOverlay) && Added(middle, after, others, FromSource)
    requires forall p :: p in files <==> IsEntry(p, dir) && p in overlay.files
    requires forall p :: p in others <==> IsEntry(p, dir) && Has(source, p) && p !in overlay.dirs
    ensures LinksFor(after, overlay, source, visited + {dir})
  {
  }

  /** Visits one directory: succeeds just when the source has it too and no overlay file hides a source path there. */
  method LinkDirectory(repo: Repository, overlay: Tree, source: Tree, relativeDir: string, below: seq<string>,
                       ghost dir: Path, ghost pending: seq<Path>, ghost visited: set<Path>)
    returns (ok: bool, stack: seq<string>, ghost subdirs: seq<Path>)
    requires ValidTree(overlay) && ValidTree(source) && dir in overlay.dirs &&
      dir !in visited && relativeDir == Spell(dir)
    requires LinksFor(repo.links, overlay, source, visited) && Spelled(below, pending)
    modifies repo`links
    ensures ok <==> dir in source.dirs && Clear(overlay, source, dir)
    ensures ok ==> LinksFor(repo.links, overlay, source, visited + {dir})
    ensures ok ==> Subdirectories(overlay, dir, subdirs) && Spelled(stack, pending + subdirs)
  {
    assert Has(overlay, dir);
    SpellRoundTrip(dir);
    NoLinkAboveDirectory(repo.links, overlay, source, visited, dir);
    var overlayEntries := Readdir(overlay, relativeDir);
    assert overlayEntries.Some?;
    var overlayDirs: set<string>;
    ghost var files: set<Path>;
    ok, stack, overlayDirs, files, subdirs :=
      LinkOverlayEntries(repo, overlay, relativeDir, below, overlayEntries.value, dir, pending);
    assert ok;
    ghost var middle := repo.links;
    MiddleClear(old(repo.links), middle, files, dir);
    var sourceEntries := Readdir(source, relativeDir);
    if sourceEntries.None? {
      ok := false;
      return;
    }
    ghost var others: set<Path>;
    ok, others := LinkSourceEntries(repo, source, relativeDir, overlayDirs, sourceEntries.value, dir);
    if ok {
      LinksForNext(old(repo.links), middle, repo.links, overlay, source, visited, dir, files, others);
    }
  }

  lemma MiddleClear(before: Links, middle: Links, files: set<Path>, dir: Path)
    requires Added(before, middle, files, FromOverlay) && dir !in before && !LinkAbove(before, dir)
    requires forall p :: p in files ==> IsEntry(p, dir)
    ensures dir !in middle && !LinkAbove(middle, dir)
  {
    forall a | a in middle
      ensures !ProperPrefix(a, dir)
    {
    }
  }

  // ---------- the walk ----------

  ghost predicate AllClear(overlay: Tree, source: Tree, order: seq<Path>) {
    forall p :: p in order ==> p in source.dirs && Clear(overlay, source, p)
  }

  lemma AllClearNext(overlay: Tree, source: Tree, order: seq<Path>, dir: Path)
    requires AllClear(overlay, source, order) && dir in source.dirs && Clear(overlay, source, dir)
    ensures AllClear(overlay, source, order + [dir])
  {
    InConcat(order, [dir]);
  }

  lemma NotMergeable(overlay: Tree, source: Tree, dir: Path)
    requires dir in overlay.dirs && !(dir in source.dirs && Clear(overlay, source, dir))
    ensures !Mergeable(overlay, source)
  {
  }

  /** A walk that has come to its end without a failure. */
  lemma Merged(links: Links, overlay: Tree, source: Tree, order: seq<Path>)
    requires ValidTree(overlay) && ValidTree(source) && Walking(overlay, order, [])
    requires LinksFor(links, overlay, source, Elements(order)) && AllClear(overlay, source, order)
    ensures Elements(order) == overlay.dirs && |order| == |overlay.dirs| && Mergeable(overlay, source)
    ensures ShowsUnion(links, overlay, source) && Antichain(links)
  {
    WalkingDone(overlay, order);
    assert forall p :: p in overlay.dirs ==> p in order;
    forall p | p in overlay.files
      ensures !Has(source, p)
    {
      assert Has(overlay, p) && Clear(overlay, source, Parent(p));
    }
    LinksShowUnion(links, overlay, source);
    LinksAntichain(links, overlay, source, overlay.dirs);
  }

  /**
   Links both trees into an empty repository. It succeeds exactly for a mergeable overlay of at
   most a million directories, visits each of them once, and shows the union of the two trees
   through links of which none lies under another.
   */
  method SymlinkSourceAndOverlay(repo: Repository, overlay: Tree, source: Tree)
    returns (ok: bool, ghost order: seq<Path>)
    requires ValidTree(overlay) && ValidTree(source) && repo.links == map[]
    modifies repo`links
    ensures ok <==> |overlay.dirs| <= 1_000_000 && Mergeable(overlay, source)
    ensures ok ==> Distinct(order) && Elements(order) == overlay.dirs
    ensures ok ==> LinksFor(repo.links, overlay, source, overlay.dirs)
    ensures ok ==> ShowsUnion(repo.links, overlay, source) && Antichain(repo.links)
  {
    var stack := ["."];
    ghost var pending: seq<Path> := [[]];
    order := [];
    WalkingStarts(overlay);
    for step := 0 to MAX_OVERLAY_DIRECTORIES
      invariant |order| == step && Walking(overlay, order, pending) && pending != [] && Spelled(stack, pending)
      invariant LinksFor(repo.links, overlay, source, Elements(order)) && AllClear(overlay, source, order)
    {
      ghost var dir, rest := pending[|pending| - 1], pending[..|pending| - 1];
      assert pending == rest + [dir];
      WalkingPop(overlay, order, stack, rest, dir);
      ghost var subdirs: seq<Path>;
      ok, stack, subdirs :=
        LinkDirectory(repo, overlay, source, stack[|stack| - 1], stack[..|stack| - 1], dir, rest, Elements(order));
      if !ok {
        NotMergeable(overlay, source, dir);
        return;
      }
      WalkingStep(overlay, order, rest, dir, subdirs);
      AllClearNext(overlay, source, order, dir);
      order, pending := order + [dir], rest + subdirs;
      if stack == [] {
        Merged(repo.links, overlay, source, order);
        return;
      }
    }
    WalkingNotDone(overlay, order, pending);
    ok := false;
  }
}
