/**
 The walk that copies the overlay's files into the repository. After a checkout with a
 stripped prefix the repository holds links to the checkout's entries, and what is copied
 below them lands in the checkout.
 */
module OverlayCopy {
  import opened CStrings
  import opened OverlayLinks
  import opened OverlayPaths
  import opened OverlayTrees
  import opened OverlayWalk
  import opened Repositories
  import opened RepositoryWrites

  /** The files of one directory among the entries read so far, on top of those written before. */
  ghost predicate Handled(dir: Path, read: seq<Entry>, before: seq<Path>, written: seq<Path>, subdirs: seq<Path>,
                          names: set<string>) {
    && Pushed(dir, read, subdirs, names)
    && forall p :: p in written <==> p in before || Entry(p, false) in read
  }

  lemma HandledFile(overlay: Tree, dir: Path, entries: seq<Entry>, i: nat, before: seq<Path>, written: seq<Path>,
                    subdirs: seq<Path>, names: set<string>)
    requires Lists(overlay, dir, entries) && i < |entries| && !entries[i].isDir
    requires Handled(dir, entries[..i], before, written, subdirs, names)
    ensures Handled(dir, entries[..i + 1], before, written + [entries[i].path], subdirs, names)
  {
    assert entries[..i + 1] == entries[..i] + [entries[i]];
    PushedFile(dir, entries[..i], subdirs, names, entries[i].path);
    InConcat(written, [entries[i].path]);
  }

  lemma HandledDirectory(overlay: Tree, dir: Path, entries: seq<Entry>, i: nat, before: seq<Path>, written: seq<Path>,
                         subdirs: seq<Path>, names: set<string>)
    requires ValidTree(overlay) && Lists(overlay, dir, entries) && i < |entries| && entries[i].isDir
    requires Handled(dir, entries[..i], before, written, subdirs, names)
    ensures entries[i].path != []
    ensures Handled(dir, entries[..i + 1], before, written,
      subdirs + [entries[i].path], names + {Base(entries[i].path)})
  {
    assert entries[..i + 1] == entries[..i] + [entries[i]];
    EntrySpelling(overlay, dir, entries, i);
    PushedDirectory(dir, entries[..i], subdirs, names, entries[i].path);
  }

  /** Which file comes next: it has not been written, neither here nor before. */
  lemma NotYetWritten(overlay: Tree, dir: Path, entries: seq<Entry>, i: nat, before: seq<Path>, written: seq<Path>,
                      subdirs: seq<Path>, names: set<string>)
    requires Lists(overlay, dir, entries) && i < |entries| && !entries[i].isDir
    requires Handled(dir, entries[..i], before, written, subdirs, names)
    requires forall p :: IsEntry(p, dir) ==> p !in before
    ensures entries[i].path in overlay.files && entries[i].path !in written
  {
    var p := entries[i].path;
    assert entries[i] == Entry(p, false) && Entry(p, false) in entries;
    assert forall j :: 0 <= j < i ==> entries[..i][j].path != p;
    assert Entry(p, false) !in entries[..i];
  }

  /** No link into the overlay is in the way of seeing what was written. */
  ghost predicate AllFromSource(links: Links) {
    forall l :: l in links ==> links[l].origin.FromSource?
  }

  ghost predicate AllWritable(s: Contents, overlay: Tree) {
    forall p :: p in overlay.files ==> Writable(s, p)
  }

  /** The state after the files at these paths have been written, each once. */
  ghost predicate Reached(start: Contents, s: Contents, overlay: Tree, written: seq<Path>) {
    Series(start, overlay.files, written) && s == WrittenAll(start, overlay.files, written)
  }

  /** Writes one file, if it could be written at the start. */
  method CopyFile(repo: Repository, overlay: Tree, relativePath: string, p: Path, ghost start: Contents,
                  ghost written: seq<Path>)
    returns (ok: bool)
    requires ValidTree(overlay) && Sound(start) && AllFromSource(start.links)
    requires Reached(start, repo.State(), overlay, written)
    requires p in overlay.files && p !in written && Resolve(relativePath) == p
    modifies repo
    ensures ok <==> Writable(start, p)
    ensures ok ==> Reached(start, repo.State(), overlay, written + [p])
  {
    TreeFilesIndependent(overlay);
    SeriesNext(start, overlay.files, written, p);
    ok := repo.File(relativePath, overlay.files[p]);
  }

  /**
   Writes the files of one overlay directory and pushes its subdirectories, or stops at a file
   that cannot be written.
   */
  method CopyEntries(repo: Repository, overlay: Tree, relativeDir: string, below: seq<string>, entries: seq<Entry>,
                     ghost dir: Path, ghost pending: seq<Path>, ghost start: Contents, ghost before: seq<Path>)
    returns (ok: bool, stack: seq<string>, ghost written: seq<Path>, ghost subdirs: seq<Path>)
    requires ProperPath(dir) && relativeDir == Spell(dir) && ValidTree(overlay) && Lists(overlay, dir, entries)
    requires Spelled(below, pending) && Sound(start) && AllFromSource(start.links)
    requires Reached(start, repo.State(), overlay, before) && forall p :: IsEntry(p, dir) ==> p !in before
    modifies repo
    ensures ok ==> Reached(start, repo.State(), overlay, written)
    ensures ok ==> Subdirectories(overlay, dir, subdirs) && Spelled(stack, pending + subdirs)
    ensures ok ==> forall p :: p in written <==> p in before || (IsEntry(p, dir) && p in overlay.files)
    ensures !ok ==> !AllWritable(start, overlay)
  {
    ok, stack, written, subdirs := true, below, before, [];
    ghost var names: set<string> := {};
    assert pending + subdirs == pending;
    for i := 0 to |entries|
      invariant ok && Reached(start, repo.State(), overlay, written)
      invariant Handled(dir, entries[..i], before, written, subdirs, names)
      invariant Spelled(stack, pending + subdirs)
    {
      var entry := entries[i];
      EntrySpelling(overlay, dir, entries, i);
      var relativePath := RelativePath(relativeDir, Base(entry.path));
      if entry.isDir {
        HandledDirectory(overlay, dir, entries, i, before, written, subdirs, names);
        SpelledPush(stack, pending + subdirs, entry.path);
        stack := stack + [relativePath];
        Appended(pending, subdirs, entry.path);
        subdirs, names := subdirs + [entry.path], names + {Base(entry.path)};
      } else {
        NotYetWritten(overlay, dir, entries, i, before, written, subdirs, names);
        HandledFile(overlay, dir, entries, i, before, written, subdirs, names);
        ok := CopyFile(repo, overlay, relativePath, entry.path, start, written);
        if !ok {
          return;
        }
        written := written + [entry.path];
      }
    }
    assert entries[..|entries|] == entries;
    PushedAll(overlay, dir, entries, subdirs, names);
    HandledAll(overlay, dir, entries, before, written, subdirs, names);
  }

  lemma HandledAll(overlay: Tree, dir: Path, entries: seq<Entry>, before: seq<Path>, written: seq<Path>,
                   subdirs: seq<Path>, names: set<string>)
    requires Lists(overlay, dir, entries) && Handled(dir, entries, before, written, subdirs, names)
    ensures forall p :: p in written <==> p in before || (IsEntry(p, dir) && p in overlay.files)
  {
  }

  /** What has been written once these directories have been visited. */
  ghost predicate FilesOf(overlay: Tree, order: seq<Path>, written: seq<Path>) {
    forall p :: p in written <==> p in overlay.files && p != [] && Parent(p) in order
  }

  lemma FilesOfNext(overlay: Tree, order: seq<Path>, written: seq<Path>, dir: Path, more: seq<Path>)
    requires FilesOf(overlay, order, written)
    requires forall p :: p in more <==> p in written || (IsEntry(p, dir) && p in overlay.files)
    ensures FilesOf(overlay, order + [dir], more)
  {
    InConcat(order, [dir]);
  }

  /** What a copy that has come to its end has done. */
  ghost predicate OverlayCopied(before: Contents, after: Contents, overlay: Tree, written: seq<Path>) {
    && Distinct(written) && Elements(written) == overlay.files.Keys
    && Copied(before, after, overlay.files, written)
  }

  /** A walk that has come to its end has written every file. */
  lemma EveryFileReached(start: Contents, overlay: Tree, order: seq<Path>, written: seq<Path>)
    requires ValidTree(overlay) && Walking(overlay, order, []) && FilesOf(overlay, order, written)
    requires Series(start, overlay.files, written)
    ensures Elements(order) == overlay.dirs && |order| == |overlay.dirs|
    ensures Elements(written) == overlay.files.Keys && AllWritable(start, overlay)
  {
    WalkingDone(overlay, order);
    forall p | p in overlay.files
      ensures p in written
    {
      assert Has(overlay, p) && Parent(p) in Elements(order);
    }
  }

  lemma CopiedAll(start: Contents, after: Contents, overlay: Tree, written: seq<Path>)
    requires ValidTree(overlay) && Sound(start) && Reached(start, after, overlay, written)
    requires Elements(written) == overlay.files.Keys
    ensures OverlayCopied(start, after, overlay, written)
  {
    TreeFilesIndependent(overlay);
    SeriesWritten(start, overlay.files, written);
  }

  /**
   Copies the overlay. It succeeds exactly for at most a million directories and when every
   file can be written; then every directory was visited once and every file written once,
   in the repository or, below a link, in the source.
   */
  method CopyOverlay(repo: Repository, overlay: Tree)
    returns (ok: bool, ghost order: seq<Path>, ghost written: seq<Path>)
    requires ValidTree(overlay) && Sound(repo.State()) && AllFromSource(repo.links)
    modifies repo
    ensures ok <==> |overlay.dirs| <= 1_000_000 && AllWritable(old(repo.State()), overlay)
    ensures ok ==> Distinct(order) && Elements(order) == overlay.dirs
    ensures ok ==> OverlayCopied(old(repo.State()), repo.State(), overlay, written)
  {
    var stack := ["."];
    ghost var pending: seq<Path> := [[]];
    ghost var start := repo.State();
    order, written := [], [];
    WalkingStarts(overlay);
    for step := 0 to MAX_OVERLAY_DIRECTORIES
      invariant |order| == step && Walking(overlay, order, pending) && pending != [] && Spelled(stack, pending)
      invariant FilesOf(overlay, order, written) && Reached(start, repo.State(), overlay, written)
    {
      ghost var dir, rest := pending[|pending| - 1], pending[..|pending| - 1];
      assert pending == rest + [dir];
      WalkingPop(overlay, order, stack, rest, dir);
      var entries := Readdir(overlay, stack[|stack| - 1]);
      assert entries.Some?;
      ghost var subdirs: seq<Path>, more: seq<Path>;
      ok, stack, more, subdirs :=
        CopyEntries(repo, overlay, stack[|stack| - 1], stack[..|stack| - 1], entries.value, dir, rest, start, written);
      if !ok {
        return;
      }
      FilesOfNext(overlay, order, written, dir, more);
      WalkingStep(overlay, order, rest, dir, subdirs);
      order, pending, written := order + [dir], rest + subdirs, more;
      if stack == [] {
        EveryFileReached(start, overlay, order, written);
        CopiedAll(start, repo.State(), overlay, written);
        return;
      }
    }
    WalkingNotDone(overlay, order, pending);
    ok := false;
  }

  /** After the copy each overlay file is found at its path, and what lies elsewhere is found as before. */
  lemma OverlayIsSeen(before: Contents, after: Contents, overlay: Tree, written: seq<Path>)
    requires OverlayCopied(before, after, overlay, written)
    ensures forall p :: p in overlay.files ==> Read(after, p) == Some(overlay.files[p])
    ensures forall r :: (forall p :: p in overlay.files ==> !(p <= r)) ==> Read(after, r) == Read(before, r)
  {
    assert forall p :: p in written <==> p in Elements(written);
  }

  /**
   The source changes exactly at the files below links; without files below its own root, the
   overlay stays as it is.
   */
  lemma SourceAfterCopy(before: Contents, after: Contents, overlay: Tree, written: seq<Path>)
    requires OverlayCopied(before, after, overlay, written)
    ensures forall p :: p in after.source.files <==>
      p in before.source.files || (p in overlay.files && LinkAbove(before.links, p))
    ensures forall p :: p in after.source.files ==>
      after.source.files[p] ==
        if p in overlay.files && LinkAbove(before.links, p) then overlay.files[p] else Old(before.source.files, p)
    ensures (forall p :: p in overlay.files ==> !LinkAbove(before.links, p)) ==> after.source == before.source
    ensures (forall p :: p in overlay.files ==> !(OVERLAY_ROOT <= p)) ==>
      Subtree(after.source) == Subtree(before.source)
  {
    assert forall p :: p in written <==> p in Elements(written);
    if forall p :: p in overlay.files ==> !LinkAbove(before.links, p) {
      SourceUntouched(before, after, overlay.files, written);
    }
    if forall p :: p in overlay.files ==> !(OVERLAY_ROOT <= p) {
      OverlayUntouched(before, after, overlay.files, written);
    }
  }

  // ---------- after a checkout with a stripped prefix ----------

  /** Links every entry of the checkout into an empty repository. */
  method LinkCheckout(repo: Repository) returns (ok: bool)
    requires ValidTree(repo.source) && repo.links == map[] && repo.files == map[]
    modifies repo`links
    ensures ok && Sound(repo.State()) && AllFromSource(repo.links)
    ensures forall p :: p in repo.links <==> |p| == 1 && Has(repo.source, p)
  {
    var source := repo.source;
    assert Resolve(".") == [];
    var entries := Readdir(source, ".");
    assert entries.Some?;
    ghost var paths: set<Path>;
    ok, paths := LinkSourceEntries(repo, source, ".", {}, entries.value, []);
    assert forall p :: IsEntry(p, []) <==> |p| == 1;
  }

  /**
   Copies the overlay into a repository of links to the checkout that holds it: the files
   below a directory of the checkout land in the checkout, and the others in the repository.
   */
  method CopyIntoCheckout(repo: Repository) returns (ok: bool, ghost middle: Contents, ghost written: seq<Path>)
    requires ValidTree(repo.source) && OVERLAY_ROOT in repo.source.dirs && repo.links == map[] && repo.files == map[]
    modifies repo
    ensures ok <==>
      |Subtree(old(repo.source)).dirs| <= 1_000_000 && AllWritable(middle, Subtree(old(repo.source)))
    ensures middle.source == old(repo.source) && middle.files == map[]
    ensures forall p :: p in Subtree(old(repo.source)).files ==>
      (LinkAbove(middle.links, p) <==> |p| > 1 && Has(old(repo.source), p[..1]))
    ensures ok ==> OverlayCopied(middle, repo.State(), Subtree(old(repo.source)), written)
  {
    var overlay := Subtree(repo.source);
    SubtreeValid(repo.source);
    written := [];
    ok := LinkCheckout(repo);
    middle := repo.State();
    ghost var order: seq<Path>;
    ok, order, written := CopyOverlay(repo, overlay);
    forall p | p in overlay.files
      ensures LinkAbove(middle.links, p) <==> |p| > 1 && Has(middle.source, p[..1])
    {
      if |p| > 1 && Has(middle.source, p[..1]) {
        assert p[..1] in middle.links && ProperPrefix(p[..1], p);
      }
    }
  }
}
