/** What a series of writes to a repository has done, through links or not. */
module RepositoryWrites {
  import opened CStrings
  import opened OverlayPaths
  import opened OverlayTrees
  import opened OverlayWalk
  import opened Repositories

  /** Files of which none lies below another: they can be written in any order. */
  ghost predicate Independent(files: map<Path, string>) {
    && (forall p :: p in files ==> ProperPath(p) && p != [])
    && (forall p, q :: p in files && q in files && p != q ==> Apart(p, q))
  }

  lemma TreeFilesIndependent(t: Tree)
    requires ValidTree(t)
    ensures Independent(t.files)
  {
    forall p | p in t.files
      ensures ProperPath(p) && p != []
    {
      assert Has(t, p);
    }
    forall p, q | p in t.files && q in t.files && p != q
      ensures Apart(p, q)
    {
      NotBelowFile(t, p, q);
      NotBelowFile(t, q, p);
    }
  }

  lemma NotBelowFile(t: Tree, p: Path, q: Path)
    requires ValidTree(t) && p in t.files && q in t.files && p != q
    ensures !(p <= q)
  {
    assert Has(t, q) && q[..|q|] == q;
    if |p| < |q| {
      PrefixIsDirectory(t, q, |p|);
    }
    PrefixIsSlice(p, q);
  }

  lemma PrefixIsSlice(p: Path, q: Path)
    ensures p <= q ==> |p| <= |q| && p == q[..|p|]
  {
  }

  // ---------- the parts of a repository ----------

  /** The files written where no link is above are the repository's own. */
  ghost predicate OwnWritten(before: Contents, after: Contents, files: map<Path, string>, paths: seq<Path>) {
    && after.links == before.links - Elements(paths)
    && (forall p :: p in after.files <==> p in before.files || (p in paths && !LinkAbove(before.links, p)))
    && (forall p :: p in after.files ==>
          after.files[p] ==
            if p in paths && p in files && !LinkAbove(before.links, p) then files[p] else Old(before.files, p))
  }

  /** The files written where a link is above are in the source, at their own paths; nothing else changes there. */
  ghost predicate SourceWritten(before: Contents, after: Contents, files: map<Path, string>, paths: seq<Path>) {
    && (forall p :: p in after.source.files <==> p in before.source.files || (p in paths && LinkAbove(before.links, p)))
    && (forall p :: p in after.source.files ==>
          after.source.files[p] ==
            if p in paths && p in files && LinkAbove(before.links, p) then files[p] else Old(before.source.files, p))
    && (forall d :: d in after.source.dirs <==>
          (d in before.source.dirs && !(d in paths && LinkAbove(before.links, d))) ||
          exists p :: p in paths && LinkAbove(before.links, p) && ProperPrefix(d, p))
  }

  ghost function Old(files: map<Path, string>, p: Path): string {
    if p in files then files[p] else ""
  }

  /** What was written can be read at its path, and the rest reads as before. */
  ghost predicate ReadsWritten(before: Contents, after: Contents, files: map<Path, string>, paths: seq<Path>) {
    && (forall p :: p in paths && p in files ==> Read(after, p) == Some(files[p]))
    && (forall r :: (forall p :: p in paths ==> !(p <= r)) ==> Read(after, r) == Read(before, r))
  }

  ghost predicate ApartFrom(paths: seq<Path>, r: Path) {
    forall p :: p in paths ==> Apart(p, r)
  }

  ghost predicate SameElsewhere(before: Contents, after: Contents, paths: seq<Path>) {
    forall r :: ApartFrom(paths, r) ==>
      && (Writable(after, r) <==> Writable(before, r)) && (Exists(after, r) <==> Exists(before, r))
      && (Bare(before, r) ==> Bare(after, r))
  }

  /** From one state to the next, the files at these paths have been written, in this order. */
  ghost predicate Copied(before: Contents, after: Contents, files: map<Path, string>, paths: seq<Path>) {
    && (forall p :: p in paths ==> p in files)
    && Sound(after) && after.writes == before.writes + paths
    && OwnWritten(before, after, files, paths)
    && SourceWritten(before, after, files, paths)
    && ReadsWritten(before, after, files, paths)
    && SameElsewhere(before, after, paths)
  }

  lemma CopiedNothing(state: Contents, files: map<Path, string>)
    requires Sound(state)
    ensures Copied(state, state, files, [])
  {
  }

  // ---------- one more write ----------

  lemma LinkAboveStays(before: Links, after: Links, paths: seq<Path>, p: Path)
    requires after == before - Elements(paths) && ApartFrom(paths, p)
    ensures LinkAbove(after, p) <==> LinkAbove(before, p)
    ensures forall l :: l in after ==> l in before && after[l] == before[l]
  {
    if a :| a in before && ProperPrefix(a, p) {
      assert a <= p && a in after;
    }
  }

  lemma OwnWrittenNext(before: Contents, s: Contents, files: map<Path, string>, paths: seq<Path>, p: Path)
    requires OwnWritten(before, s, files, paths) && ApartFrom(paths, p) && p in files && Sound(s)
    ensures OwnWritten(before, Written(s, p, files[p]), files, paths + [p])
  {
    LinkAboveStays(before.links, s.links, paths, p);
    NoLinkLandsOwn(s.links, p);
    InConcat(paths, [p]);
    var t := Written(s, p, files[p]);
    assert Elements(paths + [p]) == Elements(paths) + {p};
    assert before.links - (Elements(paths) + {p}) == before.links - Elements(paths) - {p};
    if LinkAbove(s.links, p) {
      NoLinkAt(s, p);
      assert s.links - {p} == s.links;
    }
  }

  lemma NoLinkAt(s: Contents, p: Path)
    requires Sound(s) && LinkAbove(s.links, p)
    ensures p !in s.links
  {
    var a :| a in s.links && ProperPrefix(a, p);
    assert a in Places(s);
  }

  lemma SourceWrittenNext(before: Contents, s: Contents, files: map<Path, string>, paths: seq<Path>, p: Path)
    requires OwnWritten(before, s, files, paths) && SourceWritten(before, s, files, paths)
    requires Sound(s) && Writable(s, p) && ApartFrom(paths, p) && p in files
    ensures SourceWritten(before, Written(s, p, files[p]), files, paths + [p])
  {
    LinkAboveStays(before.links, s.links, paths, p);
    NoLinkLandsOwn(s.links, p);
    InConcat(paths, [p]);
    if LinkAbove(s.links, p) {
      LandsAtOwnPath(s, p);
      SourceWithFile(before, s, files, paths, p);
    }
  }

  lemma SourceWithFile(before: Contents, s: Contents, files: map<Path, string>, paths: seq<Path>, p: Path)
    requires SourceWritten(before, s, files, paths) && ApartFrom(paths, p) && p in files && LinkAbove(before.links, p)
    ensures SourceWritten(before, s.(source := WithFile(s.source, p, files[p])), files, paths + [p])
  {
    InConcat(paths, [p]);
    var u := WithFile(s.source, p, files[p]);
    forall d
      ensures d in Ancestors(p) <==> ProperPrefix(d, p)
    {
      if d in Ancestors(p) {
        AncestorFacts(p, d);
      }
      if ProperPrefix(d, p) {
        assert d == p[..|d|];
      }
    }
    assert forall d :: d in u.dirs <==> (d in s.source.dirs && d != p) || ProperPrefix(d, p);
    assert forall q :: q in paths ==> !ProperPrefix(p, q);
  }

  lemma ReadsWrittenNext(before: Contents, s: Contents, files: map<Path, string>, paths: seq<Path>, p: Path)
    requires ReadsWritten(before, s, files, paths) && ApartFrom(paths, p) && p in files
    requires Sound(s) && Writable(s, p) && Unaliased(s.links, p)
    ensures ReadsWritten(before, Written(s, p, files[p]), files, paths + [p])
  {
    InConcat(paths, [p]);
    var t := Written(s, p, files[p]);
    WrittenRead(s, p, files[p]);
    forall r | !(p <= r)
      ensures Read(t, r) == Read(s, r)
    {
      ReadElsewhere(s, p, files[p], r);
    }
    forall r | forall q :: q in paths + [p] ==> !(q <= r)
      ensures Read(t, r) == Read(before, r)
    {
      assert p in paths + [p];
    }
  }

  lemma SameElsewhereNext(before: Contents, s: Contents, files: map<Path, string>, paths: seq<Path>, p: Path)
    requires SameElsewhere(before, s, paths) && p in files
    requires Sound(s) && Writable(s, p) && Unaliased(s.links, p)
    ensures SameElsewhere(before, Written(s, p, files[p]), paths + [p])
  {
    InConcat(paths, [p]);
    forall r | ApartFrom(paths + [p], r)
      ensures Writable(Written(s, p, files[p]), r) <==> Writable(before, r)
      ensures Exists(Written(s, p, files[p]), r) <==> Exists(before, r)
      ensures Bare(before, r) ==> Bare(Written(s, p, files[p]), r)
    {
      assert p in paths + [p] && ApartFrom(paths, r);
      if Bare(before, r) {
        BareElsewhere(s, p, files[p], r);
      }
      WritableElsewhere(s, p, files[p], r);
      ExistsElsewhere(s, p, files[p], r);
    }
  }

  /** One more file can be written exactly if it could be from the beginning, and then the series goes on. */
  lemma CopiedNext(before: Contents, s: Contents, files: map<Path, string>, paths: seq<Path>, p: Path)
    requires Copied(before, s, files, paths) && Independent(files) && p in files && p !in paths
    requires Unaliased(before.links, p)
    ensures Writable(s, p) <==> Writable(before, p)
    ensures Writable(s, p) ==> Copied(before, Written(s, p, files[p]), files, paths + [p])
  {
    assert ApartFrom(paths, p);
    if Writable(s, p) {
      LinkAboveStays(before.links, s.links, paths, p);
      InConcat(paths, [p]);
      WrittenSound(s, p, files[p]);
      OwnWrittenNext(before, s, files, paths, p);
      SourceWrittenNext(before, s, files, paths, p);
      ReadsWrittenNext(before, s, files, paths, p);
      SameElsewhereNext(before, s, files, paths, p);
      assert before.writes + (paths + [p]) == before.writes + paths + [p];
    }
  }

  // ---------- a whole series ----------

  /** Files that can be written one after the other: each once, and each could have been written at the start. */
  ghost predicate Series(start: Contents, files: map<Path, string>, paths: seq<Path>) {
    && Distinct(paths)
    && forall p :: p in paths ==> p in files && Unaliased(start.links, p) && Writable(start, p)
  }

  function WrittenAll(start: Contents, files: map<Path, string>, paths: seq<Path>): Contents
    requires forall p :: p in paths ==> p in files
  {
    if paths == [] then start
    else
      var p := paths[|paths| - 1];
      Written(WrittenAll(start, files, paths[..|paths| - 1]), p, files[p])
  }

  lemma {:induction false} SeriesWritten(start: Contents, files: map<Path, string>, paths: seq<Path>)
    requires Sound(start) && Independent(files) && Series(start, files, paths)
    ensures Copied(start, WrittenAll(start, files, paths), files, paths)
  {
    if paths == [] {
      CopiedNothing(start, files);
    } else {
      var done, p := paths[..|paths| - 1], paths[|paths| - 1];
      assert paths == done + [p];
      DistinctInit(done, p);
      InConcat(done, [p]);
      SeriesWritten(start, files, done);
      CopiedNext(start, WrittenAll(start, files, done), files, done, p);
    }
  }

  /** Where a series stands, one more file can be written exactly if it could be at the start. */
  lemma SeriesNext(start: Contents, files: map<Path, string>, paths: seq<Path>, p: Path)
    requires Sound(start) && Independent(files) && Series(start, files, paths)
    requires p in files && p !in paths && Unaliased(start.links, p)
    ensures Writable(WrittenAll(start, files, paths), p) <==> Writable(start, p)
    ensures Writable(start, p) ==> Series(start, files, paths + [p])
    ensures forall q :: q in paths + [p] ==> q in files
    ensures WrittenAll(start, files, paths + [p]) == Written(WrittenAll(start, files, paths), p, files[p])
  {
    SeriesWritten(start, files, paths);
    CopiedNext(start, WrittenAll(start, files, paths), files, paths, p);
    InConcat(paths, [p]);
    DistinctConcat(paths, [p]);
    assert (paths + [p])[..|paths|] == paths;
  }

  // ---------- what the source becomes ----------

  /** Without links above them, the writes leave the source alone. */
  lemma SourceUntouched(before: Contents, after: Contents, files: map<Path, string>, paths: seq<Path>)
    requires SourceWritten(before, after, files, paths) && forall p :: p in paths ==> !LinkAbove(before.links, p)
    ensures after.source == before.source
  {
    assert after.source.dirs == before.source.dirs;
    assert after.source.files == before.source.files;
  }

  /** Without files at or below its root, the overlay stays as it was while it is read. */
  lemma OverlayUntouched(before: Contents, after: Contents, files: map<Path, string>, paths: seq<Path>)
    requires SourceWritten(before, after, files, paths) && forall p :: p in paths ==> !(OVERLAY_ROOT <= p)
    ensures Subtree(after.source) == Subtree(before.source)
  {
    SameBelow(OVERLAY_ROOT, before, after, files, paths);
    var a, b := Subtree(after.source), Subtree(before.source);
    assert a.dirs == b.dirs && a.files == b.files;
  }

  lemma SameBelow(root: Path, before: Contents, after: Contents, files: map<Path, string>, paths: seq<Path>)
    requires SourceWritten(before, after, files, paths) && forall p :: p in paths ==> !(root <= p)
    ensures forall q :: root + q in after.source.dirs <==> root + q in before.source.dirs
    ensures forall q :: root + q in after.source.files <==> root + q in before.source.files
    ensures forall q :: root + q in after.source.files ==> after.source.files[root + q] == before.source.files[root + q]
  {
    forall q
      ensures root + q !in paths && forall p :: p in paths ==> !ProperPrefix(root + q, p)
    {
      assert root <= root + q;
      forall p | p in paths
        ensures !ProperPrefix(root + q, p)
      {
        PrefixOfConcat(root, q, p);
      }
    }
  }
}
