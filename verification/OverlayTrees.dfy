/**
 The source tree and the overlay that is merged over it: which links the merge makes, what
 they show, and why none of them lies under another.
 */
module OverlayTrees {
  import opened OverlayPaths

  /** A directory tree: its directories, and its files with their contents. */
  datatype Tree = Tree(dirs: set<Path>, files: map<Path, string>)

  function Parent(p: Path): Path
    requires p != []
  {
    p[..|p| - 1]
  }

  function Base(p: Path): string
    requires p != []
  {
    p[|p| - 1]
  }

  ghost predicate Has(t: Tree, p: Path) {
    p in t.dirs || p in t.files
  }

  ghost predicate ValidTree(t: Tree) {
    && [] in t.dirs
    && (forall p :: p in t.dirs ==> p !in t.files)
    && (forall p :: Has(t, p) ==> ProperPath(p))
    && (forall p :: Has(t, p) && p != [] ==> Parent(p) in t.dirs)
  }

  lemma {:induction false} PrefixIsDirectory(t: Tree, p: Path, k: nat)
    requires ValidTree(t) && Has(t, p) && k < |p|
    ensures p[..k] in t.dirs
    decreases |p|
  {
    if k < |p| - 1 {
      PrefixIsDirectory(t, Parent(p), k);
      assert Parent(p)[..k] == p[..k];
    }
  }

  // ---------- the overlay within the source ----------

  const OVERLAY_ROOT: Path := ["utils", "bazel", "llvm-project-overlay"]

  /** The paths below a root, relative to it. */
  function Below(root: Path, paths: set<Path>): (r: set<Path>)
    ensures forall q :: q in r <==> root + q in paths
  {
    var r := set p | p in paths && root <= p :: p[|root|..];
    assert forall p :: p in paths && root <= p ==> root + p[|root|..] == p;
    assert forall q :: root + q in paths ==> root <= root + q && (root + q)[|root|..] == q;
    r
  }

  /** What lies below the overlay's root in the source, as a tree of its own. */
  function Subtree(source: Tree): (t: Tree)
    ensures forall q :: q in t.dirs <==> OVERLAY_ROOT + q in source.dirs
    ensures forall q :: q in t.files <==> OVERLAY_ROOT + q in source.files
    ensures forall q :: q in t.files ==> t.files[q] == source.files[OVERLAY_ROOT + q]
  {
    Tree(Below(OVERLAY_ROOT, source.dirs),
         map q | q in Below(OVERLAY_ROOT, source.files.Keys) :: source.files[OVERLAY_ROOT + q])
  }

  lemma SubtreeValid(source: Tree)
    requires ValidTree(source) && OVERLAY_ROOT in source.dirs
    ensures ValidTree(Subtree(source))
  {
    ValidBelow(OVERLAY_ROOT, source, Subtree(source));
  }

  lemma ValidBelow(root: Path, source: Tree, t: Tree)
    requires ValidTree(source) && root in source.dirs
    requires forall q :: q in t.dirs <==> root + q in source.dirs
    requires forall q :: q in t.files <==> root + q in source.files
    ensures ValidTree(t)
  {
    assert root + [] == root;
    forall q | Has(t, q)
      ensures ProperPath(q) && (q != [] ==> Parent(q) in t.dirs)
    {
      assert Has(source, root + q);
      assert forall i :: 0 <= i < |q| ==> (root + q)[|root| + i] == q[i];
      if q != [] {
        assert Parent(root + q) == root + Parent(q);
      }
    }
  }

  /** Below the overlay's root lies all of utils/bazel. */
  lemma OverlayRootInUtils(source: Tree)
    requires ValidTree(source) && OVERLAY_ROOT in source.dirs
    ensures UTILS in source.dirs && UTILS_BAZEL in source.dirs
  {
    PrefixIsDirectory(source, OVERLAY_ROOT, 1);
    PrefixIsDirectory(source, OVERLAY_ROOT, 2);
    assert OVERLAY_ROOT[..1] == UTILS && OVERLAY_ROOT[..2] == UTILS_BAZEL;
  }

  // ---------- the links ----------

  datatype Origin = FromOverlay | FromSource

  /** Where a link leads: a tree, and a path in it. */
  datatype Target = Target(origin: Origin, path: Path)

  type Links = map<Path, Target>

  function TreeOf(o: Origin, overlay: Tree, source: Tree): Tree {
    if o.FromOverlay? then overlay else source
  }

  /** A source entry next to an overlay directory's entries that is not itself an overlay directory. */
  ghost predicate LinksSource(overlay: Tree, source: Tree, p: Path) {
    p != [] && Parent(p) in overlay.dirs && Has(source, p) && p !in overlay.dirs
  }

  /** The links made for the overlay directories in `visited`. */
  ghost predicate LinksFor(links: Links, overlay: Tree, source: Tree, visited: set<Path>) {
    && (forall p :: p in links <==>
         p != [] && Parent(p) in visited && (p in overlay.files || LinksSource(overlay, source, p)))
    && (forall p :: p in links ==> links[p] == Target(if p in overlay.files then FromOverlay else FromSource, p))
  }

  /** What the merge needs: every overlay directory is a source directory, and no overlay file hides a source path. */
  ghost predicate Mergeable(overlay: Tree, source: Tree) {
    overlay.dirs <= source.dirs && forall p :: p in overlay.files ==> !Has(source, p)
  }

  predicate ProperPrefix(a: Path, b: Path) {
    |a| < |b| && b[..|a|] == a
  }

  /** No link lies under another. */
  ghost predicate Antichain(links: Links) {
    forall a, b :: a in links && b in links ==> !ProperPrefix(a, b)
  }

  /** A link lies above the path: writing there would go through it and change the tree behind it. */
  ghost predicate LinkAbove(links: Links, p: Path) {
    exists a :: a in links && ProperPrefix(a, p)
  }

  /** Every link leads to its own relative path. */
  ghost predicate Aligned(links: Links) {
    forall p :: p in links ==> links[p].path == p
  }

  ghost predicate HasFile(t: Tree, p: Path, content: string) {
    p in t.files && t.files[p] == content
  }

  /** Following the link at the first k components of p, the file at p is seen with this content. */
  ghost predicate ShowsThrough(links: Links, overlay: Tree, source: Tree, p: Path, content: string, k: nat) {
    k <= |p| && p[..k] in links &&
    var target := links[p[..k]]; HasFile(TreeOf(target.origin, overlay, source), target.path + p[k..], content)
  }

  ghost predicate Shows(links: Links, overlay: Tree, source: Tree, p: Path, content: string) {
    exists k :: ShowsThrough(links, overlay, source, p, content, k)
  }

  /** The links show the files of both trees, and nothing else. */
  ghost predicate ShowsUnion(links: Links, overlay: Tree, source: Tree) {
    forall p, content :: Shows(links, overlay, source, p, content) <==>
      HasFile(overlay, p, content) || HasFile(source, p, content)
  }

  /** A link that leads to its own relative path shows a file at that file's own path. */
  lemma AlignedShows(links: Links, overlay: Tree, source: Tree, p: Path, content: string, k: nat)
    requires Aligned(links) && k <= |p| && p[..k] in links
    ensures ShowsThrough(links, overlay, source, p, content, k) <==>
      HasFile(TreeOf(links[p[..k]].origin, overlay, source), p, content)
  {
    assert p[..k] + p[k..] == p;
  }

  /** The link through which a source file is seen: just below the last overlay directory on its path. */
  lemma {:induction false} SourceLink(overlay: Tree, source: Tree, p: Path, k: nat) returns (j: nat)
    requires ValidTree(overlay) && ValidTree(source) && p in source.files && p !in overlay.dirs
    requires k < |p| && p[..k] in overlay.dirs
    ensures k < j <= |p| && LinksSource(overlay, source, p[..j])
    decreases |p| - k
  {
    if k + 1 < |p| && p[..k + 1] in overlay.dirs {
      j := SourceLink(overlay, source, p, k + 1);
    } else {
      j := k + 1;
      assert Parent(p[..j]) == p[..k];
      if j < |p| {
        PrefixIsDirectory(source, p, j);
      } else {
        assert p[..j] == p;
      }
    }
  }

  /** No overlay directory is a link or lies under one. */
  lemma NoLinkAboveDirectory(links: Links, overlay: Tree, source: Tree, visited: set<Path>, p: Path)
    requires ValidTree(overlay) && LinksFor(links, overlay, source, visited)
    requires p in overlay.dirs
    ensures p !in links && !LinkAbove(links, p)
  {
    forall a | a in links
      ensures !ProperPrefix(a, p)
    {
      if ProperPrefix(a, p) {
        PrefixIsDirectory(overlay, p, |a|);
      }
    }
  }

  lemma NoLinkAboveEntry(links: Links, p: Path)
    requires p != [] && Parent(p) !in links && !LinkAbove(links, Parent(p))
    ensures !LinkAbove(links, p)
  {
    forall a | a in links
      ensures !ProperPrefix(a, p)
    {
      PrefixOfEntry(a, p);
    }
  }

  lemma PrefixOfEntry(a: Path, p: Path)
    requires p != []
    ensures ProperPrefix(a, p) ==> a == Parent(p) || ProperPrefix(a, Parent(p))
  {
    if ProperPrefix(a, p) {
      assert a == Parent(p)[..|a|];
    }
  }

  /** A link's own prefixes are overlay directories, which are never links. */
  lemma LinksAntichain(links: Links, overlay: Tree, source: Tree, visited: set<Path>)
    requires ValidTree(overlay) && LinksFor(links, overlay, source, visited) && visited <= overlay.dirs
    ensures Antichain(links) && Aligned(links) && [] !in links
  {
    forall a, b | a in links && b in links
      ensures !ProperPrefix(a, b)
    {
      NoLinkAboveDirectory(links, overlay, source, visited, Parent(b));
      NoLinkAboveEntry(links, b);
    }
  }

  lemma OverlayFileShown(links: Links, overlay: Tree, source: Tree, p: Path)
    requires ValidTree(overlay) && LinksFor(links, overlay, source, overlay.dirs) && p in overlay.files
    ensures Shows(links, overlay, source, p, overlay.files[p])
  {
    assert Has(overlay, p);
    assert p[..|p|] == p && p + p[|p|..] == p;
    assert ShowsThrough(links, overlay, source, p, overlay.files[p], |p|);
  }

  lemma SourceFileShown(links: Links, overlay: Tree, source: Tree, p: Path)
    requires ValidTree(overlay) && ValidTree(source) && Mergeable(overlay, source)
    requires LinksFor(links, overlay, source, overlay.dirs) && p in source.files
    ensures Shows(links, overlay, source, p, source.files[p])
  {
    assert Has(source, p) && p !in source.dirs;
    assert p[..0] == [];
    var j := SourceLink(overlay, source, p, 0);
    var l := p[..j];
    assert Has(source, l);
    assert l !in overlay.files;
    assert l + p[j..] == p;
    assert ShowsThrough(links, overlay, source, p, source.files[p], j);
  }

  /** After a complete walk over mergeable trees, exactly the files of the two trees are seen. */
  lemma LinksShowUnion(links: Links, overlay: Tree, source: Tree)
    requires ValidTree(overlay) && ValidTree(source) && Mergeable(overlay, source)
    requires LinksFor(links, overlay, source, overlay.dirs)
    ensures ShowsUnion(links, overlay, source)
  {
    forall p, content
      ensures Shows(links, overlay, source, p, content) <==> HasFile(overlay, p, content) || HasFile(source, p, content)
    {
      if p in overlay.files {
        OverlayFileShown(links, overlay, source, p);
      }
      if p in source.files {
        SourceFileShown(links, overlay, source, p);
      }
      if k: nat :| ShowsThrough(links, overlay, source, p, content, k) {
        AlignedShows(links, overlay, source, p, content, k);
      }
    }
  }

  // ---------- replacing what is at a directory by links to its entries ----------

  /** Everything at or below the directory is deleted, and each entry of the source directory is linked. */
  ghost predicate Replaced(before: Links, after: Links, source: Tree, dir: Path) {
    && (forall p :: p in after <==> (p in before && !(dir <= p)) || (p != [] && Parent(p) == dir && Has(source, p)))
    && (forall p :: p in after ==> after[p] == if dir <= p then Target(FromSource, p) else before[p])
  }

  /** A proper prefix of an entry is the directory or above it; a prefix of a path outside is outside. */
  lemma PrefixesAround(a: Path, b: Path, dir: Path)
    ensures ProperPrefix(a, b) && dir <= b && |b| == |dir| + 1 ==> a == dir || ProperPrefix(a, dir)
    ensures ProperPrefix(a, b) && !(dir <= b) ==> !(dir <= a)
  {
    if ProperPrefix(a, b) {
      if dir <= b && |b| == |dir| + 1 {
        assert a == dir[..|a|];
      }
      if dir <= a {
        assert dir == b[..|dir|];
      }
    }
  }

  /** Replacing keeps the links apart, and leaves no link at the directory or above its entries. */
  lemma ReplacedAntichain(before: Links, after: Links, source: Tree, dir: Path)
    requires Antichain(before) && Aligned(before) && Replaced(before, after, source, dir) && !LinkAbove(before, dir)
    ensures Antichain(after) && Aligned(after)
    ensures dir !in after && !LinkAbove(after, dir)
  {
    forall a, b | a in after && b in after
      ensures !ProperPrefix(a, b)
    {
      PrefixesAround(a, b, dir);
    }
    assert forall a :: a in after && ProperPrefix(a, dir) ==> a in before;
  }

  /** Outside the directory nothing changes; at and below it exactly the source files are shown. */
  lemma ReplacedShows(before: Links, after: Links, overlay: Tree, source: Tree, dir: Path, p: Path, content: string)
    requires ValidTree(source) && dir in source.dirs
    requires Antichain(before) && Aligned(before) && Replaced(before, after, source, dir) && !LinkAbove(before, dir)
    ensures Shows(after, overlay, source, p, content) <==>
      if dir <= p then HasFile(source, p, content) else Shows(before, overlay, source, p, content)
  {
    ReplacedAntichain(before, after, source, dir);
    if dir <= p {
      if k: nat :| ShowsThrough(after, overlay, source, p, content, k) {
        assert !ProperPrefix(p[..k], dir) by {
          assert p[..k] in after;
        }
        assert dir <= p[..k];
        AlignedShows(after, overlay, source, p, content, k);
      }
      if HasFile(source, p, content) {
        SourceFileBelow(after, overlay, source, dir, p, content);
      }
    } else {
      ShowsOutside(before, after, overlay, source, dir, p, content);
    }
  }

  lemma SourceFileBelow(after: Links, overlay: Tree, source: Tree, dir: Path, p: Path, content: string)
    requires ValidTree(source) && dir in source.dirs && dir <= p && HasFile(source, p, content)
    requires forall q :: q != [] && Parent(q) == dir && Has(source, q) ==>
      q in after && after[q] == Target(FromSource, q)
    ensures Shows(after, overlay, source, p, content)
  {
    var j := |dir| + 1;
    assert Has(source, p) && p != dir;
    var entry := p[..j];
    assert Parent(entry) == dir;
    if j < |p| {
      PrefixIsDirectory(source, p, j);
    } else {
      assert entry == p;
    }
    assert entry + p[j..] == p;
    assert ShowsThrough(after, overlay, source, p, content, j);
  }

  lemma ShowsOutside(before: Links, after: Links, overlay: Tree, source: Tree, dir: Path, p: Path, content: string)
    requires Replaced(before, after, source, dir) && !(dir <= p)
    ensures Shows(after, overlay, source, p, content) <==> Shows(before, overlay, source, p, content)
  {
    forall k: nat
      ensures ShowsThrough(after, overlay, source, p, content, k) <==>
        ShowsThrough(before, overlay, source, p, content, k)
    {
      if k <= |p| {
        assert p[..|p|] == p;
        PrefixesAround(p[..k], p, dir);
        assert p[..k] in after <==> p[..k] in before;
      }
    }
  }

  // ---------- materializing utils/bazel/third_party_build ----------

  const UTILS: Path := ["utils"]
  const UTILS_BAZEL: Path := ["utils", "bazel"]
  const THIRD_PARTY_BUILD: Path := ["utils", "bazel", "third_party_build"]
  const BUILD_FILE: Path := ["utils", "bazel", "third_party_build", "BUILD.bazel"]

  ghost predicate Materialized(l0: Links, l1: Links, l2: Links, l3: Links, source: Tree) {
    Replaced(l0, l1, source, UTILS) && Replaced(l1, l2, source, UTILS_BAZEL) &&
      Replaced(l2, l3, source, THIRD_PARTY_BUILD)
  }

  lemma PathsOfBuildFile()
    ensures Parent(UTILS) == [] && Parent(UTILS_BAZEL) == UTILS && Parent(THIRD_PARTY_BUILD) == UTILS_BAZEL
    ensures Parent(BUILD_FILE) == THIRD_PARTY_BUILD
    ensures UTILS <= UTILS_BAZEL <= THIRD_PARTY_BUILD
  {
  }

  /** The three steps keep the links apart and clear the way to the build file. */
  lemma MaterializedAntichain(l0: Links, l1: Links, l2: Links, l3: Links, source: Tree)
    requires Antichain(l0) && Aligned(l0) && [] !in l0 && Materialized(l0, l1, l2, l3, source)
    ensures Antichain(l1) && Aligned(l1) && Antichain(l2) && Aligned(l2) && Antichain(l3) && Aligned(l3)
    ensures !LinkAbove(l0, UTILS) && !LinkAbove(l1, UTILS_BAZEL) &&
      !LinkAbove(l2, THIRD_PARTY_BUILD) && !LinkAbove(l3, BUILD_FILE)
  {
    PathsOfBuildFile();
    NoLinkAboveEntry(l0, UTILS);
    ReplacedAntichain(l0, l1, source, UTILS);
    NoLinkAboveEntry(l1, UTILS_BAZEL);
    ReplacedAntichain(l1, l2, source, UTILS_BAZEL);
    NoLinkAboveEntry(l2, THIRD_PARTY_BUILD);
    ReplacedAntichain(l2, l3, source, THIRD_PARTY_BUILD);
    NoLinkAboveEntry(l3, BUILD_FILE);
  }

  /** Afterwards utils shows the source alone, and the rest what it showed before. */
  lemma MaterializedShows(l0: Links, l1: Links, l2: Links, l3: Links, overlay: Tree, source: Tree, p: Path,
                          content: string)
    requires ValidTree(source) && Antichain(l0) && Aligned(l0) && [] !in l0 && Materialized(l0, l1, l2, l3, source)
    requires UTILS in source.dirs && UTILS_BAZEL in source.dirs && THIRD_PARTY_BUILD in source.dirs
    ensures Shows(l3, overlay, source, p, content) <==>
      if UTILS <= p then HasFile(source, p, content) else Shows(l0, overlay, source, p, content)
  {
    PathsOfBuildFile();
    MaterializedAntichain(l0, l1, l2, l3, source);
    ReplacedShows(l0, l1, overlay, source, UTILS, p, content);
    ReplacedShows(l1, l2, overlay, source, UTILS_BAZEL, p, content);
    ReplacedShows(l2, l3, overlay, source, THIRD_PARTY_BUILD, p, content);
  }

  /**
   Without utils in the overlay, the walk links utils as a whole and writing the build file
   would go through that link. The three replacements clear the way in every case, and keep
   the union of the two trees exactly when the overlay has no file at or below utils.
   */
  lemma MaterializedKeeps(l0: Links, l1: Links, l2: Links, l3: Links, overlay: Tree, source: Tree)
    requires ValidTree(overlay) && ValidTree(source) && Mergeable(overlay, source)
    requires LinksFor(l0, overlay, source, overlay.dirs)
    requires UTILS in source.dirs && UTILS_BAZEL in source.dirs && THIRD_PARTY_BUILD in source.dirs
    requires Materialized(l0, l1, l2, l3, source)
    ensures !Has(overlay, UTILS) ==> LinkAbove(l0, BUILD_FILE)
    ensures Antichain(l3) && !LinkAbove(l3, BUILD_FILE)
    ensures ShowsUnion(l3, overlay, source) <==> forall p :: p in overlay.files ==> !(UTILS <= p)
  {
    PathsOfBuildFile();
    LinksAntichain(l0, overlay, source, overlay.dirs);
    LinksShowUnion(l0, overlay, source);
    MaterializedAntichain(l0, l1, l2, l3, source);
    if !Has(overlay, UTILS) {
      assert LinksSource(overlay, source, UTILS);
      assert UTILS in l0 && ProperPrefix(UTILS, BUILD_FILE);
    }
    UnionOutsideUtils(l0, l1, l2, l3, overlay, source);
  }

  lemma UnionOutsideUtils(l0: Links, l1: Links, l2: Links, l3: Links, overlay: Tree, source: Tree)
    requires ValidTree(source) && Mergeable(overlay, source) && ShowsUnion(l0, overlay, source)
    requires Antichain(l0) && Aligned(l0) && [] !in l0 && Materialized(l0, l1, l2, l3, source)
    requires UTILS in source.dirs && UTILS_BAZEL in source.dirs && THIRD_PARTY_BUILD in source.dirs
    ensures ShowsUnion(l3, overlay, source) <==> forall p :: p in overlay.files ==> !(UTILS <= p)
  {
    forall p, content
      ensures Shows(l3, overlay, source, p, content) <==>
        HasFile(source, p, content) || (!(UTILS <= p) && HasFile(overlay, p, content))
    {
      MaterializedShows(l0, l1, l2, l3, overlay, source, p, content);
    }
    if p :| p in overlay.files && UTILS <= p {
      assert HasFile(overlay, p, overlay.files[p]) && !Has(source, p);
      assert !Shows(l3, overlay, source, p, overlay.files[p]);
    }
  }
}
