/**
 The rule for a local checkout: it links the checkout and the overlay within it, prepares
 the way to the generated build file, and generates files. Where these land, what is seen
 afterwards, and when the checkout itself is written to.
 */
module ProjectFromPath {
  import opened CStrings
  import opened OverlayLinks
  import opened OverlayPaths
  import opened OverlayTrees
  import opened OverlayWalk
  import opened PreparedLinks
  import opened ProjectFiles
  import opened ProjectLayout
  import opened Repositories
  import opened RepositoryWrites

  // ---------- the prepared links ----------

  /**
   When the checkout can be linked: it holds the overlay and the build file's directory, and the
   two can be merged.
   */
  ghost predicate Linkable(source: Tree) {
    && OVERLAY_ROOT in source.dirs && THIRD_PARTY_BUILD in source.dirs
    && |Subtree(source).dirs| <= 1_000_000 && Mergeable(Subtree(source), source)
  }

  /** The links after the walk and the three replacements. */
  ghost predicate Prepared(source: Tree, links: Links) {
    exists l0, l1, l2 ::
      LinksFor(l0, Subtree(source), source, Subtree(source).dirs) && Materialized(l0, l1, l2, links, source)
  }

  ghost function Start(source: Tree, links: Links): Contents {
    Contents(links, map[], source, [])
  }

  lemma LinkedSound(source: Tree, links: Links)
    requires ValidTree(source) && OVERLAY_ROOT in source.dirs
    requires LinksFor(links, Subtree(source), source, Subtree(source).dirs)
    ensures Antichain(links) && Aligned(links) && [] !in links
    ensures forall l :: l in links && links[l].origin.FromOverlay? ==> OVERLAY_ROOT + l in source.files
  {
    SubtreeValid(source);
    LinksAntichain(links, Subtree(source), source, Subtree(source).dirs);
  }

  lemma ReplacedOverlayLinks(before: Links, after: Links, source: Tree, dir: Path)
    requires Replaced(before, after, source, dir)
    requires forall l :: l in before && before[l].origin.FromOverlay? ==> OVERLAY_ROOT + l in source.files
    ensures forall l :: l in after && after[l].origin.FromOverlay? ==> OVERLAY_ROOT + l in source.files
    ensures dir != [] && [] !in before ==> [] !in after
  {
  }

  lemma PreparedSound(source: Tree, links: Links)
    requires ValidTree(source) && OVERLAY_ROOT in source.dirs && Prepared(source, links)
    ensures Sound(Start(source, links)) && [] !in links && !LinkAbove(links, BUILD_FILE)
    ensures Bare(Start(source, links), BUILD_FILE)
  {
    var l0, l1, l2 :|
      LinksFor(l0, Subtree(source), source, Subtree(source).dirs) && Materialized(l0, l1, l2, links, source);
    LinkedSound(source, l0);
    MaterializedAntichain(l0, l1, l2, links, source);
    MaterializedSound(l0, l1, l2, links, source);
    NothingBelowBuildFile(l2, links, source);
  }

  lemma MaterializedSound(l0: Links, l1: Links, l2: Links, links: Links, source: Tree)
    requires ValidTree(source) && Materialized(l0, l1, l2, links, source) && [] !in l0
    requires Antichain(links) && Aligned(links)
    requires forall l :: l in l0 && l0[l].origin.FromOverlay? ==> OVERLAY_ROOT + l in source.files
    ensures Sound(Start(source, links)) && [] !in links
  {
    ReplacedOverlayLinks(l0, l1, source, UTILS);
    ReplacedOverlayLinks(l1, l2, source, UTILS_BAZEL);
    ReplacedOverlayLinks(l2, links, source, THIRD_PARTY_BUILD);
  }

  lemma NothingBelowBuildFile(before: Links, after: Links, source: Tree)
    requires Replaced(before, after, source, THIRD_PARTY_BUILD) && !LinkAbove(after, BUILD_FILE)
    ensures Bare(Start(source, after), BUILD_FILE)
  {
    NoLinkLandsOwn(after, BUILD_FILE);
    PathsOfBuildFile();
    assert THIRD_PARTY_BUILD + [BUILD_FILE[3]] == BUILD_FILE;
    forall l | l in after
      ensures !ProperPrefix(BUILD_FILE, l)
    {
      PrefixOfConcat(THIRD_PARTY_BUILD, [BUILD_FILE[3]], l);
      ProperPrefixIsPrefix(BUILD_FILE, l);
    }
  }

  lemma ProperPrefixIsPrefix(a: Path, b: Path)
    ensures ProperPrefix(a, b) ==> a <= b && |a| < |b|
  {
  }

  // ---------- which generated files lie below a link ----------

  /** A top-level name of the checkout other than utils is a link exactly when the overlay has no directory there. */
  ghost predicate TopIsLink(source: Tree, top: Path) {
    top !in Subtree(source).dirs && (Has(source, top) || top in Subtree(source).files)
  }

  lemma TopUnreplaced(before: Links, after: Links, source: Tree, dir: Path, top: Path)
    requires Replaced(before, after, source, dir) && |top| == 1 && dir != [] && !(dir <= top)
    ensures top in after <==> top in before
  {
    assert |Parent(top)| == 0;
  }

  lemma TopLinks(source: Tree, links: Links, top: Path)
    requires ValidTree(source) && OVERLAY_ROOT in source.dirs && Prepared(source, links)
    requires |top| == 1 && top != UTILS
    ensures top in links <==> TopIsLink(source, top)
  {
    var l0, l1, l2 :|
      LinksFor(l0, Subtree(source), source, Subtree(source).dirs) && Materialized(l0, l1, l2, links, source);
    SubtreeValid(source);
    assert Parent(top) == [];
    assert !(UTILS <= top) && !(UTILS_BAZEL <= top) && !(THIRD_PARTY_BUILD <= top);
    TopUnreplaced(l0, l1, source, UTILS, top);
    TopUnreplaced(l1, l2, source, UTILS_BAZEL, top);
    TopUnreplaced(l2, links, source, THIRD_PARTY_BUILD, top);
  }

  lemma AboveTwoNames(links: Links, top: Path, p: Path)
    requires [] !in links && |top| == 1 && |p| == 2 && p[..1] == top
    ensures LinkAbove(links, p) <==> top in links
  {
    if a :| a in links && ProperPrefix(a, p) {
      assert |a| == 1 && a == p[..1];
    }
    if top in links {
      assert ProperPrefix(top, p);
    }
  }

  lemma AboveOneName(links: Links, p: Path)
    requires [] !in links && |p| == 1
    ensures !LinkAbove(links, p)
  {
    assert forall a: Path :: ProperPrefix(a, p) ==> |a| == 0;
  }

  /** The two top-level directories with generated files in them are the overlay's, or not there. */
  ghost predicate StaysInside(source: Tree) {
    !TopIsLink(source, LLVM) && !TopIsLink(source, BOLT)
  }

  ghost function Generates(source: Tree, links: Links): seq<Path> {
    OutputsOf(Steps(PROJECT, Start(source, links)))
  }

  lemma GeneratesWhat(source: Tree, links: Links)
    requires ValidTree(source) && OVERLAY_ROOT in source.dirs && Prepared(source, links)
    ensures forall p :: p in Generates(source, links) ==>
      p in [IGNORE, BUILD_FILE, BUILD, VARS, LLVM_TARGETS, BOLT_TARGETS, INSTRUMENTOR]
    ensures LLVM_TARGETS in Generates(source, links) && BOLT_TARGETS in Generates(source, links)
  {
    var s, texts := Start(source, links), (p: Path) => "";
    PreparedSound(source, links);
    ProjectPlaced(texts);
    ProjectInOrder(PROJECT, s, Files(texts), texts);
    InConcat(ExposedOutputs(PROJECT, s), PlainOutputs(PROJECT));
    InConcat(ExposedOutputs(PROJECT, s) + PlainOutputs(PROJECT), HeaderOutputs(PROJECT, s));
    assert LLVM_TARGETS in PlainOutputs(PROJECT) && BOLT_TARGETS in PlainOutputs(PROJECT);
  }

  /** Which of the generated files lie below a link: those in llvm and bolt, if these are links. */
  lemma LinksAboveOutputs(source: Tree, links: Links)
    requires ValidTree(source) && OVERLAY_ROOT in source.dirs && Prepared(source, links)
    ensures LinkAbove(links, LLVM_TARGETS) <==> TopIsLink(source, LLVM)
    ensures LinkAbove(links, INSTRUMENTOR) <==> TopIsLink(source, LLVM)
    ensures LinkAbove(links, BOLT_TARGETS) <==> TopIsLink(source, BOLT)
    ensures forall p :: p in [IGNORE, BUILD_FILE, BUILD, VARS] ==> !LinkAbove(links, p)
  {
    PreparedSound(source, links);
    TopNames();
    assert |UTILS[0]| == 5 && LLVM != UTILS && BOLT != UTILS;
    TopLinks(source, links, LLVM);
    TopLinks(source, links, BOLT);
    AboveTwoNames(links, LLVM, LLVM_TARGETS);
    AboveTwoNames(links, LLVM, INSTRUMENTOR);
    AboveTwoNames(links, BOLT, BOLT_TARGETS);
    AboveOneName(links, IGNORE);
    AboveOneName(links, BUILD);
    AboveOneName(links, VARS);
  }

  /**
   No generated file lies below a link exactly when neither llvm nor bolt is one: each is a
   directory of the overlay, or neither in the checkout nor in the overlay.
   */
  lemma NoOutputBelowLink(source: Tree, links: Links)
    requires ValidTree(source) && OVERLAY_ROOT in source.dirs && Prepared(source, links)
    ensures (forall p :: p in Generates(source, links) ==> !LinkAbove(links, p)) <==> StaysInside(source)
  {
    GeneratesWhat(source, links);
    LinksAboveOutputs(source, links);
  }

  // ---------- the whole rule ----------

  lemma UtilsThere(source: Tree)
    requires ValidTree(source) && Linkable(source)
    ensures ValidTree(Subtree(source)) && UTILS in source.dirs && UTILS_BAZEL in source.dirs
  {
    SubtreeValid(source);
    OverlayRootInUtils(source);
  }

  lemma StepsMeaning(source: Tree, links: Links, texts: Texts)
    requires ValidTree(source) && OVERLAY_ROOT in source.dirs && Prepared(source, links)
    ensures var s := Start(source, links); var r := Generated(PROJECT, s, texts);
      && (r.Some? <==> AllPossible(s, Steps(PROJECT, s)))
      && (r.Some? ==> Copied(s, r.value, Files(texts), Generates(source, links)))
  {
    var s := Start(source, links);
    PreparedSound(source, links);
    FilesIndependent(texts);
    ProjectPlaced(texts);
    ProjectInOrder(PROJECT, s, Files(texts), texts);
    GeneratedMeaning(PROJECT, s, Files(texts), texts);
  }

  /** Links the checkout and its overlay, and prepares the way to the build file. */
  method PrepareLinks(repo: Repository) returns (ok: bool)
    requires ValidTree(repo.source) && repo.State() == Start(repo.source, map[])
    modifies repo
    ensures ok <==> Linkable(old(repo.source))
    ensures ok ==> Prepared(old(repo.source), repo.links) && repo.State() == Start(old(repo.source), repo.links)
  {
    var source := repo.source;
    ok := OVERLAY_ROOT in source.dirs;
    if !ok {
      return;
    }
    SubtreeValid(source);
    OverlayRootInUtils(source);
    ghost var order: seq<Path>, l1: Links, l2: Links;
    ok, order := SymlinkSourceAndOverlay(repo, Subtree(source), source);
    if !ok {
      return;
    }
    LinksAntichain(repo.links, Subtree(source), source, Subtree(source).dirs);
    ok, l1, l2 := MaterializeThirdPartyBuild(repo, source);
  }

  /**
   Builds the project in an empty repository. The links are prepared exactly when the
   checkout can be linked, and the rule succeeds exactly when, then, every file it reads is
   seen and every file it generates can be written. After it exactly these files have been
   written, below links in the checkout and otherwise in the repository.
   */
  method LinkProject(repo: Repository, texts: Texts) returns (ok: bool, ghost links: Links)
    requires ValidTree(repo.source) && repo.State() == Start(repo.source, map[])
    modifies repo
    ensures ok ==> Linkable(old(repo.source))
    ensures Linkable(old(repo.source)) ==> Prepared(old(repo.source), links)
    ensures Linkable(old(repo.source)) ==>
      (ok <==> AllPossible(Start(old(repo.source), links), Steps(PROJECT, Start(old(repo.source), links))))
    ensures ok ==>
      Copied(Start(old(repo.source), links), repo.State(), Files(texts), Generates(old(repo.source), links))
  {
    ok := PrepareLinks(repo);
    links := repo.links;
    if ok {
      StepsMeaning(old(repo.source), links, texts);
      ProjectProper();
      ok := WriteProjectFiles(repo, texts, PROJECT);
    }
  }

  // ---------- what is seen afterwards ----------

  /** What a repository of links alone shows is what reading through them gives. */
  lemma ReadIsShows(s: Contents, p: Path, content: string)
    requires Sound(s) && s.files == map[]
    ensures Read(s, p) == Some(content) <==> Shows(s.links, Subtree(s.source), s.source, p, content)
  {
    if k: nat :| ShowsThrough(s.links, Subtree(s.source), s.source, p, content, k) {
      FirstIsOnly(s, p, k);
      ThroughFirst(s, p, content, k);
    }
    if Reading(s.links, p).Behind? {
      ThroughFirst(s, p, content, FirstLink(s.links, p, 0, |p| + 1).value);
    }
  }

  lemma FirstIsOnly(s: Contents, p: Path, k: nat)
    requires Sound(s) && k <= |p| && p[..k] in s.links
    ensures FirstLink(s.links, p, 0, |p| + 1) == Some(k)
  {
    var j := FirstLink(s.links, p, 0, |p| + 1).value;
    SliceOfSlice(p, j, k);
    NotBelow(s, p[..j], p[..k]);
  }

  lemma SliceOfSlice(p: Path, j: nat, k: nat)
    requires j <= k <= |p|
    ensures j < k ==> ProperPrefix(p[..j], p[..k])
  {
  }

  lemma NotBelow(s: Contents, l: Path, m: Path)
    requires Sound(s) && l in s.links && m in s.links
    ensures !ProperPrefix(l, m)
  {
    assert l in Places(s) && m in Places(s);
  }

  lemma ThroughFirst(s: Contents, p: Path, content: string, k: nat)
    requires FirstLink(s.links, p, 0, |p| + 1) == Some(k)
    ensures Read(s, p) == Some(content) <==> ShowsThrough(s.links, Subtree(s.source), s.source, p, content, k)
  {
    var target := s.links[p[..k]];
    Reassociate(OVERLAY_ROOT, target.path, p[k..]);
  }

  /**
   Every generated file is found with its content. Where none is generated at or above a
   path, the checkout and the overlay together are seen, if the overlay has no file at or
   below utils.
   */
  lemma ProjectIsSeen(source: Tree, links: Links, after: Contents, texts: Texts)
    requires ValidTree(source) && Linkable(source) && Prepared(source, links)
    requires Copied(Start(source, links), after, Files(texts), Generates(source, links))
    ensures forall p :: p in Generates(source, links) ==> Read(after, p) == Some(texts(p))
    ensures (forall p :: p in Subtree(source).files ==> !(UTILS <= p)) ==>
      forall p, content :: (forall g :: g in Generates(source, links) ==> !(g <= p)) ==>
        (Read(after, p) == Some(content) <==> HasFile(Subtree(source), p, content) || HasFile(source, p, content))
  {
    if forall p :: p in Subtree(source).files ==> !(UTILS <= p) {
      UnionRead(source, links);
      forall p, content | forall g :: g in Generates(source, links) ==> !(g <= p)
        ensures Read(after, p) == Some(content) <==> HasFile(Subtree(source), p, content) || HasFile(source, p, content)
      {
        assert Read(after, p) == Read(Start(source, links), p);
      }
    }
  }

  lemma UnionRead(source: Tree, links: Links)
    requires ValidTree(source) && Linkable(source) && Prepared(source, links)
    requires forall p :: p in Subtree(source).files ==> !(UTILS <= p)
    ensures forall p, content :: Read(Start(source, links), p) == Some(content) <==>
      HasFile(Subtree(source), p, content) || HasFile(source, p, content)
  {
    var l0, l1, l2 :|
      LinksFor(l0, Subtree(source), source, Subtree(source).dirs) && Materialized(l0, l1, l2, links, source);
    UtilsThere(source);
    PreparedSound(source, links);
    MaterializedKeeps(l0, l1, l2, links, Subtree(source), source);
    forall p, content
      ensures Read(Start(source, links), p) == Some(content) <==>
        HasFile(Subtree(source), p, content) || HasFile(source, p, content)
    {
      ReadIsShows(Start(source, links), p, content);
    }
  }

  // ---------- what becomes of the checkout ----------

  /** If neither llvm nor bolt is a link, the checkout stays as it was. */
  lemma CheckoutUntouched(source: Tree, links: Links, after: Contents, texts: Texts)
    requires ValidTree(source) && OVERLAY_ROOT in source.dirs && Prepared(source, links) && StaysInside(source)
    requires Copied(Start(source, links), after, Files(texts), Generates(source, links))
    ensures after.source == source
  {
    NoOutputBelowLink(source, links);
    SourceUntouched(Start(source, links), after, Files(texts), Generates(source, links));
  }

  /** And if one is, the generated file in it lands in the checkout. */
  lemma CheckoutWritten(source: Tree, links: Links, after: Contents, texts: Texts)
    requires ValidTree(source) && OVERLAY_ROOT in source.dirs && Prepared(source, links)
    requires Copied(Start(source, links), after, Files(texts), Generates(source, links))
    ensures TopIsLink(source, BOLT) ==> HasFile(after.source, BOLT_TARGETS, texts(BOLT_TARGETS))
    ensures TopIsLink(source, LLVM) ==> HasFile(after.source, LLVM_TARGETS, texts(LLVM_TARGETS))
  {
    LinksAboveOutputs(source, links);
    GeneratesWhat(source, links);
  }
}
