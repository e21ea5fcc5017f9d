/**
 Two checkouts on which the rule for a local checkout does not keep what it promises: one
 it writes to, and one whose overlay has a file that is not seen afterwards.
 */
module Checkouts {
  import opened CStrings
  import opened OverlayPaths
  import opened OverlayTrees
  import opened OverlayWalk
  import opened ProjectFiles
  import opened ProjectFromPath
  import opened ProjectLayout
  import opened Repositories

  const MODULES: Path := ["cmake", "Modules"]

  /** The directories the rule asks for, and bolt; as files only the two it reads. */
  predicate IsCheckout(t: Tree) {
    && t.dirs == {[], UTILS, UTILS_BAZEL, THIRD_PARTY_BUILD, OVERLAY_ROOT, LLVM, BOLT, ["cmake"], MODULES}
    && t.files.Keys == {CMAKE, VERSION}
  }

  // ---------- links into a checkout whose overlay has no files ----------

  /** What is known of the prepared links there. */
  ghost predicate AllIntoSource(source: Tree, links: Links) {
    && Sound(Start(source, links)) && [] !in links
    && forall l :: l in links ==> links[l].origin.FromSource? && Has(source, l)
  }

  lemma PreparedIntoSource(source: Tree, links: Links)
    requires ValidTree(source) && OVERLAY_ROOT in source.dirs && Subtree(source).files == map[]
    requires Prepared(source, links)
    ensures AllIntoSource(source, links)
  {
    PreparedSound(source, links);
    var l0, l1, l2 :|
      LinksFor(l0, Subtree(source), source, Subtree(source).dirs) && Materialized(l0, l1, l2, links, source);
    assert forall l :: l in l0 ==> Has(source, l);
    assert forall l :: l in l1 ==> Has(source, l);
    assert forall l :: l in l2 ==> Has(source, l);
    assert forall l :: l in links && links[l].origin.FromOverlay? ==> l in Subtree(source).files;
  }

  /** Nothing is seen that the checkout does not have. */
  lemma OnlySourceExists(source: Tree, links: Links, p: Path)
    requires AllIntoSource(source, links) && !Has(source, p)
    ensures !Exists(Start(source, links), p)
  {
    var s := Start(source, links);
    if Reading(links, p).Behind? {
      ReadsAtOwnPath(s, p);
    } else if l :| l in Places(s) && p <= l {
      PrefixOrSame(p, l);
      assert Has(source, l) && p == l[..|p|];
      PrefixIsDirectory(source, l, |p|);
    }
  }

  /** What the checkout does not have can be written at the top, and in a directory that is a link. */
  lemma NewWritable(source: Tree, links: Links, p: Path)
    requires AllIntoSource(source, links) && !Has(source, p)
    requires |p| == 1 || (|p| == 2 && p[..1] in links && p[..1] in source.dirs)
    ensures Writable(Start(source, links), p)
  {
    var s := Start(source, links);
    NothingBelow(source, p);
    if |p| == 1 {
      AboveOneName(links, p);
      NoLinkLandsOwn(links, p);
    } else {
      AboveTwoNames(links, p[..1], p);
      NoLinkLandsOwn(links, p);
      LandsAtOwnPath(s, p);
      InDirectory(s, p);
    }
  }

  lemma NothingBelow(t: Tree, p: Path)
    requires ValidTree(t) && !Has(t, p)
    ensures forall q :: Has(t, q) ==> !ProperPrefix(p, q)
  {
    forall q | Has(t, q)
      ensures !ProperPrefix(p, q)
    {
      if ProperPrefix(p, q) {
        PrefixIsDirectory(t, q, |p|);
      }
    }
  }

  lemma InDirectory(s: Contents, p: Path)
    requires AllIntoSource(s.source, s.links) && !Has(s.source, p)
    requires |p| == 2 && p[..1] in s.links && p[..1] in s.source.dirs
    ensures var spot := SpotOf(s.links, p, 2);
      spot == Behind(p[..1], p[1..]) && TreeWritable(s.source, spot.base, spot.base + spot.rest)
  {
    assert p[..0] == [];
    assert p[..1] + p[1..] == p;
    NothingBelow(s.source, p);
    forall q | q in s.source.files
      ensures !ProperPrefix(q, p)
    {
      ShortPrefix(q, p);
    }
  }

  lemma ShortPrefix(q: Path, p: Path)
    requires |p| == 2
    ensures ProperPrefix(q, p) ==> q == [] || q == p[..1]
  {
  }

  // ---------- a checkout with an empty overlay ----------

  lemma TopLevel()
    ensures "cmake" != "llvm" && "cmake" != "bolt" && "cmake" != "utils" && "utils" != "llvm" && "utils" != "bolt"
  {
    assert "cmake"[0] == 'c' && "utils"[0] == 'u' && |"llvm"| == 4 && |"bolt"| == 4;
  }

  lemma Parents(t: Tree)
    requires IsCheckout(t)
    ensures forall p :: Has(t, p) && p != [] ==> Parent(p) in t.dirs
  {
    assert Parent(UTILS) == Parent(LLVM) == Parent(BOLT) == Parent(["cmake"]) == [];
    assert Parent(UTILS_BAZEL) == UTILS && Parent(THIRD_PARTY_BUILD) == Parent(OVERLAY_ROOT) == UTILS_BAZEL;
    assert Parent(MODULES) == ["cmake"] && Parent(VERSION) == MODULES && Parent(CMAKE) == LLVM;
  }

  lemma Lengths()
    ensures |UTILS| == |LLVM| == |BOLT| == |["cmake"]| == 1 && |UTILS_BAZEL| == |MODULES| == |CMAKE| == 2
    ensures |THIRD_PARTY_BUILD| == |OVERLAY_ROOT| == |VERSION| == 3
    ensures CMAKE != UTILS_BAZEL && CMAKE != MODULES && VERSION != THIRD_PARTY_BUILD && VERSION != OVERLAY_ROOT
  {
    TopLevel();
    assert CMAKE[0] == "llvm" && VERSION[0] == "cmake" && UTILS[0] == "utils" && THIRD_PARTY_BUILD[0] == "utils";
    assert OVERLAY_ROOT[0] == "utils" && UTILS_BAZEL[0] == "utils" && MODULES[0] == "cmake";
  }

  lemma ProperUtils()
    ensures ProperPath(UTILS) && ProperPath(UTILS_BAZEL) && ProperPath(THIRD_PARTY_BUILD) && ProperPath(OVERLAY_ROOT)
  {
    assert ProperName("utils") && ProperName("bazel") && ProperName("third_party_build");
    assert ProperName("llvm-project-overlay");
  }

  lemma ProperTops()
    ensures ProperPath(LLVM) && ProperPath(BOLT) && ProperPath(["cmake"]) && ProperPath(MODULES)
  {
    assert ProperName("llvm") && ProperName("bolt") && ProperName("cmake") && ProperName("Modules");
  }

  lemma ProperInputs()
    ensures ProperPath(CMAKE) && ProperPath(VERSION)
  {
    assert ProperName("llvm") && ProperName("cmake") && ProperName("Modules");
    assert ProperName("CMakeLists.txt") && ProperName("LLVMVersion.cmake");
  }

  lemma ProperEntries(t: Tree)
    requires IsCheckout(t)
    ensures forall p :: Has(t, p) ==> ProperPath(p)
  {
    ProperUtils();
    ProperTops();
    ProperInputs();
  }

  lemma CheckoutValid(t: Tree)
    requires IsCheckout(t)
    ensures ValidTree(t)
  {
    Lengths();
    Parents(t);
    ProperEntries(t);
  }

  /** Its overlay is the root directory alone. */
  lemma OverlayIsEmpty(t: Tree)
    requires IsCheckout(t)
    ensures Subtree(t) == Tree({[]}, map[])
  {
    Lengths();
    assert OVERLAY_ROOT + [] == OVERLAY_ROOT;
    forall q: Path | Has(t, OVERLAY_ROOT + q)
      ensures q == []
    {
      assert |OVERLAY_ROOT + q| == 3 + |q|;
    }
    var overlay := Subtree(t);
    assert overlay.dirs == {[]};
    assert overlay.files.Keys == {};
  }

  lemma NotInCheckout(t: Tree, p: Path)
    requires IsCheckout(t)
    requires p in [PFM_BUILD, HELPER, BUILD, VARS, LLVM_TARGETS, BOLT_TARGETS]
    ensures !Has(t, p)
  {
    Lengths();
    TopNames();
    SecondNames();
    TopLevel();
    assert |PFM_BUILD| == 4 && |HELPER| == 6 && |LLVM_TARGETS| == |BOLT_TARGETS| == 2 && |BUILD| == |VARS| == 1;
    assert |"utils"| == 5 && |"cmake"| == 5;
    assert UTILS_BAZEL[0] == "utils" && MODULES[0] == "cmake" && CMAKE[0] == "llvm";
    assert BUILD != UTILS && BUILD != LLVM && BUILD != BOLT && BUILD != ["cmake"];
    assert VARS != UTILS && VARS != LLVM && VARS != BOLT && VARS != ["cmake"];
  }

  lemma InCheckout(t: Tree)
    requires IsCheckout(t)
    ensures OVERLAY_ROOT in t.dirs && THIRD_PARTY_BUILD in t.dirs && [] in t.dirs
    ensures LLVM in t.dirs && BOLT in t.dirs && CMAKE in t.files && VERSION in t.files
  {
  }

  /** What the following needs to know of the checkout. */
  ghost predicate Bolted(t: Tree) {
    && ValidTree(t) && OVERLAY_ROOT in t.dirs && Subtree(t) == Tree({[]}, map[])
    && Linkable(t) && TopIsLink(t, LLVM) && TopIsLink(t, BOLT)
    && LLVM in t.dirs && BOLT in t.dirs && CMAKE in t.files && VERSION in t.files
    && forall p :: p in [PFM_BUILD, HELPER, BUILD, VARS, LLVM_TARGETS, BOLT_TARGETS] ==> !Has(t, p)
  }

  lemma CheckoutIsBolted(t: Tree)
    requires IsCheckout(t)
    ensures Bolted(t)
  {
    CheckoutValid(t);
    OverlayIsEmpty(t);
    InCheckout(t);
    forall p | p in [PFM_BUILD, HELPER, BUILD, VARS, LLVM_TARGETS, BOLT_TARGETS]
      ensures !Has(t, p)
    {
      NotInCheckout(t, p);
    }
    EmptyOverlayMergeable(Subtree(t), t);
    LinkWithoutOverlay(t, LLVM);
    LinkWithoutOverlay(t, BOLT);
  }

  lemma EmptyOverlayMergeable(overlay: Tree, source: Tree)
    requires overlay == Tree({[]}, map[]) && [] in source.dirs
    ensures Mergeable(overlay, source) && |overlay.dirs| == 1
  {
  }

  lemma LinkWithoutOverlay(source: Tree, top: Path)
    requires Subtree(source) == Tree({[]}, map[]) && top in source.dirs && top != []
    ensures TopIsLink(source, top)
  {
  }

  lemma NothingExposed(source: Tree, links: Links)
    requires AllIntoSource(source, links) && !Has(source, PFM_BUILD) && !Has(source, HELPER)
    ensures Steps(PROJECT, Start(source, links)) == MiddleSteps(PROJECT)
  {
    OnlySourceExists(source, links, PFM_BUILD);
    OnlySourceExists(source, links, HELPER);
  }

  /** The steps the rule then takes, each possible at the start. */
  lemma MiddlePossible(s: Contents)
    requires Read(s, CMAKE).Some? && Read(s, VERSION).Some?
    requires Writable(s, BUILD) && Writable(s, VARS) && Writable(s, LLVM_TARGETS) && Writable(s, BOLT_TARGETS)
    ensures AllPossible(s, MiddleSteps(PROJECT))
  {
  }

  lemma BoltedReads(source: Tree, links: Links)
    requires Bolted(source) && Prepared(source, links)
    ensures var s := Start(source, links); Read(s, CMAKE).Some? && Read(s, VERSION).Some?
  {
    UnionRead(source, links);
    assert HasFile(source, CMAKE, source.files[CMAKE]) && HasFile(source, VERSION, source.files[VERSION]);
  }

  lemma NamesOfOutputs()
    ensures |BUILD| == |VARS| == |LLVM| == |BOLT| == 1 && |LLVM_TARGETS| == |BOLT_TARGETS| == 2
    ensures LLVM_TARGETS[..1] == LLVM && BOLT_TARGETS[..1] == BOLT && LLVM != UTILS && BOLT != UTILS
  {
    assert |UTILS[0]| == 5;
  }

  lemma InLink(source: Tree, links: Links, top: Path, p: Path)
    requires ValidTree(source) && OVERLAY_ROOT in source.dirs && Prepared(source, links)
    requires AllIntoSource(source, links) && TopIsLink(source, top) && top in source.dirs
    requires |top| == 1 && top != UTILS && |p| == 2 && p[..1] == top && !Has(source, p)
    ensures Writable(Start(source, links), p)
  {
    TopLinks(source, links, top);
    NewWritable(source, links, p);
  }

  lemma BoltedWritable(source: Tree, links: Links)
    requires Bolted(source) && Prepared(source, links) && AllIntoSource(source, links)
    ensures var s := Start(source, links);
      Writable(s, BUILD) && Writable(s, VARS) && Writable(s, LLVM_TARGETS) && Writable(s, BOLT_TARGETS)
  {
    NamesOfOutputs();
    InLink(source, links, LLVM, LLVM_TARGETS);
    InLink(source, links, BOLT, BOLT_TARGETS);
    NewWritable(source, links, BUILD);
    NewWritable(source, links, VARS);
  }

  lemma BoltedPossible(source: Tree, links: Links)
    requires Bolted(source) && Prepared(source, links)
    ensures var s := Start(source, links); AllPossible(s, Steps(PROJECT, s))
  {
    PreparedIntoSource(source, links);
    NothingExposed(source, links);
    BoltedReads(source, links);
    BoltedWritable(source, links);
    MiddlePossible(Start(source, links));
  }

  /**
   In this checkout, with any contents of the two files, the rule succeeds, and leaves two
   files in the checkout that were not there before.
   */
  lemma CheckoutIsWritten(source: Tree, links: Links, texts: Texts)
    requires IsCheckout(source) && Prepared(source, links)
    ensures ValidTree(source) && Linkable(source)
    ensures !Has(source, BOLT_TARGETS) && !Has(source, LLVM_TARGETS)
    ensures var after := Generated(PROJECT, Start(source, links), texts);
      && after.Some?
      && HasFile(after.value.source, BOLT_TARGETS, texts(BOLT_TARGETS))
      && HasFile(after.value.source, LLVM_TARGETS, texts(LLVM_TARGETS))
  {
    CheckoutIsBolted(source);
    BoltedIsWritten(source, links, texts);
  }

  lemma BoltedIsWritten(source: Tree, links: Links, texts: Texts)
    requires Bolted(source) && Prepared(source, links)
    ensures var after := Generated(PROJECT, Start(source, links), texts);
      && after.Some?
      && HasFile(after.value.source, BOLT_TARGETS, texts(BOLT_TARGETS))
      && HasFile(after.value.source, LLVM_TARGETS, texts(LLVM_TARGETS))
  {
    BoltedPossible(source, links);
    StepsMeaning(source, links, texts);
    CheckoutWritten(source, links, Generated(PROJECT, Start(source, links), texts).value, texts);
  }

  // ---------- a checkout whose overlay has a file in utils ----------

  function UtilsFile(name: string): Path {
    UTILS + [name]
  }

  /** The directories the rule asks for, and utils in the overlay, with one file. */
  predicate HidesUtils(t: Tree, name: string) {
    && ProperName(name) && name != "bazel"
    && t.dirs == {[], UTILS, UTILS_BAZEL, THIRD_PARTY_BUILD, OVERLAY_ROOT, OVERLAY_ROOT + UTILS}
    && t.files.Keys == {OVERLAY_ROOT + UtilsFile(name)}
  }

  lemma OverlayParents(name: string)
    ensures Parent(OVERLAY_ROOT) == UTILS_BAZEL && Parent(OVERLAY_ROOT + UTILS) == OVERLAY_ROOT
    ensures Parent(OVERLAY_ROOT + UtilsFile(name)) == OVERLAY_ROOT + UTILS
    ensures |OVERLAY_ROOT + UtilsFile(name)| == 5 && |OVERLAY_ROOT + UTILS| == 4
  {
  }

  lemma HidesUtilsValid(t: Tree, name: string)
    requires HidesUtils(t, name)
    ensures ValidTree(t)
  {
    PathsOfBuildFile();
    OverlayParents(name);
  }

  lemma OverlayOfOne(t: Tree, name: string)
    requires HidesUtils(t, name)
    ensures Subtree(t).dirs == {[], UTILS} && Subtree(t).files.Keys == {UtilsFile(name)}
  {
    OverlayParents(name);
    assert OVERLAY_ROOT + [] == OVERLAY_ROOT;
    forall q: Path | Has(t, OVERLAY_ROOT + q)
      ensures q in {[], UTILS, UtilsFile(name)}
    {
      BelowRoot(OVERLAY_ROOT, q);
    }
    assert Subtree(t).dirs == {[], UTILS};
    assert Subtree(t).files.Keys == {UtilsFile(name)};
  }

  lemma BelowRoot(root: Path, q: Path)
    ensures (root + q)[|root|..] == q
  {
  }

  /**
   The walk links the overlay's file and shows it; replacing utils by links into the checkout
   takes it away. Everything the rule asks for is there, so it does not stop before.
   */
  lemma FileBelowUtilsIsLost(source: Tree, name: string, l0: Links, l1: Links, l2: Links, l3: Links)
    requires HidesUtils(source, name)
    requires LinksFor(l0, Subtree(source), source, Subtree(source).dirs) && Materialized(l0, l1, l2, l3, source)
    ensures ValidTree(source) && Linkable(source) && UtilsFile(name) in Subtree(source).files
    ensures var content := Subtree(source).files[UtilsFile(name)];
      && Shows(l0, Subtree(source), source, UtilsFile(name), content)
      && !Shows(l3, Subtree(source), source, UtilsFile(name), content)
  {
    HidesUtilsValid(source, name);
    HidesUtilsLinkable(source, name);
    LostInUtils(source, UtilsFile(name), l0, l1, l2, l3);
  }

  lemma HidesUtilsLinkable(t: Tree, name: string)
    requires HidesUtils(t, name)
    ensures OVERLAY_ROOT in t.dirs && Linkable(t)
    ensures UTILS <= UtilsFile(name) && UtilsFile(name) in Subtree(t).files
  {
    OverlayOfOne(t, name);
    NotTheWay(t, name);
    TwoDirectories(Subtree(t), t, UtilsFile(name));
  }

  lemma NotTheWay(t: Tree, name: string)
    requires HidesUtils(t, name)
    ensures !Has(t, UtilsFile(name)) && [] in t.dirs && UTILS in t.dirs
    ensures OVERLAY_ROOT in t.dirs && THIRD_PARTY_BUILD in t.dirs
  {
    OverlayParents(name);
    assert |UtilsFile(name)| == 2 && UtilsFile(name)[1] == name && UTILS_BAZEL[1] == "bazel";
  }

  lemma TwoDirectories(overlay: Tree, source: Tree, p: Path)
    requires overlay.dirs == {[], UTILS} && overlay.files.Keys == {p}
    requires [] in source.dirs && UTILS in source.dirs && !Has(source, p)
    ensures Mergeable(overlay, source) && |overlay.dirs| <= 2
  {
  }

  lemma LostInUtils(source: Tree, p: Path, l0: Links, l1: Links, l2: Links, l3: Links)
    requires ValidTree(source) && Linkable(source) && UTILS <= p && p in Subtree(source).files
    requires LinksFor(l0, Subtree(source), source, Subtree(source).dirs) && Materialized(l0, l1, l2, l3, source)
    ensures var content := Subtree(source).files[p];
      Shows(l0, Subtree(source), source, p, content) && !Shows(l3, Subtree(source), source, p, content)
  {
    var overlay := Subtree(source);
    UtilsThere(source);
    LinksAntichain(l0, overlay, source, overlay.dirs);
    OverlayFileShown(l0, overlay, source, p);
    MaterializedShows(l0, l1, l2, l3, overlay, source, p, overlay.files[p]);
  }
}
