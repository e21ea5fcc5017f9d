/** Where the rules find their inputs and generate their files, and that these are apart. */
module ProjectLayout {
  import opened OverlayPaths
  import opened OverlayTrees
  import opened ProjectFiles
  import opened Repositories
  import opened RepositoryWrites

  const LLVM: Path := ["llvm"]
  const BOLT: Path := ["bolt"]

  const IGNORE: Path := [".bazelignore"]
  const BUILD: Path := ["BUILD.bazel"]
  const VARS: Path := ["vars.bzl"]
  const LLVM_TARGETS: Path := ["llvm", "targets.bzl"]
  const BOLT_TARGETS: Path := ["bolt", "targets.bzl"]
  const INSTRUMENTOR: Path := ["llvm", "instrumentor.bzl"]

  const PFM_BUILD: Path := ["utils", "bazel", "third_party_build", "pfm.BUILD"]
  const CMAKE: Path := ["llvm", "CMakeLists.txt"]
  const VERSION: Path := ["cmake", "Modules", "LLVMVersion.cmake"]
  const HELPER: Path := ["llvm", "include", "llvm", "Transforms", "IPO", "InstrumentorRuntimeHelper.h"]

  const PROJECT: Layout :=
    Layout(PFM_BUILD, IGNORE, BUILD_FILE, BUILD, VARS, LLVM_TARGETS, BOLT_TARGETS, INSTRUMENTOR, CMAKE, VERSION, HELPER)

  ghost function Files(texts: Texts): map<Path, string> {
    map p | p in {IGNORE, BUILD_FILE, BUILD, VARS, LLVM_TARGETS, BOLT_TARGETS, INSTRUMENTOR} :: texts(p)
  }

  /** Two paths that part at their first or second name. */
  predicate Part(p: Path, q: Path) {
    p != [] && q != [] && (p[0] != q[0] || (|p| > 1 && |q| > 1 && p[1] != q[1]))
  }

  lemma PartApart(p: Path, q: Path)
    requires Part(p, q)
    ensures Apart(p, q) && p != q
  {
  }

  lemma TopNames()
    ensures |IGNORE[0]| == 12 && |BUILD[0]| == 11 && |VARS[0]| == 8 && |BUILD_FILE[0]| == 5
    ensures LLVM_TARGETS[0] == INSTRUMENTOR[0] == CMAKE[0] == HELPER[0] == "llvm"
    ensures BOLT_TARGETS[0] == "bolt" && "llvm" != "bolt" && |VERSION[0]| == 5 && VERSION[0] != BUILD_FILE[0]
  {
    assert "llvm"[0] == 'l' && "bolt"[0] == 'b';
    assert VERSION[0][0] == 'c' && BUILD_FILE[0][0] == 'u';
  }

  lemma SecondNames()
    ensures |LLVM_TARGETS[1]| == 11 && |INSTRUMENTOR[1]| == 16 && |CMAKE[1]| == 14 && |HELPER[1]| == 7
  {
  }

  lemma GeneratedPart(texts: Texts)
    ensures forall p, q :: p in Files(texts) && q in Files(texts) && p != q ==> Part(p, q)
    ensures forall p :: p in Files(texts) ==> Part(p, CMAKE) && Part(p, VERSION) && Part(p, HELPER)
  {
    TopNames();
    SecondNames();
  }

  lemma GeneratedDistinct()
    ensures IGNORE != BUILD_FILE && BUILD !in [IGNORE, BUILD_FILE] && VARS !in [IGNORE, BUILD_FILE, BUILD]
    ensures LLVM_TARGETS !in [IGNORE, BUILD_FILE, BUILD, VARS]
    ensures BOLT_TARGETS !in [IGNORE, BUILD_FILE, BUILD, VARS, LLVM_TARGETS]
    ensures INSTRUMENTOR !in [IGNORE, BUILD_FILE, BUILD, VARS, LLVM_TARGETS, BOLT_TARGETS]
  {
    TopNames();
    SecondNames();
  }

  lemma ProjectProper()
    ensures Proper(PROJECT)
  {
    assert ProperName(".bazelignore") && ProperName("BUILD.bazel") && ProperName("vars.bzl");
    assert ProperName("utils") && ProperName("bazel") && ProperName("third_party_build");
    assert ProperName("llvm") && ProperName("bolt") && ProperName("targets.bzl") && ProperName("instrumentor.bzl");
  }

  lemma OutsideOverlay(texts: Texts, p: Path)
    requires p in Files(texts)
    ensures !(OVERLAY_ROOT <= p)
  {
    assert OVERLAY_ROOT <= p ==> OVERLAY_ROOT[0] == p[0] && OVERLAY_ROOT[2] == p[2];
    TopNames();
    assert |OVERLAY_ROOT[0]| == 5 && |OVERLAY_ROOT[2]| == 20 && |BUILD_FILE[2]| == 17;
  }

  lemma FilesIndependent(texts: Texts)
    ensures Independent(Files(texts))
  {
    GeneratedPart(texts);
    ProjectProper();
    forall p, q | p in Files(texts) && q in Files(texts) && p != q
      ensures Apart(p, q)
    {
      PartApart(p, q);
    }
  }

  lemma ProjectPlaced(texts: Texts)
    ensures Placed(PROJECT, Files(texts)) && TextsAt(Files(texts), texts)
  {
    GeneratedPart(texts);
    GeneratedDistinct();
    forall p | p in Files(texts)
      ensures !(OVERLAY_ROOT <= p) && Apart(p, CMAKE) && Apart(p, VERSION) && Apart(p, HELPER)
    {
      OutsideOverlay(texts, p);
      PartApart(p, CMAKE);
      PartApart(p, VERSION);
      PartApart(p, HELPER);
    }
  }

  // ---------- the paths as they are written ----------

  lemma OneName(a: string)
    requires a != "."
    ensures Spell([a]) == a
  {
    assert [a][..0] == [];
  }

  lemma SpellMore(p: Path, a: string)
    requires p != [] && Spell(p) != "."
    ensures Spell(p + [a]) == Spell(p) + "/" + a && Spell(p + [a]) != "."
  {
    assert (p + [a])[..|p|] == p;
    assert (Spell(p) + "/" + a)[|Spell(p)|] == '/';
  }

  lemma TwoNames(a: string, b: string)
    requires a != "."
    ensures Spell([a, b]) == a + "/" + b && Spell([a, b]) != "."
  {
    OneName(a);
    SpellMore([a], b);
    assert [a] + [b] == [a, b];
  }

  lemma ThreeNames(a: string, b: string, c: string)
    requires a != "."
    ensures Spell([a, b, c]) == a + "/" + b + "/" + c && Spell([a, b, c]) != "."
  {
    TwoNames(a, b);
    SpellMore([a, b], c);
    assert [a, b] + [c] == [a, b, c];
  }

  lemma FourNames(a: string, b: string, c: string, d: string)
    requires a != "."
    ensures Spell([a, b, c, d]) == a + "/" + b + "/" + c + "/" + d && Spell([a, b, c, d]) != "."
  {
    ThreeNames(a, b, c);
    SpellMore([a, b, c], d);
    assert [a, b, c] + [d] == [a, b, c, d];
  }

  lemma SixNames(a: string, b: string, c: string, d: string, e: string, f: string)
    requires a != "."
    ensures Spell([a, b, c, d, e, f]) == a + "/" + b + "/" + c + "/" + d + "/" + e + "/" + f
  {
    FourNames(a, b, c, d);
    SpellMore([a, b, c, d], e);
    assert [a, b, c, d] + [e] == [a, b, c, d, e];
    SpellMore([a, b, c, d, e], f);
    assert [a, b, c, d, e] + [f] == [a, b, c, d, e, f];
  }

  lemma InputPaths()
    ensures Spell(CMAKE) == "llvm" + "/" + "CMakeLists.txt"
    ensures Spell(VERSION) == "cmake" + "/" + "Modules" + "/" + "LLVMVersion.cmake"
    ensures Spell(OVERLAY_ROOT) == "utils" + "/" + "bazel" + "/" + "llvm-project-overlay"
    ensures Spell(PFM_BUILD) == "utils" + "/" + "bazel" + "/" + "third_party_build" + "/" + "pfm.BUILD"
    ensures Spell(BUILD_FILE) == "utils" + "/" + "bazel" + "/" + "third_party_build" + "/" + "BUILD.bazel"
    ensures Spell(HELPER) ==
      "llvm" + "/" + "include" + "/" + "llvm" + "/" + "Transforms" + "/" + "IPO" + "/" + "InstrumentorRuntimeHelper.h"
  {
    TwoNames("llvm", "CMakeLists.txt");
    ThreeNames("cmake", "Modules", "LLVMVersion.cmake");
    ThreeNames("utils", "bazel", "llvm-project-overlay");
    FourNames("utils", "bazel", "third_party_build", "pfm.BUILD");
    FourNames("utils", "bazel", "third_party_build", "BUILD.bazel");
    SixNames("llvm", "include", "llvm", "Transforms", "IPO", "InstrumentorRuntimeHelper.h");
  }

  lemma OutputPaths()
    ensures Spell(IGNORE) == ".bazelignore" && Spell(BUILD) == "BUILD.bazel" && Spell(VARS) == "vars.bzl"
    ensures Spell(LLVM_TARGETS) == "llvm/targets.bzl" && Spell(BOLT_TARGETS) == "bolt/targets.bzl"
    ensures Spell(INSTRUMENTOR) == "llvm/instrumentor.bzl"
  {
    OneName(".bazelignore");
    OneName("BUILD.bazel");
    OneName("vars.bzl");
    TwoNames("llvm", "targets.bzl");
    TwoNames("bolt", "targets.bzl");
    TwoNames("llvm", "instrumentor.bzl");
  }
}
