/**
 How the rule for a local checkout prepares the repository: link both trees, and turn the
 directories above the generated build file into directories of links.
 */
module PreparedLinks {
  import opened OverlayLinks
  import opened OverlayPaths
  import opened OverlayTrees
  import opened OverlayWalk
  import opened Repositories

  lemma DeletedClears(before: Links, middle: Links, dir: Path)
    requires forall p :: p in middle <==> p in before && !(dir <= p)
    requires !LinkAbove(before, dir)
    ensures dir !in middle && !LinkAbove(middle, dir)
    ensures forall p :: IsEntry(p, dir) ==> p !in middle
  {
    assert forall a :: a in middle && ProperPrefix(a, dir) ==> a in before;
  }

  /** Deletes what is at the directory and links each of its entries in the source tree. */
  method ReplaceDirectory(repo: Repository, source: Tree, directory: string, ghost dir: Path) returns (ok: bool)
    requires ValidTree(source) && ProperPath(dir) && directory == Spell(dir) && !LinkAbove(repo.links, dir)
    requires repo.files == map[]
    modifies repo
    ensures repo.State() == old(repo.State()).(links := repo.links)
    ensures ok <==> dir in source.dirs
    ensures ok ==> Replaced(old(repo.links), repo.links, source, dir)
  {
    SpellRoundTrip(dir);
    NoLinkLandsOwn(repo.links, dir);
    repo.Delete(directory);
    DeletedClears(old(repo.links), repo.links, dir);
    var entries := Readdir(source, directory);
    if entries.None? {
      return false;
    }
    ghost var paths: set<Path>;
    ok, paths := LinkSourceEntries(repo, source, directory, {}, entries.value, dir);
  }

  /** Each directory lies in the one before it, and the first one in the root. */
  ghost predicate Nested(dirs: seq<Path>) {
    && (forall i :: 0 <= i < |dirs| ==> ProperPath(dirs[i]))
    && (|dirs| > 0 ==> IsEntry(dirs[0], []))
    && (forall i :: 0 < i < |dirs| ==> IsEntry(dirs[i], dirs[i - 1]))
  }

  /** The links after each of the replacements so far. */
  ghost predicate ReplacedAll(states: seq<Links>, source: Tree, dirs: seq<Path>, done: nat) {
    |states| == done + 1 <= |dirs| + 1 &&
    forall i :: 0 <= i < done ==> Replaced(states[i], states[i + 1], source, dirs[i]) && dirs[i] in source.dirs
  }

  lemma ReplacedAllNext(states: seq<Links>, source: Tree, dirs: seq<Path>, done: nat, after: Links)
    requires ReplacedAll(states, source, dirs, done) && done < |dirs|
    requires Replaced(states[done], after, source, dirs[done]) && dirs[done] in source.dirs
    ensures ReplacedAll(states + [after], source, dirs, done + 1)
  {
    var more := states + [after];
    assert forall i :: 0 <= i <= done ==> more[i] == states[i];
    assert more[done + 1] == after;
  }

  /** The links are apart, and the way to the next directory is clear. */
  ghost predicate Ready(links: Links, dirs: seq<Path>, next: nat) {
    Antichain(links) && Aligned(links) && (next < |dirs| ==> !LinkAbove(links, dirs[next]))
  }

  lemma ReadyFirst(links: Links, dirs: seq<Path>)
    requires Antichain(links) && Aligned(links) && [] !in links && Nested(dirs)
    ensures Ready(links, dirs, 0)
  {
    if |dirs| > 0 {
      assert IsEntry(dirs[0], []);
      assert Parent(dirs[0]) == [];
      NoLinkAboveEntry(links, dirs[0]);
    }
  }

  lemma ReadyNext(before: Links, after: Links, source: Tree, dirs: seq<Path>, next: nat)
    requires next < |dirs| && Nested(dirs) && Ready(before, dirs, next) && Replaced(before, after, source, dirs[next])
    ensures Ready(after, dirs, next + 1)
  {
    ReplacedAntichain(before, after, source, dirs[next]);
    if next + 1 < |dirs| {
      assert IsEntry(dirs[next + 1], dirs[next]);
      NoLinkAboveEntry(after, dirs[next + 1]);
    }
  }

  /** Replaces nested directories from the top down: each step clears the way for the next. */
  method ReplaceDirectories(repo: Repository, source: Tree, directories: seq<string>, ghost dirs: seq<Path>)
    returns (ok: bool, ghost states: seq<Links>)
    requires ValidTree(source) && Antichain(repo.links) && Aligned(repo.links) && [] !in repo.links
    requires Spelled(directories, dirs) && Nested(dirs)
    requires repo.files == map[]
    modifies repo
    ensures repo.State() == old(repo.State()).(links := repo.links)
    ensures ok <==> forall i :: 0 <= i < |dirs| ==> dirs[i] in source.dirs
    ensures ok ==>
      ReplacedAll(states, source, dirs, |dirs|) && states[0] == old(repo.links) && states[|dirs|] == repo.links
  {
    states := [repo.links];
    ReadyFirst(repo.links, dirs);
    for i := 0 to |directories|
      invariant ReplacedAll(states, source, dirs, i) && states[0] == old(repo.links) && states[i] == repo.links
      invariant Ready(repo.links, dirs, i)
      invariant repo.State() == old(repo.State()).(links := repo.links)
    {
      ghost var before := repo.links;
      ok := ReplaceDirectory(repo, source, directories[i], dirs[i]);
      if !ok {
        return;
      }
      ReadyNext(before, repo.links, source, dirs, i);
      ReplacedAllNext(states, source, dirs, i, repo.links);
      states := states + [repo.links];
    }
    ok := true;
  }

  lemma NestedFour(d0: Path, d1: Path, d2: Path, d3: Path)
    requires ProperPath(d0) && ProperPath(d1) && ProperPath(d2) && ProperPath(d3)
    requires IsEntry(d0, []) && IsEntry(d1, d0) && IsEntry(d2, d1) && IsEntry(d3, d2)
    ensures Nested([d0, d1, d2, d3])
  {
    var dirs := [d0, d1, d2, d3];
    assert dirs[0] == d0 && dirs[1] == d1 && dirs[2] == d2 && dirs[3] == d3;
  }

  lemma BuildFileNested()
    ensures Nested([UTILS, UTILS_BAZEL, THIRD_PARTY_BUILD, BUILD_FILE])
  {
    assert ProperName("utils") && ProperName("bazel") && ProperName("third_party_build") && ProperName("BUILD.bazel");
    PathsOfBuildFile();
    NestedFour(UTILS, UTILS_BAZEL, THIRD_PARTY_BUILD, BUILD_FILE);
  }

  /** Replaces utils, utils/bazel and utils/bazel/third_party_build. */
  method MaterializeThirdPartyBuild(repo: Repository, source: Tree) returns (ok: bool, ghost l1: Links, ghost l2: Links)
    requires ValidTree(source) && Antichain(repo.links) && Aligned(repo.links) && [] !in repo.links
    requires repo.files == map[]
    modifies repo
    ensures repo.State() == old(repo.State()).(links := repo.links)
    ensures ok <==> UTILS in source.dirs && UTILS_BAZEL in source.dirs && THIRD_PARTY_BUILD in source.dirs
    ensures ok ==> Materialized(old(repo.links), l1, l2, repo.links, source)
  {
    BuildFileNested();
    ok, l1, l2 := ReplaceThree(repo, source, UTILS, UTILS_BAZEL, THIRD_PARTY_BUILD, BUILD_FILE);
  }

  method ReplaceThree(repo: Repository, source: Tree, d0: Path, d1: Path, d2: Path, ghost next: Path)
    returns (ok: bool, ghost l1: Links, ghost l2: Links)
    requires ValidTree(source) && Antichain(repo.links) && Aligned(repo.links) && [] !in repo.links
    requires Nested([d0, d1, d2, next])
    requires repo.files == map[]
    modifies repo
    ensures repo.State() == old(repo.State()).(links := repo.links)
    ensures ok <==> d0 in source.dirs && d1 in source.dirs && d2 in source.dirs
    ensures ok ==>
      Replaced(old(repo.links), l1, source, d0) && Replaced(l1, l2, source, d1) && Replaced(l2, repo.links, source, d2)
  {
    ghost var all, dirs := [d0, d1, d2, next], [d0, d1, d2];
    assert forall i :: 0 <= i < 3 ==> dirs[i] == all[i];
    assert Nested(dirs);
    ghost var states: seq<Links>;
    ok, states := ReplaceDirectories(repo, source, [Spell(d0), Spell(d1), Spell(d2)], dirs);
    assert ok <==> dirs[0] in source.dirs && dirs[1] in source.dirs && dirs[2] in source.dirs;
    l1, l2 := map[], map[];
    if ok {
      l1, l2 := states[1], states[2];
    }
  }
}
