/**
 File systems as graphs, where symbolic links may form cycles: as long as the real directories
 do not, they unfold to the trees the generator walks.
 */
module FileGraph {
  import opened CStrings
  import opened PreferredEntries
  import opened VfsTree

  type Inode = nat

  /** A link is given by what its text leads to, which may be another link, or nothing. */
  datatype File =
    | RegularFile
    | Folder(entries: map<string, Inode>)
    | SealedFolder
    | Link(target: Inode)
    | Special

  type Graph = map<Inode, File>

  /** Where stat ends up; it gives up after `hops` links. */
  function Follow(g: Graph, i: Inode, hops: nat): Option<Inode>
    decreases hops
  {
    if i !in g then None
    else if !g[i].Link? then Some(i)
    else if hops == 0 then None
    else Follow(g, g[i].target, hops - 1)
  }

  /** Links that lead round in a circle have no status, however many links are followed. */
  lemma {:induction false} LoopHasNoStatus(g: Graph, loop: set<Inode>, i: Inode, hops: nat)
    requires forall j :: j in loop ==> j in g && g[j].Link? && g[j].target in loop
    requires i in loop
    ensures Follow(g, i, hops) == None
    decreases hops
  {
    if hops > 0 {
      LoopHasNoStatus(g, loop, g[i].target, hops - 1);
    }
  }

  function LinkNode(g: Graph, i: Inode, hops: nat): Node {
    match Follow(g, i, hops)
    case None => NoStatus
    case Some(j) =>
      if j !in g then NoStatus
      else match g[j]
        case RegularFile => Symlink(ToRegular)
        case Folder(_) => Symlink(ToDirectory)
        case SealedFolder => Symlink(ToDirectory)
        case _ => Symlink(ToOther)
  }

  predicate IsFolder(g: Graph, i: Inode) {
    i in g && g[i].Folder?
  }

  /** The real directories form a forest: each ranks above its subdirectories. */
  ghost predicate Ranked(g: Graph, rank: map<Inode, nat>) {
    && (forall i :: IsFolder(g, i) ==> i in rank)
    && (forall i, name :: IsFolder(g, i) && name in g[i].entries && IsFolder(g, g[i].entries[name]) ==>
          rank[g[i].entries[name]] < rank[i])
  }

  /** What a tree must be to show a graph from a place on: links are not entered, directories are. */
  ghost predicate Unfolds(g: Graph, hops: nat, view: map<Inode, Node>) {
    forall i :: i in view ==>
      if i !in g then view[i] == NoStatus
      else match g[i]
        case RegularFile => view[i] == Regular
        case SealedFolder => view[i] == UnreadableDirectory({})
        case Special => view[i] == Other
        case Link(_) => view[i] == LinkNode(g, i, hops)
        case Folder(entries) =>
          && view[i].Directory? && view[i].entries.Keys == entries.Keys
          && forall name :: name in entries ==> entries[name] in view && view[i].entries[name] == view[entries[name]]
  }

  function Unfold(g: Graph, rank: map<Inode, nat>, hops: nat, i: Inode): Node
    requires Ranked(g, rank)
    decreases if IsFolder(g, i) then rank[i] + 1 else 0
  {
    if i !in g then NoStatus
    else match g[i]
      case RegularFile => Regular
      case SealedFolder => UnreadableDirectory({})
      case Special => Other
      case Link(_) => LinkNode(g, i, hops)
      case Folder(entries) =>
        assert IsFolder(g, i);
        Directory(map name | name in entries :: Unfold(g, rank, hops, entries[name]))
  }

  /** A forest of real directories can be shown as trees, whatever its links do. */
  lemma ForestUnfolds(g: Graph, rank: map<Inode, nat>, hops: nat, places: set<Inode>) returns (view: map<Inode, Node>)
    requires Ranked(g, rank)
    requires forall i, name :: i in places && IsFolder(g, i) && name in g[i].entries ==> g[i].entries[name] in places
    ensures view.Keys == places && Unfolds(g, hops, view)
  {
    view := map i | i in places :: Unfold(g, rank, hops, i);
  }

  /** Each directory of the cycle lists the next one, and the last lists the first. */
  ghost predicate DirectoryCycle(g: Graph, cycle: seq<Inode>) {
    cycle != [] &&
    forall k :: 0 <= k < |cycle| ==> IsFolder(g, cycle[k]) && cycle[(k + 1) % |cycle|] in g[cycle[k]].entries.Values
  }

  lemma {:induction false} CycleDescends(g: Graph, hops: nat, view: map<Inode, Node>, cycle: seq<Inode>, at: nat)
    requires Unfolds(g, hops, view) && DirectoryCycle(g, cycle)
    requires at < |cycle| && cycle[at] in view
    ensures false
    decreases view[cycle[at]]
  {
    var next := (at + 1) % |cycle|;
    var name :| name in g[cycle[at]].entries && g[cycle[at]].entries[name] == cycle[next];
    assert view[cycle[at]].entries[name] == view[cycle[next]];
    CycleDescends(g, hops, view, cycle, next);
  }

  /** A directory on a cycle of real directories cannot be shown as a tree: walking it would never end. */
  lemma DirectoryCycleHasNoTree(g: Graph, hops: nat, view: map<Inode, Node>, cycle: seq<Inode>)
    requires DirectoryCycle(g, cycle) && Unfolds(g, hops, view)
    ensures forall i :: i in cycle ==> i !in view
  {
    forall at | 0 <= at < |cycle|
      ensures cycle[at] !in view
    {
      if cycle[at] in view {
        CycleDescends(g, hops, view, cycle, at);
      }
    }
  }

  // ---------- what the generator accepts, on the graph itself ----------

  ghost function ReachIn(g: Graph, i: Inode, names: seq<string>): Option<Inode>
    decreases |names|
  {
    if names == [] then Some(i)
    else if IsFolder(g, i) && Preferred(g[i].entries.Keys, names[0]) then ReachIn(g, g[i].entries[names[0]], names[1..])
    else None
  }

  /** A directory listed without ambiguity, a regular file, or a link that ends at a regular file. */
  ghost predicate SupportedAt(g: Graph, hops: nat, i: Inode) {
    i in g &&
    match g[i]
    case RegularFile => true
    case Folder(entries) => !Ambiguous(entries.Keys)
    case Link(_) => var j := Follow(g, i, hops); j.Some? && j.value in g && g[j.value].RegularFile?
    case _ => false
  }

  lemma SupportedUnfolds(g: Graph, rank: map<Inode, nat>, hops: nat, i: Inode)
    requires Ranked(g, rank)
    ensures Supported(Unfold(g, rank, hops, i)) <==> SupportedAt(g, hops, i)
  {
    if IsFolder(g, i) {
      assert Unfold(g, rank, hops, i).entries.Keys == g[i].entries.Keys;
    }
  }

  lemma {:induction false} ReachUnfolds(g: Graph, rank: map<Inode, nat>, hops: nat, i: Inode, names: seq<string>)
    requires Ranked(g, rank)
    ensures Reach(Unfold(g, rank, hops, i), names) ==
      match ReachIn(g, i, names)
      case None => None
      case Some(j) => Some(Unfold(g, rank, hops, j))
    decreases |names|
  {
    if names != [] && IsFolder(g, i) {
      var node := Unfold(g, rank, hops, i);
      assert node.entries.Keys == g[i].entries.Keys;
      if Preferred(g[i].entries.Keys, names[0]) {
        ReachUnfolds(g, rank, hops, g[i].entries[names[0]], names[1..]);
      }
    }
  }

  lemma AcceptableUnfolds(g: Graph, rank: map<Inode, nat>, hops: nat, i: Inode)
    requires Ranked(g, rank)
    ensures AcceptableBelow(Unfold(g, rank, hops, i)) <==>
      forall names: seq<string>, j :: ReachIn(g, i, names) == Some(j) ==> SupportedAt(g, hops, j)
  {
    var node := Unfold(g, rank, hops, i);
    if AcceptableBelow(node) {
      forall names: seq<string>, j | ReachIn(g, i, names) == Some(j)
        ensures SupportedAt(g, hops, j)
      {
        ReachUnfolds(g, rank, hops, i, names);
        SupportedUnfolds(g, rank, hops, j);
      }
    } else {
      var names: seq<string>, n: Node :| Reach(node, names) == Some(n) && !Supported(n);
      ReachUnfolds(g, rank, hops, i, names);
      SupportedUnfolds(g, rank, hops, ReachIn(g, i, names).value);
    }
  }

  /**
   A directory is accepted exactly when everything reached through preferred entries of real
   directories is supported; no link is ever entered, so cycles of links do no harm.
   */
  lemma GraphAccepted(g: Graph, rank: map<Inode, nat>, hops: nat, path: string, name: string, i: Inode)
    requires Ranked(g, rank)
    ensures BuildDirectory(path, name, Unfold(g, rank, hops, i)).Success? <==>
      IsFolder(g, i) && forall names: seq<string>, j :: ReachIn(g, i, names) == Some(j) ==> SupportedAt(g, hops, j)
  {
    RootAccepted(path, name, Unfold(g, rank, hops, i));
    AcceptableUnfolds(g, rank, hops, i);
  }
}
