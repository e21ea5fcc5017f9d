/**
 The overlay as a tree: which files and directories of a directory forest it shows,
 under which names and external paths, and when the generator refuses the forest.
 */
module VfsTree {
  import opened CStrings
  import opened PreferredEntries

  // ---------- the file system ----------

  /** What stat finds at the end of a symbolic link; a dangling link is a node without status. */
  datatype Target = ToRegular | ToDirectory | ToOther

  /**
   What a path names. Symbolic links carry only what stat reports of their target, so
   links may form cycles while directories still form a tree.
   */
  datatype Node =
    | Regular
    | Directory(entries: map<string, Node>)
    | UnreadableDirectory(delivered: set<string>)
    | Symlink(target: Target)
    | Other
    | NoStatus

  /** The names a directory lists, or lists before reading it fails; opening anything else delivers none. */
  function Delivered(node: Node): set<string> {
    match node
    case Directory(entries) => entries.Keys
    case UnreadableDirectory(delivered) => delivered
    case _ => {}
  }

  /** No directory lists "." or ".." among its names. */
  ghost predicate ProperNames(node: Node) {
    && "." !in Delivered(node) && ".." !in Delivered(node)
    && (node.Directory? ==> forall n :: n in node.entries ==> ProperNames(node.entries[n]))
  }

  datatype PathType = RegularPath | DirectoryPath | OtherPath

  /** lstat and stat together: the type of what is reached, and whether a link leads there. */
  function PathInfo(node: Node): Option<(PathType, bool)> {
    match node
    case Regular => Some((RegularPath, false))
    case Directory(_) => Some((DirectoryPath, false))
    case UnreadableDirectory(_) => Some((DirectoryPath, false))
    case Symlink(ToRegular) => Some((RegularPath, true))
    case Symlink(ToDirectory) => Some((DirectoryPath, true))
    case Symlink(ToOther) => Some((OtherPath, true))
    case Other => Some((OtherPath, false))
    case NoStatus => None
  }

  // ---------- paths ----------

  function JoinPath(left: string, right: string): string {
    if left != [] && left[|left| - 1] != '/' && left[|left| - 1] != '\\' then left + "/" + right
    else left + right
  }

  function GenericPath(path: string): string {
    seq(|path|, i requires 0 <= i < |path| => if path[i] == '\\' then '/' else path[i])
  }

  function JoinAll(path: string, names: seq<string>): string
    decreases |names|
  {
    if names == [] then path else JoinAll(JoinPath(path, names[0]), names[1..])
  }

  // ---------- the overlay tree ----------

  datatype Tree =
    | File(name: string, external: string)
    | Dir(name: string, contents: seq<Tree>)

  datatype Error =
    | Unreadable(directory: string)
    | AmbiguousNames(directory: string, first: string, second: string)
    | NoStat(path: string)
    | DirectorySymlink(path: string)
    | Unsupported(path: string)

  /** The tree shown for a directory, or the first thing in traversal order that is refused. */
  ghost function BuildDirectory(path: string, name: string, node: Node): Result<Tree, Error>
    decreases node, 2
  {
    if !node.Directory? then Failure(Unreadable(path))
    else
      match Collected(node.entries.Keys)
      case Failure((first, second)) => Failure(AmbiguousNames(path, first, second))
      case Success(kept) =>
        KeptAreNames(node.entries.Keys);
        match BuildContents(path, node, kept)
        case Failure(error) => Failure(error)
        case Success(contents) => Success(Dir(name, contents))
  }

  ghost function BuildContents(path: string, node: Node, kept: seq<Entry>): (r: Result<seq<Tree>, Error>)
    requires node.Directory? && forall e :: e in kept ==> e.name in node.entries
    ensures r.Success? ==> |r.value| == |kept|
    decreases node, 1, |kept|
  {
    if kept == [] then Success([])
    else
      match BuildEntry(JoinPath(path, kept[0].name), kept[0].name, node.entries[kept[0].name])
      case Failure(error) => Failure(error)
      case Success(tree) =>
        match BuildContents(path, node, kept[1..])
        case Failure(error) => Failure(error)
        case Success(trees) => Success([tree] + trees)
  }

  ghost function BuildEntry(path: string, name: string, node: Node): Result<Tree, Error>
    decreases node, 3
  {
    match PathInfo(node)
    case None => Failure(NoStat(path))
    case Some((DirectoryPath, true)) => Failure(DirectorySymlink(GenericPath(path)))
    case Some((DirectoryPath, false)) => BuildDirectory(path, name, node)
    case Some((RegularPath, _)) => Success(File(name, GenericPath(path)))
    case Some((OtherPath, _)) => Failure(Unsupported(GenericPath(path)))
  }

  // ---------- what is reached through preferred entries ----------

  /** The node found by following preferred names through real directories. */
  ghost function Reach(node: Node, names: seq<string>): Option<Node>
    decreases |names|
  {
    if names == [] then Some(node)
    else if node.Directory? && Preferred(node.entries.Keys, names[0]) then Reach(node.entries[names[0]], names[1..])
    else None
  }

  /** A directory that can be listed without ambiguity, or a regular file, possibly behind links. */
  ghost predicate Supported(node: Node) {
    match node
    case Directory(entries) => !Ambiguous(entries.Keys)
    case Regular => true
    case Symlink(target) => target.ToRegular?
    case _ => false
  }

  ghost predicate Acceptable(node: Node) {
    node.Directory? && forall names: seq<string>, n: Node :: Reach(node, names) == Some(n) ==> Supported(n)
  }

  /** As Acceptable, for a node below a root. */
  ghost predicate AcceptableBelow(node: Node) {
    forall names: seq<string>, n: Node :: Reach(node, names) == Some(n) ==> Supported(n)
  }

  lemma AcceptableStep(node: Node)
    requires node.Directory?
    ensures AcceptableBelow(node) <==>
      !Ambiguous(node.entries.Keys) &&
      forall name :: Preferred(node.entries.Keys, name) ==> AcceptableBelow(node.entries[name])
  {
    if AcceptableBelow(node) {
      assert Reach(node, []) == Some(node);
      forall name, names: seq<string>, n: Node |
        Preferred(node.entries.Keys, name) && Reach(node.entries[name], names) == Some(n)
        ensures Supported(n)
      {
        assert ([name] + names)[1..] == names;
        assert Reach(node, [name] + names) == Some(n);
      }
    } else {
      var names: seq<string>, n: Node :| Reach(node, names) == Some(n) && !Supported(n);
      if names != [] {
        assert Reach(node.entries[names[0]], names[1..]) == Some(n);
      }
    }
  }

  lemma NotADirectoryReachesOnlyItself(node: Node)
    requires !node.Directory?
    ensures AcceptableBelow(node) <==> Supported(node)
  {
    assert Reach(node, []) == Some(node);
  }

  lemma {:induction false} BuildEntryAccepts(path: string, name: string, node: Node)
    ensures BuildEntry(path, name, node).Success? <==> AcceptableBelow(node)
    decreases node, 3
  {
    if node.Directory? {
      assert BuildEntry(path, name, node) == BuildDirectory(path, name, node);
      BuildDirectoryAccepts(path, name, node);
    } else {
      NotADirectoryReachesOnlyItself(node);
    }
  }

  lemma {:induction false} BuildContentsAccepts(path: string, node: Node, kept: seq<Entry>)
    requires node.Directory? && forall e :: e in kept ==> e.name in node.entries
    ensures BuildContents(path, node, kept).Success? <==>
      forall e :: e in kept ==> AcceptableBelow(node.entries[e.name])
    decreases node, 1, |kept|
  {
    if kept != [] {
      BuildEntryAccepts(JoinPath(path, kept[0].name), kept[0].name, node.entries[kept[0].name]);
      BuildContentsAccepts(path, node, kept[1..]);
      assert kept == [kept[0]] + kept[1..];
    }
  }

  lemma {:induction false} BuildDirectoryAccepts(path: string, name: string, node: Node)
    requires node.Directory?
    ensures BuildDirectory(path, name, node).Success? <==> AcceptableBelow(node)
    decreases node, 2
  {
    var names := node.entries.Keys;
    AcceptableStep(node);
    CollectedNames(names);
    if Collected(names).Success? {
      var kept := Collected(names).value;
      BuildContentsAccepts(path, node, kept);
      forall n | Preferred(names, n)
        ensures EntryOf(n) in kept
      {
      }
      forall e | e in kept
        ensures Preferred(names, e.name)
      {
      }
    }
  }

  /**
   A root is accepted iff it can be opened as a directory and nothing reached through
   preferred entries is ambiguous, a directory link, special, unreadable or without status.
   */
  lemma RootAccepted(path: string, name: string, node: Node)
    ensures BuildDirectory(path, name, node).Success? <==> Acceptable(node)
  {
    if node.Directory? {
      BuildDirectoryAccepts(path, name, node);
      assert Acceptable(node) <==> AcceptableBelow(node);
    }
  }

  // ---------- case-insensitive lookup ----------

  /** The external path a case-insensitive lookup of the components finds below this tree. */
  ghost predicate Finds(tree: Tree, query: seq<string>, external: string) {
    match tree
    case File(_, e) => query == [] && e == external
    case Dir(_, contents) =>
      query != [] &&
      exists i :: 0 <= i < |contents| && Fold(contents[i].name) == Fold(query[0]) &&
        Finds(contents[i], query[1..], external)
  }

  /** At every level, no two entries are the same name to a case-insensitive reader. */
  ghost predicate Unambiguous(tree: Tree) {
    tree.Dir? ==>
      && (forall i, j :: 0 <= i < j < |tree.contents| ==> Fold(tree.contents[i].name) != Fold(tree.contents[j].name))
      && (forall i :: 0 <= i < |tree.contents| ==> Unambiguous(tree.contents[i]))
  }

  lemma {:induction false} LookupIsUnique(tree: Tree, query: seq<string>, x: string, y: string)
    requires Unambiguous(tree) && Finds(tree, query, x) && Finds(tree, query, y)
    ensures x == y
    decreases tree
  {
    if tree.Dir? {
      var i :| 0 <= i < |tree.contents| && Fold(tree.contents[i].name) == Fold(query[0]) &&
        Finds(tree.contents[i], query[1..], x);
      var j :| 0 <= j < |tree.contents| && Fold(tree.contents[j].name) == Fold(query[0]) &&
        Finds(tree.contents[j], query[1..], y);
      assert i == j;
      LookupIsUnique(tree.contents[i], query[1..], x, y);
    }
  }

  ghost predicate CaseVariant(a: seq<string>, b: seq<string>) {
    |a| == |b| && forall i :: 0 <= i < |a| ==> Fold(a[i]) == Fold(b[i])
  }

  ghost predicate IsRegularFile(node: Node) {
    node.Regular? || node == Symlink(ToRegular)
  }

  /** Some case variant of the query leads, through preferred entries, to the regular file at `external`. */
  ghost predicate Resolves(path: string, node: Node, query: seq<string>, external: string) {
    exists names: seq<string>, n: Node ::
      Reach(node, names) == Some(n) && IsRegularFile(n) && CaseVariant(names, query) &&
        external == GenericPath(JoinAll(path, names))
  }

  /** What BuildContents made of each kept entry. */
  lemma {:induction false} ContentsAt(path: string, node: Node, kept: seq<Entry>, i: nat)
    requires node.Directory? && forall e :: e in kept ==> e.name in node.entries
    requires BuildContents(path, node, kept).Success? && i < |kept|
    ensures BuildEntry(JoinPath(path, kept[i].name), kept[i].name, node.entries[kept[i].name])
         == Success(BuildContents(path, node, kept).value[i])
  {
    if i > 0 {
      ContentsAt(path, node, kept[1..], i - 1);
    }
  }

  lemma EntryName(path: string, name: string, node: Node)
    requires BuildEntry(path, name, node).Success?
    ensures BuildEntry(path, name, node).value.name == name
    ensures BuildEntry(path, name, node).value.File? <==> IsRegularFile(node)
    ensures !IsRegularFile(node) ==> node.Directory? && BuildEntry(path, name, node) == BuildDirectory(path, name, node)
  {
  }

  lemma {:induction false} BuiltUnambiguous(path: string, name: string, node: Node)
    requires BuildEntry(path, name, node).Success?
    ensures Unambiguous(BuildEntry(path, name, node).value)
    decreases node
  {
    EntryName(path, name, node);
    if node.Directory? {
      var names := node.entries.Keys;
      CollectedNames(names);
      var kept := Collected(names).value;
      var contents := BuildContents(path, node, kept).value;
      forall i | 0 <= i < |contents|
        ensures contents[i].name == kept[i].name && Unambiguous(contents[i])
      {
        ContentsAt(path, node, kept, i);
        EntryName(JoinPath(path, kept[i].name), kept[i].name, node.entries[kept[i].name]);
        BuiltUnambiguous(JoinPath(path, kept[i].name), kept[i].name, node.entries[kept[i].name]);
      }
      forall i, j | 0 <= i < j < |contents|
        ensures Fold(contents[i].name) != Fold(contents[j].name)
      {
        assert kept[i] in kept && kept[j] in kept;
        StrCmpZero(kept[i].folded, kept[j].folded);
      }
    }
  }

  lemma {:induction false} BuiltLookup(path: string, name: string, node: Node, query: seq<string>, external: string)
    requires BuildEntry(path, name, node).Success?
    ensures Finds(BuildEntry(path, name, node).value, query, external) <==> Resolves(path, node, query, external)
    decreases node
  {
    EntryName(path, name, node);
    if IsRegularFile(node) {
      assert Reach(node, []) == Some(node);
      if query == [] {
        assert CaseVariant([], query) && JoinAll(path, []) == path;
      }
    } else {
      BuiltDirectoryLookup(path, name, node, query, external);
    }
  }

  lemma {:induction false} BuiltDirectoryLookup(path: string, name: string, node: Node, query: seq<string>,
                                                external: string)
    requires node.Directory? && BuildDirectory(path, name, node).Success?
    ensures Finds(BuildDirectory(path, name, node).value, query, external) <==> Resolves(path, node, query, external)
    decreases node, 0
  {
    var names := node.entries.Keys;
    CollectedNames(names);
    var kept := Collected(names).value;
    var contents := BuildContents(path, node, kept).value;
    if query != [] {
      forall n | Preferred(names, n)
        ensures EntryOf(n) in kept
      {
      }
      forall i | 0 <= i < |contents|
        ensures contents[i].name == kept[i].name && Preferred(names, kept[i].name)
        ensures Finds(contents[i], query[1..], external) <==>
                Resolves(JoinPath(path, kept[i].name), node.entries[kept[i].name], query[1..], external)
      {
        assert kept[i] in kept;
        ContentsAt(path, node, kept, i);
        EntryName(JoinPath(path, kept[i].name), kept[i].name, node.entries[kept[i].name]);
        BuiltLookup(JoinPath(path, kept[i].name), kept[i].name, node.entries[kept[i].name], query[1..], external);
      }
      ChildrenDecide(path, name, node, kept, contents, query, external);
    }
  }

  /** A directory's lookup follows from those of its entries. */
  lemma ChildrenDecide(path: string, name: string, node: Node, kept: seq<Entry>, contents: seq<Tree>,
                       query: seq<string>, external: string)
    requires node.Directory? && query != [] && |contents| == |kept|
    requires forall n :: Preferred(node.entries.Keys, n) ==> EntryOf(n) in kept
    requires forall i :: 0 <= i < |kept| ==>
      && contents[i].name == kept[i].name && Preferred(node.entries.Keys, kept[i].name)
      && (Finds(contents[i], query[1..], external) <==>
          Resolves(JoinPath(path, kept[i].name), node.entries[kept[i].name], query[1..], external))
    ensures Finds(Dir(name, contents), query, external) <==> Resolves(path, node, query, external)
  {
    if Finds(Dir(name, contents), query, external) {
      var i :| 0 <= i < |contents| && Fold(contents[i].name) == Fold(query[0]) &&
        Finds(contents[i], query[1..], external);
      ResolvesStep(path, node, query, external, kept[i].name);
    }
    if Resolves(path, node, query, external) {
      var first := ResolvesFirst(path, node, query, external);
      var i :| 0 <= i < |kept| && kept[i] == EntryOf(first);
      assert Finds(contents[i], query[1..], external);
    }
  }

  lemma ResolvesStep(path: string, node: Node, query: seq<string>, external: string, first: string)
    requires node.Directory? && Preferred(node.entries.Keys, first) && query != [] && Fold(first) == Fold(query[0])
    requires Resolves(JoinPath(path, first), node.entries[first], query[1..], external)
    ensures Resolves(path, node, query, external)
  {
    var names: seq<string>, n: Node :| Reach(node.entries[first], names) == Some(n) && IsRegularFile(n) &&
      CaseVariant(names, query[1..]) && external == GenericPath(JoinAll(JoinPath(path, first), names));
    var all := [first] + names;
    assert all[1..] == names;
    forall i | 0 <= i < |all|
      ensures Fold(all[i]) == Fold(query[i])
    {
      if i > 0 {
        assert Fold(names[i - 1]) == Fold(query[1..][i - 1]);
      }
    }
    assert Reach(node, all) == Some(n) && CaseVariant(all, query);
  }

  lemma ResolvesFirst(path: string, node: Node, query: seq<string>, external: string) returns (first: string)
    requires node.Directory? && query != [] && Resolves(path, node, query, external)
    ensures Preferred(node.entries.Keys, first) && Fold(first) == Fold(query[0])
    ensures Resolves(JoinPath(path, first), node.entries[first], query[1..], external)
  {
    var names: seq<string>, n: Node :| Reach(node, names) == Some(n) && IsRegularFile(n) &&
      CaseVariant(names, query) && external == GenericPath(JoinAll(path, names));
    first := names[0];
    forall i | 0 <= i < |names[1..]|
      ensures Fold(names[1..][i]) == Fold(query[1..][i])
    {
      assert Fold(names[i + 1]) == Fold(query[i + 1]);
    }
    assert CaseVariant(names[1..], query[1..]);
    assert Reach(node.entries[first], names[1..]) == Some(n);
  }

  /**
   Below an accepted root, a case-insensitive lookup finds a file exactly when some case
   variant of the query reaches it through preferred entries; it finds the forward-slash
   form of that file's path and never anything else.
   */
  lemma RootLookup(path: string, name: string, node: Node, query: seq<string>, external: string)
    requires BuildDirectory(path, name, node).Success?
    ensures var tree := BuildDirectory(path, name, node).value;
      && Unambiguous(tree)
      && (Finds(tree, query, external) <==> Resolves(path, node, query, external))
      && forall other :: Finds(tree, query, external) && Finds(tree, query, other) ==> other == external
  {
    var tree := BuildDirectory(path, name, node).value;
    assert BuildEntry(path, name, node) == BuildDirectory(path, name, node);
    BuiltUnambiguous(path, name, node);
    BuiltDirectoryLookup(path, name, node, query, external);
    forall other | Finds(tree, query, external) && Finds(tree, query, other)
      ensures other == external
    {
      LookupIsUnique(tree, query, external, other);
    }
  }

  /** Any spelling of a regular file's path that differs only in case resolves to its external path. */
  lemma EveryCaseVariantResolves(path: string, name: string, node: Node, names: seq<string>, query: seq<string>)
    requires BuildDirectory(path, name, node).Success?
    requires Reach(node, names).Some? && IsRegularFile(Reach(node, names).value) && CaseVariant(names, query)
    ensures var external := GenericPath(JoinAll(path, names));
      forall x :: Finds(BuildDirectory(path, name, node).value, query, x) <==> x == external
  {
    var external := GenericPath(JoinAll(path, names));
    assert Resolves(path, node, query, external);
    forall x
      ensures Finds(BuildDirectory(path, name, node).value, query, x) <==> x == external
    {
      RootLookup(path, name, node, query, external);
      RootLookup(path, name, node, query, x);
    }
  }
}
