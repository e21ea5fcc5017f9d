/**
 Which error a refused directory gives: that of the first thing, in the order of folded names
 and from the top down, that preferred entries reach and the overlay cannot show.
 */
module VfsRefusals {
  import opened CStrings
  import opened PreferredEntries
  import opened VfsTree

  /** The error for a thing at a path. */
  ghost predicate RefusedAs(n: Node, path: string, e: Error) {
    match n
    case Directory(entries) =>
      Collected(entries.Keys).Failure? &&
      e == AmbiguousNames(path, Collected(entries.Keys).error.0, Collected(entries.Keys).error.1)
    case UnreadableDirectory(_) => e == Unreadable(path)
    case NoStatus => e == NoStat(path)
    case Symlink(ToDirectory) => e == DirectorySymlink(GenericPath(path))
    case Symlink(ToOther) => e == Unsupported(GenericPath(path))
    case Other => e == Unsupported(GenericPath(path))
    case _ => false
  }

  /**
   A list of names comes before those it begins, and before those with a later folded name at the
   first difference.
   */
  ghost predicate EarlierAt(a: seq<string>, b: seq<string>, k: nat) {
    && k <= |a| && k < |b| && a[..k] == b[..k]
    && (k == |a| || StrCmp(Fold(a[k]), Fold(b[k])) < 0)
  }

  ghost predicate Earlier(a: seq<string>, b: seq<string>) {
    exists k: nat :: EarlierAt(a, b, k)
  }

  ghost predicate ReachesUnsupported(node: Node, names: seq<string>) {
    Reach(node, names).Some? && !Supported(Reach(node, names).value)
  }

  /** The names lead to what is refused with this error, and nothing unsupported comes before it. */
  ghost predicate FirstRefused(node: Node, path: string, names: seq<string>, e: Error) {
    && Reach(node, names).Some? && RefusedAs(Reach(node, names).value, JoinAll(path, names), e)
    && forall others :: ReachesUnsupported(node, others) ==> others == names || Earlier(names, others)
  }

  lemma NothingEarlier(b: seq<string>)
    ensures b == [] || Earlier([], b)
  {
    assert b != [] ==> EarlierAt([], b, 0);
  }

  lemma EarlierBelow(first: string, a: seq<string>, b: seq<string>)
    requires Earlier(a, b)
    ensures Earlier([first] + a, [first] + b)
  {
    var k: nat :| EarlierAt(a, b, k);
    assert ([first] + a)[..k + 1] == [first] + a[..k] && ([first] + b)[..k + 1] == [first] + b[..k];
    assert EarlierAt([first] + a, [first] + b, k + 1);
  }

  lemma EarlierName(a: seq<string>, b: seq<string>)
    requires a != [] && b != [] && StrCmp(Fold(a[0]), Fold(b[0])) < 0
    ensures Earlier(a, b)
  {
    assert EarlierAt(a, b, 0);
  }

  /** The first entry that cannot be shown, those before it being acceptable. */
  lemma {:induction false} FirstFailing(path: string, node: Node, kept: seq<Entry>) returns (i: nat)
    requires node.Directory? && forall e :: e in kept ==> e.name in node.entries
    requires BuildContents(path, node, kept).Failure?
    ensures i < |kept|
    ensures BuildEntry(JoinPath(path, kept[i].name), kept[i].name, node.entries[kept[i].name])
         == Failure(BuildContents(path, node, kept).error)
    ensures forall j :: 0 <= j < i ==> AcceptableBelow(node.entries[kept[j].name])
    decreases |kept|
  {
    if EntryFails(path, node, kept[0]) {
      FailsFirst(path, node, kept);
      i := 0;
    } else {
      FailsLater(path, node, kept);
      var k := FirstFailing(path, node, kept[1..]);
      i := k + 1;
      forall j | 0 <= j < i
        ensures AcceptableBelow(node.entries[kept[j].name])
      {
        assert j > 0 ==> kept[j] == kept[1..][j - 1];
      }
    }
  }

  ghost predicate EntryFails(path: string, node: Node, e: Entry)
    requires node.Directory? && e.name in node.entries
  {
    BuildEntry(JoinPath(path, e.name), e.name, node.entries[e.name]).Failure?
  }

  lemma FailsFirst(path: string, node: Node, kept: seq<Entry>)
    requires node.Directory? && (forall e :: e in kept ==> e.name in node.entries) && kept != []
    requires EntryFails(path, node, kept[0])
    ensures BuildEntry(JoinPath(path, kept[0].name), kept[0].name, node.entries[kept[0].name]).error
         == BuildContents(path, node, kept).error
  {
  }

  lemma FailsLater(path: string, node: Node, kept: seq<Entry>)
    requires node.Directory? && (forall e :: e in kept ==> e.name in node.entries) && kept != []
    requires !EntryFails(path, node, kept[0]) && BuildContents(path, node, kept).Failure?
    ensures BuildContents(path, node, kept[1..]) == Failure(BuildContents(path, node, kept).error)
    ensures AcceptableBelow(node.entries[kept[0].name])
  {
    BuildEntryAccepts(JoinPath(path, kept[0].name), kept[0].name, node.entries[kept[0].name]);
  }

  lemma ReachFirst(node: Node, others: seq<string>)
    requires node.Directory? && others != [] && Reach(node, others).Some?
    ensures Preferred(node.entries.Keys, others[0])
    ensures Reach(node, others) == Reach(node.entries[others[0]], others[1..])
  {
  }

  lemma AcceptableReaches(node: Node, names: seq<string>)
    requires AcceptableBelow(node)
    ensures !ReachesUnsupported(node, names)
  {
  }

  /** The others reached through an entry that comes first or fails first. */
  lemma OthersLater(node: Node, kept: seq<Entry>, i: nat, below: seq<string>, others: seq<string>)
    requires node.Directory? && Collected(node.entries.Keys) == Success(kept) && i < |kept|
    requires kept[i].name in node.entries
    requires forall j :: 0 <= j < i ==> kept[j].name in node.entries && AcceptableBelow(node.entries[kept[j].name])
    requires forall more :: ReachesUnsupported(node.entries[kept[i].name], more) ==>
      more == below || Earlier(below, more)
    requires ReachesUnsupported(node, others)
    ensures var names := [kept[i].name] + below; others == names || Earlier(names, others)
  {
    CollectedNames(node.entries.Keys);
    assert others != [];
    ReachFirst(node, others);
    var first, rest := others[0], others[1..];
    assert others == [first] + rest;
    assert EntryOf(first) in kept;
    var next := node.entries[first];
    var j :| 0 <= j < |kept| && kept[j] == EntryOf(first);
    if j < i {
      AcceptableReaches(next, rest);
    } else if j == i {
      if rest != below {
        EarlierBelow(first, below, rest);
      }
    } else {
      assert StrCmp(kept[i].folded, kept[j].folded) < 0;
      assert kept[i] in kept;
      EarlierName([kept[i].name] + below, others);
    }
  }

  lemma {:induction false} EntryRefused(path: string, name: string, node: Node) returns (names: seq<string>)
    requires BuildEntry(path, name, node).Failure?
    ensures FirstRefused(node, path, names, BuildEntry(path, name, node).error)
    decreases node
  {
    if !node.Directory? || Collected(node.entries.Keys).Failure? {
      names := [];
      forall others | ReachesUnsupported(node, others)
        ensures others == [] || Earlier([], others)
      {
        NothingEarlier(others);
      }
    } else {
      var kept := Collected(node.entries.Keys).value;
      KeptAreNames(node.entries.Keys);
      var i := FirstFailing(path, node, kept);
      var first := kept[i].name;
      assert kept[i] in kept;
      var below := EntryRefused(JoinPath(path, first), first, node.entries[first]);
      names := [first] + below;
      KeptReaches(node, kept, i, below);
      JoinBelow(path, first, below);
      forall others | ReachesUnsupported(node, others)
        ensures others == names || Earlier(names, others)
      {
        OthersLater(node, kept, i, below, others);
      }
    }
  }

  lemma JoinBelow(path: string, first: string, below: seq<string>)
    ensures JoinAll(path, [first] + below) == JoinAll(JoinPath(path, first), below)
  {
    assert ([first] + below)[1..] == below;
  }

  lemma KeptReaches(node: Node, kept: seq<Entry>, i: nat, below: seq<string>)
    requires node.Directory? && Collected(node.entries.Keys) == Success(kept) && i < |kept|
    ensures kept[i].name in node.entries
    ensures Reach(node, [kept[i].name] + below) == Reach(node.entries[kept[i].name], below)
  {
    CollectedNames(node.entries.Keys);
    assert kept[i] in kept;
    assert ([kept[i].name] + below)[1..] == below;
  }

  /**
   A directory that is refused gives the error of the first thing reached in it that cannot be
   shown; a root that is no directory cannot be read.
   */
  lemma RefusalMeaning(path: string, name: string, node: Node)
    requires BuildDirectory(path, name, node).Failure?
    ensures node.Directory? ==> exists names :: FirstRefused(node, path, names, BuildDirectory(path, name, node).error)
    ensures !node.Directory? ==> BuildDirectory(path, name, node).error == Unreadable(path)
  {
    if node.Directory? {
      assert BuildEntry(path, name, node) == BuildDirectory(path, name, node);
      var names := EntryRefused(path, name, node);
    }
  }
}
