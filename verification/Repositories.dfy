/**
 The repository a rule fills: its own files, links into a source tree, and that tree. A
 path below a link is a place in the source, and writing there changes the source.
 */
module Repositories {
  import opened CStrings
  import opened OverlayPaths
  import opened OverlayTrees

  datatype Contents = Contents(links: Links, files: map<Path, string>, source: Tree, writes: seq<Path>)

  // ---------- where a path leads ----------

  /** Where in the source a link leads; the overlay lies below its root there. */
  function Place(target: Target): Path {
    if target.origin.FromOverlay? then OVERLAY_ROOT + target.path else target.path
  }

  /** The first link among the prefixes of the path from k on, shorter than `end`. */
  function FirstLink(links: Links, p: Path, k: nat, end: nat): (r: Option<nat>)
    requires k <= end <= |p| + 1
    ensures r.Some? ==> k <= r.value < end && p[..r.value] in links && forall j :: k <= j < r.value ==> p[..j] !in links
    ensures r.None? ==> forall j :: k <= j < end ==> p[..j] !in links
    decreases end - k
  {
    if k == end then None
    else if p[..k] in links then Some(k)
    else FirstLink(links, p, k + 1, end)
  }

  /** In the repository itself, or in the source: where the link leads, and what follows it. */
  datatype Spot = Own | Behind(base: Path, rest: Path)

  function SpotOf(links: Links, p: Path, end: nat): Spot
    requires end <= |p| + 1
  {
    match FirstLink(links, p, 0, end)
    case None => Own
    case Some(k) => Behind(Place(links[p[..k]]), p[k..])
  }

  /** Where writing goes: through links above the path, but not through one at the path. */
  function Landing(links: Links, p: Path): Spot {
    SpotOf(links, p, |p|)
  }

  /** Where reading goes. */
  function Reading(links: Links, p: Path): Spot {
    SpotOf(links, p, |p| + 1)
  }

  // ---------- reading, writing and deleting ----------

  function Places(s: Contents): set<Path> {
    s.links.Keys + s.files.Keys
  }

  function Read(s: Contents, p: Path): Option<string> {
    match Reading(s.links, p)
    case Own => if p in s.files then Some(s.files[p]) else None
    case Behind(base, rest) => if base + rest in s.source.files then Some(s.source.files[base + rest]) else None
  }

  /** One of the paths is at or below this one. */
  predicate AtOrBelow(paths: set<Path>, p: Path) {
    exists q :: q in paths && p <= q
  }

  predicate Exists(s: Contents, p: Path) {
    match Reading(s.links, p)
    case Own => AtOrBelow(Places(s), p)
    case Behind(base, rest) => base + rest in s.source.dirs + s.source.files.Keys
  }

  /** A file can be written where everything above is a directory, and nothing lies below. */
  predicate Writable(s: Contents, p: Path) {
    match Landing(s.links, p)
    case Own => forall q :: q in Places(s) ==> !ProperPrefix(p, q) && !ProperPrefix(q, p)
    case Behind(base, rest) => TreeWritable(s.source, base, base + rest)
  }

  /** The same in a tree, where `base` is what a link leads to. */
  predicate TreeWritable(t: Tree, base: Path, p: Path) {
    && base in t.dirs
    && (forall q :: q in t.files ==> !ProperPrefix(q, p))
    && (forall q :: q in t.dirs + t.files.Keys ==> !ProperPrefix(p, q))
  }

  function Ancestors(p: Path): set<Path> {
    set k | 0 <= k < |p| :: p[..k]
  }

  /** The tree with a file at the path, in place of a file or an empty directory there. */
  function WithFile(t: Tree, p: Path, content: string): Tree {
    Tree((t.dirs - {p}) + Ancestors(p), t.files[p := content])
  }

  function Written(s: Contents, p: Path, content: string): Contents {
    var writes := s.writes + [p];
    match Landing(s.links, p)
    case Own => Contents(s.links - {p}, s.files[p := content], s.source, writes)
    case Behind(base, rest) => Contents(s.links, s.files, WithFile(s.source, base + rest, content), writes)
  }

  function Put(s: Contents, p: Path, content: string): Option<Contents> {
    if Writable(s, p) then Some(Written(s, p, content)) else None
  }

  function Deleted(s: Contents, p: Path): Contents {
    match Landing(s.links, p)
    case Own =>
      Contents(map q | q in s.links && !(p <= q) :: s.links[q],
               map q | q in s.files && !(p <= q) :: s.files[q], s.source, s.writes)
    case Behind(base, rest) =>
      var at := base + rest;
      s.(source := Tree(set q | q in s.source.dirs && !(at <= q),
                        map q | q in s.source.files && !(at <= q) :: s.source.files[q]))
  }

  class Repository {
    var links: Links
    var files: map<Path, string>
    var source: Tree
    var writes: seq<Path>

    function State(): Contents
      reads this
    {
      Contents(links, files, source, writes)
    }

    constructor (source: Tree)
      ensures State() == Contents(map[], map[], source, [])
    {
      links, files, writes := map[], map[], [];
      this.source := source;
    }

    method Update(s: Contents)
      modifies this
      ensures State() == s
    {
      links, files, source, writes := s.links, s.files, s.source, s.writes;
    }

    /** Creates a link, unless there is one at the path already. */
    method Symlink(target: Target, path: string) returns (ok: bool)
      requires !LinkAbove(links, Resolve(path))
      modifies this`links
      ensures ok <==> Resolve(path) !in old(links)
      ensures links == if ok then old(links)[Resolve(path) := target] else old(links)
    {
      ok := Resolve(path) !in links;
      if ok {
        links := links[Resolve(path) := target];
      }
    }

    /** Deletes what is at and below the path. */
    method Delete(path: string)
      modifies this
      ensures State() == Deleted(old(State()), Resolve(path))
    {
      Update(Deleted(State(), Resolve(path)));
    }

    /** Writes a file, in place of a link, a file or an empty directory at the path. */
    method File(path: string, content: string) returns (ok: bool)
      modifies this
      ensures ok <==> Writable(old(State()), Resolve(path))
      ensures State() == if ok then Written(old(State()), Resolve(path), content) else old(State())
    {
      ok := Writable(State(), Resolve(path));
      if ok {
        Update(Written(State(), Resolve(path), content));
      }
    }
  }

  // ---------- what every state keeps ----------

  /** Links and own files are apart; links lead to their own paths, and those into the overlay to files. */
  ghost predicate Sound(s: Contents) {
    && ValidTree(s.source) && Aligned(s.links)
    && s.links.Keys !! s.files.Keys
    && (forall a, b :: a in Places(s) && b in Places(s) ==> !ProperPrefix(a, b))
    && (forall l :: l in s.links && s.links[l].origin.FromOverlay? ==> OVERLAY_ROOT + l in s.source.files)
  }

  /**
   No link into the overlay sees what is written at the path: it is not below the overlay's root,
   or there is none.
   */
  ghost predicate Unaliased(links: Links, p: Path) {
    OVERLAY_ROOT <= p ==> forall l :: l in links ==> links[l].origin.FromSource?
  }

  ghost predicate Apart(p: Path, q: Path) {
    !(p <= q) && !(q <= p)
  }

  lemma NoLinkLandsOwn(links: Links, p: Path)
    ensures Landing(links, p).Own? <==> !LinkAbove(links, p)
  {
    if a :| a in links && ProperPrefix(a, p) {
      assert p[..|a|] in links;
    }
    if Landing(links, p).Behind? {
      var k := FirstLink(links, p, 0, |p|).value;
      assert ProperPrefix(p[..k], p);
    }
  }

  /** What is written behind a link is written at the link's own path in the source. */
  lemma LandsAtOwnPath(s: Contents, p: Path)
    requires Sound(s) && Landing(s.links, p).Behind?
    ensures var spot := Landing(s.links, p); spot.base in s.source.dirs ==> spot.base + spot.rest == p
  {
    var k := FirstLink(s.links, p, 0, |p|).value;
    var l := p[..k];
    assert l + p[k..] == p;
    assert s.links[l].path == l;
  }

  /** A link read at a path leads to that path in the source, or in the overlay below its root. */
  lemma ReadsAtOwnPath(s: Contents, p: Path)
    requires Sound(s) && Reading(s.links, p).Behind?
    ensures var at := Reading(s.links, p).base + Reading(s.links, p).rest;
      at == p || (at == OVERLAY_ROOT + p && exists l :: l in s.links && s.links[l].origin.FromOverlay?)
  {
    var k := FirstLink(s.links, p, 0, |p| + 1).value;
    var l := p[..k];
    assert l + p[k..] == p;
    assert s.links[l].path == l;
    assert OVERLAY_ROOT + l + p[k..] == OVERLAY_ROOT + (l + p[k..]);
  }

  // ---------- writing keeps the state sound ----------

  lemma WithFileValid(t: Tree, p: Path, content: string)
    requires ValidTree(t) && ProperPath(p) && p != []
    requires forall q :: q in t.files ==> !ProperPrefix(q, p)
    requires forall q :: Has(t, q) ==> !ProperPrefix(p, q)
    ensures ValidTree(WithFile(t, p, content))
  {
    var u := WithFile(t, p, content);
    assert p[..0] == [] && [] in Ancestors(p);
    forall q | q in Ancestors(p)
      ensures q !in u.files && ProperPath(q) && (q != [] ==> Parent(q) in u.dirs)
    {
      AncestorFacts(p, q);
    }
    forall q | Has(u, q) && q != []
      ensures Parent(q) in u.dirs
    {
      if q == p {
        assert Parent(p) == p[..|p| - 1];
      } else if q !in Ancestors(p) {
        assert Has(t, q) && !ProperPrefix(p, q);
        assert Parent(q) != p by {
          assert Parent(q) == q[..|q| - 1];
        }
      }
    }
  }

  lemma AncestorFacts(p: Path, q: Path)
    requires q in Ancestors(p)
    ensures ProperPrefix(q, p) && (ProperPath(p) ==> ProperPath(q)) && (q != [] ==> Parent(q) in Ancestors(p))
  {
    var k :| 0 <= k < |p| && q == p[..k];
    if q != [] {
      assert Parent(q) == p[..k - 1];
    }
  }

  lemma WrittenSound(s: Contents, p: Path, content: string)
    requires Sound(s) && Writable(s, p) && ProperPath(p) && p != []
    ensures Sound(Written(s, p, content))
  {
    match Landing(s.links, p)
    case Own =>
      NoLinkLandsOwn(s.links, p);
    case Behind(base, rest) =>
      LandsAtOwnPath(s, p);
      WithFileValid(s.source, p, content);
  }

  // ---------- what a write changes, and what not ----------

  lemma SameFirstLink(links: Links, p: Path, r: Path, k: nat, end: nat)
    requires k <= end <= |r| + 1 && !(p <= r)
    ensures FirstLink(links - {p}, r, k, end) == FirstLink(links, r, k, end)
    decreases end - k
  {
    if k < end {
      assert r[..k] <= r;
      assert r[..k] != p;
      SameFirstLink(links, p, r, k + 1, end);
    }
  }

  /** Writing a file makes it readable at its path, with its content. */
  lemma WrittenRead(s: Contents, p: Path, content: string)
    requires Sound(s) && Writable(s, p)
    ensures Read(Written(s, p, content), p) == Some(content)
  {
    var t := Written(s, p, content);
    if Landing(s.links, p).Own? {
      forall k | 0 <= k < |p| + 1
        ensures p[..k] !in t.links
      {
        assert p[..|p|] == p;
      }
      assert FirstLink(t.links, p, 0, |p| + 1).None?;
    } else {
      var k := FirstLink(s.links, p, 0, |p|).value;
      SameWithin(s.links, p, 0, |p|, |p| + 1);
    }
  }

  /** Looking further does not change the first link found. */
  lemma {:induction false} SameWithin(links: Links, p: Path, k: nat, end: nat, more: nat)
    requires k <= end <= more <= |p| + 1 && FirstLink(links, p, k, end).Some?
    ensures FirstLink(links, p, k, more) == FirstLink(links, p, k, end)
    decreases end - k
  {
    if p[..k] !in links {
      SameWithin(links, p, k + 1, end, more);
    }
  }

  /** Everything not at or below the path reads as before. */
  lemma ReadElsewhere(s: Contents, p: Path, content: string, r: Path)
    requires Sound(s) && Writable(s, p) && Unaliased(s.links, p) && !(p <= r)
    ensures Read(Written(s, p, content), r) == Read(s, r)
  {
    if Landing(s.links, p).Own? {
      SameFirstLink(s.links, p, r, 0, |r| + 1);
    } else {
      LandsAtOwnPath(s, p);
      if Reading(s.links, r).Behind? {
        ReadsAtOwnPath(s, r);
      }
    }
  }

  /** Away from the path, a tree with a file there has what it had. */
  lemma HasElsewhere(t: Tree, p: Path, content: string, r: Path)
    requires !(r <= p)
    ensures Has(WithFile(t, p, content), r) <==> Has(t, r)
    ensures r in WithFile(t, p, content).dirs <==> r in t.dirs
    ensures r in WithFile(t, p, content).files <==> r in t.files
  {
    if r in Ancestors(p) {
      AncestorFacts(p, r);
    }
  }

  lemma ExistsElsewhere(s: Contents, p: Path, content: string, r: Path)
    requires Sound(s) && Writable(s, p) && Unaliased(s.links, p) && Apart(p, r)
    ensures Exists(Written(s, p, content), r) <==> Exists(s, r)
  {
    if Landing(s.links, p).Own? {
      ExistsOwn(s, p, content, r);
    } else {
      LandsAtOwnPath(s, p);
      ExistsBehind(s, p, content, r);
    }
  }

  lemma ExistsOwn(s: Contents, p: Path, content: string, r: Path)
    requires Landing(s.links, p).Own? && Apart(p, r)
    ensures Exists(Written(s, p, content), r) <==> Exists(s, r)
  {
    SameFirstLink(s.links, p, r, 0, |r| + 1);
    assert Places(Written(s, p, content)) == Places(s) + {p};
    assert AtOrBelow(Places(s) + {p}, r) <==> AtOrBelow(Places(s), r);
  }

  lemma ExistsBehind(s: Contents, p: Path, content: string, r: Path)
    requires Sound(s) && Unaliased(s.links, p) && Apart(p, r)
    ensures Exists(s.(source := WithFile(s.source, p, content)), r) <==> Exists(s, r)
  {
    if Reading(s.links, r).Behind? {
      ReadsAtOwnPath(s, r);
      var at := Reading(s.links, r).base + Reading(s.links, r).rest;
      NotAbove(s, p, r, at);
      HasElsewhere(s.source, p, content, at);
    }
  }

  lemma NotAbove(s: Contents, p: Path, r: Path, at: Path)
    requires Unaliased(s.links, p) && Apart(p, r)
    requires at == r || (at == OVERLAY_ROOT + r && exists l :: l in s.links && s.links[l].origin.FromOverlay?)
    ensures !(at <= p)
  {
    PrefixOfConcat(OVERLAY_ROOT, r, p);
  }

  lemma PrefixOfConcat(a: Path, b: Path, p: Path)
    ensures a + b <= p ==> a <= p
  {
    if a + b <= p {
      assert a == p[..|a|];
    }
  }

  lemma WritableElsewhere(s: Contents, p: Path, content: string, r: Path)
    requires Sound(s) && Writable(s, p) && Apart(p, r)
    ensures Writable(Written(s, p, content), r) <==> Writable(s, r)
  {
    if Landing(s.links, p).Own? {
      WritableOwn(s, p, content, r);
    } else {
      LandsAtOwnPath(s, p);
      if Landing(s.links, r).Behind? {
        WritableBehind(s, p, content, r);
      }
    }
  }

  lemma WritableOwn(s: Contents, p: Path, content: string, r: Path)
    requires Landing(s.links, p).Own? && Apart(p, r)
    ensures Writable(Written(s, p, content), r) <==> Writable(s, r)
  {
    SameFirstLink(s.links, p, r, 0, |r|);
    assert Places(Written(s, p, content)) == Places(s) + {p};
  }

  lemma TreeWritableElsewhere(t: Tree, p: Path, content: string, base: Path, r: Path)
    requires Apart(p, r) && base <= r && (base <= p ==> base in t.dirs) && base != p
    ensures TreeWritable(WithFile(t, p, content), base, r) <==> TreeWritable(t, base, r)
  {
    var u := WithFile(t, p, content);
    if base in Ancestors(p) {
      AncestorFacts(p, base);
    }
    forall q | q in Ancestors(p)
      ensures !ProperPrefix(r, q)
    {
      AncestorFacts(p, q);
    }
    assert forall q :: q in u.files <==> q in t.files || q == p;
    assert forall q :: q in u.dirs <==> (q in t.dirs && q != p) || q in Ancestors(p);
  }

  lemma WritableBehind(s: Contents, p: Path, content: string, r: Path)
    requires Sound(s) && Writable(s, p) && Apart(p, r) && Landing(s.links, p).Behind? && Landing(s.links, r).Behind?
    ensures Writable(Written(s, p, content), r) <==> Writable(s, r)
  {
    LandsAtOwnPath(s, p);
    var base, rest := Landing(s.links, r).base, Landing(s.links, r).rest;
    var k, i := FirstLink(s.links, r, 0, |r|).value, FirstLink(s.links, p, 0, |p|).value;
    var l, m := r[..k], p[..i];
    assert l + r[k..] == r && m + p[i..] == p;
    if s.links[l].origin.FromOverlay? {
      NotADirectory(s.source, p, content, base);
    } else {
      SameLinkAbove(s, p, l, m);
      TreeWritableElsewhere(s.source, p, content, base, r);
    }
  }

  /** A file stays one when a file is written where none is above. */
  lemma NotADirectory(t: Tree, p: Path, content: string, base: Path)
    requires ValidTree(t) && base in t.files && forall q :: q in t.files ==> !ProperPrefix(q, p)
    ensures base !in t.dirs && base !in WithFile(t, p, content).dirs
  {
    if base in Ancestors(p) {
      AncestorFacts(p, base);
    }
  }

  /** Of two links above or at one path, there is only one. */
  lemma SameLinkAbove(s: Contents, p: Path, l: Path, m: Path)
    requires Sound(s) && l in s.links && m in s.links && ProperPrefix(m, p)
    ensures l <= p ==> l == m
  {
    assert l in Places(s) && m in Places(s);
    assert l <= p ==> l == p[..|l|];
    assert l <= p && |l| < |m| ==> ProperPrefix(l, m);
    assert l <= p && |m| < |l| ==> ProperPrefix(m, l);
  }

  // ---------- where nothing lies below ----------

  /** Nothing lies strictly below the path, where writing it would land. */
  ghost predicate Bare(s: Contents, p: Path) {
    match Landing(s.links, p)
    case Own => forall q :: q in Places(s) ==> !ProperPrefix(p, q)
    case Behind(base, rest) => forall q :: Has(s.source, q) ==> !ProperPrefix(base + rest, q)
  }

  /** What can be read is no directory. */
  lemma ReadIsBare(s: Contents, p: Path)
    requires Sound(s) && Read(s, p).Some?
    ensures Bare(s, p)
  {
    if Landing(s.links, p).Behind? {
      SameWithin(s.links, p, 0, |p|, |p| + 1);
      var at := Reading(s.links, p).base + Reading(s.links, p).rest;
      forall q | Has(s.source, q)
        ensures !ProperPrefix(at, q)
      {
        if |at| < |q| {
          PrefixIsDirectory(s.source, q, |at|);
        }
      }
    } else if Reading(s.links, p).Behind? {
      assert p[..|p|] == p && p in Places(s);
    } else {
      assert p in Places(s);
    }
  }

  lemma BareElsewhere(s: Contents, p: Path, content: string, r: Path)
    requires Sound(s) && Writable(s, p) && Unaliased(s.links, p) && Apart(p, r) && Bare(s, r)
    ensures Bare(Written(s, p, content), r)
  {
    if Landing(s.links, p).Own? {
      SameFirstLink(s.links, p, r, 0, |r|);
      assert Places(Written(s, p, content)) == Places(s) + {p};
    } else {
      LandsAtOwnPath(s, p);
      if Landing(s.links, r).Behind? {
        BareBehind(s, p, content, r);
      }
    }
  }

  lemma BareBehind(s: Contents, p: Path, content: string, r: Path)
    requires Sound(s) && Unaliased(s.links, p) && Apart(p, r) && Bare(s, r) && Landing(s.links, r).Behind?
    ensures Bare(s.(source := WithFile(s.source, p, content)), r)
  {
    SameWithin(s.links, r, 0, |r|, |r| + 1);
    ReadsAtOwnPath(s, r);
    var at := Landing(s.links, r).base + Landing(s.links, r).rest;
    NotAbove(s, p, r, at);
    forall q | Has(WithFile(s.source, p, content), q)
      ensures !ProperPrefix(at, q)
    {
      if q in Ancestors(p) {
        AncestorFacts(p, q);
        PrefixThrough(at, q, p);
      }
    }
  }

  lemma PrefixThrough(a: Path, b: Path, p: Path)
    requires ProperPrefix(b, p)
    ensures ProperPrefix(a, b) ==> a <= p
  {
    if ProperPrefix(a, b) {
      assert a == p[..|a|];
    }
  }

  lemma PrefixOrSame(p: Path, q: Path)
    ensures p <= q <==> p == q || ProperPrefix(p, q)
  {
    if p <= q && |p| == |q| {
      assert q[..|p|] == q;
    }
  }

  lemma OnlyAt(places: set<Path>, p: Path)
    requires forall q :: q in places ==> !ProperPrefix(p, q)
    ensures forall q :: q in places ==> (p <= q <==> q == p)
  {
    forall q | q in places
      ensures p <= q <==> q == p
    {
      PrefixOrSame(p, q);
    }
  }

  lemma DeletedOwn(s: Contents, p: Path)
    requires Bare(s, p) && Landing(s.links, p).Own?
    ensures Deleted(s, p) == s.(links := s.links - {p}, files := s.files - {p})
  {
    OnlyAt(Places(s), p);
    var d := Deleted(s, p);
    assert d.links == s.links - {p} && d.files == s.files - {p};
  }

  lemma DeletedBehind(s: Contents, p: Path)
    requires Bare(s, p) && Landing(s.links, p).Behind?
    ensures var at := Landing(s.links, p).base + Landing(s.links, p).rest;
      Deleted(s, p) == s.(source := Tree(s.source.dirs - {at}, s.source.files - {at}))
  {
    var at := Landing(s.links, p).base + Landing(s.links, p).rest;
    OnlyAt(s.source.dirs + s.source.files.Keys, at);
    var d := Deleted(s, p).source;
    assert d.dirs == s.source.dirs - {at} && d.files == s.source.files - {at};
  }

  /** Deleting before writing makes no difference where nothing lies below. */
  lemma DeleteThenPut(s: Contents, p: Path, content: string)
    requires Bare(s, p) && p != []
    ensures Put(Deleted(s, p), p, content) == Put(s, p, content)
  {
    if Landing(s.links, p).Own? {
      DeletedOwn(s, p);
      PutOwn(s, p, content);
    } else {
      DeletedBehind(s, p);
      var base, rest := Landing(s.links, p).base, Landing(s.links, p).rest;
      assert |rest| == |p| - FirstLink(s.links, p, 0, |p|).value;
      DeleteBehind(s.source, base, base + rest, content, Deleted(s, p).source);
    }
  }

  lemma PutOwn(s: Contents, p: Path, content: string)
    requires Landing(s.links, p).Own?
    ensures Put(s.(links := s.links - {p}, files := s.files - {p}), p, content) == Put(s, p, content)
  {
    var d := s.(links := s.links - {p}, files := s.files - {p});
    SameBefore(s.links, p, 0, |p|);
    assert d.links - {p} == s.links - {p};
    assert d.files[p := content] == s.files[p := content];
    assert Places(d) == Places(s) - {p};
  }

  lemma {:induction false} SameBefore(links: Links, p: Path, k: nat, end: nat)
    requires k <= end <= |p|
    ensures FirstLink(links - {p}, p, k, end) == FirstLink(links, p, k, end)
    decreases end - k
  {
    if k < end {
      assert |p[..k]| == k;
      SameBefore(links, p, k + 1, end);
    }
  }

  lemma DeleteBehind(t: Tree, base: Path, p: Path, content: string, u: Tree)
    requires base <= p && (forall q :: Has(t, q) ==> !ProperPrefix(p, q))
    requires u.dirs == t.dirs - {p} && u.files == t.files - {p}
    ensures base != p ==> (TreeWritable(u, base, p) <==> TreeWritable(t, base, p))
    ensures WithFile(u, p, content) == WithFile(t, p, content)
  {
    assert (t.files - {p})[p := content] == t.files[p := content];
    assert t.dirs - {p} - {p} == t.dirs - {p};
  }
}
