/**
 The external paths an overlay gives for the files it shows. They have only forward slashes,
 so they are the real paths exactly when no backslash occurs in these; then they are different
 for different files.
 */
module VfsPaths {
  import opened CStrings
  import opened PreferredEntries
  import opened VfsTree

  ghost predicate NoBackslash(path: string, names: seq<string>) {
    '\\' !in path && forall i :: 0 <= i < |names| ==> '\\' !in names[i]
  }

  lemma GenericIsSame(s: string)
    ensures GenericPath(s) == s <==> '\\' !in s
  {
    if i :| 0 <= i < |s| && s[i] == '\\' {
      assert GenericPath(s)[i] == '/';
    }
  }

  lemma JoinBackslash(left: string, right: string)
    ensures '\\' in JoinPath(left, right) <==> '\\' in left || '\\' in right
  {
    var joined := JoinPath(left, right);
    assert forall c :: c in left ==> c in joined;
    assert forall c :: c in right ==> c in joined;
  }

  lemma {:induction false} JoinAllBackslash(path: string, names: seq<string>)
    ensures '\\' !in JoinAll(path, names) <==> NoBackslash(path, names)
    decreases |names|
  {
    if names != [] {
      var first, rest := names[0], names[1..];
      JoinBackslash(path, first);
      JoinAllBackslash(JoinPath(path, first), rest);
      assert names == [first] + rest;
    }
  }

  /** On a system where a backslash is a byte like any other, this is when the external path is the file's own. */
  lemma ExternalIsReal(path: string, names: seq<string>)
    ensures GenericPath(JoinAll(path, names)) == JoinAll(path, names) <==> NoBackslash(path, names)
  {
    GenericIsSame(JoinAll(path, names));
    JoinAllBackslash(path, names);
  }

  /**
   Every case variant of a file's path resolves to that file's real path, and nothing else,
   exactly when neither the root's path nor a name on the way holds a backslash.
   */
  lemma RealPathFound(path: string, name: string, node: Node, names: seq<string>, query: seq<string>)
    requires BuildDirectory(path, name, node).Success?
    requires Reach(node, names).Some? && IsRegularFile(Reach(node, names).value) && CaseVariant(names, query)
    ensures NoBackslash(path, names) <==>
      forall x :: Finds(BuildDirectory(path, name, node).value, query, x) <==> x == JoinAll(path, names)
  {
    var external := GenericPath(JoinAll(path, names));
    EveryCaseVariantResolves(path, name, node, names, query);
    ExternalIsReal(path, names);
    assert Finds(BuildDirectory(path, name, node).value, query, external);
  }

  // ---------- different files, different paths ----------

  /** What a directory lists on a POSIX system: no name is empty or holds a slash. */
  ghost predicate PosixNames(node: Node) {
    node.Directory? ==>
      forall n :: n in node.entries ==> n != [] && '/' !in n && PosixNames(node.entries[n])
  }

  ghost predicate Plain(name: string) {
    name != [] && '/' !in name && '\\' !in name
  }

  ghost predicate AllPlain(names: seq<string>) {
    forall i :: 0 <= i < |names| ==> Plain(names[i])
  }

  lemma {:induction false} ReachedNames(node: Node, names: seq<string>)
    requires PosixNames(node) && Reach(node, names).Some? && forall i :: 0 <= i < |names| ==> '\\' !in names[i]
    ensures AllPlain(names)
    decreases |names|
  {
    if names != [] {
      ReachedNames(node.entries[names[0]], names[1..]);
      assert names == [names[0]] + names[1..];
    }
  }

  /** What joining adds for the names after the first. */
  function Tail(names: seq<string>): string {
    if names == [] then "" else "/" + (names[0] + Tail(names[1..]))
  }

  function Start(path: string): string {
    if path != [] && path[|path| - 1] != '/' && path[|path| - 1] != '\\' then path + "/" else path
  }

  lemma {:induction false} JoinAllTail(path: string, names: seq<string>)
    requires path != [] && path[|path| - 1] != '/' && path[|path| - 1] != '\\' && AllPlain(names)
    ensures JoinAll(path, names) == path + Tail(names)
    decreases |names|
  {
    if names == [] {
      assert path + "" == path;
    } else {
      var first, rest := names[0], names[1..];
      JoinAllTail(JoinPath(path, first), rest);
      RightNested(path, first, Tail(rest));
    }
  }

  lemma RightNested(path: string, first: string, tail: string)
    ensures path + "/" + first + tail == path + ("/" + (first + tail))
  {
  }

  lemma JoinAllParts(path: string, names: seq<string>)
    requires names != [] && AllPlain(names)
    ensures JoinAll(path, names) == Start(path) + (names[0] + Tail(names[1..]))
  {
    var first, rest := names[0], names[1..];
    var joined := JoinPath(path, first);
    assert joined == Start(path) + first;
    assert joined[|joined| - 1] == first[|first| - 1];
    JoinAllTail(joined, rest);
    Reassociate(Start(path), first, Tail(rest));
  }

  /** Where the first slash is, or the end. */
  function SlashAt(s: string): nat {
    if s == [] || s[0] == '/' then 0 else 1 + SlashAt(s[1..])
  }

  lemma {:induction false} SlashAfter(a: string, s: string)
    requires '/' !in a && (s != [] ==> s[0] == '/')
    ensures SlashAt(a + s) == |a|
  {
    if a == [] {
      assert a + s == s;
    } else {
      SlashAfter(a[1..], s);
      assert (a + s)[1..] == a[1..] + s;
    }
  }

  lemma SplitAtSlash(a: string, s: string, b: string, t: string)
    requires '/' !in a && '/' !in b && a + s == b + t
    requires (s != [] ==> s[0] == '/') && (t != [] ==> t[0] == '/')
    ensures a == b && s == t
  {
    SlashAfter(a, s);
    SlashAfter(b, t);
    assert a == (a + s)[..|a|] && b == (b + t)[..|b|];
    assert s == (a + s)[|a|..] && t == (b + t)[|b|..];
  }

  lemma {:induction false} TailInjective(m: seq<string>, n: seq<string>)
    requires AllPlain(m) && AllPlain(n) && Tail(m) == Tail(n)
    ensures m == n
    decreases |m|
  {
    if m != [] && n != [] {
      var s, t := m[0] + Tail(m[1..]), n[0] + Tail(n[1..]);
      assert s == Tail(m)[1..] && t == Tail(n)[1..];
      SplitAtSlash(m[0], Tail(m[1..]), n[0], Tail(n[1..]));
      TailInjective(m[1..], n[1..]);
      assert m == [m[0]] + m[1..] && n == [n[0]] + n[1..];
    }
  }

  lemma JoinAllInjective(path: string, m: seq<string>, n: seq<string>)
    requires AllPlain(m) && AllPlain(n) && m != [] && n != [] && JoinAll(path, m) == JoinAll(path, n)
    ensures m == n
  {
    JoinAllParts(path, m);
    JoinAllParts(path, n);
    var s, t := m[0] + Tail(m[1..]), n[0] + Tail(n[1..]);
    assert s == JoinAll(path, m)[|Start(path)|..] && t == JoinAll(path, n)[|Start(path)|..];
    SplitAtSlash(m[0], Tail(m[1..]), n[0], Tail(n[1..]));
    TailInjective(m[1..], n[1..]);
    assert m == [m[0]] + m[1..] && n == [n[0]] + n[1..];
  }

  /** Without backslashes, different files reached below a root have different external paths. */
  lemma ExternalPathsDiffer(path: string, node: Node, m: seq<string>, n: seq<string>)
    requires PosixNames(node) && node.Directory?
    requires Reach(node, m).Some? && IsRegularFile(Reach(node, m).value)
    requires Reach(node, n).Some? && IsRegularFile(Reach(node, n).value)
    requires NoBackslash(path, m) && NoBackslash(path, n) && m != n
    ensures GenericPath(JoinAll(path, m)) != GenericPath(JoinAll(path, n))
  {
    ReachedNames(node, m);
    ReachedNames(node, n);
    ExternalIsReal(path, m);
    ExternalIsReal(path, n);
    if JoinAll(path, m) == JoinAll(path, n) {
      JoinAllInjective(path, m, n);
    }
  }

  // ---------- with backslashes ----------

  lemma OneFileIsAcceptable(name: string, node: Node)
    requires node == Directory(map[name := Regular])
    ensures Acceptable(node) && Reach(node, [name]) == Some(Regular)
  {
    assert Preferred(node.entries.Keys, name);
    forall names: seq<string>, n: Node | Reach(node, names) == Some(n)
      ensures Supported(n)
    {
      if names != [] {
        assert names[0] == name && Reach(Regular, names[1..]) == Some(n);
        assert names[1..] == [];
      }
    }
    assert [name][1..] == [];
  }

  /** A root with a backslash in its path: its file is found at another path, and not at its own. */
  lemma BackslashRootMisses(path: string, name: string, file: string)
    requires '\\' in path
    ensures var node, own := Directory(map[file := Regular]), JoinAll(path, [file]);
      && BuildDirectory(path, name, node).Success?
      && Finds(BuildDirectory(path, name, node).value, [file], GenericPath(own))
      && !Finds(BuildDirectory(path, name, node).value, [file], own)
  {
    var node := Directory(map[file := Regular]);
    OneFileIsAcceptable(file, node);
    RootAccepted(path, name, node);
    EveryCaseVariantResolves(path, name, node, [file], [file]);
    ExternalIsReal(path, [file]);
  }

  /** For instance the file "f" of the root "a\b" is found at "a/b/f", below the root "a/b". */
  lemma OtherRootsFile()
    ensures '\\' in "a\\b" && JoinAll("a\\b", ["f"]) == "a\\b/f" &&
      GenericPath("a\\b/f") == "a/b/f" == JoinAll("a/b", ["f"])
  {
    JoinAllOne("a\\b", "f");
    JoinAllOne("a/b", "f");
  }

  /** A name with a backslash beside a directory: two files, one external path. */
  lemma BackslashNameCollides(path: string, a: string, b: string)
    requires Plain(a)
    ensures var node := Directory(map[a := Directory(map[b := Regular]), a + "\\" + b := Regular]);
      Reach(node, [a + "\\" + b]) == Some(Regular) == Reach(node, [a, b])
    ensures GenericPath(JoinAll(path, [a + "\\" + b])) == GenericPath(JoinAll(path, [a, b]))
  {
    TwoReached(a, b, a + "\\" + b);
    OneExternal(path, a, b, a + "\\" + b);
  }

  lemma TwoReached(a: string, b: string, long: string)
    requires |a| < |long|
    ensures var node := Directory(map[a := Directory(map[b := Regular]), long := Regular]);
      Reach(node, [long]) == Some(Regular) == Reach(node, [a, b])
  {
    assert |Fold(long)| > |Fold(a)|;
    assert [long][1..] == [] && [a, b][1..] == [b] && [b][1..] == [];
  }

  lemma OneExternal(path: string, a: string, b: string, long: string)
    requires Plain(a) && long == a + "\\" + b
    ensures GenericPath(JoinAll(path, [long])) == GenericPath(JoinAll(path, [a, b]))
  {
    var inner := JoinPath(path, a);
    assert inner[|inner| - 1] == a[|a| - 1];
    assert [a, b][1..] == [b];
    JoinAllOne(path, long);
    JoinAllOne(inner, b);
    assert long == a + ("\\" + b);
    Reassociate(Start(path), a, "\\" + b);
    Reassociate(inner, "\\", b);
  }

  lemma JoinAllOne(path: string, name: string)
    ensures JoinAll(path, [name]) == JoinPath(path, name) == Start(path) + name
  {
    assert [name][1..] == [];
  }
}
