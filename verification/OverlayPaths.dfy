/** Relative paths: as the strings the walk keeps on its stack, and as lists of components. */
module OverlayPaths {

  type Path = seq<string>

  predicate ProperName(n: string) {
    n != [] && '/' !in n && n != "." && n != ".."
  }

  predicate ProperPath(p: Path) {
    forall i :: 0 <= i < |p| ==> ProperName(p[i])
  }

  function RelativePath(dir: string, base: string): string {
    if dir == "." then base else dir + "/" + base
  }

  /** How the walk writes a path: a dot for the root, else the components separated by slashes. */
  function Spell(p: Path): string {
    if p == [] then "." else RelativePath(Spell(p[..|p| - 1]), p[|p| - 1])
  }

  /** Splits at slashes, from position `start` of the component that `i` is in. */
  function SplitFrom(s: string, start: nat, i: nat): Path
    requires start <= i <= |s|
    decreases |s| - i
  {
    if i == |s| then [s[start..]]
    else if s[i] == '/' then [s[start..i]] + SplitFrom(s, i + 1, i + 1)
    else SplitFrom(s, start, i + 1)
  }

  /** The path a spelling names: get_child takes the components, and a dot for none. */
  function Resolve(s: string): Path {
    if s == "." then [] else SplitFrom(s, 0, 0)
  }

  lemma {:induction false} SplitLast(s: string, base: string, start: nat, i: nat)
    requires start <= i <= |s| && '/' !in base
    ensures SplitFrom(s + "/" + base, start, i) == SplitFrom(s, start, i) + [base]
    decreases |s| - i
  {
    var t := s + "/" + base;
    assert forall k :: 0 <= k < |s| ==> t[k] == s[k];
    if i == |s| {
      assert t[i] == '/' && t[start..i] == s[start..];
      assert t[i + 1..] == base;
      SplitPlain(t, i + 1, i + 1);
    } else if s[i] == '/' {
      SplitLast(s, base, i + 1, i + 1);
      assert t[start..i] == s[start..i];
      assert [s[start..i]] + (SplitFrom(s, i + 1, i + 1) + [base]) ==
        [s[start..i]] + SplitFrom(s, i + 1, i + 1) + [base];
    } else {
      SplitLast(s, base, start, i + 1);
    }
  }

  lemma {:induction false} SplitPlain(s: string, start: nat, i: nat)
    requires start <= i <= |s| && '/' !in s[i..]
    ensures SplitFrom(s, start, i) == [s[start..]]
    decreases |s| - i
  {
    if i < |s| {
      assert s[i] == s[i..][0] && s[i + 1..] == s[i..][1..];
      SplitPlain(s, start, i + 1);
    }
  }

  /** Resolving the spelling of a path gives the path, so different paths have different spellings. */
  lemma {:induction false} SpellRoundTrip(p: Path)
    requires ProperPath(p)
    ensures Resolve(Spell(p)) == p
    ensures Spell(p) == "." <==> p == []
  {
    if p != [] {
      var parent, base := p[..|p| - 1], p[|p| - 1];
      SpellRoundTrip(parent);
      assert p == parent + [base];
      if parent == [] {
        assert base[0..] == base;
        SplitPlain(base, 0, 0);
      } else {
        SplitLast(Spell(parent), base, 0, 0);
        assert |Spell(p)| >= 2 + |Spell(parent)| - 0;
        assert |Spell(parent)| >= 1 by { SpellNotEmpty(parent); }
      }
    }
  }

  lemma {:induction false} SpellNotEmpty(p: Path)
    requires ProperPath(p)
    ensures Spell(p) != []
  {
    if p != [] {
      assert ProperName(p[|p| - 1]);
    }
  }

  /** A directory's spelling and an entry's name give the entry's spelling. */
  lemma SpellChild(p: Path, name: string)
    ensures Spell(p + [name]) == RelativePath(Spell(p), name)
  {
    assert (p + [name])[..|p|] == p;
  }
}
