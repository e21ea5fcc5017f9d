/**
 C strings as sequences of bytes, one char per byte and no NUL inside, with the
 string.h and ctype.h functions the tools use, in the C locale.
 */
module CStrings {

  datatype Option<+T> = None | Some(value: T)
  datatype Result<+T, +E> = Success(value: T) | Failure(error: E)

  // ---------- strcmp ----------

  /** The sign of strcmp: bytes compare as unsigned, and a proper prefix comes first. */
  function StrCmp(a: string, b: string): (r: int)
    ensures -1 <= r <= 1
  {
    if a == [] then (if b == [] then 0 else -1)
    else if b == [] then 1
    else if a[0] != b[0] then (if a[0] < b[0] then -1 else 1)
    else StrCmp(a[1..], b[1..])
  }

  lemma {:induction false} StrCmpZero(a: string, b: string)
    ensures StrCmp(a, b) == 0 <==> a == b
  {
    if a != [] && b != [] && a[0] == b[0] {
      StrCmpZero(a[1..], b[1..]);
      assert a == [a[0]] + a[1..] && b == [b[0]] + b[1..];
    }
  }

  lemma {:induction false} StrCmpFlip(a: string, b: string)
    ensures StrCmp(a, b) == -StrCmp(b, a)
  {
    if a != [] && b != [] && a[0] == b[0] {
      StrCmpFlip(a[1..], b[1..]);
    }
  }

  lemma {:induction false} StrCmpTransitive(a: string, b: string, c: string)
    requires StrCmp(a, b) <= 0 && StrCmp(b, c) <= 0
    ensures StrCmp(a, c) <= 0
  {
    if a != [] && b != [] && c != [] && a[0] == b[0] && b[0] == c[0] {
      StrCmpTransitive(a[1..], b[1..], c[1..]);
    }
  }

  lemma StrCmpStrictTransitive(a: string, b: string, c: string)
    requires StrCmp(a, b) < 0 && StrCmp(b, c) < 0
    ensures StrCmp(a, c) < 0
  {
    StrCmpTransitive(a, b, c);
    StrCmpZero(a, c);
    if a == c {
      StrCmpFlip(a, b);
    }
  }

  /** The strings agree before k; there the first one ends, or has the smaller byte. */
  ghost predicate SmallerAt(a: string, b: string, k: nat) {
    && k <= |a| && k < |b| && (forall i :: 0 <= i < k ==> a[i] == b[i])
    && (k == |a| || a[k] as int < b[k] as int)
  }

  /** The order of strings: a string is smaller exactly if it is smaller where the two first differ. */
  lemma {:induction false} StrCmpMeaning(a: string, b: string)
    ensures StrCmp(a, b) < 0 <==> exists k: nat :: SmallerAt(a, b, k)
    ensures StrCmp(a, b) > 0 <==> exists k: nat :: SmallerAt(b, a, k)
  {
    StrCmpNegative(a, b);
    StrCmpNegative(b, a);
    StrCmpFlip(a, b);
  }

  lemma {:induction false} StrCmpNegative(a: string, b: string)
    ensures StrCmp(a, b) < 0 <==> exists k: nat :: SmallerAt(a, b, k)
  {
    if a == [] || b == [] || a[0] != b[0] {
      assert StrCmp(a, b) < 0 ==> SmallerAt(a, b, 0);
      assert forall k: nat :: k > 0 && SmallerAt(a, b, k) ==> a != [] && b != [] && a[0] == b[0];
    } else {
      StrCmpNegative(a[1..], b[1..]);
      if k: nat :| SmallerAt(a[1..], b[1..], k) {
        forall i | 0 <= i < k + 1
          ensures a[i] == b[i]
        {
          assert i > 0 ==> a[1..][i - 1] == b[1..][i - 1];
        }
        assert SmallerAt(a, b, k + 1);
      }
      if k: nat :| SmallerAt(a, b, k) {
        assert SmallerAt(a[1..], b[1..], k - 1);
      }
    }
  }

  // ---------- ctype.h ----------

  predicate IsSpace(c: char) {
    c == ' ' || 9 <= c as int <= 13
  }

  /** The white space of the C locale, byte by byte. */
  lemma SpaceBytes(c: char)
    ensures IsSpace(c) <==> c as int in {9, 10, 11, 12, 13, 32}
  {
  }

  predicate IsUpper(c: char) {
    'A' <= c <= 'Z'
  }

  predicate IsDigit(c: char) {
    '0' <= c <= '9'
  }

  function ToLower(c: char): char {
    if IsUpper(c) then (c as int + 32) as char else c
  }

  function Fold(s: string): string {
    seq(|s|, i requires 0 <= i < |s| => ToLower(s[i]))
  }

  lemma FoldIdempotent(s: string)
    ensures Fold(Fold(s)) == Fold(s)
  {
  }

  predicate SpaceFree(s: string) {
    forall i :: 0 <= i < |s| ==> !IsSpace(s[i])
  }

  function SkipSpace(s: string, from: nat): (r: nat)
    requires from <= |s|
    ensures from <= r <= |s| && (r < |s| ==> !IsSpace(s[r]))
    ensures forall i :: from <= i < r ==> IsSpace(s[i])
    decreases |s| - from
  {
    if from == |s| || !IsSpace(s[from]) then from else SkipSpace(s, from + 1)
  }

  function SkipWord(s: string, from: nat): (r: nat)
    requires from <= |s|
    ensures from <= r <= |s| && (r < |s| ==> IsSpace(s[r]))
    ensures forall i :: from <= i < r ==> !IsSpace(s[i])
    decreases |s| - from
  {
    if from == |s| || IsSpace(s[from]) then from else SkipWord(s, from + 1)
  }

  predicate AllSpace(s: string) {
    forall i :: 0 <= i < |s| ==> IsSpace(s[i])
  }

  method SkipWordFrom(line: string, from: nat) returns (end: nat)
    requires from <= |line|
    ensures end == SkipWord(line, from)
  {
    end := from;
    while end < |line| && !IsSpace(line[end])
      invariant from <= end <= |line| && SkipWord(line, end) == SkipWord(line, from)
    {
      end := end + 1;
    }
  }

  method SkipSpaceFrom(line: string, from: nat) returns (end: nat)
    requires from <= |line|
    ensures end == SkipSpace(line, from)
  {
    end := from;
    while end < |line| && IsSpace(line[end])
      invariant from <= end <= |line| && SkipSpace(line, end) == SkipSpace(line, from)
    {
      end := end + 1;
    }
  }

  // ---------- strstr, strncmp ----------

  predicate HasPrefix(s: string, prefix: string) {
    prefix <= s
  }

  predicate HasSuffix(s: string, suffix: string) {
    |s| >= |suffix| && s[|s| - |suffix|..] == suffix
  }

  predicate OccursAt(s: string, pattern: string, i: int) {
    0 <= i && i + |pattern| <= |s| && s[i..i + |pattern|] == pattern
  }

  /** strstr from position `from`: the first occurrence at or after it. */
  function Find(s: string, pattern: string, from: nat): (r: Option<nat>)
    requires from <= |s|
    ensures r.Some? ==> from <= r.value && OccursAt(s, pattern, r.value)
    ensures r.Some? ==> forall j :: from <= j < r.value ==> !OccursAt(s, pattern, j)
    ensures r.None? ==> forall j :: from <= j ==> !OccursAt(s, pattern, j)
    decreases |s| - from
  {
    if OccursAt(s, pattern, from) then Some(from)
    else if from == |s| then None
    else Find(s, pattern, from + 1)
  }

  predicate Contains(s: string, pattern: string) {
    Find(s, pattern, 0).Some?
  }

  /** Written apart: something, the part, and something. */
  ghost predicate HasPart(s: string, part: string) {
    exists a: string, b: string :: s == a + (part + b)
  }

  ghost predicate EndsIn(s: string, part: string) {
    exists a: string :: s == a + part
  }

  lemma ContainsMeaning(s: string, part: string)
    ensures Contains(s, part) <==> HasPart(s, part)
  {
    if Contains(s, part) {
      var i := Find(s, part, 0).value;
      assert s == s[..i] + (s[i..i + |part|] + s[i + |part|..]);
    }
    if a, b :| s == a + (part + b) {
      assert s[|a|..|a| + |part|] == part;
      assert OccursAt(s, part, |a|);
    }
  }

  lemma SuffixMeaning(s: string, part: string)
    ensures HasSuffix(s, part) <==> EndsIn(s, part)
  {
    if HasSuffix(s, part) {
      assert s == s[..|s| - |part|] + part;
    }
    if a :| s == a + part {
      assert s[|a|..] == part;
    }
  }

  // ---------- concatenation ----------

  lemma Reassociate<T>(a: seq<T>, b: seq<T>, c: seq<T>)
    ensures a + b + c == a + (b + c)
  {
  }
}
