/**
 What the static library validator reports, as functions of the nm output: the entry each
 line gives, and the entries whose symbol is defined more than once.
 */
module SymbolReport {
  import opened CStrings
  import opened Sorting

  datatype Symbol = Symbol(name: string, member: string, kind: char)

  predicate ShouldKeepType(kind: char) {
    IsUpper(kind) && kind != 'U' && kind != 'V' && kind != 'W' && kind != 'C'
  }

  // ---------- one line ----------

  /** memchr: the first c at or after `from`. */
  function FindByte(s: string, c: char, from: nat): (r: Option<nat>)
    requires from <= |s|
    ensures r.Some? ==> from <= r.value < |s| && s[r.value] == c && forall i :: from <= i < r.value ==> s[i] != c
    ensures r.None? ==> forall i :: from <= i < |s| ==> s[i] != c
    decreases |s| - from
  {
    if from == |s| then None
    else if s[from] == c then Some(from)
    else FindByte(s, c, from + 1)
  }

  /** What follows the object name: colon, space, symbol, type letter. */
  function ParseAfterObject(line: string, close: nat): Option<(string, char)>
    requires close < |line|
  {
    if close + 2 >= |line| || line[close + 1] != ':' || line[close + 2] != ' ' then None
    else
      var symbol := SkipSpace(line, close + 3);
      var end := SkipWord(line, symbol);
      var kind := SkipSpace(line, end);
      if symbol == |line| || kind == |line| || kind + 1 == |line| || !IsSpace(line[kind + 1]) then None
      else if !ShouldKeepType(line[kind]) then None
      else Some((line[symbol..end], line[kind]))
  }

  function ParseLine(line: string): Option<Symbol> {
    match FindByte(line, '[', 0)
    case None => None
    case Some(open) =>
      match FindByte(line, ']', open + 1)
      case None => None
      case Some(close) =>
        match ParseAfterObject(line, close)
        case None => None
        case Some((name, kind)) => Some(Symbol(name, line[open + 1..close], kind))
  }

  /** A line as nm prints it for an archive member, with the white space it may use. */
  ghost predicate PrintedAs(line: string, e: Symbol, archive: string, gap: string, space: string, tail: string) {
    && line == archive + ("[" + (e.member + ("]: " + (gap + (e.name + (space + ([e.kind] + tail)))))))
    && '[' !in archive && ']' !in e.member
    && AllSpace(gap) && e.name != [] && SpaceFree(e.name) && space != [] && AllSpace(space)
    && ShouldKeepType(e.kind) && tail != [] && IsSpace(tail[0])
  }

  /** Reading past `part` at position `from` leaves `rest`. */
  lemma PastPart(line: string, from: nat, part: string, rest: string)
    requires from <= |line| && line[from..] == part + rest
    ensures from + |part| <= |line| && line[from + |part|..] == rest && line[from..from + |part|] == part
  {
    assert line[from..][|part|..] == rest;
    assert line[from..][..|part|] == part;
  }

  lemma CharsOf(line: string, from: nat, part: string, rest: string)
    requires from <= |line| && line[from..] == part + rest
    ensures from + |part| <= |line| && forall i :: from <= i < from + |part| ==> line[i] == part[i - from]
    ensures rest != [] ==> from + |part| < |line| && line[from + |part|] == rest[0]
  {
    assert forall i :: 0 <= i < |line| - from ==> line[from..][i] == line[from + i];
    assert forall i :: from <= i < |line| ==> line[i] == line[from..][i - from];
  }

  lemma FindPast(line: string, from: nat, part: string, c: char, rest: string)
    requires from <= |line| && line[from..] == part + rest && rest != [] && rest[0] == c && c !in part
    ensures FindByte(line, c, from) == Some(from + |part|)
  {
    CharsOf(line, from, part, rest);
    assert forall i :: from <= i < from + |part| ==> line[i] in part;
  }

  lemma SkipPast(line: string, from: nat, part: string, rest: string)
    requires from <= |line| && line[from..] == part + rest && rest != []
    ensures AllSpace(part) && !IsSpace(rest[0]) ==> SkipSpace(line, from) == from + |part|
    ensures SpaceFree(part) && IsSpace(rest[0]) ==> SkipWord(line, from) == from + |part|
  {
    CharsOf(line, from, part, rest);
  }

  /** A printed line up to the closing bracket. */
  lemma PrintedHead(line: string, archive: string, member: string, rest: string)
    requires line == archive + ("[" + (member + ("]: " + rest))) && '[' !in archive && ']' !in member
    ensures FindByte(line, '[', 0) == Some(|archive|)
    ensures ClosesAt(line, |archive| + 1, |archive| + 1 + |member|, member, "]: " + rest)
  {
    var closing := "]: " + rest;
    OpeningBracket(line, archive, member + closing);
    ClosingBracket(line, |archive| + 1, |archive| + 1 + |member|, member, closing);
  }

  /** The next closing bracket, what is before it, and what begins with it. */
  ghost predicate ClosesAt(line: string, from: nat, close: nat, inner: string, rest: string) {
    && from <= close < |line| && FindByte(line, ']', from) == Some(close)
    && line[from..close] == inner && line[close..] == rest
  }

  lemma ClosingBracket(line: string, from: nat, close: nat, member: string, closing: string)
    requires from <= |line| && line[from..] == member + closing && closing != [] && closing[0] == ']' && ']' !in member
    requires close == from + |member|
    ensures ClosesAt(line, from, close, member, closing)
  {
    FindPast(line, from, member, ']', closing);
    PastPart(line, from, member, closing);
    assert line[close..] != [];
  }

  lemma OpeningBracket(line: string, archive: string, inner: string)
    requires line == archive + ("[" + inner) && '[' !in archive
    ensures FindByte(line, '[', 0) == Some(|archive|)
    ensures |archive| + 1 <= |line| && line[|archive| + 1..] == inner
  {
    assert line[0..] == line;
    FindPast(line, 0, archive, '[', "[" + inner);
    PastPart(line, 0, archive, "[" + inner);
    PastPart(line, |archive|, "[", inner);
  }

  lemma AfterBracket(line: string, close: nat, gap: string, rest: string)
    requires close < |line| && line[close..] == "]: " + (gap + rest) && AllSpace(gap) && rest != [] && !IsSpace(rest[0])
    ensures close + 3 <= |line| && line[close + 1] == ':' && line[close + 2] == ' '
    ensures SkipSpace(line, close + 3) == close + 3 + |gap| && line[close + 3 + |gap|..] == rest
  {
    CharsOf(line, close, "]: ", gap + rest);
    PastPart(line, close, "]: ", gap + rest);
    SkipPast(line, close + 3, gap, rest);
    PastPart(line, close + 3, gap, rest);
  }

  lemma WordAt(line: string, symbol: nat, name: string, rest: string)
    requires symbol <= |line| && line[symbol..] == name + rest && SpaceFree(name) && rest != [] && IsSpace(rest[0])
    ensures var end := symbol + |name|;
      SkipWord(line, symbol) == end && end <= |line| && line[symbol..end] == name && line[end..] == rest
  {
    SkipPast(line, symbol, name, rest);
    PastPart(line, symbol, name, rest);
  }

  /** What follows the object's closing bracket, part by part. */
  lemma PrintedRest(line: string, close: nat, gap: string, name: string, space: string, kind: char, tail: string)
    requires close < |line| && line[close..] == "]: " + (gap + (name + (space + ([kind] + tail))))
    requires AllSpace(gap) && name != [] && SpaceFree(name) && space != [] && AllSpace(space)
    requires ShouldKeepType(kind) && tail != [] && IsSpace(tail[0])
    ensures ParseAfterObject(line, close) == Some((name, kind))
  {
    var r3 := space + ([kind] + tail);
    assert r3[0] == space[0];
    var r2 := name + r3;
    assert r2[0] == name[0];
    AfterBracket(line, close, gap, r2);
    FromSymbol(line, close, close + 3 + |gap|, name, space, kind, tail, r3);
  }

  lemma FromSymbol(line: string, close: nat, symbol: nat, name: string, space: string, kind: char, tail: string,
                   rest: string)
    requires close + 3 <= symbol <= |line| && line[close + 1] == ':' &&
      line[close + 2] == ' ' && SkipSpace(line, close + 3) == symbol
    requires line[symbol..] == name + rest && rest == space + ([kind] + tail) && rest != [] && IsSpace(rest[0])
    requires name != [] && SpaceFree(name) && AllSpace(space)
    requires ShouldKeepType(kind) && tail != [] && IsSpace(tail[0])
    ensures ParseAfterObject(line, close) == Some((name, kind))
  {
    WordAt(line, symbol, name, rest);
    KindAt(line, symbol + |name|, space, kind, tail);
    AssembleRest(line, close, symbol, symbol + |name|, name, kind);
  }

  lemma AssembleRest(line: string, close: nat, symbol: nat, end: nat, name: string, kind: char)
    requires close + 3 <= symbol < end <= |line| && line[close + 1] == ':' && line[close + 2] == ' '
    requires symbol == SkipSpace(line, close + 3) && end == SkipWord(line, symbol) && line[symbol..end] == name
    requires var at := SkipSpace(line, end); at + 1 < |line| && line[at] == kind && IsSpace(line[at + 1])
    requires ShouldKeepType(kind)
    ensures ParseAfterObject(line, close) == Some((name, kind))
  {
  }

  lemma KindAt(line: string, end: nat, space: string, kind: char, tail: string)
    requires end <= |line| && line[end..] == space + ([kind] + tail)
    requires AllSpace(space) && !IsSpace(kind) && tail != [] && IsSpace(tail[0])
    ensures var at := SkipSpace(line, end); at + 1 < |line| && line[at] == kind && IsSpace(line[at + 1])
  {
    SkipPast(line, end, space, [kind] + tail);
    PastPart(line, end, space, [kind] + tail);
    CharsOf(line, end + |space|, [kind], tail);
  }

  lemma PrintedParses(line: string, e: Symbol, archive: string, gap: string, space: string, tail: string)
    requires PrintedAs(line, e, archive, gap, space, tail)
    ensures ParseLine(line) == Some(e)
  {
    var r1 := gap + (e.name + (space + ([e.kind] + tail)));
    PrintedHead(line, archive, e.member, r1);
    FromObject(line, |archive|, |archive| + 1 + |e.member|, e, gap, space, tail);
  }

  lemma FromObject(line: string, open: nat, close: nat, e: Symbol, gap: string, space: string, tail: string)
    requires open < close < |line| &&
      FindByte(line, '[', 0) == Some(open) && FindByte(line, ']', open + 1) == Some(close)
    requires line[open + 1..close] == e.member &&
      line[close..] == "]: " + (gap + (e.name + (space + ([e.kind] + tail))))
    requires AllSpace(gap) && e.name != [] && SpaceFree(e.name) && space != [] && AllSpace(space)
    requires ShouldKeepType(e.kind) && tail != [] && IsSpace(tail[0])
    ensures ParseLine(line) == Some(e)
  {
    PrintedRest(line, close, gap, e.name, space, e.kind, tail);
    AssembleLine(line, open, close, e);
  }

  lemma AssembleLine(line: string, open: nat, close: nat, e: Symbol)
    requires open < close < |line| &&
      FindByte(line, '[', 0) == Some(open) && FindByte(line, ']', open + 1) == Some(close)
    requires line[open + 1..close] == e.member && ParseAfterObject(line, close) == Some((e.name, e.kind))
    ensures ParseLine(line) == Some(e)
  {
  }

  lemma Cut(line: string, i: nat, j: nat)
    requires i <= j <= |line|
    ensures line[i..] == line[i..j] + line[j..]
  {
  }

  /** A line cut at the positions the parser found after the object. */
  lemma CutRest(line: string, close: nat, symbol: nat, end: nat, kind: nat)
    requires close + 3 <= symbol <= end <= kind < |line|
    ensures line[close + 3..] ==
      line[close + 3..symbol] + (line[symbol..end] + (line[end..kind] + ([line[kind]] + line[kind + 1..])))
  {
    Cut(line, kind, kind + 1);
    Cut(line, end, kind);
    Cut(line, symbol, end);
    Cut(line, close + 3, symbol);
  }

  lemma CutHead(line: string, open: nat, close: nat)
    requires open < close && close + 3 <= |line|
    requires line[open] == '[' && line[close] == ']' && line[close + 1] == ':' && line[close + 2] == ' '
    ensures line == line[..open] + ("[" + (line[open + 1..close] + ("]: " + line[close + 3..])))
  {
    Cut(line, close, close + 3);
    assert line[close..close + 3] == "]: ";
    Cut(line, open + 1, close);
    Cut(line, open, open + 1);
    assert line[open..open + 1] == "[";
    Cut(line, 0, open);
    assert line[0..] == line && line[0..open] == line[..open];
  }

  lemma FoundSlice(line: string, c: char, from: nat)
    requires from <= |line|
    ensures var r := FindByte(line, c, from); r.Some? ==> c !in line[from..r.value]
  {
  }

  lemma SkippedSlices(line: string, from: nat)
    requires from <= |line|
    ensures AllSpace(line[from..SkipSpace(line, from)]) && SpaceFree(line[from..SkipWord(line, from)])
  {
  }

  lemma ParsedIsPrinted(line: string, e: Symbol) returns (archive: string, gap: string, space: string, tail: string)
    requires ParseLine(line) == Some(e)
    ensures PrintedAs(line, e, archive, gap, space, tail)
  {
    var open := FindByte(line, '[', 0).value;
    var close := FindByte(line, ']', open + 1).value;
    FoundSlice(line, '[', 0);
    FoundSlice(line, ']', open + 1);
    assert line[0..open] == line[..open];
    gap, space, tail := ParsedRest(line, close);
    archive := line[..open];
    CutHead(line, open, close);
  }

  lemma ParsedRest(line: string, close: nat) returns (gap: string, space: string, tail: string)
    requires close < |line| && ParseAfterObject(line, close).Some?
    ensures close + 2 < |line| && line[close + 1] == ':' && line[close + 2] == ' '
    ensures var (name, kind) := ParseAfterObject(line, close).value;
      && line[close + 3..] == gap + (name + (space + ([kind] + tail)))
      && AllSpace(gap) && name != [] && SpaceFree(name) && space != [] && AllSpace(space)
      && ShouldKeepType(kind) && tail != [] && IsSpace(tail[0])
  {
    var symbol := SkipSpace(line, close + 3);
    var end := SkipWord(line, symbol);
    var kind := SkipSpace(line, end);
    CutRest(line, close, symbol, end, kind);
    SkippedSlices(line, close + 3);
    SkippedSlices(line, symbol);
    SkippedSlices(line, end);
    gap, space, tail := line[close + 3..symbol], line[end..kind], line[kind + 1..];
  }

  /** A line gives an entry exactly when it has the printed form, and then the entry it was printed from. */
  lemma ParseLineMeaning(line: string, e: Symbol)
    ensures ParseLine(line) == Some(e) <==>
      exists archive, gap, space, tail :: PrintedAs(line, e, archive, gap, space, tail)
  {
    if ParseLine(line) == Some(e) {
      var archive, gap, space, tail := ParsedIsPrinted(line, e);
    }
    if archive, gap, space, tail :| PrintedAs(line, e, archive, gap, space, tail) {
      PrintedParses(line, e, archive, gap, space, tail);
    }
  }

  // ---------- all lines ----------

  /** The lines of a text: the segments between newlines, the last one included. */
  function Segments(text: string, start: nat, i: nat): seq<string>
    requires start <= i <= |text|
    decreases |text| - i
  {
    if i == |text| then [text[start..]]
    else if text[i] == '\n' then [text[start..i]] + Segments(text, i + 1, i + 1)
    else Segments(text, start, i + 1)
  }

  function JoinLines(lines: seq<string>): string
    requires lines != []
  {
    if |lines| == 1 then lines[0] else lines[0] + ("\n" + JoinLines(lines[1..]))
  }

  /** Segments splits at every newline and nowhere else. */
  lemma {:induction false} SegmentsSplit(text: string, start: nat, i: nat)
    requires start <= i <= |text| && '\n' !in text[start..i]
    ensures var lines := Segments(text, start, i);
      lines != [] && JoinLines(lines) == text[start..] && forall k :: 0 <= k < |lines| ==> '\n' !in lines[k]
    decreases |text| - i
  {
    if i < |text| {
      assert text[start..i + 1] == text[start..i] + [text[i]];
      if text[i] == '\n' {
        SegmentsSplit(text, i + 1, i + 1);
        assert text[start..] == text[start..i] + ("\n" + text[i + 1..]);
      } else {
        SegmentsSplit(text, start, i + 1);
      }
    } else {
      assert text[start..i] == text[start..];
    }
  }

  function KeptEntries(lines: seq<string>): seq<Symbol> {
    if lines == [] then []
    else
      match ParseLine(lines[0])
      case None => KeptEntries(lines[1..])
      case Some(e) => [e] + KeptEntries(lines[1..])
  }

  // ---------- comparing and grouping ----------

  function MemCmp(a: string, b: string, n: nat): int
    requires n <= |a| && n <= |b|
  {
    if n == 0 then 0
    else if a[0] != b[0] then (if a[0] < b[0] then -1 else 1)
    else MemCmp(a[1..], b[1..], n - 1)
  }

  function CompareSymbols(a: Symbol, b: Symbol): int {
    var least := if |a.name| < |b.name| then |a.name| else |b.name|;
    var bytes := MemCmp(a.name, b.name, least);
    if bytes != 0 then bytes
    else if |a.name| < |b.name| then -1
    else if |a.name| != |b.name| then 1 else 0
  }

  /** Comparing bytes up to the shorter length and then lengths is comparing the names. */
  lemma {:induction false} CompareIsStrCmp(a: string, b: string, member: string, kind: char)
    ensures CompareSymbols(Symbol(a, member, kind), Symbol(b, member, kind)) == StrCmp(a, b)
  {
    if a != [] && b != [] && a[0] == b[0] {
      CompareIsStrCmp(a[1..], b[1..], member, kind);
    }
  }

  lemma CompareSymbolsIs(a: Symbol, b: Symbol)
    ensures CompareSymbols(a, b) == StrCmp(a.name, b.name)
  {
    CompareIsStrCmp(a.name, b.name, a.member, a.kind);
  }

  lemma CompareSymbolsTransitive(a: Symbol, b: Symbol, c: Symbol)
    ensures Transitive(CompareSymbols, a, b, c)
  {
    CompareSymbolsIs(a, b);
    CompareSymbolsIs(b, c);
    CompareSymbolsIs(a, c);
    if CompareSymbols(a, b) <= 0 && CompareSymbols(b, c) <= 0 {
      StrCmpTransitive(a.name, b.name, c.name);
    }
  }

  lemma CompareSymbolsIsTotal()
    ensures TotalPreorder(CompareSymbols)
  {
    forall a, b
      ensures Antisymmetric(CompareSymbols, a, b)
    {
      CompareSymbolsIs(a, b);
      CompareSymbolsIs(b, a);
      StrCmpFlip(a.name, b.name);
    }
    forall a, b, c
      ensures Transitive(CompareSymbols, a, b, c)
    {
      CompareSymbolsTransitive(a, b, c);
    }
  }

  /** Where the group of entries with the name of s[start] ends, searching from `end`. */
  function GroupEnd(s: seq<Symbol>, start: nat, end: nat): (r: nat)
    requires start < end <= |s|
    ensures end <= r <= |s|
    ensures forall i :: end <= i < r ==> s[i].name == s[start].name
    ensures r < |s| ==> s[r].name != s[start].name
    decreases |s| - end
  {
    if end < |s| && s[start].name == s[end].name then GroupEnd(s, start, end + 1) else end
  }

  /** The members of the groups of two or more, from `start` on. */
  function Duplicates(s: seq<Symbol>, start: nat): seq<Symbol>
    requires start <= |s|
    decreases |s| - start
  {
    if start == |s| then []
    else
      var end := GroupEnd(s, start, start + 1);
      (if end - start >= 2 then s[start..end] else []) + Duplicates(s, end)
  }

  function ReportLine(e: Symbol): (line: string)
    ensures line != []
  {
    e.member + ": " + [e.kind, ' '] + e.name + "\n"
  }

  function ReportText(entries: seq<Symbol>): string {
    if entries == [] then [] else ReportLine(entries[0]) + ReportText(entries[1..])
  }

  // ---------- what is reported ----------

  /** How many entries define the name. */
  function Definitions(s: seq<Symbol>, name: string): nat {
    if s == [] then 0 else (if s[0].name == name then 1 else 0) + Definitions(s[1..], name)
  }

  lemma {:induction false} DefinitionsConcat(s: seq<Symbol>, t: seq<Symbol>, name: string)
    ensures Definitions(s + t, name) == Definitions(s, name) + Definitions(t, name)
  {
    if s == [] {
      assert s + t == t;
    } else {
      DefinitionsConcat(s[1..], t, name);
      assert (s + t)[1..] == s[1..] + t;
    }
  }

  lemma DefinitionsWithout(s: seq<Symbol>, j: nat, name: string)
    requires j < |s|
    ensures Definitions(s, name) == Definitions(Without(s, j), name) + (if s[j].name == name then 1 else 0)
  {
    var a, b := s[..j], s[j + 1..];
    assert s == a + ([s[j]] + b);
    DefinitionsConcat(a, [s[j]] + b, name);
    DefinitionsConcat([s[j]], b, name);
    DefinitionsConcat(a, b, name);
  }

  lemma {:induction false} DefinitionsPermuted(s: seq<Symbol>, t: seq<Symbol>, name: string)
    requires multiset(s) == multiset(t)
    ensures Definitions(s, name) == Definitions(t, name)
  {
    if s == [] {
      assert |multiset(t)| == 0;
      assert t == [];
    } else {
      assert s[0] in multiset(t);
      var j :| 0 <= j < |t| && t[j] == s[0];
      assert Without(s, 0) == s[1..];
      WithoutOne(s, 0);
      WithoutOne(t, j);
      DefinitionsPermuted(s[1..], Without(t, j), name);
      DefinitionsWithout(t, j, name);
    }
  }

  lemma {:induction false} DefinitionsInGroup(g: seq<Symbol>, group: string, name: string)
    requires forall i :: 0 <= i < |g| ==> g[i].name == group
    ensures Definitions(g, name) == if name == group then |g| else 0
  {
    if g != [] {
      DefinitionsInGroup(g[1..], group, name);
    }
  }

  lemma {:induction false} DefinitionsElsewhere(s: seq<Symbol>, name: string)
    requires forall i :: 0 <= i < |s| ==> s[i].name != name
    ensures Definitions(s, name) == 0
  {
    if s != [] {
      DefinitionsElsewhere(s[1..], name);
    }
  }

  lemma GroupApart(s: seq<Symbol>, start: nat)
    requires SortedBy(CompareSymbols, s) && start < |s|
    ensures forall k :: GroupEnd(s, start, start + 1) <= k < |s| ==> s[k].name != s[start].name
  {
    var end := GroupEnd(s, start, start + 1);
    forall k | end <= k < |s|
      ensures s[k].name != s[start].name
    {
      assert CompareSymbols(s[start], s[end]) <= 0 && (end < k ==> CompareSymbols(s[end], s[k]) <= 0);
      CompareSymbolsIs(s[start], s[end]);
      CompareSymbolsIs(s[end], s[k]);
      StrCmpFlip(s[end].name, s[k].name);
      StrCmpFlip(s[start].name, s[end].name);
      StrCmpZero(s[start].name, s[end].name);
    }
  }

  /** A whole group followed by other names: either side decides alone. */
  lemma GroupCounts(g: seq<Symbol>, rest: seq<Symbol>, name: string, e: Symbol)
    requires forall i :: 0 <= i < |g| ==> g[i].name == name
    requires forall i :: 0 <= i < |rest| ==> rest[i].name != name
    ensures Definitions(g + rest, e.name) == if e.name == name then |g| else Definitions(rest, e.name)
    ensures multiset(g + rest)[e] == if e.name == name then multiset(g)[e] else multiset(rest)[e]
    ensures e.name == name ==> multiset(rest)[e] == 0 && Definitions(rest, e.name) == 0
    ensures e.name != name ==> multiset(g)[e] == 0
  {
    DefinitionsConcat(g, rest, e.name);
    DefinitionsInGroup(g, name, e.name);
    if e.name == name {
      DefinitionsElsewhere(rest, e.name);
      assert e !in rest;
    } else {
      assert e !in g;
    }
  }

  lemma SplitAt(s: seq<Symbol>, start: nat, end: nat)
    requires start <= end <= |s|
    ensures s[start..] == s[start..end] + s[end..]
    ensures forall k :: 0 <= k < end - start ==> s[start..end][k] == s[start + k]
    ensures forall k :: 0 <= k < |s| - end ==> s[end..][k] == s[end + k]
  {
  }

  lemma ConcatCount(a: seq<Symbol>, b: seq<Symbol>, e: Symbol)
    ensures multiset(a + b)[e] == multiset(a)[e] + multiset(b)[e]
  {
  }

  lemma {:induction false} DuplicatesFrom(s: seq<Symbol>, start: nat, e: Symbol)
    requires SortedBy(CompareSymbols, s) && start <= |s|
    ensures multiset(Duplicates(s, start))[e] ==
      if Definitions(s[start..], e.name) >= 2 then multiset(s[start..])[e] else 0
    decreases |s| - start
  {
    if start < |s| {
      var end := GroupEnd(s, start, start + 1);
      var g, rest := s[start..end], s[end..];
      DuplicatesFrom(s, end, e);
      GroupApart(s, start);
      SplitAt(s, start, end);
      GroupCounts(g, rest, s[start].name, e);
      ConcatCount(if end - start >= 2 then g else [], Duplicates(s, end), e);
    }
  }

  /**
   However the sort breaks ties, the report lists, with multiplicity, exactly the kept
   entries whose name at least two kept entries define.
   */
  lemma DuplicatesMeaning(kept: seq<Symbol>, s: seq<Symbol>, e: Symbol)
    requires SortedPermutation(CompareSymbols, kept, s)
    ensures multiset(Duplicates(s, 0))[e] == if Definitions(kept, e.name) >= 2 then multiset(kept)[e] else 0
  {
    assert s[0..] == s;
    DuplicatesFrom(s, 0, e);
    DefinitionsPermuted(kept, s, e.name);
  }

  ghost predicate DistinctNames(s: seq<Symbol>) {
    forall i, j :: 0 <= i < j < |s| ==> s[i].name != s[j].name
  }

  lemma {:induction false} TwoDefinitions(s: seq<Symbol>, i: nat, j: nat)
    requires i < j < |s| && s[i].name == s[j].name
    ensures Definitions(s, s[i].name) >= 2
  {
    DefinitionsConcat(s[..j], s[j..], s[i].name);
    assert s == s[..j] + s[j..];
    DefinitionsPositive(s[..j], i);
    DefinitionsPositive(s[j..], 0);
  }

  lemma {:induction false} DefinitionsPositive(s: seq<Symbol>, i: nat)
    requires i < |s|
    ensures Definitions(s, s[i].name) >= 1
  {
    if i > 0 {
      DefinitionsPositive(s[1..], i - 1);
    }
  }

  lemma {:induction false} DistinctDefinitions(s: seq<Symbol>, name: string)
    requires DistinctNames(s)
    ensures Definitions(s, name) <= 1
  {
    if s != [] {
      DistinctDefinitions(s[1..], name);
      if s[0].name == name {
        DefinitionsElsewhere(s[1..], name);
      }
    }
  }

  /** Nothing is reported iff no name is kept twice. */
  lemma ReportEmptyMeaning(kept: seq<Symbol>, s: seq<Symbol>)
    requires SortedPermutation(CompareSymbols, kept, s)
    ensures ReportText(Duplicates(s, 0)) == [] <==> DistinctNames(kept)
  {
    var d := Duplicates(s, 0);
    if d != [] {
      assert ReportText(d) != [];
      DuplicatesMeaning(kept, s, d[0]);
      assert d[0] in multiset(d);
      NotDistinct(kept, d[0].name);
    } else if !DistinctNames(kept) {
      var i, j :| 0 <= i < j < |kept| && kept[i].name == kept[j].name;
      TwoDefinitions(kept, i, j);
      DuplicatesMeaning(kept, s, kept[i]);
    }
  }

  lemma NotDistinct(s: seq<Symbol>, name: string)
    requires Definitions(s, name) >= 2
    ensures !DistinctNames(s)
  {
    if DistinctNames(s) {
      DistinctDefinitions(s, name);
    }
  }
}
