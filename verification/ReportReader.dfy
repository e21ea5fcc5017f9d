/**
 Reading a report back: a line is a member up to the first colon and space, a type letter, a
 space and a symbol. So the report says exactly which entries are duplicates, and of which member.
 */
module ReportReader {
  import opened CStrings
  import opened Sorting
  import opened SymbolReport

  // ---------- the reader ----------

  function ReadEntry(line: string): Option<Symbol> {
    match Find(line, ": ", 0)
    case None => None
    case Some(at) =>
      var rest := line[at + 2..];
      if |rest| < 2 || rest[1] != ' ' then None else Some(Symbol(rest[2..], line[..at], rest[0]))
  }

  /** The entries of the lines, each of which ends in a newline. */
  function ReadReport(text: string): Option<seq<Symbol>>
    decreases |text|
  {
    if text == [] then Some([])
    else
      match FindByte(text, '\n', 0)
      case None => None
      case Some(end) =>
        match ReadEntry(text[..end])
        case None => None
        case Some(e) =>
          match ReadReport(text[end + 1..])
          case None => None
          case Some(more) => Some([e] + more)
  }

  /** What a member and a symbol must not hold for their line to be read back. */
  ghost predicate Readable(e: Symbol) {
    !HasPart(e.member, ": ") && '\n' !in e.member && '\n' !in e.name && e.kind != '\n'
  }

  lemma ColonSpaceAt(line: string, j: int)
    ensures OccursAt(line, ": ", j) <==> 0 <= j && j + 1 < |line| && line[j] == ':' && line[j + 1] == ' '
  {
    if 0 <= j && j + 2 <= |line| {
      assert line[j..j + 2] == [line[j], line[j + 1]];
    }
  }

  lemma NotInMember(member: string, rest: string, j: int)
    requires 0 <= j < |member| && !OccursAt(member, ": ", j)
    ensures !OccursAt(member + (": " + rest), ": ", j)
  {
    var line := member + (": " + rest);
    ColonSpaceAt(line, j);
    ColonSpaceAt(member, j);
    assert line[j] == member[j] && line[|member|] == ':';
    assert j + 1 < |member| ==> line[j + 1] == member[j + 1];
  }

  lemma BehindMember(member: string, rest: string)
    ensures OccursAt(member + (": " + rest), ": ", |member|)
  {
    ColonSpaceAt(member + (": " + rest), |member|);
  }

  /** The first colon before a space is the one behind the member. */
  lemma MemberEnds(member: string, rest: string)
    requires !HasPart(member, ": ")
    ensures Find(member + (": " + rest), ": ", 0) == Some(|member|)
  {
    ContainsMeaning(member, ": ");
    BehindMember(member, rest);
    forall j | 0 <= j < |member|
      ensures !OccursAt(member + (": " + rest), ": ", j)
    {
      NotInMember(member, rest, j);
    }
  }

  lemma EntryReadsBack(e: Symbol)
    requires !HasPart(e.member, ": ")
    ensures ReadEntry(e.member + (": " + ([e.kind, ' '] + e.name))) == Some(e)
  {
    var rest := [e.kind, ' '] + e.name;
    var line := e.member + (": " + rest);
    MemberEnds(e.member, rest);
    assert line[|e.member| + 2..] == rest && line[..|e.member|] == e.member;
    assert rest[2..] == e.name;
  }

  lemma FirstNewline(line: string, rest: string)
    requires '\n' !in line
    ensures FindByte(line + ("\n" + rest), '\n', 0) == Some(|line|)
  {
    var text := line + ("\n" + rest);
    assert text[|line|] == '\n';
    assert forall i :: 0 <= i < |line| ==> text[i] == line[i];
  }

  lemma LineOfEntry(e: Symbol, rest: string) returns (line: string)
    requires Readable(e)
    ensures '\n' !in line && ReadEntry(line) == Some(e) && ReportLine(e) + rest == line + ("\n" + rest)
  {
    line := e.member + (": " + ([e.kind, ' '] + e.name));
    EntryReadsBack(e);
    assert ReportLine(e) == line + "\n";
  }

  lemma ReadLineFirst(line: string, text: string, e: Symbol, more: seq<Symbol>)
    requires '\n' !in line && ReadEntry(line) == Some(e) && ReadReport(text) == Some(more)
    ensures ReadReport(line + ("\n" + text)) == Some([e] + more)
  {
    FirstNewline(line, text);
    var all := line + ("\n" + text);
    assert all[..|line|] == line && all[|line| + 1..] == text;
  }

  /** Reading the lines written for some entries gives these entries. */
  lemma {:induction false} ReportReadsBack(entries: seq<Symbol>)
    requires forall e :: e in entries ==> Readable(e)
    ensures ReadReport(ReportText(entries)) == Some(entries)
  {
    if entries != [] {
      var first, rest := entries[0], entries[1..];
      ReportReadsBack(rest);
      var line := LineOfEntry(first, ReportText(rest));
      ReadLineFirst(line, ReportText(rest), first, rest);
      assert entries == [first] + rest;
    }
  }

  // ---------- what is kept and reported ----------

  /** The capital letters but C, U, V and W. */
  lemma KeptKinds(kind: char)
    ensures ShouldKeepType(kind) <==>
      kind in {'A', 'B', 'D', 'E', 'F', 'G', 'H', 'I', 'J', 'K', 'L', 'M', 'N', 'O', 'P', 'Q', 'R', 'S', 'T', 'X',
        'Y', 'Z'}
  {
  }

  ghost predicate Printed(line: string, e: Symbol) {
    exists archive, gap, space, tail :: PrintedAs(line, e, archive, gap, space, tail)
  }

  lemma ParsedIfPrinted(line: string, e: Symbol)
    ensures ParseLine(line) == Some(e) <==> Printed(line, e)
  {
    ParseLineMeaning(line, e);
  }

  lemma KeptFirst(lines: seq<string>, e: Symbol)
    requires lines != []
    ensures e in KeptEntries(lines) <==> ParseLine(lines[0]) == Some(e) || e in KeptEntries(lines[1..])
  {
  }

  /** What is kept are the entries printed on the lines. */
  lemma {:induction false} KeptArePrinted(lines: seq<string>, e: Symbol)
    ensures e in KeptEntries(lines) <==> exists line :: line in lines && Printed(line, e)
  {
    if lines != [] {
      var first, rest := lines[0], lines[1..];
      assert forall line :: line in lines <==> line == first || line in rest;
      KeptArePrinted(rest, e);
      KeptFirst(lines, e);
      ParsedIfPrinted(first, e);
    }
  }

  lemma {:induction false} DuplicatesAreEntries(s: seq<Symbol>, start: nat)
    requires start <= |s|
    ensures forall e :: e in Duplicates(s, start) ==> e in s
    decreases |s| - start
  {
    if start < |s| {
      DuplicatesAreEntries(s, GroupEnd(s, start, start + 1));
    }
  }

  lemma PrintedIsReadable(line: string, e: Symbol)
    requires '\n' !in line && Printed(line, e) && !HasPart(e.member, ": ")
    ensures Readable(e)
  {
    var archive, gap, space, tail :| PrintedAs(line, e, archive, gap, space, tail);
    InLine(line, archive + "[", e.member, "]: " + (gap + (e.name + (space + ([e.kind] + tail)))));
    InLine(line, archive + "[" + e.member + "]: " + gap, e.name, space + ([e.kind] + tail));
  }

  lemma InLine(line: string, before: string, part: string, after: string)
    requires '\n' !in line && line == before + part + after
    ensures '\n' !in part
  {
    forall i | 0 <= i < |part|
      ensures part[i] != '\n'
    {
      assert line[|before| + i] == part[i];
    }
  }

  /**
   The report on a library, read back, is the list of its duplicates, each with its member, its
   kind and its name, unless a member's name holds a colon and a space.
   */
  lemma LibraryReport(text: string, sorted: seq<Symbol>)
    requires SortedPermutation(CompareSymbols, KeptEntries(Segments(text, 0, 0)), sorted)
    requires forall e :: e in KeptEntries(Segments(text, 0, 0)) ==> !HasPart(e.member, ": ")
    ensures ReadReport(ReportText(Duplicates(sorted, 0))) == Some(Duplicates(sorted, 0))
  {
    var lines := Segments(text, 0, 0);
    var kept := KeptEntries(lines);
    SegmentsSplit(text, 0, 0);
    DuplicatesAreEntries(sorted, 0);
    forall e | e in Duplicates(sorted, 0)
      ensures Readable(e)
    {
      assert e in multiset(sorted);
      assert e in kept;
      KeptArePrinted(lines, e);
      var line :| line in lines && Printed(line, e);
      PrintedIsReadable(line, e);
    }
    ReportReadsBack(Duplicates(sorted, 0));
  }

  // ---------- a symbol of two members ----------

  lemma {:induction false} JoinUnique(a: seq<string>, b: seq<string>)
    requires a != [] && b != [] && JoinLines(a) == JoinLines(b)
    requires (forall k :: 0 <= k < |a| ==> '\n' !in a[k]) && (forall k :: 0 <= k < |b| ==> '\n' !in b[k])
    ensures a == b
  {
    if |a| > 1 {
      FirstNewline(a[0], JoinLines(a[1..]));
    }
    if |b| > 1 {
      FirstNewline(b[0], JoinLines(b[1..]));
    }
    assert |a| > 1 <==> '\n' in JoinLines(a);
    assert |b| > 1 <==> '\n' in JoinLines(b);
    if |a| > 1 {
      var text := JoinLines(a);
      assert text[..|a[0]|] == a[0] == b[0];
      assert text[|a[0]| + 1..] == JoinLines(a[1..]) == JoinLines(b[1..]);
      JoinUnique(a[1..], b[1..]);
    }
    assert a == [a[0]] + a[1..] && b == [b[0]] + b[1..];
  }

  /** Two entries of one name, however sorted, are both reported. */
  lemma PairReported(x: Symbol, y: Symbol, sorted: seq<Symbol>)
    requires x.name == y.name && SortedPermutation(CompareSymbols, [x, y], sorted)
    ensures sorted == [x, y] || sorted == [y, x]
    ensures Duplicates(sorted, 0) == sorted
  {
    PairPermuted(x, y, sorted);
    assert sorted[0..2] == sorted;
    assert GroupEnd(sorted, 0, 1) == 2;
    assert Duplicates(sorted, 2) == [];
  }

  lemma PairPermuted(x: Symbol, y: Symbol, s: seq<Symbol>)
    requires multiset([x, y]) == multiset(s)
    ensures s == [x, y] || s == [y, x]
  {
    assert |s| == |multiset(s)| == 2;
    assert s == [s[0], s[1]];
    assert s[0] in multiset(s) && s[1] in multiset(s);
    assert multiset(s) == multiset{s[0], s[1]};
  }

  lemma TwoLines(text: string, a: string, b: string)
    requires '\n' !in a && '\n' !in b && text == a + ("\n" + (b + ("\n" + "")))
    ensures Segments(text, 0, 0) == [a, b, ""]
  {
    SegmentsSplit(text, 0, 0);
    assert text[0..] == text;
    JoinThree(a, b, "");
    JoinUnique(Segments(text, 0, 0), [a, b, ""]);
  }

  lemma JoinThree(a: string, b: string, c: string)
    ensures JoinLines([a, b, c]) == a + ("\n" + (b + ("\n" + c)))
    ensures '\n' !in a && '\n' !in b && '\n' !in c ==> forall k :: 0 <= k < 3 ==> '\n' !in [a, b, c][k]
  {
    assert [a, b, c][1..] == [b, c] && [b, c][1..] == [c];
    assert JoinLines([c]) == c && JoinLines([b, c]) == b + ("\n" + c);
    assert [a, b, c][0] == a && [a, b, c][1] == b && [a, b, c][2] == c;
  }

  /** Two members that define one name are reported, each on its line, in either order. */
  lemma DefinedTwice(text: string, a: string, b: string, x: Symbol, y: Symbol, sorted: seq<Symbol>)
    requires '\n' !in a && '\n' !in b && text == a + ("\n" + (b + ("\n" + "")))
    requires Printed(a, x) && Printed(b, y) && x.name == y.name
    requires SortedPermutation(CompareSymbols, KeptEntries(Segments(text, 0, 0)), sorted)
    ensures ReportText(Duplicates(sorted, 0)) in {ReportLine(x) + ReportLine(y), ReportLine(y) + ReportLine(x)}
  {
    TwoLines(text, a, b);
    ParsedIfPrinted(a, x);
    ParsedIfPrinted(b, y);
    KeptOfTwo(a, b, x, y);
    PairReported(x, y, sorted);
    PairText(x, y);
    PairText(y, x);
  }

  lemma KeptOfTwo(a: string, b: string, x: Symbol, y: Symbol)
    requires ParseLine(a) == Some(x) && ParseLine(b) == Some(y)
    ensures KeptEntries([a, b, ""]) == [x, y]
  {
    var lines := [a, b, ""];
    assert lines[1..] == [b, ""] && [b, ""][1..] == [""] && [""][1..] == [];
    assert ParseLine("") == None;
    assert KeptEntries([""]) == [];
    assert KeptEntries([b, ""]) == [y] + [];
  }

  lemma PairText(x: Symbol, y: Symbol)
    ensures ReportText([x, y]) == ReportLine(x) + ReportLine(y)
  {
    assert [x, y][1..] == [y] && [y][1..] == [];
    assert ReportText([y]) == ReportLine(y) + [];
  }

  /** As in a library where two objects define foo. */
  lemma FooTwice(first: string, second: string, sorted: seq<Symbol>)
    requires first == "l.a[a.o]: foo T 0 0\n" && second == "l.a[b.o]: foo T 0 0\n"
    requires SortedPermutation(CompareSymbols, KeptEntries(Segments(first + second, 0, 0)), sorted)
    ensures ReportText(Duplicates(sorted, 0)) in {"a.o: T foo\nb.o: T foo\n", "b.o: T foo\na.o: T foo\n"}
  {
    FooMembers();
    var a := FooLine(first, "a.o");
    var b := FooLine(second, "b.o");
    LinesApart(a, b);
    DefinedTwice(first + second, a, b, Symbol("foo", "a.o", 'T'), Symbol("foo", "b.o", 'T'), sorted);
    FooLines();
  }

  lemma FooMembers()
    ensures "l.a[a.o]: foo T 0 0\n" == "l.a[" + ("a.o" + "]: foo T 0 0\n")
    ensures "l.a[b.o]: foo T 0 0\n" == "l.a[" + ("b.o" + "]: foo T 0 0\n")
  {
  }

  lemma FooLine(full: string, member: string) returns (line: string)
    requires full == "l.a[" + (member + "]: foo T 0 0\n") && ']' !in member && '\n' !in member
    ensures '\n' !in line && full == line + "\n" && Printed(line, Symbol("foo", member, 'T'))
  {
    line := "l.a[" + (member + "]: foo T 0 0");
    assert "]: foo T 0 0\n" == "]: foo T 0 0" + "\n";
    FooPrinted(line, member);
  }

  lemma LinesApart(a: string, b: string)
    ensures (a + "\n") + (b + "\n") == a + ("\n" + (b + ("\n" + "")))
  {
  }

  lemma FooLines()
    ensures ReportLine(Symbol("foo", "a.o", 'T')) == "a.o: T foo\n"
    ensures ReportLine(Symbol("foo", "b.o", 'T')) == "b.o: T foo\n"
    ensures "a.o: T foo\n" + "b.o: T foo\n" == "a.o: T foo\nb.o: T foo\n"
    ensures "b.o: T foo\n" + "a.o: T foo\n" == "b.o: T foo\na.o: T foo\n"
  {
  }

  lemma FooPrinted(line: string, member: string)
    requires line == "l.a[" + (member + "]: foo T 0 0") && ']' !in member
    ensures Printed(line, Symbol("foo", member, 'T'))
  {
    var e, tail := Symbol("foo", member, 'T'), " 0 0";
    assert "foo T 0 0" == "foo" + (" " + (['T'] + tail));
    assert "]: foo T 0 0" == "]: " + ("" + ("foo" + (" " + (['T'] + tail))));
    assert line == "l.a" + ("[" + (member + ("]: " + ("" + ("foo" + (" " + (['T'] + tail)))))));
    KeptKinds('T');
    assert PrintedAs(line, e, "l.a", "", " ", tail);
  }
}
