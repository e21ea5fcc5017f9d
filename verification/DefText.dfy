/**
 Module-definition files as text: what merging a file into the two symbol sets does, what
 writing them produces, and that the one undoes the other.
 */
module DefText {
  import opened CStrings
  import opened StringSets

  /** The exported functions and the exported data. */
  datatype Names = Names(symbols: set<string>, data: set<string>)

  const NO_NAMES := Names({}, {})

  function Union(a: Names, b: Names): Names {
    Names(a.symbols + b.symbols, a.data + b.data)
  }

  ghost predicate Within(a: Names, b: Names) {
    a.symbols <= b.symbols && a.data <= b.data
  }

  const MARKER := " \t DATA"

  // ---------- lines ----------

  /** Where the first line ends: at a newline, or at the end of the text. */
  function LineEnd(text: string): (r: nat)
    ensures r <= |text| && (r < |text| ==> text[r] == '\n')
    ensures forall i :: 0 <= i < r ==> text[i] != '\n'
  {
    if text == [] || text[0] == '\n' then 0 else 1 + LineEnd(text[1..])
  }

  function AfterLine(text: string): (rest: string)
    ensures text != [] ==> |rest| < |text|
  {
    var end := LineEnd(text);
    if end < |text| then text[end + 1..] else []
  }

  /** The lines read_line returns until it returns NULL; an empty line at the very end is not one. */
  function Lines(text: string): seq<string>
    decreases |text|
  {
    if text == [] then [] else [text[..LineEnd(text)]] + Lines(AfterLine(text))
  }

  lemma LineEndOf(line: string, rest: string)
    requires '\n' !in line && (rest != [] ==> rest[0] == '\n')
    ensures LineEnd(line + rest) == |line|
  {
    var text := line + rest;
    assert forall i :: 0 <= i < |line| ==> text[i] == line[i];
    assert rest != [] ==> text[|line|] == rest[0];
  }

  /** A line and its newline in front of a text are one line more. */
  lemma LinesCons(line: string, rest: string)
    requires '\n' !in line
    ensures Lines(line + ("\n" + rest)) == [line] + Lines(rest)
  {
    var text := line + ("\n" + rest);
    LineEndOf(line, "\n" + rest);
    assert text[..|line|] == line && text[|line| + 1..] == rest;
  }

  lemma FirstLine(text: string) returns (line: string, next: string)
    requires LineEnd(text) < |text|
    ensures '\n' !in line && text == line + ("\n" + next) && next == AfterLine(text)
    ensures line == text[..LineEnd(text)]
  {
    line, next := text[..LineEnd(text)], AfterLine(text);
  }

  lemma Regroup(line: string, next: string, rest: string)
    ensures (line + ("\n" + next)) + "\n" + rest == line + ("\n" + (next + "\n" + rest))
  {
  }

  lemma OneLineConcat(line: string, rest: string)
    requires '\n' !in line
    ensures Lines(line + "\n" + rest) == [line] + Lines(rest)
  {
    assert line + "\n" + rest == line + ("\n" + rest);
    LinesCons(line, rest);
  }

  /** A text that ends a line can be cut there. */
  lemma {:induction false} LinesConcat(text: string, rest: string)
    ensures Lines(text + "\n" + rest) == Lines(text + "\n" + "") + Lines(rest)
    decreases |text|
  {
    if LineEnd(text) < |text| {
      var line, next := FirstLine(text);
      LinesConcat(next, rest);
      LinesConcatStep(line, next, rest);
    } else {
      assert forall i :: 0 <= i < |text| ==> text[i] != '\n';
      OneLineConcat(text, "");
      OneLineConcat(text, rest);
    }
  }

  lemma LinesConcatStep(line: string, next: string, rest: string)
    requires '\n' !in line && Lines(next + "\n" + rest) == Lines(next + "\n" + "") + Lines(rest)
    ensures var text := line + ("\n" + next); Lines(text + "\n" + rest) == Lines(text + "\n" + "") + Lines(rest)
  {
    Regroup(line, next, "");
    Regroup(line, next, rest);
    LinesCons(line, next + "\n" + "");
    LinesCons(line, next + "\n" + rest);
    Associate(line, Lines(next + "\n" + ""), Lines(rest));
  }

  lemma Associate(line: string, a: seq<string>, b: seq<string>)
    ensures [line] + (a + b) == ([line] + a) + b
  {
  }

  lemma {:induction false} LinesNewlineFree(text: string)
    ensures forall line :: line in Lines(text) ==> '\n' !in line
    decreases |text|
  {
    if text != [] {
      LinesNewlineFree(AfterLine(text));
    }
  }

  // ---------- merging ----------

  predicate IsBlank(c: char) {
    c == ' ' || c == '\t'
  }

  function SkipBlanks(s: string): (r: string)
    ensures r != [] ==> !IsBlank(r[0])
    ensures |r| <= |s| && r == s[|s| - |r|..]
  {
    if s != [] && IsBlank(s[0]) then
      var r := SkipBlanks(s[1..]);
      assert s[1..][|s| - 1 - |r|..] == s[|s| - |r|..];
      r
    else s
  }

  /** One line of a definition file. */
  function MergeLine(names: Names, line: string): Names {
    if HasPrefix(line, "LIBRARY") || HasPrefix(line, "EXPORTS") then names
    else MergeEntry(names, SkipBlanks(line))
  }

  function MergeEntry(names: Names, symbol: string): Names {
    match Find(symbol, MARKER, 0)
    case Some(at) => names.(data := names.data + {symbol[..at]})
    case None => if symbol == [] then names else names.(symbols := names.symbols + {symbol})
  }

  function MergeLines(names: Names, lines: seq<string>): Names
    decreases |lines|
  {
    if lines == [] then names else MergeLines(MergeLine(names, lines[0]), lines[1..])
  }

  function MergeText(names: Names, text: string): Names {
    MergeLines(names, Lines(text))
  }

  lemma MergeLineUnion(names: Names, line: string)
    ensures MergeLine(names, line) == Union(names, MergeLine(NO_NAMES, line))
  {
  }

  lemma UnionAssociates(a: Names, b: Names, c: Names)
    ensures Union(Union(a, b), c) == Union(a, Union(b, c))
  {
  }

  lemma {:induction false} MergeLinesUnion(names: Names, lines: seq<string>)
    ensures MergeLines(names, lines) == Union(names, MergeLines(NO_NAMES, lines))
    decreases |lines|
  {
    if lines != [] {
      var one, rest := MergeLine(NO_NAMES, lines[0]), MergeLines(NO_NAMES, lines[1..]);
      MergeLineUnion(names, lines[0]);
      MergeLinesUnion(MergeLine(names, lines[0]), lines[1..]);
      MergeLinesUnion(one, lines[1..]);
      UnionAssociates(names, one, rest);
    }
  }

  lemma {:induction false} MergeLinesConcat(names: Names, a: seq<string>, b: seq<string>)
    ensures MergeLines(names, a + b) == MergeLines(MergeLines(names, a), b)
    decreases |a|
  {
    if a == [] {
      assert a + b == b;
    } else {
      assert (a + b)[0] == a[0] && (a + b)[1..] == a[1..] + b;
      MergeLinesConcat(MergeLine(names, a[0]), a[1..], b);
    }
  }

  // ---------- writing ----------

  function DataLines(data: seq<string>): string {
    if data == [] then [] else "\t" + (data[0] + MARKER) + ("\n" + DataLines(data[1..]))
  }

  function SymbolLines(symbols: seq<string>): string {
    if symbols == [] then [] else "\t" + symbols[0] + ("\n" + SymbolLines(symbols[1..]))
  }

  function Header(dll: string): string {
    (if dll != [] then "LIBRARY " + dll + "\n" else "") + "EXPORTS \n"
  }

  /** The file written for two increasing lists of names. */
  function WriteText(dll: string, data: seq<string>, symbols: seq<string>): string {
    Header(dll) + (DataLines(data) + SymbolLines(symbols))
  }

  ghost function WriteNames(dll: string, names: Names): string {
    WriteText(dll, SortedList(names.data), SortedList(names.symbols))
  }

  // ---------- the invariant of stored names ----------

  /** What every stored name looks like: it can be read back from a line of its own. */
  predicate GoodName(n: string) {
    n != [] && '\n' !in n && !IsBlank(n[0]) && !Contains(n, MARKER)
  }

  ghost predicate GoodNames(names: Names) {
    forall n :: n in names.symbols + names.data ==> GoodName(n)
  }

  lemma MergeLineKeepsGood(names: Names, line: string)
    requires GoodNames(names) && '\n' !in line
    ensures GoodNames(MergeLine(names, line))
  {
    var symbol := SkipBlanks(line);
    NoNewlineAtEnd(line, |line| - |symbol|);
    MergeEntryKeepsGood(names, symbol);
  }

  lemma NoNewlineAtEnd(line: string, from: nat)
    requires '\n' !in line && from <= |line|
    ensures '\n' !in line[from..]
  {
  }

  lemma MergeEntryKeepsGood(names: Names, symbol: string)
    requires GoodNames(names) && '\n' !in symbol && (symbol != [] ==> !IsBlank(symbol[0]))
    ensures GoodNames(MergeEntry(names, symbol))
  {
    match Find(symbol, MARKER, 0)
    case None =>
      if symbol != [] {
        GoodWith(names, symbol);
      }
    case Some(at) =>
      NameBeforeMarker(symbol, at);
      GoodWith(names, symbol[..at]);
  }

  lemma GoodWith(names: Names, n: string)
    requires GoodNames(names) && GoodName(n)
    ensures GoodNames(names.(symbols := names.symbols + {n})) && GoodNames(names.(data := names.data + {n}))
  {
  }

  lemma NameBeforeMarker(symbol: string, at: nat)
    requires symbol != [] ==> !IsBlank(symbol[0])
    requires '\n' !in symbol && Find(symbol, MARKER, 0) == Some(at)
    ensures GoodName(symbol[..at])
  {
    MarkerIsBlank(symbol, at);
    PrefixHasNoMarker(symbol, MARKER, at);
  }

  lemma MarkerIsBlank(s: string, at: nat)
    requires OccursAt(s, MARKER, at)
    ensures at < |s| && IsBlank(s[at])
  {
    assert s[at] == s[at..at + |MARKER|][0] == ' ';
  }

  /** Before the first marker there is none. */
  lemma PrefixHasNoMarker(s: string, m: string, at: nat)
    requires m != [] && Find(s, m, 0) == Some(at)
    ensures !Contains(s[..at], m)
  {
    match Find(s[..at], m, 0)
    case None =>
    case Some(i) =>
      assert s[..at][i..i + |m|] == s[i..i + |m|];
      assert OccursAt(s, m, i);
  }

  lemma {:induction false} MergeLinesKeepGood(names: Names, lines: seq<string>)
    requires GoodNames(names) && forall line :: line in lines ==> '\n' !in line
    ensures GoodNames(MergeLines(names, lines))
    decreases |lines|
  {
    if lines != [] {
      MergeLineKeepsGood(names, lines[0]);
      MergeLinesKeepGood(MergeLine(names, lines[0]), lines[1..]);
    }
  }

  /** Whatever a definition file contains, merging it keeps the invariant. */
  lemma MergeKeepsGood(names: Names, text: string)
    requires GoodNames(names)
    ensures GoodNames(MergeText(names, text))
  {
    LinesNewlineFree(text);
    MergeLinesKeepGood(names, Lines(text));
  }

  // ---------- reading what was written ----------

  /** The marker has no border, so no occurrence of it straddles the end of the name. */
  lemma MarkerHasNoBorder(n: string, k: nat)
    requires k < |n| && !Contains(n, MARKER)
    ensures !OccursAt(n + MARKER, MARKER, k)
  {
    if k + |MARKER| <= |n| {
      InsideName(n, MARKER, k);
    } else {
      MarkerOverlap(|n| - k);
      Straddles(n, MARKER, k);
    }
  }

  lemma InsideName(n: string, m: string, k: nat)
    requires k + |m| <= |n| && !Contains(n, m)
    ensures !OccursAt(n + m, m, k)
  {
    assert (n + m)[k..k + |m|] == n[k..k + |m|];
    assert !OccursAt(n, m, k);
  }

  /** An occurrence that starts in the name and ends after it makes the marker overlap itself. */
  lemma Straddles(n: string, m: string, k: nat)
    requires k < |n| < k + |m|
    ensures OccursAt(n + m, m, k) ==> m[|n| - k] == m[0] && (|n| - k + 1 < |m| ==> m[|n| - k + 1] == m[1])
  {
    var s, j := n + m, |n| - k;
    if OccursAt(s, m, k) {
      assert s[|n|] == s[k..k + |m|][j] == m[j];
      if j + 1 < |m| {
        assert s[|n| + 1] == s[k..k + |m|][j + 1] == m[j + 1];
      }
    }
  }

  lemma MarkerOverlap(j: nat)
    requires 0 < j < |MARKER|
    ensures MARKER[j] != MARKER[0] || (j + 1 < |MARKER| && MARKER[j + 1] != MARKER[1])
  {
    assert MARKER == [' ', '\t', ' ', 'D', 'A', 'T', 'A'];
  }

  lemma FirstMarker(n: string)
    requires !Contains(n, MARKER)
    ensures Find(n + MARKER, MARKER, 0) == Some(|n|)
  {
    forall k | 0 <= k < |n|
      ensures !OccursAt(n + MARKER, MARKER, k)
    {
      MarkerHasNoBorder(n, k);
    }
    FirstAtEnd(n, MARKER);
  }

  lemma FirstAtEnd(n: string, m: string)
    requires forall k :: 0 <= k < |n| ==> !OccursAt(n + m, m, k)
    ensures Find(n + m, m, 0) == Some(|n|)
  {
    assert (n + m)[|n|..|n| + |m|] == m;
    assert OccursAt(n + m, m, |n|);
  }

  lemma TabIsNoKeyword(s: string)
    ensures !HasPrefix("\t" + s, "LIBRARY") && !HasPrefix("\t" + s, "EXPORTS")
  {
    assert ("\t" + s)[0] == '\t';
  }

  lemma SkipOneTab(s: string)
    requires s != [] && !IsBlank(s[0])
    ensures SkipBlanks("\t" + s) == s
  {
    assert ("\t" + s)[1..] == s;
  }

  lemma MergeDataLine(names: Names, n: string)
    requires GoodName(n)
    ensures MergeLine(names, "\t" + (n + MARKER)) == names.(data := names.data + {n})
  {
    TabIsNoKeyword(n + MARKER);
    SkipOneTab(n + MARKER);
    FirstMarker(n);
    assert (n + MARKER)[..|n|] == n;
  }

  lemma MergeSymbolLine(names: Names, n: string)
    requires GoodName(n)
    ensures MergeLine(names, "\t" + n) == names.(symbols := names.symbols + {n})
  {
    TabIsNoKeyword(n);
    SkipOneTab(n);
  }

  lemma {:induction false} MergeSymbolLines(names: Names, symbols: seq<string>)
    requires forall n :: n in symbols ==> GoodName(n)
    ensures MergeText(names, SymbolLines(symbols)) == names.(symbols := names.symbols + ElementsOf(symbols))
    decreases |symbols|
  {
    if symbols != [] {
      var n, rest := symbols[0], SymbolLines(symbols[1..]);
      assert GoodName(n);
      assert '\n' !in "\t" + n;
      LinesCons("\t" + n, rest);
      MergeSymbolLine(names, n);
      MergeSymbolLines(names.(symbols := names.symbols + {n}), symbols[1..]);
      FirstAndRest(symbols);
    }
  }

  lemma FirstAndRest(s: seq<string>)
    requires s != []
    ensures ElementsOf(s) == {s[0]} + ElementsOf(s[1..])
  {
    assert s == [s[0]] + s[1..];
  }

  lemma {:induction false} MergeDataLines(names: Names, data: seq<string>, rest: string)
    requires forall n :: n in data ==> GoodName(n)
    ensures MergeText(names, DataLines(data) + rest) == MergeText(names.(data := names.data + ElementsOf(data)), rest)
    decreases |data|
  {
    if data == [] {
      assert DataLines(data) + rest == rest;
      assert names.data + ElementsOf(data) == names.data;
    } else {
      var n, more := data[0], DataLines(data[1..]);
      var line := "\t" + (n + MARKER);
      assert GoodName(n);
      assert '\n' !in line;
      assert DataLines(data) + rest == line + ("\n" + (more + rest));
      LinesCons(line, more + rest);
      MergeDataLine(names, n);
      MergeDataLines(names.(data := names.data + {n}), data[1..], rest);
      FirstAndRest(data);
      assert names.data + {n} + ElementsOf(data[1..]) == names.data + ElementsOf(data);
    }
  }

  /** The names that the DLL's name itself adds: those on its lines after the first. */
  function DllNames(dll: string): Names {
    if LineEnd(dll) == |dll| then NO_NAMES else MergeText(NO_NAMES, AfterLine(dll) + "\n" + "")
  }

  lemma MergeExports(names: Names, rest: string)
    ensures MergeText(names, "EXPORTS \n" + rest) == MergeText(names, rest)
  {
    assert "EXPORTS \n" + rest == "EXPORTS " + ("\n" + rest);
    LinesCons("EXPORTS ", rest);
    assert HasPrefix("EXPORTS ", "EXPORTS");
  }

  lemma MergeLibrary(names: Names, line: string, rest: string)
    requires '\n' !in line
    ensures MergeText(names, "LIBRARY " + line + ("\n" + rest)) == MergeText(names, rest)
  {
    var text := "LIBRARY " + line;
    assert '\n' !in text;
    LinesCons(text, rest);
    assert text[..7] == "LIBRARY";
  }

  lemma HeaderWithDll(dll: string, rest: string)
    requires dll != []
    ensures Header(dll) + rest == "LIBRARY " + dll + "\n" + ("EXPORTS \n" + rest)
  {
  }

  lemma MergeOneLineDll(names: Names, dll: string, exports: string)
    requires '\n' !in dll
    ensures MergeText(names, "LIBRARY " + dll + "\n" + exports) == MergeText(names, exports)
  {
    assert "LIBRARY " + dll + "\n" + exports == "LIBRARY " + dll + ("\n" + exports);
    MergeLibrary(names, dll, exports);
  }

  lemma MergeLongDll(names: Names, line: string, next: string, exports: string)
    requires '\n' !in line
    ensures MergeText(names, "LIBRARY " + (line + ("\n" + next)) + "\n" + exports)
         == MergeText(Union(names, MergeText(NO_NAMES, next + "\n" + "")), exports)
  {
    var more := next + "\n" + exports;
    assert "LIBRARY " + (line + ("\n" + next)) + "\n" + exports == "LIBRARY " + line + ("\n" + more);
    MergeLibrary(names, line, more);
    LinesConcat(next, exports);
    MergeLinesConcat(names, Lines(next + "\n" + ""), Lines(exports));
    MergeLinesUnion(names, Lines(next + "\n" + ""));
  }

  lemma UnionWithNothing(names: Names)
    ensures Union(names, NO_NAMES) == names
  {
  }

  lemma MergeHeader(names: Names, dll: string, rest: string)
    ensures MergeText(names, Header(dll) + rest) == MergeText(Union(names, DllNames(dll)), rest)
  {
    UnionWithNothing(names);
    var exports := "EXPORTS \n" + rest;
    if dll == [] {
      assert Header(dll) + rest == exports;
      MergeExports(names, rest);
    } else {
      HeaderWithDll(dll, rest);
      if LineEnd(dll) == |dll| {
        assert forall i :: 0 <= i < |dll| ==> dll[i] != '\n';
        MergeOneLineDll(names, dll, exports);
        MergeExports(names, rest);
      } else {
        var line, next := FirstLine(dll);
        MergeLongDll(names, line, next, exports);
        MergeExports(Union(names, DllNames(dll)), rest);
      }
    }
  }

  lemma ListedNames(names: set<string>, list: seq<string>)
    requires ElementsOf(list) == names
    ensures forall n :: n in list <==> n in names
  {
    assert forall n :: n in list <==> n in ElementsOf(list);
  }

  /**
   Merging a written file into any sets adds exactly the names it was written from, and
   those that a DLL name of several lines smuggles in.
   */
  lemma WriteThenMerge(into: Names, dll: string, names: Names)
    requires GoodNames(names)
    ensures MergeText(into, WriteNames(dll, names)) == Union(into, Union(names, DllNames(dll)))
  {
    var data, symbols := SortedList(names.data), SortedList(names.symbols);
    ListedNames(names.data, data);
    ListedNames(names.symbols, symbols);
    MergeHeader(into, dll, DataLines(data) + SymbolLines(symbols));
    var base := Union(into, DllNames(dll));
    MergeDataLines(base, data, SymbolLines(symbols));
    MergeSymbolLines(base.(data := base.data + ElementsOf(data)), symbols);
  }

  lemma UnionIsSame(names: Names, more: Names)
    ensures Union(NO_NAMES, Union(names, more)) == names <==> Within(more, names)
  {
  }

  /** The round trip through a file gives back the same two sets iff the DLL name adds nothing new. */
  lemma RoundTripExactly(dll: string, names: Names)
    requires GoodNames(names)
    ensures MergeText(NO_NAMES, WriteNames(dll, names)) == names <==> Within(DllNames(dll), names)
  {
    WriteThenMerge(NO_NAMES, dll, names);
    UnionIsSame(names, DllNames(dll));
  }

  /** For a DLL name of one line it always does. */
  lemma RoundTrip(dll: string, names: Names)
    requires GoodNames(names) && '\n' !in dll
    ensures MergeText(NO_NAMES, WriteNames(dll, names)) == names
  {
    assert LineEnd(dll) == |dll|;
    RoundTripExactly(dll, names);
  }

  /** It does not for a DLL name of two lines: from empty sets, the second line comes back as a symbol. */
  lemma TwoLineDllAddsSymbol(first: string, second: string)
    requires '\n' !in first && GoodName(second) && !HasPrefix(second, "LIBRARY") && !HasPrefix(second, "EXPORTS")
    ensures var dll := first + ("\n" + second);
      DllNames(dll) == Names({second}, {}) && MergeText(NO_NAMES, WriteNames(dll, NO_NAMES)) != NO_NAMES
  {
    var dll := first + ("\n" + second);
    LineEndOf(first, "\n" + second);
    assert AfterLine(dll) == second;
    MergeOneLine(NO_NAMES, second);
    assert SkipBlanks(second) == second;
    RoundTripExactly(dll, NO_NAMES);
    assert second in DllNames(dll).symbols;
  }

  lemma MergeOneLine(names: Names, line: string)
    requires '\n' !in line
    ensures MergeText(names, line + "\n" + "") == MergeLine(names, line)
  {
    OneLineConcat(line, "");
    var lines := [line];
    assert Lines(line + "\n" + "") == lines;
    assert lines[1..] == [] && MergeLines(MergeLine(names, line), []) == MergeLine(names, line);
  }
}
