/** What the lines of a definition file add to the sets, told from their text, and the text of a written file. */
module DefFiles {
  import opened CStrings
  import opened DefText
  import opened StringSets

  predicate OnlyBlanks(s: string) {
    forall i :: 0 <= i < |s| ==> s[i] == ' ' || s[i] == '\t'
  }

  /** A name as an entry begins with it: there is one, and it does not begin with a blank. */
  predicate StartsEntry(n: string) {
    n != [] && n[0] != ' ' && n[0] != '\t'
  }

  ghost predicate EntryLine(line: string, blanks: string, entry: string) {
    && line == blanks + entry && OnlyBlanks(blanks) && StartsEntry(entry)
    && !("LIBRARY" <= line) && !("EXPORTS" <= line)
  }

  /** Blanks and a name without the marker for data. */
  ghost predicate SymbolLine(line: string, n: string) {
    !HasPart(n, " \t DATA") && exists blanks :: EntryLine(line, blanks, n)
  }

  /** Blanks, a name without the marker, the marker, and anything. */
  ghost predicate DataLine(line: string, n: string) {
    !HasPart(n, " \t DATA") && n != [] && exists blanks, rest :: EntryLine(line, blanks, n + (" \t DATA" + rest))
  }

  lemma OneBlankMore(c: char, blanks: string, entry: string)
    requires IsBlank(c) && OnlyBlanks(blanks)
    ensures OnlyBlanks([c] + blanks) && [c] + blanks + entry == [c] + (blanks + entry)
    ensures SkipBlanks([c] + (blanks + entry)) == SkipBlanks(blanks + entry)
  {
    assert ([c] + (blanks + entry))[1..] == blanks + entry;
  }

  lemma {:induction false} SkipBlanksParts(line: string) returns (blanks: string)
    ensures line == blanks + SkipBlanks(line) && OnlyBlanks(blanks)
  {
    if line == [] || !IsBlank(line[0]) {
      return "";
    }
    var first, rest := line[0], line[1..];
    assert line == [first] + rest;
    var more := SkipBlanksParts(rest);
    OneBlankMore(first, more, SkipBlanks(rest));
    blanks := [first] + more;
  }

  lemma {:induction false} SkipsBlanks(blanks: string, entry: string)
    requires OnlyBlanks(blanks) && (entry != [] ==> StartsEntry(entry))
    ensures SkipBlanks(blanks + entry) == entry
  {
    if blanks == [] {
      assert blanks + entry == entry;
    } else {
      var first, rest := blanks[0], blanks[1..];
      assert blanks == [first] + rest;
      SkipsBlanks(rest, entry);
      OneBlankMore(first, rest, entry);
    }
  }

  /** An entry line has one way to be split into blanks and the entry. */
  lemma EntryIs(line: string, entry: string)
    requires !("LIBRARY" <= line) && !("EXPORTS" <= line)
    ensures (exists blanks :: EntryLine(line, blanks, entry)) <==> SkipBlanks(line) == entry && entry != []
  {
    if blanks :| EntryLine(line, blanks, entry) {
      SkipsBlanks(blanks, entry);
    }
    if SkipBlanks(line) == entry && entry != [] {
      var blanks := SkipBlanksParts(line);
      assert EntryLine(line, blanks, entry);
    }
  }

  /** The first marker of an entry stands behind a name without one. */
  lemma MarkerAt(entry: string, n: string)
    requires entry != [] ==> StartsEntry(entry)
    ensures (Find(entry, MARKER, 0).Some? && n == entry[..Find(entry, MARKER, 0).value]) <==>
      !HasPart(n, " \t DATA") && n != [] && exists rest: string :: entry == n + (" \t DATA" + rest)
  {
    ContainsMeaning(n, MARKER);
    match Find(entry, MARKER, 0)
    case Some(at) =>
      MarkerIsBlank(entry, at);
      PrefixHasNoMarker(entry, MARKER, at);
      ContainsMeaning(entry[..at], MARKER);
      assert entry == entry[..at] + (MARKER + entry[at + |MARKER|..]);
      if rest: string :| !HasPart(n, " \t DATA") && n != [] && entry == n + (" \t DATA" + rest) {
        FoundBehind(entry, n, rest);
      }
    case None =>
      if rest: string :| !HasPart(n, " \t DATA") && n != [] && entry == n + (" \t DATA" + rest) {
        FoundBehind(entry, n, rest);
      }
  }

  lemma FoundBehind(entry: string, n: string, rest: string)
    requires entry == n + (" \t DATA" + rest) && !Contains(n, MARKER)
    ensures Find(entry, MARKER, 0) == Some(|n|)
  {
    assert entry[|n|..|n| + |MARKER|] == MARKER;
    assert OccursAt(entry, MARKER, |n|);
    forall j | 0 <= j < |n|
      ensures !OccursAt(entry, MARKER, j)
    {
      MarkerHasNoBorder(n, j);
      assert j + |MARKER| <= |n + MARKER|;
      assert (n + MARKER)[j..j + |MARKER|] == entry[j..j + |MARKER|];
    }
  }

  lemma LineAdds(names: Names, line: string)
    ensures forall n :: n in MergeLine(names, line).symbols <==> n in names.symbols || SymbolLine(line, n)
    ensures forall n :: n in MergeLine(names, line).data <==> n in names.data || DataLine(line, n)
  {
    if !("LIBRARY" <= line) && !("EXPORTS" <= line) {
      forall n
        ensures SymbolLine(line, n) <==> GivesSymbol(SkipBlanks(line), n)
        ensures DataLine(line, n) <==> GivesData(SkipBlanks(line), n)
      {
        EntryGives(line, n);
      }
    }
  }

  predicate GivesSymbol(entry: string, n: string) {
    Find(entry, MARKER, 0).None? && n == entry && n != []
  }

  predicate GivesData(entry: string, n: string) {
    match Find(entry, MARKER, 0)
    case None => false
    case Some(at) => n == entry[..at]
  }

  lemma EntryGives(line: string, n: string)
    requires !("LIBRARY" <= line) && !("EXPORTS" <= line)
    ensures SymbolLine(line, n) <==> GivesSymbol(SkipBlanks(line), n)
    ensures DataLine(line, n) <==> GivesData(SkipBlanks(line), n)
  {
    var entry := SkipBlanks(line);
    EntryIs(line, n);
    ContainsMeaning(n, MARKER);
    MarkerAt(entry, n);
    DataEntry(line, n, entry);
  }

  lemma DataEntry(line: string, n: string, entry: string)
    requires !("LIBRARY" <= line) && !("EXPORTS" <= line) && entry == SkipBlanks(line)
    ensures (exists blanks, rest :: EntryLine(line, blanks, n + (" \t DATA" + rest))) <==>
      exists rest: string :: entry == n + (" \t DATA" + rest)
  {
    if blanks, rest :| EntryLine(line, blanks, n + (" \t DATA" + rest)) {
      EntryIs(line, n + (" \t DATA" + rest));
    }
    if rest: string :| entry == n + (" \t DATA" + rest) {
      EntryIs(line, n + (" \t DATA" + rest));
    }
  }

  lemma {:induction false} LinesAdd(names: Names, lines: seq<string>)
    ensures forall n :: n in MergeLines(names, lines).symbols <==>
      n in names.symbols || exists line :: line in lines && SymbolLine(line, n)
    ensures forall n :: n in MergeLines(names, lines).data <==>
      n in names.data || exists line :: line in lines && DataLine(line, n)
    decreases |lines|
  {
    if lines != [] {
      assert forall line :: line in lines <==> line == lines[0] || line in lines[1..];
      LineAdds(names, lines[0]);
      LinesAdd(MergeLine(names, lines[0]), lines[1..]);
    }
  }

  /** Merging a file adds the names of its symbol lines and of its data lines, each to its own set, and nothing else. */
  lemma MergeMeaning(names: Names, text: string)
    ensures forall n :: n in MergeText(names, text).symbols <==>
      n in names.symbols || exists line :: line in Lines(text) && SymbolLine(line, n)
    ensures forall n :: n in MergeText(names, text).data <==>
      n in names.data || exists line :: line in Lines(text) && DataLine(line, n)
  {
    LinesAdd(names, Lines(text));
  }

  // ---------- the text of a file ----------

  lemma OneName(n: string)
    ensures SortedList({n}) == [n]
  {
    IncreasingUnique(SortedList({n}), [n]);
  }

  /** A file with one variable and one function. */
  lemma WrittenFile(dll: string, variable: string, code: string)
    requires dll != []
    ensures WriteNames(dll, Names({code}, {variable}))
         == "LIBRARY " + dll + "\nEXPORTS \n\t" + variable + " \t DATA\n\t" + code + "\n"
  {
    OneName(code);
    OneName(variable);
    OneLineEach(variable, code);
    assert Header(dll) == "LIBRARY " + dll + "\n" + "EXPORTS \n";
  }

  lemma OneLineEach(variable: string, code: string)
    ensures DataLines([variable]) == "\t" + variable + " \t DATA\n"
    ensures SymbolLines([code]) == "\t" + code + "\n"
  {
    assert [variable][1..] == [] && [code][1..] == [];
    assert DataLines([variable]) == "\t" + (variable + " \t DATA") + ("\n" + []);
    assert SymbolLines([code]) == "\t" + code + ("\n" + []);
  }
}
