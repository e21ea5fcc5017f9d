/** The static library validator: it parses nm output, sorts the symbols and reports the duplicates. */
module SymbolValidator {
  import opened CStrings
  import opened Sorting
  import opened SymbolReport
  import opened TextBuffer

  class SymbolList {
    var entries: array<Symbol>
    var len: nat

    ghost predicate Valid()
      reads this
    {
      len <= entries.Length
    }

    ghost function List(): (s: seq<Symbol>)
      reads this, entries
      requires Valid()
      ensures |s| == len
    {
      entries[..len]
    }

    constructor ()
      ensures Valid() && fresh(entries) && List() == []
    {
      entries := new Symbol[0];
      len := 0;
    }

    method Add(symbol: Symbol)
      requires Valid()
      modifies this, entries
      ensures Valid() && List() == old(List()) + [symbol]
      ensures entries == old(entries) || fresh(entries)
    {
      if len == entries.Length {
        var cap := if entries.Length == 0 then 64 else entries.Length * 2;
        var grown := new Symbol[cap];
        forall i | 0 <= i < len {
          grown[i] := entries[i];
        }
        entries := grown;
      }
      entries[len] := symbol;
      len := len + 1;
    }
  }

  method MemChr(s: string, c: char, from: nat) returns (at: Option<nat>)
    requires from <= |s|
    ensures at == FindByte(s, c, from)
  {
    var p := from;
    while p < |s| && s[p] != c
      invariant from <= p <= |s| && FindByte(s, c, p) == FindByte(s, c, from)
    {
      p := p + 1;
    }
    at := if p < |s| then Some(p) else None;
  }

  /** The part of a line after the object's closing bracket. */
  method ParseRest(line: string, close: nat) returns (found: Option<(string, char)>)
    requires close < |line|
    ensures found == ParseAfterObject(line, close)
  {
    var end := |line|;
    if close + 2 >= end || line[close + 1] != ':' || line[close + 2] != ' ' {
      return None;
    }
    var symbol := SkipSpaceFrom(line, close + 3);
    if symbol == end {
      return None;
    }
    var symbolEnd := SkipWordFrom(line, symbol);
    var p := SkipSpaceFrom(line, symbolEnd);
    if p == end || p + 1 == end || !IsSpace(line[p + 1]) {
      return None;
    }
    var kind := line[p];
    if !ShouldKeepType(kind) {
      return None;
    }
    return Some((line[symbol..symbolEnd], kind));
  }

  /** Walks one line and adds the symbol it defines, if any. */
  method ParseNmLine(line: string, out: SymbolList)
    requires out.Valid()
    modifies out, out.entries
    ensures out.Valid() && (out.entries == old(out.entries) || fresh(out.entries))
    ensures out.List() == old(out.List()) + Found(line)
  {
    assert out.List() + [] == out.List();
    var open := MemChr(line, '[', 0);
    if open.None? {
      return;
    }
    var close := MemChr(line, ']', open.value + 1);
    if close.None? {
      return;
    }
    var found := ParseRest(line, close.value);
    if found.Some? {
      out.Add(Symbol(found.value.0, line[open.value + 1..close.value], found.value.1));
    }
  }

  function Found(line: string): seq<Symbol> {
    match ParseLine(line)
    case None => []
    case Some(e) => [e]
  }

  /** Splits the output at newlines, parsing each line, the one after the last newline included. */
  method ParseNmOutput(text: string) returns (list: SymbolList)
    ensures fresh(list) && fresh(list.entries) && list.Valid()
    ensures list.List() == KeptEntries(Segments(text, 0, 0))
  {
    list := new SymbolList();
    ghost var all := KeptEntries(Segments(text, 0, 0));
    var lineStart := 0;
    var i := 0;
    NothingYet(text, list.List());
    while i <= |text|
      invariant 0 <= lineStart <= i <= |text| + 1
      invariant fresh(list) && fresh(list.entries) && list.Valid()
      invariant Remaining(all, list.List(), text, lineStart, i)
      decreases |text| + 1 - i
    {
      ghost var before := list.List();
      RemainingStep(all, before, text, lineStart, i);
      if i == |text| || text[i] == '\n' {
        ParseNmLine(text[lineStart..i], list);
        lineStart := i + 1;
      }
      i := i + 1;
    }
    NothingRemains(all, list.List(), text, lineStart, i);
  }

  lemma NothingYet(text: string, found: seq<Symbol>)
    ensures found == [] ==> Remaining(KeptEntries(Segments(text, 0, 0)), found, text, 0, 0)
  {
  }

  /** What is still to be kept when the scan is at i, in a line begun at lineStart. */
  ghost function KeptFrom(text: string, lineStart: nat, i: nat): seq<Symbol>
    requires lineStart <= i <= |text| + 1
  {
    if i > |text| then [] else KeptEntries(Segments(text, lineStart, i))
  }

  /** What has been found and what is still to be kept is everything. */
  ghost predicate Remaining(all: seq<Symbol>, found: seq<Symbol>, text: string, lineStart: nat, i: nat) {
    lineStart <= i <= |text| + 1 && found + KeptFrom(text, lineStart, i) == all
  }

  lemma NothingRemains(all: seq<Symbol>, found: seq<Symbol>, text: string, lineStart: nat, i: nat)
    requires Remaining(all, found, text, lineStart, i) && i > |text|
    ensures found == all
  {
    assert found + [] == found;
  }

  lemma RemainingStep(all: seq<Symbol>, found: seq<Symbol>, text: string, lineStart: nat, i: nat)
    requires Remaining(all, found, text, lineStart, i) && i <= |text|
    ensures if i == |text| || text[i] == '\n' then Remaining(all, found + Found(text[lineStart..i]), text, i + 1, i + 1)
            else Remaining(all, found, text, lineStart, i + 1)
  {
    KeptFromStep(text, lineStart, i, found);
  }

  lemma KeptFromStep(text: string, lineStart: nat, i: nat, before: seq<Symbol>)
    requires lineStart <= i <= |text|
    ensures if i == |text| || text[i] == '\n'
      then before + Found(text[lineStart..i]) + KeptFrom(text, i + 1, i + 1) == before + KeptFrom(text, lineStart, i)
      else KeptFrom(text, lineStart, i + 1) == KeptFrom(text, lineStart, i)
  {
    if i == |text| {
      assert text[lineStart..i] == text[lineStart..];
      KeptStep(before, text[lineStart..i], []);
      assert [text[lineStart..i]] + [] == [text[lineStart..i]];
    } else if text[i] == '\n' {
      KeptStep(before, text[lineStart..i], Segments(text, i + 1, i + 1));
    }
  }

  lemma KeptStep(before: seq<Symbol>, line: string, rest: seq<string>)
    ensures before + KeptEntries([line] + rest) == before + Found(line) + KeptEntries(rest)
  {
    assert ([line] + rest)[1..] == rest;
  }

  method GroupFrom(entries: seq<Symbol>, i: nat) returns (j: nat)
    requires i < |entries|
    ensures j == GroupEnd(entries, i, i + 1)
  {
    j := i + 1;
    while j < |entries| && |entries[i].name| == |entries[j].name| && entries[i].name == entries[j].name
      invariant i < j <= |entries| && GroupEnd(entries, i, j) == GroupEnd(entries, i, i + 1)
    {
      j := j + 1;
    }
  }

  /** Writes the report lines of every group of two or more. */
  method GroupDuplicates(entries: seq<Symbol>, report: Buffer)
    requires report.Valid() && report.Contents() == ""
    modifies report.Repr
    ensures report.Valid() && report.Contents() == ReportText(Duplicates(entries, 0))
  {
    ghost var all := ReportText(Duplicates(entries, 0));
    assert "" + all == all;
    var i := 0;
    while i < |entries|
      invariant i <= |entries| && report.Valid() && fresh(report.Repr - old(report.Repr))
      invariant report.Contents() + ReportText(Duplicates(entries, i)) == all
    {
      var j := GroupFrom(entries, i);
      GroupStep(report.Contents(), entries, i);
      if j - i >= 2 {
        ReportGroup(entries, i, j, report);
      }
      i := j;
    }
    assert report.Contents() + "" == report.Contents();
  }

  lemma GroupStep(before: string, entries: seq<Symbol>, i: nat)
    requires i < |entries|
    ensures var j := GroupEnd(entries, i, i + 1);
      (if j - i >= 2 then before + ReportText(entries[i..j]) else before) + ReportText(Duplicates(entries, j))
      == before + ReportText(Duplicates(entries, i))
  {
    var j := GroupEnd(entries, i, i + 1);
    var rest := Duplicates(entries, j);
    if j - i >= 2 {
      ReportConcat(entries[i..j], rest);
      Reassociate(before, ReportText(entries[i..j]), ReportText(rest));
    } else {
      assert [] + rest == rest;
    }
  }

  method ReportEntry(e: Symbol, report: Buffer)
    requires report.Valid()
    modifies report.Repr
    ensures report.Valid() && fresh(report.Repr - old(report.Repr))
    ensures report.Contents() == old(report.Contents()) + ReportLine(e)
  {
    ghost var before := report.Contents();
    var kind := [e.kind, ' '];
    report.Append(e.member);
    report.Append(": ");
    report.Append(kind);
    report.Append(e.name);
    report.Append("\n");
    LineAppended(before, e.member, ": ", kind, e.name, "\n");
  }

  lemma LineAppended(before: string, a: string, b: string, c: string, d: string, e: string)
    ensures before + a + b + c + d + e == before + (a + b + c + d + e)
  {
  }

  method ReportGroup(entries: seq<Symbol>, i: nat, j: nat, report: Buffer)
    requires i <= j <= |entries| && report.Valid()
    modifies report.Repr
    ensures report.Valid() && fresh(report.Repr - old(report.Repr))
    ensures report.Contents() == old(report.Contents()) + ReportText(entries[i..j])
  {
    ghost var all := report.Contents() + ReportText(entries[i..j]);
    var k := i;
    while k < j
      invariant i <= k <= j && report.Valid() && fresh(report.Repr - old(report.Repr))
      invariant report.Contents() + ReportText(entries[k..j]) == all
    {
      assert entries[k..j][0] == entries[k] && entries[k..j][1..] == entries[k + 1..j];
      Reassociate(report.Contents(), ReportLine(entries[k]), ReportText(entries[k + 1..j]));
      ReportEntry(entries[k], report);
      k := k + 1;
    }
  }

  lemma {:induction false} ReportConcat(a: seq<Symbol>, b: seq<Symbol>)
    ensures ReportText(a + b) == ReportText(a) + ReportText(b)
  {
    if a == [] {
      assert a + b == b;
    } else {
      ReportConcat(a[1..], b);
      var first, ra, rb := ReportLine(a[0]), ReportText(a[1..]), ReportText(b);
      assert (a + b)[1..] == a[1..] + b && (a + b)[0] == a[0];
      Reassociate(first, ra, rb);
    }
  }

  /**
   The whole check of a library's nm output. It passes exactly when all kept symbols are
   distinct, and otherwise reports the duplicates of some sorted order of them.
   */
  method ValidateLibrary(text: string) returns (passed: bool, report: string, ghost sorted: seq<Symbol>)
    ensures SortedPermutation(CompareSymbols, KeptEntries(Segments(text, 0, 0)), sorted)
    ensures report == ReportText(Duplicates(sorted, 0))
    ensures passed <==> DistinctNames(KeptEntries(Segments(text, 0, 0)))
  {
    var list := ParseNmOutput(text);
    ghost var kept := list.List();
    CompareSymbolsIsTotal();
    QSort(list.entries, list.len, CompareSymbols);
    sorted := list.List();
    var block := new Buffer();
    GroupDuplicates(list.entries[..list.len], block);
    report := block.data[..block.length];
    passed := block.length == 0;
    ReportEmptyMeaning(kept, sorted);
  }
}
