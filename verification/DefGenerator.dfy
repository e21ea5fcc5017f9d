/**
 The generator at work: files are read line by line, names are kept in the two sorted
 string sets, and the result is written out. Each method is proved against the functions on
 names.
 */
module DefGenerator {
  import opened CStrings
  import opened StringSets
  import opened DefText
  import opened NmSymbols

  // ---------- files ----------

  /** A file being read: its bytes, and how far reading has come. */
  class TextFile {
    const data: string
    var position: nat

    ghost predicate Valid()
      reads this
    {
      position <= |data|
    }

    ghost function Rest(): string
      reads this
      requires Valid()
    {
      data[position..]
    }

    constructor (data: string)
      ensures Valid() && Rest() == data
    {
      this.data := data;
      position := 0;
    }

    /** Copies into a larger buffer, 256 and then doubling, when the byte and a terminator would not fit. */
    method Grow(line: array<char>, length: nat) returns (grown: array<char>)
      requires length <= line.Length && (line.Length == 0 || line.Length >= 256)
      ensures length + 1 < grown.Length && grown.Length >= 256 && grown[..length] == line[..length]
      ensures grown == line || fresh(grown)
    {
      if length + 1 < line.Length {
        return line;
      }
      grown := new char[if line.Length == 0 then 256 else line.Length * 2];
      forall i | 0 <= i < length {
        grown[i] := line[i];
      }
    }

    /** Reads up to and including a newline, or to the end of the file. */
    method ReadBytes() returns (buffer: array<char>, length: nat, newline: bool)
      requires Valid()
      modifies this
      ensures Valid() && fresh(buffer) && length <= buffer.Length && length <= |old(Rest())|
      ensures buffer[..length] == old(Rest())[..length] && '\n' !in old(Rest())[..length]
      ensures position == old(position) + length + if newline then 1 else 0
      ensures if newline then length < |old(Rest())| && old(Rest())[length] == '\n' else length == |old(Rest())|
    {
      ghost var rest, start := Rest(), position;
      buffer := new char[0];
      length, newline := 0, false;
      while position < |data|
        invariant start <= position == start + length <= |data| && fresh(buffer)
        invariant length <= buffer.Length && (buffer.Length == 0 || buffer.Length >= 256)
        invariant buffer[..length] == rest[..length] && '\n' !in rest[..length]
      {
        var character := data[position];
        position := position + 1;
        buffer := Grow(buffer, length);
        if character == '\n' {
          newline := true;
          return;
        }
        buffer[length] := character;
        length := length + 1;
        assert rest[..length] == rest[..length - 1] + [character];
      }
    }

    /** The next line without its newline, or nothing at the end of the file. */
    method ReadLine() returns (line: Option<string>)
      requires Valid()
      modifies this
      ensures Valid()
      ensures old(Rest()) == [] ==> line == None && Rest() == []
      ensures old(Rest()) != [] ==>
        line == Some(old(Rest())[..LineEnd(old(Rest()))]) && Rest() == AfterLine(old(Rest()))
    {
      ghost var rest := Rest();
      var buffer, length, newline := ReadBytes();
      LineEndOf(rest[..length], rest[length..]);
      assert rest == rest[..length] + rest[length..];
      if !newline && length == 0 {
        return None;
      }
      return Some(buffer[..length]);
    }
  }

  // ---------- the two sets ----------

  class SymbolSets {
    const symbols: StringSet
    const dataSymbols: StringSet
    ghost var Repr: set<object>

    ghost predicate Valid()
      reads this, Repr
      ensures Valid() ==> this in Repr
    {
      && this in Repr && symbols in Repr && dataSymbols in Repr
      && symbols.Repr <= Repr && dataSymbols.Repr <= Repr
      && this !in symbols.Repr && this !in dataSymbols.Repr && symbols.Repr !! dataSymbols.Repr
      && symbols.Valid() && dataSymbols.Valid()
    }

    ghost function Contents(): Names
      reads this, Repr
      requires Valid()
    {
      Names(symbols.Elements(), dataSymbols.Elements())
    }

    constructor ()
      ensures Valid() && fresh(Repr) && Contents() == NO_NAMES
    {
      symbols := new StringSet();
      dataSymbols := new StringSet();
      new;
      Repr := {this} + symbols.Repr + dataSymbols.Repr;
    }

    method InsertSymbol(n: string)
      requires Valid()
      modifies Repr
      ensures Valid() && fresh(Repr - old(Repr))
      ensures Contents() == AddExport(old(Contents()), Code(n))
    {
      symbols.Insert(n);
      Repr := Repr + symbols.Repr;
    }

    method InsertData(n: string)
      requires Valid()
      modifies Repr
      ensures Valid() && fresh(Repr - old(Repr))
      ensures Contents() == AddExport(old(Contents()), Data(n))
    {
      dataSymbols.Insert(n);
      Repr := Repr + dataSymbols.Repr;
    }

    // ---------- merging a definition file ----------

    method StripBlanks(line: string) returns (symbol: string)
      ensures symbol == SkipBlanks(line)
    {
      symbol := line;
      while symbol != [] && IsBlank(symbol[0])
        invariant SkipBlanks(symbol) == SkipBlanks(line)
        decreases |symbol|
      {
        symbol := symbol[1..];
      }
    }

    method MergeDefinitionLine(line: string)
      requires Valid()
      modifies Repr
      ensures Valid() && fresh(Repr - old(Repr))
      ensures Contents() == MergeLine(old(Contents()), line)
    {
      if HasPrefix(line, "LIBRARY") || HasPrefix(line, "EXPORTS") {
        return;
      }
      var symbol := StripBlanks(line);
      match Find(symbol, MARKER, 0) {
        case Some(at) =>
          InsertData(symbol[..at]);
        case None =>
          if symbol != [] {
            InsertSymbol(symbol);
          }
      }
    }

    method MergeDefinitionFile(text: string)
      requires Valid()
      modifies Repr
      ensures Valid() && fresh(Repr - old(Repr))
      ensures Contents() == MergeText(old(Contents()), text)
    {
      var file := new TextFile(text);
      ghost var merged := MergeText(Contents(), text);
      while true
        invariant Valid() && fresh(Repr - old(Repr)) && fresh(file) && file !in Repr && file.Valid()
        invariant MergeText(Contents(), file.Rest()) == merged
        decreases |file.Rest()|
      {
        ghost var rest := file.Rest();
        var line := file.ReadLine();
        if line.None? {
          break;
        }
        assert Lines(rest) == [line.value] + Lines(AfterLine(rest));
        MergeDefinitionLine(line.value);
      }
    }

    // ---------- writing ----------

    /** Writes the file for the sets: which list a name is in decides how its line looks. */
    method WriteDefFile(dll: string) returns (text: string)
      requires Valid()
      ensures text == WriteNames(dll, Contents())
    {
      ghost var data, code := dataSymbols.List(), symbols.List();
      text := "";
      if dll != [] {
        text := "LIBRARY " + dll + "\n";
      }
      text := text + "EXPORTS \n";
      assert text == Header(dll);
      ghost var whole := WriteText(dll, data, code);
      var index := 0;
      while index < dataSymbols.count
        invariant index <= dataSymbols.count
        invariant text + (DataLines(data[index..]) + SymbolLines(code)) == whole
      {
        DataStep(text, data, index, SymbolLines(code));
        text := text + ("\t" + dataSymbols.values[index] + " \t DATA\n");
        index := index + 1;
      }
      assert text + ("" + SymbolLines(code)) == text + SymbolLines(code);
      index := 0;
      assert code[0..] == code;
      while index < symbols.count
        invariant index <= symbols.count
        invariant text + SymbolLines(code[index..]) == whole
      {
        SymbolStep(text, code, index);
        text := text + ("\t" + symbols.values[index] + "\n");
        index := index + 1;
      }
      assert text + "" == text;
      IncreasingUnique(data, SortedList(ElementsOf(data)));
      IncreasingUnique(code, SortedList(ElementsOf(code)));
    }

    // ---------- reading an nm listing ----------

    method AddNmSymbol(name: string, kind: char, abi: Abi)
      requires Valid()
      modifies Repr
      ensures Valid() && fresh(Repr - old(Repr))
      ensures Contents() == AddExport(old(Contents()), ExportOf(name, kind, abi))
    {
      match abi {
        case Gnu =>
          if GnuSkips(name, kind) {
            return;
          }
          if kind == 'T' {
            InsertSymbol(name);
          } else {
            InsertData(name);
          }
        case Msvc =>
          var symbol := MakeNormalized(name);
          if MsvcSkips(symbol, kind) {
            return;
          }
          if kind == 'B' || kind == 'D' || kind == 'G' || kind == 'S' {
            InsertData(symbol);
          } else {
            InsertSymbol(symbol);
          }
      }
    }

    /** One defined symbol: its import pointer, if it is one, and its export. */
    method AddDefined(name: string, kind: char, abi: Abi, imports: StringSet)
      requires Valid() && imports.Valid() && imports.Repr !! Repr
      modifies Repr, imports.Repr
      ensures Valid() && imports.Valid() && imports.Repr !! Repr
      ensures fresh(Repr - old(Repr)) && fresh(imports.Repr - old(imports.Repr))
      ensures NmState(Contents(), imports.Elements()) ==
        AddSymbol(old(NmState(Contents(), imports.Elements())), name, kind, abi)
    {
      if DefinesImport(name, kind, abi) {
        imports.Insert(name[|IMPORT_PREFIX|..]);
      }
      AddNmSymbol(name, kind, abi);
    }

    method ParseNmOutput(output: string, abi: Abi, imports: StringSet) returns (ok: bool)
      requires Valid() && imports.Valid() && imports.Repr !! Repr
      modifies Repr, imports.Repr
      ensures Valid() && imports.Valid() && imports.Repr !! Repr
      ensures fresh(Repr - old(Repr)) && fresh(imports.Repr - old(imports.Repr))
      ensures var after := ReadLines(old(NmState(Contents(), imports.Elements())), Lines(output), abi);
        if ok then after == Some(NmState(Contents(), imports.Elements())) else after == None
    {
      var file := new TextFile(output);
      ghost var after := ReadLines(NmState(Contents(), imports.Elements()), Lines(output), abi);
      var more := true;
      ok := true;
      while more && ok
        invariant Valid() && imports.Valid() && imports.Repr !! Repr
        invariant fresh(Repr - old(Repr)) && fresh(imports.Repr - old(imports.Repr))
        invariant fresh(file) && file !in Repr && file !in imports.Repr && file.Valid()
        invariant !more ==> ok && file.Rest() == []
        invariant after ==
          if ok then ReadLines(NmState(Contents(), imports.Elements()), Lines(file.Rest()), abi) else None
        decreases |file.Rest()|, more
      {
        more, ok := NextNmLine(file, abi, imports);
      }
    }

    /** Reads and handles one line of a listing, if there is one. */
    method NextNmLine(file: TextFile, abi: Abi, imports: StringSet) returns (more: bool, ok: bool)
      requires Valid() && imports.Valid() && imports.Repr !! Repr
      requires file.Valid() && file !in Repr && file !in imports.Repr
      modifies Repr, imports.Repr, file
      ensures Valid() && imports.Valid() && imports.Repr !! Repr
      ensures fresh(Repr - old(Repr)) && fresh(imports.Repr - old(imports.Repr)) && file.Valid()
      ensures if more then |file.Rest()| < |old(file.Rest())| else ok && file.Rest() == old(file.Rest()) == []
      ensures ReadLines(old(NmState(Contents(), imports.Elements())), Lines(old(file.Rest())), abi)
           == if ok then ReadLines(NmState(Contents(), imports.Elements()), Lines(file.Rest()), abi) else None
    {
      ghost var rest := file.Rest();
      var line := file.ReadLine();
      if line.None? {
        return false, true;
      }
      ReadLinesOfText(NmState(Contents(), imports.Elements()), rest, abi);
      more := true;
      ok := AddNmLine(line.value, abi, imports);
    }

    /** One line of a listing. */
    method AddNmLine(line: string, abi: Abi, imports: StringSet) returns (ok: bool)
      requires Valid() && imports.Valid() && imports.Repr !! Repr
      modifies Repr, imports.Repr
      ensures Valid() && imports.Valid() && imports.Repr !! Repr
      ensures fresh(Repr - old(Repr)) && fresh(imports.Repr - old(imports.Repr))
      ensures ReadLine(old(NmState(Contents(), imports.Elements())), line, abi)
           == if ok then Some(NmState(Contents(), imports.Elements())) else None
    {
      var parsed := ReadNmLine(line);
      match parsed {
        case Malformed => ok := false;
        case Blank => ok := true;
        case Defined(name, kind) =>
          AddDefined(name, kind, abi, imports);
          ok := true;
      }
    }

    /** Removes every name whose import pointer was defined from both sets. */
    method RemoveImportedSymbols(imports: StringSet)
      requires Valid() && imports.Valid() && imports.Repr !! Repr
      modifies Repr
      ensures Valid() && Repr == old(Repr)
      ensures Contents() == RemoveImported(NmState(old(Contents()), imports.Elements()))
    {
      RemoveAll(symbols, imports);
      RemoveAll(dataSymbols, imports);
    }

    /** The listing is read to its end before anything is removed; a malformed one is refused. */
    method DiscoverObjectSymbols(output: string, abi: Abi) returns (ok: bool)
      requires Valid()
      modifies Repr
      ensures Valid() && fresh(Repr - old(Repr))
      ensures ok <==> Discover(old(Contents()), output, abi).Some?
      ensures ok ==> Discover(old(Contents()), output, abi) == Some(Contents())
    {
      var imports := new StringSet();
      ok := ParseNmOutput(output, abi, imports);
      if ok {
        RemoveImportedSymbols(imports);
      }
    }
  }

  lemma DataStep(text: string, data: seq<string>, index: nat, rest: string)
    requires index < |data|
    ensures text + ("\t" + data[index] + " \t DATA\n") + (DataLines(data[index + 1..]) + rest) ==
      text + (DataLines(data[index..]) + rest)
  {
    var n, more := data[index], DataLines(data[index + 1..]);
    assert data[index..][0] == n && data[index..][1..] == data[index + 1..];
    assert " \t DATA\n" == MARKER + "\n";
    assert "\t" + n + (MARKER + "\n") + more == "\t" + (n + MARKER) + ("\n" + more);
  }

  lemma SymbolStep(text: string, symbols: seq<string>, index: nat)
    requires index < |symbols|
    ensures text + ("\t" + symbols[index] + "\n") + SymbolLines(symbols[index + 1..]) ==
      text + SymbolLines(symbols[index..])
  {
    var n, more := symbols[index], SymbolLines(symbols[index + 1..]);
    assert symbols[index..][0] == n && symbols[index..][1..] == symbols[index + 1..];
    assert "\t" + n + "\n" + more == "\t" + n + ("\n" + more);
  }

  method RemoveAll(list: StringSet, imports: StringSet)
    requires list.Valid() && imports.Valid() && imports.Repr !! list.Repr
    modifies list.Repr
    ensures list.Valid() && list.Repr == old(list.Repr)
    ensures list.Elements() == old(list.Elements()) - imports.Elements()
  {
    ghost var all, gone := list.Elements(), imports.Elements();
    var index := 0;
    while index < list.count
      invariant list.Valid() && list.Repr == old(list.Repr) && imports.Valid() && imports.Elements() == gone
      invariant index <= list.count
      invariant forall i :: 0 <= i < index ==> list.values[i] !in gone
      invariant list.Elements() - gone == all - gone
      decreases list.count - index
    {
      var imported := imports.Contains(list.values[index]);
      if imported {
        list.RemoveAt(index);
      } else {
        index := index + 1;
      }
    }
  }

  /** Scans forward by strstr, two bytes past each separator found; separators do not overlap, so none is missed. */
  method FindSeparator(line: string) returns (separator: Option<nat>)
    ensures separator == LastSeparator(line, |line|)
  {
    separator := None;
    var candidate := 0;
    while true
      invariant candidate <= |line|
      invariant separator.Some? ==> separator.value + 2 <= candidate && OccursAt(line, SEPARATOR, separator.value)
      invariant forall j: int :: j < candidate && OccursAt(line, SEPARATOR, j) ==>
        separator.Some? && j <= separator.value
      decreases |line| - candidate
    {
      var next := Find(line, SEPARATOR, candidate);
      if next.None? {
        break;
      }
      SeparatorChars(line, next.value);
      SeparatorChars(line, next.value + 1);
      separator := next;
      candidate := next.value + 2;
    }
    if separator.Some? {
      UniqueLast(line, separator.value);
    }
  }

  /** Trims white space at both ends by moving a pointer from each. */
  method Trim(value: string) returns (trimmed: string)
    ensures exists before, after :: value == before + trimmed + after && AllSpace(before) && AllSpace(after)
    ensures trimmed != [] ==> !IsSpace(trimmed[0]) && !IsSpace(trimmed[|trimmed| - 1])
    ensures trimmed == [] <==> AllSpace(value)
  {
    var start := SkipSpaceFrom(value, 0);
    var end := |value|;
    while end != start && IsSpace(value[end - 1])
      invariant start <= end <= |value|
      invariant forall i :: end <= i < |value| ==> IsSpace(value[i])
    {
      end := end - 1;
    }
    trimmed := value[start..end];
    SpaceAround(value, start, end, trimmed);
  }

  lemma SpaceAround(value: string, start: nat, end: nat, trimmed: string)
    requires start <= end <= |value| && trimmed == value[start..end]
    requires forall i :: 0 <= i < start || end <= i < |value| ==> IsSpace(value[i])
    requires start < end ==> !IsSpace(value[start]) && !IsSpace(value[end - 1])
    ensures exists before, after :: value == before + trimmed + after && AllSpace(before) && AllSpace(after)
    ensures trimmed != [] ==> !IsSpace(trimmed[0]) && !IsSpace(trimmed[|trimmed| - 1])
    ensures trimmed == [] <==> AllSpace(value)
  {
    var before, after := value[..start], value[end..];
    assert AllSpace(before) && AllSpace(after);
    assert value == before + trimmed + after;
  }

  method ReadNmLine(line: string) returns (parsed: NmLine)
    ensures parsed == NmSymbols.ParseLine(line)
  {
    var separator := FindSeparator(line);
    if separator.None? {
      var trimmed := Trim(line);
      return if trimmed == [] then Blank else Malformed;
    }
    var symbol := separator.value + 2;
    var space := SkipWordFrom(line, symbol);
    if space == |line| {
      return Malformed;
    }
    var at := SkipSpaceFrom(line, space + 1);
    return Defined(line[symbol..space], if at < |line| then line[at] else '\0');
  }

  // ---------- stdcall names ----------

  /** strrchr. */
  method FindLast(symbol: array<char>, length: nat, c: char) returns (at: Option<nat>)
    requires length <= symbol.Length
    ensures at == LastIndex(symbol[..length], c, length)
  {
    var i := length;
    while i > 0 && symbol[i - 1] != c
      invariant 0 <= i <= length && LastIndex(symbol[..length], c, i) == LastIndex(symbol[..length], c, length)
    {
      i := i - 1;
    }
    at := if i > 0 then Some(i - 1) else None;
  }

  /** Undecorates a name within the array that holds it: cut at the sign, then moved one place down. */
  method NormalizeInPlace(symbol: array<char>, length: nat) returns (newLength: nat)
    requires length < symbol.Length && symbol[length] == '\0'
    modifies symbol
    ensures newLength <= length && symbol[newLength] == '\0'
    ensures symbol[..newLength] == NormalizeStdcall(old(symbol[..length]))
  {
    ghost var s := symbol[..length];
    newLength := length;
    if length == 0 || symbol[0] != '_' {
      return;
    }
    var at := FindLast(symbol, length, '@');
    if at.None? || at.value + 1 == length {
      return;
    }
    assert s[at.value] == '@' && s[0] == '_';
    var digit := at.value + 1;
    while digit < length
      invariant at.value < digit <= length
      invariant forall i :: at.value < i < digit ==> IsDigit(symbol[i])
    {
      if !IsDigit(symbol[digit]) {
        assert s[at.value + 1..][digit - at.value - 1] == symbol[digit];
        return;
      }
      digit := digit + 1;
    }
    assert AllDigits(s[at.value + 1..]);
    symbol[at.value] := '\0';
    ShiftDown(symbol, at.value);
    newLength := at.value - 1;
    assert symbol[..newLength] == s[1..at.value];
  }

  /** memmove of `length` bytes one place down. */
  method ShiftDown(a: array<char>, length: nat)
    requires length < a.Length
    modifies a
    ensures forall i :: 0 <= i < length ==> a[i] == old(a[i + 1])
  {
    var i := 0;
    while i < length
      invariant i <= length
      invariant forall k :: 0 <= k < i ==> a[k] == old(a[k + 1])
      invariant forall k :: i <= k < a.Length ==> a[k] == old(a[k])
    {
      a[i] := a[i + 1];
      i := i + 1;
    }
  }

  method MakeNormalized(name: string) returns (symbol: string)
    ensures symbol == NormalizeStdcall(name)
  {
    var buffer := new char[|name| + 1];
    forall i | 0 <= i < |name| {
      buffer[i] := name[i];
    }
    buffer[|name|] := '\0';
    assert buffer[..|name|] == name;
    var length := NormalizeInPlace(buffer, |name|);
    symbol := buffer[..length];
  }
}
