/**
 Which names an llvm-nm listing exports: reading its lines, the export rules of the two
 linkers, and the removal of names whose import pointer is defined.
 */
module NmSymbols {
  import opened CStrings
  import opened DefText

  // ---------- one line ----------

  /** What a line is: white space only, broken, or a symbol with its type letter (NUL when it has none). */
  datatype NmLine = Blank | Malformed | Defined(name: string, kind: char)

  const SEPARATOR := ": "

  ghost predicate LastOccurrence(line: string, at: nat) {
    OccursAt(line, SEPARATOR, at) && forall j :: at < j ==> !OccursAt(line, SEPARATOR, j)
  }

  /** The last separator, searching down from position i. */
  function LastSeparator(line: string, i: nat): (r: Option<nat>)
    requires forall j :: i < j ==> !OccursAt(line, SEPARATOR, j)
    ensures r.Some? ==> LastOccurrence(line, r.value)
    ensures r.None? ==> forall j: int :: !OccursAt(line, SEPARATOR, j)
  {
    if OccursAt(line, SEPARATOR, i) then Some(i)
    else if i == 0 then None
    else LastSeparator(line, i - 1)
  }

  /** The symbol runs up to the next white space after the last separator; the type letter follows. */
  function ParseSymbol(line: string, start: nat): NmLine
    requires start <= |line|
  {
    var end := SkipWord(line, start);
    if end == |line| then Malformed
    else
      var kind := SkipSpace(line, end + 1);
      Defined(line[start..end], if kind < |line| then line[kind] else '\0')
  }

  function ParseLine(line: string): NmLine {
    match LastSeparator(line, |line|)
    case None => if AllSpace(line) then Blank else Malformed
    case Some(at) => ParseSymbol(line, at + 2)
  }

  lemma SeparatorChars(line: string, j: int)
    ensures OccursAt(line, SEPARATOR, j) <==> 0 <= j && j + 1 < |line| && line[j] == ':' && line[j + 1] == ' '
  {
    if 0 <= j && j + 2 <= |line| {
      assert line[j..j + 2] == [line[j], line[j + 1]];
    }
  }

  /**
   The parser inverts the printed form. The path may itself contain the separator; what
   matters is that no separator comes later, so the symbol must not end in a colon.
   */
  lemma PrintedLineParses(path: string, name: string, space: string, tail: string)
    requires name != [] && SpaceFree(name) && name[|name| - 1] != ':'
    requires space != [] && AllSpace(space) && tail != [] && !IsSpace(tail[0])
    requires forall j: int :: !OccursAt(tail, SEPARATOR, j)
    ensures ParseLine(path + (SEPARATOR + (name + (space + tail)))) == Defined(name, tail[0])
  {
    var rest := name + (space + tail);
    var line := path + (SEPARATOR + rest);
    var start := |path| + 2;
    assert line[start..] == rest;
    SeparatorChars(line, |path|);
    forall j: int | |path| < j
      ensures !OccursAt(line, SEPARATOR, j)
    {
      SeparatorChars(line, j);
      NoLaterSeparator(path, name, space, tail, j);
    }
    assert LastOccurrence(line, |path|);
    UniqueLast(line, |path|);
    ParseSymbolAt(line, start, name, space, tail);
  }

  lemma NoLaterSeparator(path: string, name: string, space: string, tail: string, j: int)
    requires name != [] && SpaceFree(name) && name[|name| - 1] != ':' && AllSpace(space) && space != []
    requires forall i: int :: !OccursAt(tail, SEPARATOR, i)
    requires |path| < j
    ensures var line := path + (SEPARATOR + (name + (space + tail)));
      !(j + 1 < |line| && line[j] == ':' && line[j + 1] == ' ')
  {
    var line := path + (SEPARATOR + (name + (space + tail)));
    var start := |path| + 2;
    var end := start + |name|;
    var last := end + |space|;
    if start <= j < end && j + 1 < |line| {
      assert line[j] == name[j - start];
      assert j + 1 < end ==> line[j + 1] == name[j + 1 - start];
    } else if end <= j < last {
      assert line[j] == space[j - end];
    } else if last <= j && j + 1 < |line| {
      assert line[j] == tail[j - last] && line[j + 1] == tail[j + 1 - last];
      SeparatorChars(tail, j - last);
    }
  }

  lemma UniqueLast(line: string, at: nat)
    requires LastOccurrence(line, at)
    ensures LastSeparator(line, |line|) == Some(at)
  {
    assert OccursAt(line, SEPARATOR, at);
  }

  lemma ParseSymbolAt(line: string, start: nat, name: string, space: string, tail: string)
    requires start <= |line| && line[start..] == name + (space + tail)
    requires SpaceFree(name) && space != [] && AllSpace(space) && (tail != [] ==> !IsSpace(tail[0]))
    ensures ParseSymbol(line, start) == Defined(name, if tail == [] then '\0' else tail[0])
  {
    var rest := line[start..];
    var end, last := start + |name|, start + |name| + |space|;
    assert forall i :: start <= i < |line| ==> line[i] == rest[i - start];
    assert forall i :: start <= i < end ==> line[i] == name[i - start];
    assert forall i :: end <= i < last ==> line[i] == space[i - end];
    assert line[end] == space[0] && (tail != [] ==> line[last] == tail[0]);
    assert SkipWord(line, start) == end;
    assert SkipSpace(line, end + 1) == last;
    assert rest[..|name|] == name;
    assert line[start..end] == rest[..|name|];
  }

  // ---------- the export rules ----------

  datatype Abi = Msvc | Gnu

  /** The last position of a character below i. */
  function LastIndex(s: string, c: char, i: nat): (r: Option<nat>)
    requires i <= |s|
    ensures r.Some? ==> r.value < i && s[r.value] == c && forall j :: r.value < j < i ==> s[j] != c
    ensures r.None? ==> forall j :: 0 <= j < i ==> s[j] != c
  {
    if i == 0 then None else if s[i - 1] == c then Some(i - 1) else LastIndex(s, c, i - 1)
  }

  predicate AllDigits(s: string) {
    forall i :: 0 <= i < |s| ==> IsDigit(s[i])
  }

  /** Strips the decoration of a stdcall name: a leading underscore, and an at sign with digits at the end. */
  function NormalizeStdcall(s: string): string {
    if s == [] || s[0] != '_' then s
    else
      match LastIndex(s, '@', |s|)
      case None => s
      case Some(at) => if at + 1 == |s| || !AllDigits(s[at + 1..]) then s else s[1..at]
  }

  /** A decorated name is stripped to the name inside, whatever at signs that contains. */
  lemma StdcallRoundTrip(name: string, digits: string)
    requires digits != [] && AllDigits(digits)
    ensures NormalizeStdcall("_" + (name + ("@" + digits))) == name
  {
    var s := "_" + (name + ("@" + digits));
    var at := 1 + |name|;
    assert s[at] == '@';
    assert forall j :: at < j < |s| ==> s[j] == digits[j - at - 1];
    assert s[at + 1..] == digits;
    assert s[1..at] == name;
  }

  predicate ManagedSymbol(symbol: string) {
    symbol == "__t2m" || symbol == "__m2mep" || symbol == "__mep" || Contains(symbol, "$$F") || Contains(symbol, "$$J")
  }

  /** link.exe's rules: whether a normalized symbol is left out. */
  predicate MsvcSkips(symbol: string, kind: char) {
    symbol == [] || !IsUpper(kind) || kind == 'U' || kind == 'V' || kind == 'W' || kind == 'C' ||
    (kind == 'R' && !HasPrefix(symbol, "??_7")) ||
    HasPrefix(symbol, "??_G") || HasPrefix(symbol, "??_E") ||
    '.' in symbol || ManagedSymbol(symbol) ||
    Contains(symbol, "$ientry_thunk") || Contains(symbol, "$entry_thunk") ||
    Contains(symbol, "$iexit_thunk") || Contains(symbol, "$exit_thunk")
  }

  const GNU_EXCLUDED_SYMBOLS: seq<string> := [
    "__NULL_IMPORT_DESCRIPTOR", "_pei386_runtime_relocator", "do_pseudo_reloc", "impure_ptr", "_impure_ptr",
    "_fmode", "environ", "__dso_handle", "_load_config_used", "DllMain", "DllEntryPoint", "DllMainCRTStartup",
    "__chpe_metadata"
  ]

  const GNU_EXCLUDED_PREFIXES: seq<string> := [
    "__imp_", "__IMPORT_DESCRIPTOR_", "__nm_", "__rtti_", "__builtin_", ".", "__profc_", "__profd_", "__profvp_",
    "_head_", "__os_arm64x_"
  ]

  const GNU_EXCLUDED_SUFFIXES: seq<string> := ["_iname", "_NULL_THUNK_DATA"]

  predicate GnuExcluded(symbol: string) {
    || symbol in GNU_EXCLUDED_SYMBOLS
    || (exists i :: 0 <= i < |GNU_EXCLUDED_PREFIXES| && HasPrefix(symbol, GNU_EXCLUDED_PREFIXES[i]))
    || (exists i :: 0 <= i < |GNU_EXCLUDED_SUFFIXES| && HasSuffix(symbol, GNU_EXCLUDED_SUFFIXES[i]))
  }

  /** lld's MinGW rules. */
  predicate GnuSkips(symbol: string, kind: char) {
    symbol == [] || !IsUpper(kind) || kind == 'U' || kind == 'V' || kind == 'W' || kind == 'I' || kind == 'N' ||
    GnuExcluded(symbol)
  }

  datatype Export = Nothing | Code(name: string) | Data(name: string)

  /** What a defined symbol exports under each linker's rules. */
  function ExportOf(name: string, kind: char, abi: Abi): Export {
    match abi
    case Msvc =>
      var symbol := NormalizeStdcall(name);
      if MsvcSkips(symbol, kind) then Nothing
      else if kind == 'B' || kind == 'D' || kind == 'G' || kind == 'S' then Data(symbol) else Code(symbol)
    case Gnu =>
      if GnuSkips(name, kind) then Nothing else if kind == 'T' then Code(name) else Data(name)
  }

  const IMPORT_PREFIX := "__imp_"

  /** Under the GNU rules, a defined import pointer names the symbol that must not be exported. */
  predicate DefinesImport(name: string, kind: char, abi: Abi) {
    abi.Gnu? && IsUpper(kind) && kind != 'U' && HasPrefix(name, IMPORT_PREFIX)
  }

  // ---------- a whole listing ----------

  /** The exported names so far, and the symbols whose import pointers were seen. */
  datatype NmState = NmState(names: Names, imports: set<string>)

  function AddExport(names: Names, e: Export): Names {
    match e
    case Nothing => names
    case Code(n) => names.(symbols := names.symbols + {n})
    case Data(n) => names.(data := names.data + {n})
  }

  function AddSymbol(state: NmState, name: string, kind: char, abi: Abi): NmState {
    NmState(
      AddExport(state.names, ExportOf(name, kind, abi)),
      if DefinesImport(name, kind, abi) then state.imports + {name[|IMPORT_PREFIX|..]} else state.imports)
  }

  /** The state after one line, unless it is malformed. */
  function ReadLine(state: NmState, line: string, abi: Abi): Option<NmState> {
    match ParseLine(line)
    case Malformed => None
    case Blank => Some(state)
    case Defined(name, kind) => Some(AddSymbol(state, name, kind, abi))
  }

  /** Reads the lines in turn; a malformed line stops everything. */
  function ReadLines(state: NmState, lines: seq<string>, abi: Abi): Option<NmState>
    decreases |lines|
  {
    if lines == [] then Some(state)
    else
      match ReadLine(state, lines[0], abi)
      case None => None
      case Some(next) => ReadLines(next, lines[1..], abi)
  }

  lemma ReadLinesCons(state: NmState, line: string, rest: seq<string>, abi: Abi)
    ensures ReadLines(state, [line] + rest, abi) ==
      match ReadLine(state, line, abi)
      case None => None
      case Some(next) => ReadLines(next, rest, abi)
  {
    assert ([line] + rest)[1..] == rest;
  }

  /** Reading a text's lines reads its first line and goes on after it. */
  lemma ReadLinesOfText(state: NmState, text: string, abi: Abi)
    requires text != []
    ensures ReadLines(state, Lines(text), abi) ==
      match ReadLine(state, text[..LineEnd(text)], abi)
      case None => None
      case Some(next) => ReadLines(next, Lines(AfterLine(text)), abi)
  {
    ReadLinesCons(state, text[..LineEnd(text)], Lines(AfterLine(text)), abi);
  }

  function RemoveImported(state: NmState): Names {
    Names(state.names.symbols - state.imports, state.names.data - state.imports)
  }

  /** The names after reading a listing and removing the imported symbols. */
  function Discover(names: Names, output: string, abi: Abi): Option<Names> {
    match ReadLines(NmState(names, {}), Lines(output), abi)
    case None => None
    case Some(state) => Some(RemoveImported(state))
  }

  ghost predicate Exports(line: string, abi: Abi, e: Export) {
    match ParseLine(line)
    case Defined(name, kind) => ExportOf(name, kind, abi) == e
    case _ => false
  }

  ghost predicate Imports(line: string, abi: Abi, n: string) {
    match ParseLine(line)
    case Defined(name, kind) => DefinesImport(name, kind, abi) && name == IMPORT_PREFIX + n
    case _ => false
  }

  ghost predicate WellFormed(lines: seq<string>) {
    forall line :: line in lines ==> !ParseLine(line).Malformed?
  }

  lemma ImportName(name: string, n: string)
    requires HasPrefix(name, IMPORT_PREFIX)
    ensures name == IMPORT_PREFIX + n <==> n == name[|IMPORT_PREFIX|..]
  {
    assert name == name[..|IMPORT_PREFIX|] + name[|IMPORT_PREFIX|..];
  }

  /** What the lines add, as a condition on the lines alone. */
  lemma {:induction false} ReadLinesMeaning(state: NmState, lines: seq<string>, abi: Abi)
    ensures ReadLines(state, lines, abi).Some? <==> WellFormed(lines)
    ensures ReadLines(state, lines, abi).Some? ==>
      var after := ReadLines(state, lines, abi).value;
      && (forall n :: n in after.names.symbols <==>
           n in state.names.symbols || exists line :: line in lines && Exports(line, abi, Code(n)))
      && (forall n :: n in after.names.data <==>
           n in state.names.data || exists line :: line in lines && Exports(line, abi, Data(n)))
      && (forall n :: n in after.imports <==>
           n in state.imports || exists line :: line in lines && Imports(line, abi, n))
    decreases |lines|
  {
    if lines != [] {
      var first, rest := lines[0], lines[1..];
      assert forall line :: line in lines <==> line == first || line in rest;
      var next := match ParseLine(first) case Defined(name, kind) => AddSymbol(state, name, kind, abi) case _ => state;
      ReadLinesMeaning(next, rest, abi);
      FirstLineAdds(state, first, abi, next);
    }
  }

  lemma FirstLineAdds(state: NmState, line: string, abi: Abi, next: NmState)
    requires next == match ParseLine(line) case Defined(name, kind) => AddSymbol(state, name, kind, abi) case _ => state
    ensures forall n :: n in next.names.symbols <==> n in state.names.symbols || Exports(line, abi, Code(n))
    ensures forall n :: n in next.names.data <==> n in state.names.data || Exports(line, abi, Data(n))
    ensures forall n :: n in next.imports <==> n in state.imports || Imports(line, abi, n)
  {
    match ParseLine(line)
    case Defined(name, kind) =>
      if DefinesImport(name, kind, abi) {
        forall n
          ensures Imports(line, abi, n) <==> n == name[|IMPORT_PREFIX|..]
        {
          ImportName(name, n);
        }
      }
    case _ =>
  }

  /**
   A listing is accepted iff no line is malformed. Each set then holds what it held before
   and what some line exports of its kind, except every name for which some line, before or
   after, defines the import pointer.
   */
  lemma DiscoverMeaning(names: Names, output: string, abi: Abi)
    ensures Discover(names, output, abi).Some? <==> WellFormed(Lines(output))
    ensures Discover(names, output, abi).Some? ==>
      var after, lines := Discover(names, output, abi).value, Lines(output);
      && (forall n :: n in after.symbols <==>
            (n in names.symbols || exists line :: line in lines && Exports(line, abi, Code(n)))
            && !exists line :: line in lines && Imports(line, abi, n))
      && (forall n :: n in after.data <==>
            (n in names.data || exists line :: line in lines && Exports(line, abi, Data(n)))
            && !exists line :: line in lines && Imports(line, abi, n))
  {
    ReadLinesMeaning(NmState(names, {}), Lines(output), abi);
  }

  /** Two listings with the same lines, in any order and however often, give the same result. */
  lemma LineOrderIrrelevant(names: Names, a: string, b: string, abi: Abi)
    requires forall line :: line in Lines(a) <==> line in Lines(b)
    ensures Discover(names, a, abi) == Discover(names, b, abi)
  {
    DiscoverMeaning(names, a, abi);
    DiscoverMeaning(names, b, abi);
    if Discover(names, a, abi).Some? {
      SameNames(Discover(names, a, abi).value, Discover(names, b, abi).value);
    }
  }

  lemma SameNames(x: Names, y: Names)
    requires forall n :: n in x.symbols <==> n in y.symbols
    requires forall n :: n in x.data <==> n in y.data
    ensures x == y
  {
  }

  // ---------- the stored names stay readable ----------

  lemma SpaceFreeIsGood(n: string)
    requires n != [] && SpaceFree(n)
    ensures GoodName(n)
  {
    assert IsSpace('\n') && IsSpace('\t') && IsSpace(' ');
    assert forall i :: 0 <= i < |n| ==> n[i] != '\n';
    forall i | 0 <= i && i + |MARKER| <= |n|
      ensures !OccursAt(n, MARKER, i)
    {
      assert n[i..i + |MARKER|][0] == n[i] && MARKER[0] == ' ';
    }
  }

  lemma ExportedIsGood(line: string, abi: Abi)
    ensures match ParseLine(line)
      case Defined(name, kind) => (
        match ExportOf(name, kind, abi)
        case Nothing => true
        case Code(n) => GoodName(n)
        case Data(n) => GoodName(n))
      case _ => true
  {
    match ParseLine(line)
    case Defined(name, kind) =>
      assert SpaceFree(name);
      assert SpaceFree(NormalizeStdcall(name));
      match ExportOf(name, kind, abi) {
        case Nothing =>
        case Code(n) => SpaceFreeIsGood(n);
        case Data(n) => SpaceFreeIsGood(n);
      }
    case _ =>
  }

  lemma {:induction false} ReadLinesKeepGood(state: NmState, lines: seq<string>, abi: Abi)
    requires GoodNames(state.names) && ReadLines(state, lines, abi).Some?
    ensures GoodNames(ReadLines(state, lines, abi).value.names)
    decreases |lines|
  {
    if lines != [] {
      ExportedIsGood(lines[0], abi);
      match ParseLine(lines[0])
      case Blank => ReadLinesKeepGood(state, lines[1..], abi);
      case Defined(name, kind) => ReadLinesKeepGood(AddSymbol(state, name, kind, abi), lines[1..], abi);
    }
  }

  // ---------- every run of the program ----------

  datatype Step = MergeStep(text: string) | NmStep(output: string, abi: Abi)

  /** Merging definition files and reading listings, in any order; a malformed listing ends the run. */
  function Run(names: Names, steps: seq<Step>): Option<Names>
    decreases |steps|
  {
    if steps == [] then Some(names)
    else
      match steps[0]
      case MergeStep(text) => Run(MergeText(names, text), steps[1..])
      case NmStep(output, abi) =>
        match Discover(names, output, abi)
        case None => None
        case Some(after) => Run(after, steps[1..])
  }

  lemma {:induction false} RunKeepsGood(names: Names, steps: seq<Step>)
    requires GoodNames(names) && Run(names, steps).Some?
    ensures GoodNames(Run(names, steps).value)
    decreases |steps|
  {
    if steps != [] {
      match steps[0]
      case MergeStep(text) =>
        MergeKeepsGood(names, text);
        RunKeepsGood(MergeText(names, text), steps[1..]);
      case NmStep(output, abi) =>
        ReadLinesKeepGood(NmState(names, {}), Lines(output), abi);
        RunKeepsGood(Discover(names, output, abi).value, steps[1..]);
    }
  }

  /**
   Whatever files and listings the program has read, writing its sets and merging the file
   into empty sets gives the same sets back, iff the DLL's name adds none of its own.
   */
  lemma EveryRunRoundTrips(steps: seq<Step>, dll: string)
    requires Run(NO_NAMES, steps).Some?
    ensures var names := Run(NO_NAMES, steps).value;
      && (MergeText(NO_NAMES, WriteNames(dll, names)) == names <==> Within(DllNames(dll), names))
      && ('\n' !in dll ==> MergeText(NO_NAMES, WriteNames(dll, names)) == names)
  {
    RunKeepsGood(NO_NAMES, steps);
    var names := Run(NO_NAMES, steps).value;
    RoundTripExactly(dll, names);
    if '\n' !in dll {
      RoundTrip(dll, names);
    }
  }
}
