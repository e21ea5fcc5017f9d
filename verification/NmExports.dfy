/**
 Which names a listing exports, told from its lines alone: for each linker the kinds of symbols,
 the names left out, and what the sets hold after the listing.
 */
module NmExports {
  import opened CStrings
  import opened DefText
  import opened NmLines
  import opened NmSymbols

  // ---------- the GNU rules ----------

  ghost predicate GnuLeavesOut(n: string) {
    || n == [] || n == "DllMain" || n == "DllEntryPoint" || n == "DllMainCRTStartup"
    || n == "__NULL_IMPORT_DESCRIPTOR" || n == "_pei386_runtime_relocator" || n == "do_pseudo_reloc"
    || n == "impure_ptr" || n == "_impure_ptr" || n == "_fmode" || n == "environ" || n == "__dso_handle"
    || n == "_load_config_used" || n == "__chpe_metadata"
    || "__imp_" <= n || "__IMPORT_DESCRIPTOR_" <= n || "__nm_" <= n || "__rtti_" <= n || "__builtin_" <= n
    || "." <= n || "__profc_" <= n || "__profd_" <= n || "__profvp_" <= n || "_head_" <= n || "__os_arm64x_" <= n
    || EndsIn(n, "_iname") || EndsIn(n, "_NULL_THUNK_DATA")
  }

  /** The capital letters but I, N, U, V, W, and but T, which is for functions. */
  predicate GnuDataKind(kind: char) {
    kind in {'A', 'B', 'C', 'D', 'E', 'F', 'G', 'H', 'J', 'K', 'L', 'M', 'O', 'P', 'Q', 'R', 'S', 'X', 'Y', 'Z'}
  }

  lemma ExcludedSymbols(n: string)
    ensures n in GNU_EXCLUDED_SYMBOLS <==>
      || n == "DllMain" || n == "DllEntryPoint" || n == "DllMainCRTStartup"
      || n == "__NULL_IMPORT_DESCRIPTOR" || n == "_pei386_runtime_relocator" || n == "do_pseudo_reloc"
      || n == "impure_ptr" || n == "_impure_ptr" || n == "_fmode" || n == "environ" || n == "__dso_handle"
      || n == "_load_config_used" || n == "__chpe_metadata"
  {
  }

  lemma ExcludedPrefixes(n: string)
    ensures (exists i :: 0 <= i < |GNU_EXCLUDED_PREFIXES| && HasPrefix(n, GNU_EXCLUDED_PREFIXES[i])) <==>
      || "__imp_" <= n || "__IMPORT_DESCRIPTOR_" <= n || "__nm_" <= n || "__rtti_" <= n || "__builtin_" <= n
      || "." <= n || "__profc_" <= n || "__profd_" <= n || "__profvp_" <= n || "_head_" <= n || "__os_arm64x_" <= n
  {
    var p := GNU_EXCLUDED_PREFIXES;
    assert |p| == 11;
    assert p[0] == "__imp_" && p[1] == "__IMPORT_DESCRIPTOR_" && p[2] == "__nm_" && p[3] == "__rtti_";
    assert p[4] == "__builtin_" && p[5] == "." && p[6] == "__profc_" && p[7] == "__profd_";
    assert p[8] == "__profvp_" && p[9] == "_head_" && p[10] == "__os_arm64x_";
  }

  lemma ExcludedSuffixes(n: string)
    ensures (exists i :: 0 <= i < |GNU_EXCLUDED_SUFFIXES| && HasSuffix(n, GNU_EXCLUDED_SUFFIXES[i])) <==>
      EndsIn(n, "_iname") || EndsIn(n, "_NULL_THUNK_DATA")
  {
    var s := GNU_EXCLUDED_SUFFIXES;
    assert |s| == 2 && s[0] == "_iname" && s[1] == "_NULL_THUNK_DATA";
    SuffixMeaning(n, s[0]);
    SuffixMeaning(n, s[1]);
  }

  lemma GnuRules(name: string, kind: char, n: string)
    ensures ExportOf(name, kind, Gnu) == Code(n) <==> n == name && kind == 'T' && !GnuLeavesOut(n)
    ensures ExportOf(name, kind, Gnu) == Data(n) <==> n == name && GnuDataKind(kind) && !GnuLeavesOut(n)
  {
    ExcludedSymbols(n);
    ExcludedPrefixes(n);
    ExcludedSuffixes(n);
    GnuKinds(kind);
  }

  lemma GnuKinds(kind: char)
    ensures IsUpper(kind) && kind !in {'U', 'V', 'W', 'I', 'N', 'T'} <==> GnuDataKind(kind)
  {
  }

  // ---------- the rules of link.exe ----------

  ghost predicate MsvcLeavesOut(n: string) {
    || n == [] || "??_G" <= n || "??_E" <= n || HasPart(n, ".")
    || n == "__t2m" || n == "__m2mep" || n == "__mep" || HasPart(n, "$$F") || HasPart(n, "$$J")
    || HasPart(n, "$ientry_thunk") || HasPart(n, "$entry_thunk")
    || HasPart(n, "$iexit_thunk") || HasPart(n, "$exit_thunk")
  }

  /** The capital letters but C, U, V, W, but those for data, and but R, which is for virtual tables only. */
  predicate MsvcCodeKind(kind: char) {
    kind in {'A', 'E', 'F', 'H', 'I', 'J', 'K', 'L', 'M', 'N', 'O', 'P', 'Q', 'T', 'X', 'Y', 'Z'}
  }

  predicate MsvcDataKind(kind: char) {
    kind in {'B', 'D', 'G', 'S'}
  }

  lemma DotMeaning(n: string)
    ensures '.' in n <==> HasPart(n, ".")
  {
    if i :| 0 <= i < |n| && n[i] == '.' {
      assert n == n[..i] + ("." + n[i + 1..]);
    }
    if a, b :| n == a + ("." + b) {
      assert n[|a|] == '.';
    }
  }

  lemma MsvcSkipsMeaning(n: string, kind: char)
    ensures MsvcSkips(n, kind) <==>
      MsvcLeavesOut(n) || !(MsvcCodeKind(kind) || MsvcDataKind(kind) || (kind == 'R' && "??_7" <= n))
  {
    DotMeaning(n);
    ContainsMeaning(n, "$$F");
    ContainsMeaning(n, "$$J");
    ContainsMeaning(n, "$ientry_thunk");
    ContainsMeaning(n, "$entry_thunk");
    ContainsMeaning(n, "$iexit_thunk");
    ContainsMeaning(n, "$exit_thunk");
    MsvcKinds(kind);
  }

  lemma MsvcKinds(kind: char)
    ensures IsUpper(kind) && kind !in {'C', 'U', 'V', 'W'} <==> MsvcCodeKind(kind) || MsvcDataKind(kind) || kind == 'R'
  {
  }

  ghost predicate MsvcGivesCode(n: string, kind: char) {
    !MsvcLeavesOut(n) && (MsvcCodeKind(kind) || (kind == 'R' && "??_7" <= n))
  }

  ghost predicate MsvcGivesData(n: string, kind: char) {
    !MsvcLeavesOut(n) && MsvcDataKind(kind)
  }

  lemma MsvcRules(raw: string, kind: char, n: string)
    ensures ExportOf(raw, kind, Msvc) == Code(n) <==> Undecorated(raw, n) && MsvcGivesCode(n, kind)
    ensures ExportOf(raw, kind, Msvc) == Data(n) <==> Undecorated(raw, n) && MsvcGivesData(n, kind)
  {
    NormalizeMeaning(raw, n);
    MsvcSkipsMeaning(n, kind);
  }

  // ---------- the sets after a listing ----------

  ghost predicate GnuCode(lines: seq<string>, n: string) {
    exists line :: line in lines && Shows(line, n, 'T') && !GnuLeavesOut(n)
  }

  ghost predicate GnuData(lines: seq<string>, n: string) {
    exists line, kind :: line in lines && Shows(line, n, kind) && GnuDataKind(kind) && !GnuLeavesOut(n)
  }

  /** Some line defines the import pointer of the name. */
  ghost predicate ImportPointer(lines: seq<string>, n: string) {
    exists line, kind ::
      line in lines && Shows(line, "__imp_" + n, kind) && 65 <= kind as int <= 90 && kind != 'U'
  }

  ghost predicate MsvcCode(lines: seq<string>, n: string) {
    exists line, raw, kind :: line in lines && Shows(line, raw, kind) && Undecorated(raw, n) && MsvcGivesCode(n, kind)
  }

  ghost predicate MsvcData(lines: seq<string>, n: string) {
    exists line, raw, kind :: line in lines && Shows(line, raw, kind) && Undecorated(raw, n) && MsvcGivesData(n, kind)
  }

  /** Every line is blank or shows a name. */
  ghost predicate Readable(lines: seq<string>) {
    forall line :: line in lines ==> AllSpace(line) || exists name, kind :: Shows(line, name, kind)
  }

  lemma ReadableMeaning(lines: seq<string>)
    ensures WellFormed(lines) <==> Readable(lines)
  {
    forall line
      ensures !ParseLine(line).Malformed? <==> AllSpace(line) || exists name, kind :: Shows(line, name, kind)
    {
      LineMeaning(line);
    }
  }

  lemma GnuLine(line: string, n: string)
    ensures Exports(line, Gnu, Code(n)) <==> Shows(line, n, 'T') && !GnuLeavesOut(n)
    ensures Exports(line, Gnu, Data(n)) <==>
      exists kind :: Shows(line, n, kind) && GnuDataKind(kind) && !GnuLeavesOut(n)
    ensures Imports(line, Gnu, n) <==>
      exists kind :: Shows(line, "__imp_" + n, kind) && 65 <= kind as int <= 90 && kind != 'U'
  {
    LineMeaning(line);
    match ParseLine(line)
    case Defined(name, kind) =>
      GnuRules(name, kind, n);
      assert Shows(line, name, kind);
      assert HasPrefix("__imp_" + n, IMPORT_PREFIX);
    case _ =>
  }

  lemma MsvcLine(line: string, n: string)
    ensures Exports(line, Msvc, Code(n)) <==>
      exists raw, kind :: Shows(line, raw, kind) && Undecorated(raw, n) && MsvcGivesCode(n, kind)
    ensures Exports(line, Msvc, Data(n)) <==>
      exists raw, kind :: Shows(line, raw, kind) && Undecorated(raw, n) && MsvcGivesData(n, kind)
    ensures !Imports(line, Msvc, n)
  {
    LineMeaning(line);
    match ParseLine(line)
    case Defined(raw, kind) =>
      MsvcRules(raw, kind, n);
      assert Shows(line, raw, kind);
    case _ =>
  }

  /**
   Under the GNU rules a listing is accepted exactly if each line is blank or shows a name. Then
   the functions are those there were and the names shown with kind T, the data those there
   were and the names shown with another exported kind, without the names left out, and
   neither holds a name whose import pointer some line defines.
   */
  lemma GnuListing(names: Names, output: string)
    ensures var r, lines := Discover(names, output, Gnu), Lines(output);
      && (r.Some? <==> Readable(lines))
      && (r.Some? ==>
           && (forall n :: n in r.value.symbols <==>
                (n in names.symbols || GnuCode(lines, n)) && !ImportPointer(lines, n))
           && (forall n :: n in r.value.data <==> (n in names.data || GnuData(lines, n)) && !ImportPointer(lines, n)))
  {
    var lines := Lines(output);
    DiscoverMeaning(names, output, Gnu);
    ReadableMeaning(lines);
    forall n
      ensures GnuCode(lines, n) <==> exists line :: line in lines && Exports(line, Gnu, Code(n))
      ensures GnuData(lines, n) <==> exists line :: line in lines && Exports(line, Gnu, Data(n))
      ensures ImportPointer(lines, n) <==> exists line :: line in lines && Imports(line, Gnu, n)
    {
      GnuLines(lines, n);
    }
  }

  lemma GnuLines(lines: seq<string>, n: string)
    ensures GnuCode(lines, n) <==> exists line :: line in lines && Exports(line, Gnu, Code(n))
    ensures GnuData(lines, n) <==> exists line :: line in lines && Exports(line, Gnu, Data(n))
    ensures ImportPointer(lines, n) <==> exists line :: line in lines && Imports(line, Gnu, n)
  {
    forall line
      ensures Exports(line, Gnu, Code(n)) <==> Shows(line, n, 'T') && !GnuLeavesOut(n)
      ensures Exports(line, Gnu, Data(n)) <==>
        exists kind :: Shows(line, n, kind) && GnuDataKind(kind) && !GnuLeavesOut(n)
      ensures Imports(line, Gnu, n) <==>
        exists kind :: Shows(line, "__imp_" + n, kind) && 65 <= kind as int <= 90 && kind != 'U'
    {
      GnuLine(line, n);
    }
  }

  /**
   Under the rules of link.exe the names are those inside the decorations; the functions are
   joined by those of the kinds for code, the data by those of the kinds for data, and nothing
   is taken away.
   */
  lemma MsvcListing(names: Names, output: string)
    ensures var r, lines := Discover(names, output, Msvc), Lines(output);
      && (r.Some? <==> Readable(lines))
      && (r.Some? ==>
           && (forall n :: n in r.value.symbols <==> n in names.symbols || MsvcCode(lines, n))
           && (forall n :: n in r.value.data <==> n in names.data || MsvcData(lines, n)))
  {
    var lines := Lines(output);
    DiscoverMeaning(names, output, Msvc);
    ReadableMeaning(lines);
    forall n
      ensures MsvcCode(lines, n) <==> exists line :: line in lines && Exports(line, Msvc, Code(n))
      ensures MsvcData(lines, n) <==> exists line :: line in lines && Exports(line, Msvc, Data(n))
      ensures !exists line :: line in lines && Imports(line, Msvc, n)
    {
      MsvcLines(lines, n);
    }
  }

  lemma MsvcLines(lines: seq<string>, n: string)
    ensures MsvcCode(lines, n) <==> exists line :: line in lines && Exports(line, Msvc, Code(n))
    ensures MsvcData(lines, n) <==> exists line :: line in lines && Exports(line, Msvc, Data(n))
    ensures !exists line :: line in lines && Imports(line, Msvc, n)
  {
    forall line
      ensures Exports(line, Msvc, Code(n)) <==>
        exists raw, kind :: Shows(line, raw, kind) && Undecorated(raw, n) && MsvcGivesCode(n, kind)
      ensures Exports(line, Msvc, Data(n)) <==>
        exists raw, kind :: Shows(line, raw, kind) && Undecorated(raw, n) && MsvcGivesData(n, kind)
      ensures !Imports(line, Msvc, n)
    {
      MsvcLine(line, n);
    }
  }

  // ---------- single lines ----------

  lemma OneLineText(line: string)
    requires line != [] && '\n' !in line
    ensures Lines(line) == [line]
  {
    LineEndOf(line, "");
    assert line + "" == line;
    assert line[..|line|] == line;
  }

  /** A listing of one line, from empty sets. */
  lemma OneLineGnu(line: string, n: string, kind: char)
    requires Shows(line, n, kind) && '\n' !in line && !GnuLeavesOut(n)
    ensures kind == 'T' ==> Discover(NO_NAMES, line, Gnu) == Some(Names({n}, {}))
    ensures GnuDataKind(kind) ==> Discover(NO_NAMES, line, Gnu) == Some(Names({}, {n}))
  {
    LineMeaning(line);
    OneLineText(line);
    GnuRules(n, kind, n);
    ReadLinesCons(NmState(NO_NAMES, {}), line, [], Gnu);
    assert [line] + [] == [line];
    assert !DefinesImport(n, kind, Gnu);
    var after := AddExport(NO_NAMES, ExportOf(n, kind, Gnu));
    assert ReadLines(NmState(NO_NAMES, {}), [line], Gnu) == Some(NmState(after, {}));
    NothingRemoved(after);
    assert after.symbols == (if kind == 'T' then {n} else {}) || !(kind == 'T' || GnuDataKind(kind));
  }

  lemma NothingRemoved(names: Names)
    ensures RemoveImported(NmState(names, {})) == names
  {
  }

  /** A function of one object file. */
  lemma OneFunction()
    ensures Discover(NO_NAMES, "a.o: foo T 0 0", Gnu) == Some(Names({"foo"}, {}))
  {
    FooShown("a.o: foo T 0 0", 'T');
    FooExported();
    OneLineGnu("a.o: foo T 0 0", "foo", 'T');
  }

  /** And a variable. */
  lemma OneVariable()
    ensures Discover(NO_NAMES, "a.o: foo D 0 0", Gnu) == Some(Names({}, {"foo"}))
  {
    FooShown("a.o: foo D 0 0", 'D');
    FooExported();
    OneLineGnu("a.o: foo D 0 0", "foo", 'D');
  }

  lemma FooShown(line: string, kind: char)
    requires line == "a.o: foo " + ([kind] + " 0 0") && kind != ' ' && kind != ':' && !IsSpace(kind)
    ensures Shows(line, "foo", kind)
  {
    var tail := [kind] + " 0 0";
    assert line == "a.o" + (": " + ("foo" + (" " + tail)));
    assert ShownAs(line, "foo", kind, "a.o", " ", tail);
  }

  lemma FooExported()
    ensures !GnuLeavesOut("foo")
  {
    var n := "foo";
    SuffixMeaning(n, "_iname");
    SuffixMeaning(n, "_NULL_THUNK_DATA");
    assert |n| == 3 && n[0] == 'f';
  }
}
