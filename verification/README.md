# Verified models of the toolchain helpers

This project models five parts of the repository in Dafny and proves what they promise.

* **Case-insensitive overlay generator** (`tools/case_insensitive_vfs`). `PreferredEntries`
  and `DirectoryEntries` collect a directory's preferred entries in place; `VfsTree` says which
  tree a directory forest shows and when it is refused, `VfsRefusals` with which error,
  `CaseFolding` and `ReportedCollisions` what this means byte by byte, `VfsPaths` when the paths in
  it are the files' own, `VfsViews` when two forests show the same tree, and `FileGraph` extends
  this to file systems whose links form cycles; `JsonStrings`, `VfsText`, `VfsRender` and
  `VfsGenerate` print the overlay, `OverlayExample` shows one, `JsonReader` reads it back, and
  `VfsOrder` compares the orders of its roots.
* **pbzx read filter** (`3rd_party/libarchive`). `PbzxFormat` holds the framing and a one-shot
  parser, `PbzxStreams` the streams it accepts as bytes, `PbzxFilter` the four-state filter over an
  upstream that delivers arbitrary pieces.
* **Definition file generator** (`tools/def_file_generator`). `StringSets` are the sorted arrays,
  `ShellWords` the in-place argument decoder and `ShellForms` the grammar it decodes, `DefText` the
  file format and `DefFiles` what its lines mean, `NmSymbols` the rules for symbols and what a whole
  run computes, `NmLines` and `NmExports` these rules in terms of the text, `DefGenerator` the
  program.
* **LLVM overlay rules** (`private`). `OverlayPaths` and `OverlayTrees` hold paths, trees and
  what a set of links shows; `Repositories` is the directory a rule fills, with links into a source
  tree through which writes go, and `RepositoryWrites` what a series of writes comes to.
  `OverlayWalk` is the stack of the walks, `OverlayLinks` links the two trees, `OverlayCopy` copies
  the overlay; `PreparedLinks` replaces links, `ProjectFiles` generates files at the places
  `ProjectLayout` names, `ProjectFromPath` is the whole rule for a local checkout, and `Checkouts`
  holds two on which it does not keep what it promises.
* **Static library check** (`tools/internal`). `SymbolReport` says what is kept and reported,
  `ReportReader` reads the report back, `SymbolValidator` is the program.
* `CStrings`, `Sorting` and `TextBuffer` are shared: C string functions, what qsort promises, and
  the growable buffer of `vfs.c`, which is also that of `static_library_validator.c`
  (lines 60-78).

Where the source works step by step on arrays and fields, the model has classes and loops; each
is proved against a function or predicate, and the properties are lemmas about those.

## Results worth knowing

* The order of roots whose paths differ but whose generic spellings agree (`a/b` and `a\b`) is
  left to qsort. `SortChoiceMatters` gives the exact condition, on the directories themselves,
  under which the result does not depend on it; `SameSpellingRoots` is an input on which it does.
* On a system where a backslash is an ordinary byte, the overlay leads to a file's real path
  exactly when no backslash occurs on the way (`RealPathFound`). Otherwise it leads to another
  path (`BackslashRootMisses`), and two files can share one (`BackslashNameCollides`).
* A DLL name with newlines in it puts lines of its own into the written file. `RoundTripExactly`
  gives the exact condition under which the sets still come back, `TwoLineDllAddsSymbol` inputs
  on which they do not.
* Inside double quotes the argument decoder drops a backslash before any character. The model
  does the same; it is not section 2.2.3 of the POSIX Shell Command Language.
* `ci_json_string` reserves six bytes for every control character but writes two for the five
  with a short escape. `WriteJsonString` states the difference.
* The three replacement steps keep the union of the two trees exactly when no overlay file lies
  at or below `utils`; with one, that file is lost (`MaterializedKeeps`,
  `FileBelowUtilsIsLost`).
* Those steps (`llvm_project_from_path.bzl`, lines 9-11) keep the build file out of the user's
  checkout, but not every generated file. Where the checkout has `llvm` or `bolt` and the overlay
  has no such directory, it is a link, and the generated files in it land in the checkout.
  `NoOutputBelowLink` gives the exact condition, `CheckoutIsWritten` a checkout where it fails.
* With `strip_prefix`, every top-level entry is a link, and copying the overlay changes the
  checkout behind them at exactly the overlay paths in directories it has (`SourceAfterCopy`,
  `CopyIntoCheckout`).

## What is assumed

* A `char` stands for a byte; C strings hold no NUL; `isspace`, `isupper`, `isdigit` and
  `tolower` are those of the C locale; sizes do not wrap (doubling capacities stay below 2^63).
* `qsort` is any method that yields a sorted permutation; directory reads deliver distinct names
  in any order; upstream delivers any non-empty prefix of its unread bytes. The implementations
  given here are one choice, and every caller is proved from the contracts alone.
* Upstream's end is either clean or an error, for the whole stream (`eof`). A read error in the
  middle is the error case with fewer bytes.
* Creating a link where there is one, and listing what is not a directory, fail. Writing a file
  replaces a link, a file or an empty directory at its path, creates the directories above it, and
  fails below a file or at a directory with something in it. Below a link it does so in the source.
* Creating a link below a link has no meaning in the model; the walks, the replacements and the
  linking of a checkout are proved never to do it.
* The repository's own directories are those above its links and files.
* A directory's names do not include the two dot entries; reading it delivers them as well.
* A directory's links carry what stat reports of their target; `FileGraph` justifies that.
* A failed call leaves partial effects unspecified where the program then stops.

## Model

| member | source | states |
|---|---|---|
| VfsGenerate.Generate | tools/case_insensitive_vfs/vfs.c:175-227 | refuses an empty list of roots; otherwise sorts the roots by generic spelling and either gives the overlay of that order or the first refusal met in it |
| VfsGenerate.OverlayReadsBack | tools/case_insensitive_vfs/vfs.c:194-219 | the overlay is emitted exactly when every root is acceptable, and an RFC 8259 reader applied to it returns exactly version 0, case-sensitive false and the trees of the roots in order |
| VfsOrder.RootOrderIrrelevant | tools/case_insensitive_vfs/vfs.c:169-192 | two listings of the same roots give byte-identical overlays for every outcome of the sort, when roots of equal spelling show equal trees |
| VfsOrder.DistinctSpellingsAnyOrder | tools/case_insensitive_vfs/vfs.c:169-219 | roots of distinct generic spellings, given in any order, are sorted into the same list and give the same bytes |
| VfsOrder.SortChoiceMatters | tools/case_insensitive_vfs/vfs.c:187-215 | every way the unstable sort may break ties gives the same result if and only if: with all roots acceptable, roots of equal spelling lead, for every list of names, to nothing, to a directory or to a file alike; with some root refused, the refused roots of the least refused spelling have one error |
| VfsOrder.RootsAreWellSpelled | tools/case_insensitive_vfs/vfs.c:187-192 | the roots the generator makes are those the condition is about |
| VfsOrder.ReportedRefusal | tools/case_insensitive_vfs/vfs.c:187-215 | when roots are refused, the error reported is that of a refused root of the least spelling among those refused |
| VfsOrder.EachCanBeReported | tools/case_insensitive_vfs/vfs.c:187-215 | and each such root is reported under some outcome of the sort |
| VfsViews.SameTreeMeaning | tools/case_insensitive_vfs/vfs.c:73-167 | two acceptable directories of one generic spelling are shown by the same tree exactly when every list of names leads, through preferred entries, to the same kind of thing in both |
| VfsOrder.SameSpellingRoots | tools/case_insensitive_vfs/vfs.c:187-192 | two roots spelled `a/b` and `a\b` of different contents have two sorted orders with different texts |
| VfsGenerate.CompareRootsIsTotal | tools/case_insensitive_vfs/vfs.c:169-173 | the root comparator is a total preorder, as qsort needs |
| VfsGenerate.SortRoots | tools/case_insensitive_vfs/vfs.c:187-192 | the working list is a sorted permutation of the given roots, each with its generic spelling |
| VfsGenerate.RenderRoots | tools/case_insensitive_vfs/vfs.c:198-218 | appends every root's text with the right commas, or reports the first root refused |
| VfsRender.RenderDirectory | tools/case_insensitive_vfs/vfs.c:73-167 | appends exactly the printed tree of preferred entries, or returns the first refusal in traversal order |
| VfsRender.RenderContents | tools/case_insensitive_vfs/vfs.c:99-157 | the loop over entries prints each entry once, with a comma after all but the last, whatever the nesting |
| VfsRender.RenderEntry | tools/case_insensitive_vfs/vfs.c:106-151 | an entry is printed as a directory or a file, or refused, according to lstat and stat |
| VfsRender.RenderFile | tools/case_insensitive_vfs/vfs.c:126-143 | a file is printed with its name and the forward-slash form of its joined path |
| VfsRender.Indent | tools/case_insensitive_vfs/vfs.c:67-71 | appends exactly that many spaces |
| VfsText.ReadTree | tools/case_insensitive_vfs/vfs.c:73-167 | reading a printed tree gives the tree back, and what follows it, at every indentation |
| VfsText.ReadAll | tools/case_insensitive_vfs/vfs.c:99-161 | reading the printed list of trees up to the bracket gives exactly those trees |
| VfsText.ReadOverlay | tools/case_insensitive_vfs/vfs.c:194-219 | reading the whole overlay text gives the overlay document |
| VfsText.OverlayTextInjective | tools/case_insensitive_vfs/vfs.c:194-219 | two overlays with the same text show the same trees |
| OverlayExample.OverlayOnLines | tools/case_insensitive_vfs/vfs.c:194-219 | the overlay of one directory with one file, line by line with its indentation, keys and commas |
| OverlayExample.WrittenEscapes | tools/case_insensitive_vfs/filesystem.c:289-330 | the literals of strings that hold each kind of escaped byte, spelled out |
| OverlayExample.JoinedPaths | tools/case_insensitive_vfs/filesystem.c:250-273 | joined and generic paths, with and without a separator at the end, spelled out |
| VfsTree.RootAccepted | tools/case_insensitive_vfs/vfs.c:73-167 | a root is accepted if and only if it is a readable directory and nothing reached through preferred entries is ambiguous, a directory link, special, unreadable or without status |
| VfsTree.RootLookup | tools/case_insensitive_vfs/vfs.c:94-157 | below an accepted root a case-insensitive lookup has at most one answer, the forward-slash form of a joined path, and has it exactly when a case variant of the query reaches a regular file through preferred entries |
| VfsTree.EveryCaseVariantResolves | tools/case_insensitive_vfs/vfs.c:94-157 | every case variant of the path of such a file resolves to the forward-slash form of its joined path and to nothing else |
| CaseFolding.AnyCaseResolves | tools/case_insensitive_vfs/vfs.c:94-157 | whichever ASCII letters of a file's path a query writes 32 higher or lower, it finds that file's external path and nothing else |
| CaseFolding.FoundByLetters | tools/case_insensitive_vfs/vfs.c:94-157 | and whatever a query finds is a file whose path differs from it only by such letters |
| VfsRefusals.RefusalMeaning | tools/case_insensitive_vfs/vfs.c:73-167 | a refused directory gives the error of the first thing, from the top down and in the order of folded names, that preferred entries reach and that is ambiguous, unreadable, without status, a directory link or special; a root that is no directory is unreadable |
| VfsPaths.ExternalIsReal | tools/case_insensitive_vfs/vfs.c:127-140 | where a backslash is an ordinary byte, the external path is the file's own path if and only if neither the root nor a name on the way holds a backslash |
| VfsPaths.RealPathFound | tools/case_insensitive_vfs/vfs.c:94-157 | every case variant of a file's path finds that file's real path, and nothing else, if and only if neither the root nor a name on the way holds a backslash |
| VfsPaths.ExternalPathsDiffer | tools/case_insensitive_vfs/vfs.c:94-157 | without backslashes, different files reached below a root have different external paths |
| VfsPaths.BackslashRootMisses | tools/case_insensitive_vfs/filesystem.c:264-273 | a file in a root with a backslash in its path is found at another path and not at its own |
| VfsPaths.OtherRootsFile | tools/case_insensitive_vfs/filesystem.c:264-273 | the file `f` of the root `a\b` is found at `a/b/f`, below the other root |
| VfsPaths.BackslashNameCollides | tools/case_insensitive_vfs/filesystem.c:264-273 | a name with a backslash beside a directory: two reached files have one external path |
| VfsTree.LookupIsUnique | tools/case_insensitive_vfs/vfs.c:94-157 | component-by-component lookup never has two answers |
| VfsTree.BuiltUnambiguous | tools/case_insensitive_vfs/vfs.c:94-157 | at every level of an emitted tree all names differ even when case is ignored |
| FileGraph.GraphAccepted | tools/case_insensitive_vfs/vfs.c:106-125 | on a graph of inodes with links in it, a root is accepted exactly when everything reached through real directories is supported; links are never entered |
| FileGraph.ForestUnfolds | tools/case_insensitive_vfs/vfs.c:120-121 | when real directories form a forest the recursion has a finite tree to walk, whatever cycles the links make |
| FileGraph.DirectoryCycleHasNoTree | tools/case_insensitive_vfs/vfs.c:120-121 | a directory on a cycle of real directories has no such tree |
| FileGraph.LoopHasNoStatus | tools/case_insensitive_vfs/filesystem.c:351-354 | links leading round in a circle have no status, so the entry is refused |
| DirectoryEntries.CollectPreferred | tools/case_insensitive_vfs/filesystem.c:204-237 | the outcome depends on the set of names alone, not on the order they are read in; a read that breaks off is an error; every entry made is afterwards listed or freed, once |
| DirectoryEntries.ReadDirectory | tools/case_insensitive_vfs/filesystem.c:204-215 | a directory delivers its names once each, in any order, with the two dot entries |
| DirectoryEntries.ReadEntries | tools/case_insensitive_vfs/filesystem.c:210-223 | the entries read are those of the delivered names without the dot entries; if the read breaks off, all of them are freed |
| DirectoryEntries.SortEntries | tools/case_insensitive_vfs/filesystem.c:227-229 | sorting in place gives the one sorted sequence of the names, whatever order they were read in |
| DirectoryEntries.EntryList.Append | tools/case_insensitive_vfs/filesystem.c:91-101 | appends the name with its folded form, growing when full |
| DirectoryEntries.EntryList.Validate | tools/case_insensitive_vfs/filesystem.c:103-134 | finds the names reported for the first class without a lowercase member, or nothing |
| DirectoryEntries.EntryList.Collapse | tools/case_insensitive_vfs/filesystem.c:136-168 | compacts in place to one entry per run; what is dropped is freed once and what is kept is not freed |
| DirectoryEntries.EntryList.CollapseRun | tools/case_insensitive_vfs/filesystem.c:139-166 | one run: the write index never passes unread entries, which stay as they were |
| DirectoryEntries.EntryList.Free | tools/case_insensitive_vfs/filesystem.c:239-248 | releases every listed entry and leaves the list empty |
| DirectoryEntries.FoldCase | tools/case_insensitive_vfs/filesystem.c:69-78 | byte by byte, what lies from 65 to 90 becomes 32 higher and everything else stays |
| CaseFolding.FoldsAlike | tools/case_insensitive_vfs/filesystem.c:69-78 | two names fold alike exactly if they have the same bytes but for letters 32 apart, one of them from 65 to 90 |
| PreferredEntries.CollectedMeaning | tools/case_insensitive_vfs/filesystem.c:103-168 | collecting fails exactly on ambiguous names; otherwise it keeps, strictly increasing in folded name, exactly the preferred ones, and every fold class keeps one |
| CaseFolding.CollectedByLetters | tools/case_insensitive_vfs/filesystem.c:103-168 | in terms of bytes: collecting fails exactly if some names differ only by letters 32 apart and none of them is without capitals; otherwise those without capitals are kept and those that collide with none |
| CaseFolding.BothHeaders | tools/case_insensitive_vfs/filesystem.c:136-168 | `Windows.h` and `windows.h` are collected as `windows.h` alone |
| ReportedCollisions.CollisionReported | tools/case_insensitive_vfs/filesystem.c:103-134 | the names in the error are the first two, in byte order, of a colliding class without a lowercase name, and no such class folds to a smaller name |
| CStrings.StrCmpMeaning | tools/case_insensitive_vfs/filesystem.c:80-89 | the order that sorts names: where two first differ, the one that ends or has the smaller byte comes first |
| CStrings.SpaceBytes | tools/def_file_generator/def_file_generator.c:150-161 | white space is the bytes 9 to 13 and 32 |
| PreferredEntries.ClashMeaning | tools/case_insensitive_vfs/filesystem.c:103-134 | no clash is found exactly when every class with two members has a lowercase one |
| PreferredEntries.KeptPlusDropped | tools/case_insensitive_vfs/filesystem.c:136-168 | kept and dropped entries together are the entries there were, with multiplicity |
| PreferredEntries.CompareEntriesIsTotal | tools/case_insensitive_vfs/filesystem.c:80-89 | the entry comparator is a total preorder |
| PreferredEntries.SortedEntriesUnique | tools/case_insensitive_vfs/filesystem.c:227-229 | distinct names have only one sorted order, so the unstable sort has no choice |
| VfsRender.MakeJoinedPath | tools/case_insensitive_vfs/filesystem.c:250-262 | joins with a slash unless the left part is empty or ends in a separator |
| VfsRender.MakeGenericPath | tools/case_insensitive_vfs/filesystem.c:264-273 | every backslash, and only those, becomes a slash |
| JsonStrings.WriteJsonString | tools/case_insensitive_vfs/filesystem.c:275-334 | writes the escaped literal and its terminator into the precomputed size, minus 4 bytes for each backspace, form feed, newline, return or tab |
| JsonStrings.JsonStringRoundTrip | tools/case_insensitive_vfs/filesystem.c:275-334 | unescaping the literal by RFC 8259 section 7 gives the string back, whatever text follows |
| JsonStrings.EscapedIsClean | tools/case_insensitive_vfs/filesystem.c:289-330 | between the quotes there is no control character and no bare quote |
| JsonStrings.CostIsLength | tools/case_insensitive_vfs/filesystem.c:281-286 | the size computed in advance is the escaped length plus 4 for each short control escape |
| TextBuffer.Buffer.Reserve | tools/case_insensitive_vfs/vfs.c:21-32 | capacity doubles from 4096 until the extra bytes and a terminator fit, and the text is kept |
| TextBuffer.Buffer.Append | tools/case_insensitive_vfs/vfs.c:34-44 | the text afterwards is the text before followed by the value |
| Sorting.QSort | tools/case_insensitive_vfs/filesystem.c:228-229 | the prefix is replaced by a sorted permutation of it and the rest is unchanged |
| Sorting.SortedPermutationsTie | tools/internal/static_library_validator.c:379-380 | any two results of an unstable sort agree position by position up to ties |
| Sorting.SortedPermutationIsUnique | tools/case_insensitive_vfs/filesystem.c:228-229 | without ties between different elements there is only one result |
| PbzxFilter.FilterStream | 3rd_party/libarchive/0002-feat-add-pbzx-read-filter.patch:324-408 | for every byte stream and every way upstream splits it, the buffers returned concatenate to the output of the one-shot parser, with its verdict |
| PbzxFilter.PbzxFilter.ReadToEnd | 3rd_party/libarchive/0002-feat-add-pbzx-read-filter.patch:324-408 | repeated reads terminate and deliver exactly what was to come, from any state |
| PbzxFilter.PbzxFilter.Read | 3rd_party/libarchive/0002-feat-add-pbzx-read-filter.patch:324-408 | one call returns the next bytes and leaves the rest to come, returns 0 only on reaching or staying in the final state, and consumes input whenever it returns bytes |
| PbzxFilter.PbzxFilter.ReadSignature | 3rd_party/libarchive/0002-feat-add-pbzx-read-filter.patch:337-353 | a bad or truncated signature is fatal; a good one leaves the blocks to come |
| PbzxFilter.PbzxFilter.ReadHeader | 3rd_party/libarchive/0002-feat-add-pbzx-read-filter.patch:354-381 | a truncated header or an oversized block is fatal; otherwise the compressed size is what remains of the block |
| PbzxFilter.PbzxFilter.ReadData | 3rd_party/libarchive/0002-feat-add-pbzx-read-filter.patch:382-403 | delivers a non-empty piece of the block; delivered plus remaining stays the sum of the accepted compressed sizes |
| PbzxFilter.Upstream.Ahead | 3rd_party/libarchive/0002-feat-add-pbzx-read-filter.patch:355-367 | offers some non-empty prefix of the unread bytes, or reports end or error |
| PbzxFilter.Upstream.Consume | 3rd_party/libarchive/0002-feat-add-pbzx-read-filter.patch:306-306 | drops exactly that many unread bytes |
| PbzxFilter.Upstream.ReadBytes | 3rd_party/libarchive/0002-feat-add-pbzx-read-filter.patch:286-311 | fills the buffer with the next bytes across however many pieces, or fails when too few are left |
| PbzxFilter.Upstream.ReadU64 | 3rd_party/libarchive/0002-feat-add-pbzx-read-filter.patch:313-322 | reads eight bytes as a big-endian number |
| PbzxFormat.DecodeUndoesFraming | 3rd_party/libarchive/0002-feat-add-pbzx-read-filter.patch:337-403 | parsing a framed stream gives the concatenated payloads up to the first oversized block, and succeeds exactly when there is none |
| PbzxFormat.AcceptedIffFramed | 3rd_party/libarchive/0002-feat-add-pbzx-read-filter.patch:337-403 | a stream is accepted exactly when it is the framing of some blocks that fit the block size |
| PbzxStreams.ReadExactly | 3rd_party/libarchive/0002-feat-add-pbzx-read-filter.patch:337-403 | in terms of bytes: a stream is read to a clean end exactly if it is `pbzz`, `pbzx`, `pbz4` or `pbze`, the block size in eight bytes, and blocks of two such numbers and their payload, none declaring more than a block size other than zero |
| PbzxStreams.PayloadsDelivered | 3rd_party/libarchive/0002-feat-add-pbzx-read-filter.patch:382-403 | from such a stream exactly the payloads are delivered |
| PbzxStreams.OtherSignatureIsFatal | 3rd_party/libarchive/0002-feat-add-pbzx-read-filter.patch:340-348 | any other first four bytes are fatal whatever follows, and nothing is delivered |
| PbzxStreams.EmptyStream | 3rd_party/libarchive/0002-feat-add-pbzx-read-filter.patch:340-353 | the twelve bytes `pbzx` and zeros are read to a clean end |
| PbzxStreams.DeclaresFive | 3rd_party/libarchive/0002-feat-add-pbzx-read-filter.patch:354-381 | a block of two bytes declaring five, byte by byte: read with block size five, fatal with four |
| PbzxStreams.BrokenOff | 3rd_party/libarchive/0002-feat-add-pbzx-read-filter.patch:355-367 | a read error after the last byte is fatal and changes nothing of what is delivered |
| PbzxFormat.TruncationIsFatalUnlessAtBoundary | 3rd_party/libarchive/0002-feat-add-pbzx-read-filter.patch:354-396 | a prefix of a framed stream is accepted exactly when it ends at a block-header boundary |
| PbzxFormat.OutputIsMonotone | 3rd_party/libarchive/0002-feat-add-pbzx-read-filter.patch:382-403 | what is delivered for a prefix of the bytes is a prefix of what is delivered for all of them |
| PbzxFormat.BigEndianRoundTrip | 3rd_party/libarchive/0002-feat-add-pbzx-read-filter.patch:313-322 | decoding the big-endian form of a number gives the number back |
| DefText.RoundTripExactly | tools/def_file_generator/def_file_generator.c:374-403 | merging a written file into empty sets gives the two sets back if and only if the lines a DLL name smuggles in add nothing new |
| DefText.RoundTrip | tools/def_file_generator/def_file_generator.c:722-744 | for a DLL name of one line, or none, writing and merging gives the same two sets |
| DefText.TwoLineDllAddsSymbol | tools/def_file_generator/def_file_generator.c:730-731 | a DLL name of two lines whose second could be a symbol breaks the round trip of the empty sets |
| DefText.WriteThenMerge | tools/def_file_generator/def_file_generator.c:722-744 | merging a written file into any sets adds exactly the written names and those of a DLL name of several lines |
| DefFiles.MergeMeaning | tools/def_file_generator/def_file_generator.c:381-395 | each set gains exactly the names of its lines: blanks and a name without the marker, or the same with the marker behind it, on lines that do not begin with LIBRARY or EXPORTS |
| DefFiles.WrittenFile | tools/def_file_generator/def_file_generator.c:730-738 | the text of a file with a library name, one variable and one function, in every byte |
| DefText.MergeKeepsGood | tools/def_file_generator/def_file_generator.c:374-403 | whatever a definition file holds, the stored names stay non-empty, of one line, without leading blank and without the data marker |
| DefText.FirstMarker | tools/def_file_generator/def_file_generator.c:388-388 | the first data marker in a written data line is the one appended, because the marker has no border |
| DefText.MarkerHasNoBorder | tools/def_file_generator/def_file_generator.c:388-388 | no occurrence of the marker straddles the end of a name that has none |
| NmSymbols.EveryRunRoundTrips | tools/def_file_generator/def_file_generator.c:374-403 | after any sequence of merged files and listings the sets written and merged again are the same, under the exact condition on the DLL name |
| NmSymbols.DiscoverMeaning | tools/def_file_generator/def_file_generator.c:563-613 | a listing is accepted iff no line is malformed; each set is then what it was, plus the exports of its kind, minus every name whose import pointer some line defines |
| NmExports.GnuListing | tools/def_file_generator/def_file_generator.c:484-522 | from the text of the lines to the sets, with every kind, excluded name, prefix and suffix spelled out: kind T joins the functions, the other exported kinds join the data, and names with a defined import pointer are in neither |
| NmExports.MsvcListing | tools/def_file_generator/def_file_generator.c:544-561 | the same for link.exe: the undecorated name, kinds B, D, G and S as data, R only for `??_7`, and every skipped prefix and substring spelled out |
| NmExports.OneFunction | tools/def_file_generator/def_file_generator.c:514-518 | `a.o: foo T 0 0` gives the function foo and no data |
| NmExports.OneVariable | tools/def_file_generator/def_file_generator.c:514-518 | `a.o: foo D 0 0` gives the variable foo and no function |
| NmLines.LineMeaning | tools/def_file_generator/def_file_generator.c:568-600 | a line is a symbol with its type letter exactly if it has that form, blank exactly if it is white space, and malformed otherwise |
| NmLines.NormalizeMeaning | tools/def_file_generator/def_file_generator.c:415-429 | the name inside an underscore, an at sign and digits, and any other name unchanged |
| NmLines.PlainNameStays | tools/def_file_generator/def_file_generator.c:418-421 | a name that does not begin with an underscore, or holds no at sign, stays as it is |
| NmSymbols.LineOrderIrrelevant | tools/def_file_generator/def_file_generator.c:668-671 | two listings with the same lines in any order give the same sets |
| NmSymbols.PrintedLineParses | tools/def_file_generator/def_file_generator.c:573-600 | a printed line gives back its symbol and type even when the path holds the separator |
| NmSymbols.StdcallRoundTrip | tools/def_file_generator/def_file_generator.c:415-429 | a name decorated with an underscore and an argument size is recovered |
| NmSymbols.RunKeepsGood | tools/def_file_generator/def_file_generator.c:683-690 | the invariant on stored names holds after every run |
| DefGenerator.SymbolSets.MergeDefinitionFile | tools/def_file_generator/def_file_generator.c:374-403 | reading a file line by line merges exactly its lines |
| DefGenerator.SymbolSets.WriteDefFile | tools/def_file_generator/def_file_generator.c:722-744 | writes the file of the two sets in sorted order, data first |
| DefGenerator.SymbolSets.ParseNmOutput | tools/def_file_generator/def_file_generator.c:563-613 | reading the listing line by line gives the specified sets and import pointers, or stops at the first malformed line |
| DefGenerator.SymbolSets.AddNmSymbol | tools/def_file_generator/def_file_generator.c:507-561 | the symbol joins the code set, the data set or neither, as the rules of its ABI say |
| DefGenerator.SymbolSets.RemoveImportedSymbols | tools/def_file_generator/def_file_generator.c:525-542 | both sets lose exactly the imported names |
| DefGenerator.SymbolSets.DiscoverObjectSymbols | tools/def_file_generator/def_file_generator.c:668-671 | the removal pass runs after the whole listing, and only if that was well formed |
| DefGenerator.RemoveAll | tools/def_file_generator/def_file_generator.c:533-540 | the in-place pass leaves exactly the names not looked up among the imports |
| DefGenerator.TextFile.ReadLine | tools/def_file_generator/def_file_generator.c:124-148 | returns the next line without its newline, and nothing exactly at the end |
| DefGenerator.FindSeparator | tools/def_file_generator/def_file_generator.c:573-576 | the step-by-two scan finds the last separator |
| DefGenerator.Trim | tools/def_file_generator/def_file_generator.c:150-161 | takes exactly the surrounding white space away |
| DefGenerator.ReadNmLine | tools/def_file_generator/def_file_generator.c:568-600 | classifies a line as blank, malformed or a symbol with its type |
| DefGenerator.NormalizeInPlace | tools/def_file_generator/def_file_generator.c:415-429 | strips the decoration within the array that holds the name |
| StringSets.StringSet.Insert | tools/def_file_generator/def_file_generator.c:73-89 | the sorted array afterwards holds the old elements and the new one, strictly increasing |
| StringSets.StringSet.Contains | tools/def_file_generator/def_file_generator.c:91-107 | binary search answers membership |
| StringSets.StringSet.RemoveAt | tools/def_file_generator/def_file_generator.c:109-114 | removes exactly the string at the position and keeps the order of the rest |
| StringSets.IncreasingUnique | tools/def_file_generator/def_file_generator.c:73-89 | a set has only one strictly increasing list |
| ShellWords.DecodeShellArgument | tools/def_file_generator/def_file_generator.c:163-226 | decoding in place agrees with the quote-state decoder on a copy of the input, errors included |
| ShellWords.QuotedRoundTrip | tools/def_file_generator/def_file_generator.c:170-213 | the single-quoted form of any string, with blanks around it, decodes to that string |
| ShellForms.DecodeMeaning | tools/def_file_generator/def_file_generator.c:163-226 | a line decodes to a text exactly if it is a word of plain, escaped, single-quoted and double-quoted parts with that text and white space around it, and gives each error exactly if it has the form for it |
| ShellForms.WordDecodes | tools/def_file_generator/def_file_generator.c:170-213 | adjacent parts, quoted or not, decode to their texts put together |
| ShellForms.PlainWord | tools/def_file_generator/def_file_generator.c:209-210 | a word without white space, quotes and backslashes decodes to itself |
| ShellForms.ObjectFile | tools/def_file_generator/def_file_generator.c:209-210 | `foo.o` decodes to `foo.o` |
| ShellForms.EscapedWord | tools/def_file_generator/def_file_generator.c:202-208 | any string decodes to itself with a backslash before each character |
| ShellForms.DoubleQuotedWord | tools/def_file_generator/def_file_generator.c:178-190 | and in double quotes with a backslash before each quote and backslash, and before others at will |
| ShellForms.TwoWordsFail | tools/def_file_generator/def_file_generator.c:191-198 | a word, white space and anything else are several arguments |
| ShellForms.EndFails | tools/def_file_generator/def_file_generator.c:182-218 | an open quote is unterminated, and a backslash at the end is a trailing escape |
| OverlayLinks.SymlinkSourceAndOverlay | private/llvm_project_common.bzl:131-155 | succeeds exactly for a mergeable overlay of at most 1,000,000 directories, visits each once, shows the union of the two trees, and puts no link under another |
| OverlayLinks.LinkDirectory | private/llvm_project_common.bzl:136-152 | one step succeeds exactly when the source has the directory and no overlay file hides a source path in it |
| OverlayLinks.LinkOverlayEntries | private/llvm_project_common.bzl:140-146 | links the files, pushes the subdirectories once each and records their names |
| OverlayLinks.LinkSourceEntries | private/llvm_project_common.bzl:148-151 | links exactly the entries whose names are not to be skipped, each to its own path |
| OverlayCopy.CopyOverlay | private/llvm_project_common.bzl:116-129 | succeeds exactly for at most 1,000,000 directories and when every file can be written; then it has visited each directory and written each overlay file once, in the repository or, below a link, in the source |
| OverlayCopy.CopyEntries | private/llvm_project_common.bzl:121-126 | writes the files of one directory and pushes its subdirectories, or stops at a file that cannot be written |
| OverlayCopy.OverlayIsSeen | private/llvm_project_common.bzl:116-129 | after the copy every overlay file is found at its path with its content, and everything not at or below one is found as before |
| OverlayCopy.SourceAfterCopy | private/llvm_project_common.bzl:116-129 | the source changes at exactly the overlay paths below links; the overlay itself stays as it is if none of its files lies below its own root |
| OverlayCopy.LinkCheckout | private/llvm_project_from_git.bzl:23-24 | links each top-level entry of the checkout, and nothing else |
| OverlayCopy.CopyIntoCheckout | private/llvm_project_from_git.bzl:23-27 | with a stripped prefix, the overlay files in directories the checkout has are written into the checkout, and the others into the repository |
| Repositories.Repository.Symlink | private/llvm_project_common.bzl:146-151 | makes the link, or fails if there is one at the path |
| Repositories.Repository.File | private/llvm_project_common.bzl:126-126 | writes below a link into the source at the link's place, and otherwise into the repository; fails below a file, behind a link to none, or at a directory with something in it |
| Repositories.Repository.Delete | private/llvm_project_from_path.bzl:13-13 | takes away what is at and below the path, behind the links above it |
| Repositories.WrittenRead | private/llvm_project_common.bzl:126-126 | what is written at a path, through links or not, is read there |
| Repositories.ReadElsewhere | private/llvm_project_common.bzl:126-126 | and everything not at or below the path reads as before |
| RepositoryWrites.CopiedNext | private/llvm_project_common.bzl:121-126 | one more file of a tree can be written exactly if it could at the start, and all that is said of the files before then holds with it |
| RepositoryWrites.OverlayUntouched | private/llvm_project_common.bzl:116-129 | writing files outside the overlay's root leaves the overlay as it was |
| OverlayPaths.SpellRoundTrip | private/llvm_project_common.bzl:111-114 | resolving the spelling of a path gives the path; only the root is spelled with a dot |
| ProjectLayout.OutputPaths | private/llvm_project_common.bzl:52-109 | the paths of the generated files as the rules write them |
| ProjectLayout.InputPaths | private/llvm_project_common.bzl:36-101 | and those of the files they read |
| OverlayWalk.Readdir | private/llvm_project_common.bzl:121-121 | lists every entry of a directory once, in any order, and fails for anything but a directory |
| OverlayWalk.WalkingStep | private/llvm_project_common.bzl:120-128 | popping a directory and pushing its subdirectories visits nothing twice and loses nothing |
| OverlayWalk.WalkingDone | private/llvm_project_common.bzl:127-128 | when the stack is empty every overlay directory has been visited once |
| OverlayTrees.LinksShowUnion | private/llvm_project_common.bzl:131-155 | through the links of a complete walk exactly the files of the two trees are seen |
| OverlayTrees.LinksAntichain | private/llvm_project_common.bzl:131-155 | no link path is a proper prefix of another, at any point of the walk |
| OverlayTrees.ReplacedShows | private/llvm_project_from_path.bzl:12-16 | replacing a directory by links to its entries shows the source below it and changes nothing elsewhere |
| OverlayTrees.ReplacedAntichain | private/llvm_project_from_path.bzl:12-16 | and keeps the links apart, with none left at or above the directory |
| OverlayTrees.MaterializedKeeps | private/llvm_project_from_path.bzl:8-16 | the three steps leave no link above the build file, and keep the union exactly when the overlay has no file at or below utils |
| OverlayTrees.SubtreeValid | private/llvm_project_from_path.bzl:18-22 | what lies below the overlay's root in a checkout is a tree of its own |
| OverlayTrees.OverlayRootInUtils | private/llvm_project_from_path.bzl:21-22 | a checkout that holds the overlay holds utils and utils/bazel |
| Checkouts.FileBelowUtilsIsLost | private/llvm_project_from_path.bzl:8-25 | a checkout whose overlay has a file in utils: the walk shows the file and the replacements lose it |
| PreparedLinks.ReplaceDirectory | private/llvm_project_from_path.bzl:12-16 | succeeds exactly for a source directory and does the replacement |
| PreparedLinks.MaterializeThirdPartyBuild | private/llvm_project_from_path.bzl:8-16 | does the three replacements from the top down, never through a link |
| ProjectFiles.ExposeThirdPartyBuildFiles | private/llvm_project_common.bzl:68-85 | does nothing without a pfm.BUILD; with one, reads and replaces the ignore file and then replaces the build file, or stops where one of these fails |
| ProjectFiles.WriteProjectFiles | private/llvm_project_common.bzl:87-109 | takes the steps of the rule in order, each reading, writing or replacing one file, and stops at the first that fails |
| ProjectFiles.GeneratedMeaning | private/llvm_project_common.bzl:87-109 | these succeed one after the other exactly when every input can be read and every output written at the start; then exactly these files have been written, each once |
| ProjectFromPath.PrepareLinks | private/llvm_project_from_path.bzl:18-25 | succeeds exactly when the checkout holds an overlay of at most 1,000,000 directories that can be merged with it, and the third-party build directory; leaves only links, prepared |
| ProjectFromPath.LinkProject | private/llvm_project_from_path.bzl:18-27 | prepares the links exactly when the checkout holds a mergeable overlay, and then succeeds exactly when every file the rule reads is seen and every file it generates can be written; afterwards exactly these files have been written, below links into the checkout |
| ProjectFromPath.NoOutputBelowLink | private/llvm_project_from_path.bzl:8-26 | no generated file lies below a link if and only if neither llvm nor bolt is a link: each is a directory of the overlay, or in neither tree |
| ProjectFromPath.LinksAboveOutputs | private/llvm_project_common.bzl:54-109 | which ones lie below a link otherwise: those in llvm, and the one in bolt |
| ProjectFromPath.CheckoutUntouched | private/llvm_project_from_path.bzl:8-26 | under that condition the rule leaves the checkout as it was |
| ProjectFromPath.CheckoutWritten | private/llvm_project_common.bzl:54-66 | and without it the targets file of the linked directory is in the checkout afterwards |
| ProjectFromPath.ProjectIsSeen | private/llvm_project_from_path.bzl:18-27 | every generated file is found with its content; beside them the union of the two trees is seen if the overlay has no file at or below utils |
| Checkouts.CheckoutIsWritten | private/llvm_project_from_path.bzl:18-27 | a checkout with bolt and an empty overlay: the rule succeeds and leaves two files in the checkout that it did not have |
| SymbolReport.DuplicatesMeaning | tools/internal/static_library_validator.c:382-404 | for every result of the unstable sort the report is, as a multiset, the kept entries whose symbol at least two kept entries define |
| SymbolReport.ReportEmptyMeaning | tools/internal/static_library_validator.c:382-406 | the report is empty exactly when all kept symbols are distinct |
| ReportReader.LibraryReport | tools/internal/static_library_validator.c:382-404 | a reader of member, type letter and symbol gets exactly the duplicates back from the report, if no member holds a colon and a space |
| ReportReader.FooTwice | tools/internal/static_library_validator.c:393-400 | the report on foo defined by a.o and b.o, in every byte |
| ReportReader.KeptArePrinted | tools/internal/static_library_validator.c:267-296 | what is kept are the entries printed on the lines |
| ReportReader.KeptKinds | tools/internal/static_library_validator.c:133-136 | the kinds that are kept are the capital letters but C, U, V and W |
| SymbolReport.ParseLineMeaning | tools/internal/static_library_validator.c:267-296 | a line gives an entry exactly when it has the printed form, and then the entry it was printed from |
| SymbolReport.SegmentsSplit | tools/internal/static_library_validator.c:371-377 | the output is cut at every newline and nowhere else, the last piece included |
| SymbolReport.CompareIsStrCmp | tools/internal/static_library_validator.c:298-309 | comparing bytes up to the shorter length and then lengths is comparing strings |
| SymbolReport.CompareSymbolsIsTotal | tools/internal/static_library_validator.c:298-309 | the comparator is a total preorder |
| SymbolValidator.ValidateLibrary | tools/internal/static_library_validator.c:371-406 | the check passes exactly when all kept symbols are distinct, and otherwise reports the duplicates of a sorted order |
| SymbolValidator.ParseNmOutput | tools/internal/static_library_validator.c:371-377 | keeps the entries of all lines, in order |
| SymbolValidator.ParseNmLine | tools/internal/static_library_validator.c:267-296 | appends the entry of the line, if there is one |
| SymbolValidator.GroupDuplicates | tools/internal/static_library_validator.c:382-404 | the nested index loops append exactly the report of the duplicates |
| SymbolValidator.SymbolList.Add | tools/internal/static_library_validator.c:117-131 | appends the entry, growing when full |

## Left out

- Process spawning, pipes, temporary files, environment variables, opening and closing files: nm output and files are given as text.
- Windows branches: wide-character conversion and the Windows directory and attribute calls are not part of this model.
- libarchive's bidder registration, the bid, close and error strings, and xz decompression of the payloads: outside the filter's loop.
- `expand_inputs`, `add_input`, `is_definition_file`, `parse_abi` and the response file of the definition file generator: sequences of modelled calls or short comparisons.
- The guard that skips the listing when there are no objects: it leaves the sets as they are.
- `read_file` and `copy_file` of the static library check, and the demangling of the report: they copy bytes.
- The text of the files the LLVM rules generate, the settings found in the two CMake files, and how the ignore file is edited: what is written at each path is any text, and a missing setting does not stop the rule.
- OverlayCopy.CopyOverlay: reads the overlay as it was when the copy began, which is exact unless an overlay file lies at or below the overlay's own root (`OverlayUntouched`).
- Repositories.Repository.Symlink: says nothing of a link to be made below another, which the rules never ask for.
- The clone, the patches and the deletion of `.git` in the rule for a git checkout, and a checkout in the repository itself; where that rule keeps its clone counts as outside the repository.
- Memory as such: addresses and the allocator are not modelled; releases are recorded by value in a log.
- Allocation failure and the wording of errors: an error is a variant carrying the paths or names it reports.
- Reading JSON beyond section 7 escapes below the surrogates: the generator emits none of the others.
- The other tools, the toolchain tables and the fixtures: they give only easy members.
