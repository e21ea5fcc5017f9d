/**
 The generator itself: it walks the directories, writing text into a growable buffer as
 it goes. Proved to write exactly the text of the tree the specification builds.
 */
module VfsRender {
  import opened CStrings
  import opened PreferredEntries
  import opened DirectoryEntries
  import opened TextBuffer
  import opened JsonStrings
  import opened VfsTree
  import opened VfsText

  // ---------- path strings ----------

  method MakeGenericPath(path: string) returns (generic: string)
    ensures generic == GenericPath(path)
  {
    var result := new char[|path|](i requires 0 <= i < |path| => path[i]);
    for index := 0 to |path|
      invariant forall k :: 0 <= k < index ==> result[k] == GenericPath(path)[k]
      invariant forall k :: index <= k < |path| ==> result[k] == path[k]
    {
      if result[index] == '\\' {
        result[index] := '/';
      }
    }
    generic := result[..];
  }

  method MakeJoinedPath(left: string, right: string) returns (path: string)
    ensures path == JoinPath(left, right)
  {
    var leftSize := |left|;
    var separator := if leftSize != 0 && left[leftSize - 1] != '/' && left[leftSize - 1] != '\\' then 1 else 0;
    var result := new char[leftSize + separator + |right|];
    PutText(result, 0, left);
    if separator == 1 {
      PutText(result, leftSize, "/");
      leftSize := leftSize + 1;
    }
    PutText(result, leftSize, right);
    path := result[..];
    assert path == result[..leftSize + |right|];
  }

  // ---------- writing the pieces ----------

  method Indent(output: Buffer, spaces: nat)
    requires output.Valid()
    modifies output.Repr
    ensures output.Valid() && output.Contents() == old(output.Contents()) + Spaces(spaces)
    ensures fresh(output.Repr - old(output.Repr))
  {
    ghost var before := output.Contents();
    var left := spaces;
    while left != 0
      invariant output.Valid() && output.Contents() + Spaces(left) == before + Spaces(spaces)
      invariant fresh(output.Repr - old(output.Repr))
    {
      ghost var now := output.Contents();
      output.Append(" ");
      left := left - 1;
      assert now + " " + Spaces(left) == now + Spaces(left + 1);
    }
  }

  /** One line of an object: its indentation, the key, the value, and what ends the line. */
  method AppendField(output: Buffer, indentation: nat, prefix: string, key: string, json: string, suffix: string,
                     ghost value: string)
    requires output.Valid() && json == JsonString(value) && prefix == "\"" + (key + "\": ")
    modifies output.Repr
    ensures output.Valid()
    ensures output.Contents() == old(output.Contents()) + (Spaces(indentation) + (Field(key, value) + suffix))
    ensures fresh(output.Repr - old(output.Repr))
  {
    ghost var before := output.Contents();
    Indent(output, indentation);
    output.Append(prefix + json + suffix);
    assert prefix + json == Field(key, value);
    Reassociate(before, Spaces(indentation), Field(key, value) + suffix);
  }

  /** The line giving the type, which needs no escaping. */
  method AppendTypeField(output: Buffer, indentation: nat, kind: string)
    requires output.Valid() && Plain(kind)
    modifies output.Repr
    ensures output.Valid() && fresh(output.Repr - old(output.Repr))
    ensures output.Contents() == old(output.Contents()) + (Spaces(indentation) + (TypeField(kind) + ",\n"))
  {
    FieldPrefixes();
    TypeFieldIsField(kind);
    var json := MakeJsonString(kind);
    AppendField(output, indentation, "\"type\": ", "type", json, ",\n", kind);
  }

  /** The texts of printf's formats. */
  lemma FieldPrefixes()
    ensures "\"type\": " == "\"" + ("type" + "\": ") && "\"name\": " == "\"" + ("name" + "\": ")
    ensures "\"external-contents\": " == "\"" + ("external-contents" + "\": ")
  {
  }

  method RenderOpening(name: string, output: Buffer, indentation: nat)
    requires output.Valid()
    modifies output.Repr
    ensures output.Valid() && output.Contents() == old(output.Contents()) + DirText(name, indentation + 2, "")
    ensures fresh(output.Repr - old(output.Repr))
  {
    ghost var before := output.Contents();
    FieldPrefixes();
    PlainKeys();
    var jsonName := MakeJsonString(name);
    output.Append("{\n");
    AppendTypeField(output, indentation + 2, "directory");
    AppendField(output, indentation + 2, "\"name\": ", "name", jsonName, "", name);
    OpeningText(before, Spaces(indentation + 2), TypeField("directory"), Field("name", name));
  }

  lemma OpeningText(before: string, spaces: string, first: string, second: string)
    ensures before + "{\n" + (spaces + (first + ",\n")) + (spaces + (second + ""))
         == before + ("{" + ("\n" + (spaces + (first + ("," + ("\n" + (spaces + (second + ""))))))))
  {
    assert "{\n" == "{" + "\n" && ",\n" == "," + "\n";
  }

  method RenderFileStart(name: string, output: Buffer, indentation: nat)
    requires output.Valid()
    modifies output.Repr
    ensures output.Valid() && fresh(output.Repr - old(output.Repr))
    ensures output.Contents() == old(output.Contents()) + "{\n" + (Spaces(indentation) + (TypeField("file") + ",\n"))
                               + (Spaces(indentation) + (Field("name", name) + ",\n"))
  {
    FieldPrefixes();
    PlainKeys();
    var jsonName := MakeJsonString(name);
    output.Append("{\n");
    AppendTypeField(output, indentation, "file");
    AppendField(output, indentation, "\"name\": ", "name", jsonName, ",\n", name);
  }

  method RenderFile(name: string, generic: string, output: Buffer, indentation: nat)
    requires output.Valid()
    modifies output.Repr
    ensures output.Valid() && fresh(output.Repr - old(output.Repr))
    ensures output.Contents() ==
      old(output.Contents()) + FileText(name, generic, indentation + 2, NewLine(indentation, "}", ""))
  {
    ghost var before := output.Contents();
    FieldPrefixes();
    var external := MakeJsonString(generic);
    RenderFileStart(name, output, indentation + 2);
    AppendField(output, indentation + 2, "\"external-contents\": ", "external-contents", external, "\n", generic);
    Indent(output, indentation);
    output.Append("}");
    FourLines(before, Spaces(indentation + 2), TypeField("file"), Field("name", name),
      Field("external-contents", generic), Spaces(indentation));
  }

  lemma FourLines(before: string, spaces: string, first: string, second: string, third: string, last: string)
    ensures before + "{\n" + (spaces + (first + ",\n")) + (spaces + (second + ",\n")) + (spaces + (third + "\n")) +
      last + "}"
         == before + ("{" + ("\n" + (spaces + (first + ("," + ("\n" + (spaces + (second +
            ("," + ("\n" + (spaces + (third + ("\n" + (last + ("}" + "")))))))))))))))
  {
    assert "{\n" == "{" + "\n" && ",\n" == "," + "\n" && "}" + "" == "}";
    var c := "\n" + (last + "}");
    var b := "," + ("\n" + (spaces + (third + c)));
    var a := "," + ("\n" + (spaces + (second + b)));
    assert (spaces + (third + "\n")) + last + "}" == spaces + (third + c);
    assert (spaces + (second + ",\n")) + (spaces + (third + c)) == spaces + (second + b);
    assert (spaces + (first + ",\n")) + (spaces + (second + b)) == spaces + (first + a);
    assert "{\n" + (spaces + (first + a)) == "{" + ("\n" + (spaces + (first + a)));
    Reassociate(before, "{\n", spaces + (first + a));
  }

  method RenderListOpening(output: Buffer, indentation: nat)
    requires output.Valid()
    modifies output.Repr
    ensures output.Valid()
    ensures output.Contents() == old(output.Contents()) + ListOpening(indentation) + "\n"
    ensures fresh(output.Repr - old(output.Repr))
  {
    ghost var before := output.Contents();
    output.Append(",\n");
    Indent(output, indentation + 2);
    output.Append("\"contents\": [\n");
    assert "\"contents\": [\n" == "\"contents\": [" + "\n";
    ListOpeningText(before, Spaces(indentation + 2), "\"contents\": [");
  }

  lemma ListOpeningText(before: string, spaces: string, text: string)
    ensures before + ",\n" + spaces + (text + "\n") == before + ("," + ("\n" + (spaces + (text + "")))) + "\n"
  {
    assert ",\n" == "," + "\n" && text + "" == text;
  }

  // ---------- the recursive walk ----------

  /** The text up to the newline that ends an entry's line, after each step of the loop. */
  lemma EntryStep(written: string, trees: seq<Tree>, i: nat, indentation: nat, end: string)
    requires i < |trees|
    ensures var line := written + "\n" + Spaces(indentation) + PrintTree(trees[i], indentation, "") +
      Comma(i + 1 != |trees|);
      line + PrintAll(trees[i + 1..], indentation, end) == written + PrintAll(trees[i..], indentation, end)
  {
    var tree, comma, next := trees[i], Comma(i + 1 != |trees|), PrintAll(trees[i + 1..], indentation, end);
    assert trees[i..][1..] == trees[i + 1..];
    PrintTreeThen(tree, indentation, "", comma + next);
    assert "" + (comma + next) == comma + next;
    var text := PrintTree(tree, indentation, "");
    assert PrintAll(trees[i..], indentation, end) == "\n" + (Spaces(indentation) + ("" + (text + (comma + next))));
    assert "" + (text + (comma + next)) == text + (comma + next);
    FiveParts(written, Spaces(indentation), text, comma, next);
  }

  lemma FiveParts(a: string, b: string, c: string, d: string, e: string)
    ensures a + "\n" + b + c + d + e == a + ("\n" + (b + (c + (d + e))))
  {
  }

  method AppendEntryEnd(output: Buffer, more: bool)
    requires output.Valid()
    modifies output.Repr
    ensures output.Valid() && output.Contents() == old(output.Contents()) + Comma(more) + "\n"
    ensures fresh(output.Repr - old(output.Repr))
  {
    if more {
      output.Append(",");
    } else {
      assert output.Contents() + "" == output.Contents();
    }
    output.Append("\n");
  }

  /** Either the error is reported, or the tree's text has been appended. */
  ghost predicate Outcome(built: Result<Tree, Error>, error: Option<Error>, before: string, after: string,
                          indentation: nat) {
    match built
    case Failure(e) => error == Some(e)
    case Success(tree) => error == None && after == before + PrintTree(tree, indentation, "")
  }

  ghost function ObjectOf(name: string, contents: Result<seq<Tree>, Error>): Result<Tree, Error> {
    match contents
    case Failure(error) => Failure(error)
    case Success(trees) => Success(Dir(name, trees))
  }

  /** A directory listed without ambiguity gives the object of its preferred entries. */
  lemma BuildListed(path: string, name: string, node: Node, kept: seq<Entry>)
    requires node.Directory? && Collected(node.entries.Keys) == Success(kept)
    ensures forall e :: e in kept ==> e.name in node.entries
    ensures BuildDirectory(path, name, node) == ObjectOf(name, BuildContents(path, node, kept))
  {
    KeptAreNames(node.entries.Keys);
  }

  method RenderEntry(path: string, name: string, node: Node, output: Buffer, indentation: nat)
    returns (error: Option<Error>)
    requires output.Valid() && ProperNames(node)
    modifies output.Repr
    ensures output.Valid() && fresh(output.Repr - old(output.Repr))
    ensures Outcome(BuildEntry(path, name, node), error, old(output.Contents()), output.Contents(), indentation)
    decreases node, 3
  {
    match PathInfo(node) {
      case None =>
        return Some(NoStat(path));
      case Some((DirectoryPath, isSymlink)) =>
        if isSymlink {
          var generic := MakeGenericPath(path);
          return Some(DirectorySymlink(generic));
        }
        error := RenderDirectory(path, name, node, output, indentation);
      case Some((RegularPath, _)) =>
        var generic := MakeGenericPath(path);
        RenderFile(name, generic, output, indentation);
        error := None;
      case Some((OtherPath, _)) =>
        var generic := MakeGenericPath(path);
        return Some(Unsupported(generic));
    }
  }

  ghost function Built(r: Result<seq<Tree>, Error>): seq<Tree> {
    match r
    case Success(trees) => trees
    case Failure(_) => []
  }

  /** One line of a directory's contents, for the entry called `name`. */
  method RenderLine(path: string, name: string, node: Node, output: Buffer, indentation: nat, more: bool)
    returns (error: Option<Error>)
    requires output.Valid() && ProperNames(node)
    modifies output.Repr
    ensures output.Valid() && fresh(output.Repr - old(output.Repr))
    ensures match BuildEntry(JoinPath(path, name), name, node)
      case Failure(e) => error == Some(e)
      case Success(tree) =>
        && error == None
        && output.Contents() == old(output.Contents()) + Spaces(indentation) + PrintTree(tree, indentation, "") +
             Comma(more) + "\n"
    decreases node, 4
  {
    var fullPath := MakeJoinedPath(path, name);
    Indent(output, indentation);
    error := RenderEntry(fullPath, name, node, output, indentation);
    if error.None? {
      AppendEntryEnd(output, more);
    }
  }

  /** How the result for the entries from `index` on depends on the entry at `index`. */
  lemma BuildStep(path: string, node: Node, kept: seq<Entry>, index: nat)
    requires node.Directory? && (forall e :: e in kept ==> e.name in node.entries) && index < |kept|
    ensures BuildContents(path, node, kept[index..]) ==
      match BuildEntry(JoinPath(path, kept[index].name), kept[index].name, node.entries[kept[index].name])
      case Failure(error) => Failure(error)
      case Success(tree) =>
        match BuildContents(path, node, kept[index + 1..])
        case Failure(error) => Failure(error)
        case Success(trees) => Success([tree] + trees)
  {
    assert kept[index..][0] == kept[index] && kept[index..][1..] == kept[index + 1..];
  }

  /** The loop's invariant about what is built: the rest fails as the whole does, or gives the rest of its trees. */
  ghost predicate RestAgrees(path: string, node: Node, kept: seq<Entry>, index: nat)
    requires node.Directory? && (forall e :: e in kept ==> e.name in node.entries) && index <= |kept|
  {
    match BuildContents(path, node, kept)
    case Failure(e) => BuildContents(path, node, kept[index..]) == Failure(e)
    case Success(trees) => BuildContents(path, node, kept[index..]) == Success(trees[index..])
  }

  lemma RestStep(path: string, node: Node, kept: seq<Entry>, index: nat)
    requires node.Directory? && (forall e :: e in kept ==> e.name in node.entries) && index < |kept|
    requires RestAgrees(path, node, kept, index)
    ensures var entry := BuildEntry(JoinPath(path, kept[index].name), kept[index].name, node.entries[kept[index].name]);
      match BuildContents(path, node, kept)
      case Failure(e) => entry == Failure(e) || (entry.Success? && RestAgrees(path, node, kept, index + 1))
      case Success(trees) => entry == Success(trees[index]) && RestAgrees(path, node, kept, index + 1)
  {
    BuildStep(path, node, kept, index);
    var whole := BuildContents(path, node, kept);
    if whole.Success? {
      var entry := BuildEntry(JoinPath(path, kept[index].name), kept[index].name, node.entries[kept[index].name]);
      var rest := BuildContents(path, node, kept[index + 1..]);
      assert entry.Success? && rest.Success?;
      HeadAndRest(entry.value, rest.value, whole.value, index);
    }
  }

  lemma HeadAndRest(head: Tree, rest: seq<Tree>, trees: seq<Tree>, index: nat)
    requires index < |trees| && [head] + rest == trees[index..]
    ensures head == trees[index] && rest == trees[index + 1..]
  {
    assert trees[index] == trees[index..][0] == head;
    assert trees[index + 1..] == trees[index..][1..] == rest;
  }

  lemma FromStart(path: string, node: Node, kept: seq<Entry>, trees: seq<Tree>)
    requires node.Directory? && (forall e :: e in kept ==> e.name in node.entries)
    ensures RestAgrees(path, node, kept, 0) && trees[0..] == trees
  {
    assert kept[0..] == kept;
    var whole := BuildContents(path, node, kept);
    assert whole.Success? ==> whole.value[0..] == whole.value;
  }

  method RenderContents(path: string, node: Node, entries: EntryList, output: Buffer, indentation: nat,
                        ghost kept: seq<Entry>, ghost written: string, ghost end: string)
      returns (error: Option<Error>, ghost line: string)
    requires output.Valid() && node.Directory? && ProperNames(node) && entries.Valid() && entries.List() == kept
    requires entries !in output.Repr && entries.values !in output.Repr
    requires forall e :: e in kept ==> e.name in node.entries
    requires output.Contents() == written + "\n"
    modifies output.Repr
    ensures output.Valid() && fresh(output.Repr - old(output.Repr))
    ensures match BuildContents(path, node, kept)
      case Failure(e) => error == Some(e)
      case Success(trees) =>
        error == None && output.Contents() == line + "\n" && line + end == written + PrintAll(trees, indentation, end)
    decreases node, 0
  {
    ghost var whole := BuildContents(path, node, kept);
    ghost var trees := Built(whole);
    ghost var text := written + PrintAll(trees, indentation, end);
    line := written;
    var index := 0;
    FromStart(path, node, kept, trees);
    while index < entries.count
      invariant index <= entries.count == |kept|
      invariant output.Valid() && fresh(output.Repr - old(output.Repr))
      invariant entries.Valid() && entries.List() == kept
      invariant entries !in output.Repr && entries.values !in output.Repr
      invariant RestAgrees(path, node, kept, index)
      invariant whole.Success? ==>
        output.Contents() == line + "\n" && line + PrintAll(trees[index..], indentation, end) == text
    {
      var entry := entries.values[index];
      assert entry == kept[index];
      RestStep(path, node, kept, index);
      error := RenderLine(path, entry.name, node.entries[entry.name], output, indentation, index + 1 != entries.count);
      if error.Some? {
        return;
      }
      if whole.Success? {
        EntryStep(line, trees, index, indentation, end);
        line := line + "\n" + Spaces(indentation) + PrintTree(trees[index], indentation, "") +
          Comma(index + 1 != |trees|);
      }
      index := index + 1;
    }
    error := None;
  }

  method RenderListEnd(output: Buffer, indentation: nat, ghost line: string)
    requires output.Valid() && output.Contents() == line + "\n"
    modifies output.Repr
    ensures output.Valid() && fresh(output.Repr - old(output.Repr))
    ensures output.Contents() == line + NewLine(indentation + 2, "]", "")
  {
    Indent(output, indentation + 2);
    output.Append("]");
    LineText(line, Spaces(indentation + 2), "]");
  }

  method RenderObjectEnd(output: Buffer, indentation: nat)
    requires output.Valid()
    modifies output.Repr
    ensures output.Valid() && fresh(output.Repr - old(output.Repr))
    ensures output.Contents() == old(output.Contents()) + NewLine(indentation, "}", "")
  {
    ghost var before := output.Contents();
    output.Append("\n");
    Indent(output, indentation);
    output.Append("}");
    LineText(before, Spaces(indentation), "}");
  }

  lemma LineText(before: string, spaces: string, text: string)
    ensures before + "\n" + spaces + text == before + ("\n" + (spaces + (text + "")))
  {
    assert text + "" == text;
  }

  ghost function ListOpening(indentation: nat): string {
    "," + NewLine(indentation + 2, "\"contents\": [", "")
  }

  ghost function DirectoryEnd(indentation: nat): string {
    NewLine(indentation + 2, "]", NewLine(indentation, "}", ""))
  }

  /** How the pieces written for a directory make up its text. */
  lemma DirectoryText(before: string, name: string, trees: seq<Tree>, indentation: nat)
    requires trees != []
    ensures before + DirText(name, indentation + 2, "") + ListOpening(indentation) +
      PrintAll(trees, indentation + 4, DirectoryEnd(indentation))
         == before + PrintTree(Dir(name, trees), indentation, "")
  {
    var start, opening := DirText(name, indentation + 2, ""), ListOpening(indentation);
    var list := PrintAll(trees, indentation + 4, DirectoryEnd(indentation));
    ListText(indentation, list);
    DirTextThen(name, indentation + 2, "", opening + list);
    Prepended(opening + list);
    assert PrintTree(Dir(name, trees), indentation, "") == start + (opening + list);
    Reassociate(before + start, opening, list);
    Reassociate(before, start, opening + list);
  }

  lemma Prepended(s: string)
    ensures "" + s == s
  {
  }

  lemma ListText(indentation: nat, list: string)
    ensures ListOpening(indentation) + list == "," + NewLine(indentation + 2, "\"contents\": [", list)
  {
    CommaThen(indentation + 2, "\"contents\": [", "", list);
    Prepended(list);
  }

  lemma DirectoryEndParts(line: string, indentation: nat)
    ensures line + NewLine(indentation + 2, "]", "") + NewLine(indentation, "}", "") == line + DirectoryEnd(indentation)
  {
    var bracket, closing := NewLine(indentation + 2, "]", ""), NewLine(indentation, "}", "");
    NewLineThen(indentation + 2, "]", "", closing);
    assert "" + closing == closing;
    assert DirectoryEnd(indentation) == bracket + closing;
    Reassociate(line, bracket, closing);
  }

  lemma EmptyDirectoryText(before: string, name: string, indentation: nat)
    ensures before + DirText(name, indentation + 2, "") + NewLine(indentation, "}", "")
         == before + PrintTree(Dir(name, []), indentation, "")
  {
    var opening, end, whole := DirText(name, indentation + 2, ""), NewLine(indentation, "}", ""),
      PrintTree(Dir(name, []), indentation, "");
    DirTextThen(name, indentation + 2, "", end);
    assert "" + end == end;
    assert whole == opening + end;
    Reassociate(before, opening, end);
  }

  method RenderDirectoryEnd(output: Buffer, indentation: nat, ghost line: string)
    requires output.Valid() && output.Contents() == line + "\n"
    modifies output.Repr
    ensures output.Valid() && fresh(output.Repr - old(output.Repr))
    ensures output.Contents() == line + DirectoryEnd(indentation)
  {
    RenderListEnd(output, indentation, line);
    RenderObjectEnd(output, indentation);
    DirectoryEndParts(line, indentation);
  }

  /** The non-empty list of a directory's contents, and the end of the directory's object. */
  method RenderList(path: string, name: string, node: Node, entries: EntryList, output: Buffer, indentation: nat,
                    ghost kept: seq<Entry>, ghost start: string)
      returns (error: Option<Error>)
    requires output.Valid() && node.Directory? && ProperNames(node) && entries.Valid() && entries.List() == kept
    requires entries !in output.Repr && entries.values !in output.Repr
    requires forall e :: e in kept ==> e.name in node.entries
    requires output.Contents() == start
    modifies output.Repr
    ensures output.Valid() && fresh(output.Repr - old(output.Repr))
    ensures match BuildContents(path, node, kept)
      case Failure(e) => error == Some(e)
      case Success(trees) =>
        && error == None
        && output.Contents() == start + ListOpening(indentation) +
             PrintAll(trees, indentation + 4, DirectoryEnd(indentation))
    decreases node, 1, 0
  {
    ghost var line, end := "", DirectoryEnd(indentation);
    RenderListOpening(output, indentation);
    ghost var written := start + ListOpening(indentation);
    error, line := RenderContents(path, node, entries, output, indentation + 4, kept, written, end);
    if error.None? {
      RenderDirectoryEnd(output, indentation, line);
    }
  }

  method RenderDirectory(path: string, name: string, node: Node, output: Buffer, indentation: nat)
    returns (error: Option<Error>)
    requires output.Valid() && ProperNames(node)
    modifies output.Repr
    ensures output.Valid() && fresh(output.Repr - old(output.Repr))
    ensures Outcome(BuildDirectory(path, name, node), error, old(output.Contents()), output.Contents(), indentation)
    decreases node, 2
  {
    var entries, outcome := CollectPreferred(Delivered(node), node.Directory?);
    match outcome {
      case ReadFailed =>
        return Some(Unreadable(path));
      case Clash(first, second) =>
        return Some(AmbiguousNames(path, first, second));
      case Listed =>
    }
    BuildListed(path, name, node, entries.List());
    error := RenderListed(path, name, node, entries, output, indentation, entries.List());
  }

  /** The object for a directory whose entries are collected; the entries are released afterwards. */
  method RenderListed(path: string, name: string, node: Node, entries: EntryList, output: Buffer, indentation: nat,
                      ghost kept: seq<Entry>)
      returns (error: Option<Error>)
    requires output.Valid() && node.Directory? && ProperNames(node) && entries.Valid() && entries.List() == kept
    requires entries !in output.Repr && entries.values !in output.Repr
    requires forall e :: e in kept ==> e.name in node.entries
    modifies output.Repr, entries
    ensures output.Valid() && fresh(output.Repr - old(output.Repr))
    ensures Outcome(ObjectOf(name, BuildContents(path, node, kept)), error, old(output.Contents()), output.Contents(),
      indentation)
    ensures entries.Valid() && entries.List() == [] && entries.freed == old(entries.freed) + kept
    decreases node, 1, 2
  {
    error := RenderObject(path, name, node, entries, output, indentation, kept);
    entries.Free();
  }

  /** The object for a directory whose entries are collected. */
  method RenderObject(path: string, name: string, node: Node, entries: EntryList, output: Buffer, indentation: nat,
                      ghost kept: seq<Entry>)
      returns (error: Option<Error>)
    requires output.Valid() && node.Directory? && ProperNames(node) && entries.Valid() && entries.List() == kept
    requires entries !in output.Repr && entries.values !in output.Repr
    requires forall e :: e in kept ==> e.name in node.entries
    modifies output.Repr
    ensures output.Valid() && fresh(output.Repr - old(output.Repr))
    ensures Outcome(ObjectOf(name, BuildContents(path, node, kept)), error, old(output.Contents()), output.Contents(),
      indentation)
    decreases node, 1, 1
  {
    ghost var before := output.Contents();
    RenderOpening(name, output, indentation);
    if entries.count == 0 {
      RenderObjectEnd(output, indentation);
      EmptyDirectoryText(before, name, indentation);
      error := None;
    } else {
      error := RenderList(path, name, node, entries, output, indentation, kept, output.Contents());
      ghost var built := BuildContents(path, node, kept);
      if built.Success? {
        DirectoryText(before, name, built.value, indentation);
      }
    }
  }
}
