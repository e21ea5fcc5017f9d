/**
 The overlay's text, written in front of whatever follows it, and the proof that a JSON
 reader gets the tree back from it at every nesting depth and entry count.
 */
module VfsText {
  import opened CStrings
  import opened JsonStrings
  import opened JsonReader
  import opened VfsTree

  // ---------- writing ----------

  function Spaces(n: nat): string {
    if n == 0 then [] else " " + Spaces(n - 1)
  }

  function NewLine(indentation: nat, text: string, rest: string): string {
    "\n" + (Spaces(indentation) + (text + rest))
  }

  function Field(key: string, value: string): string {
    "\"" + (key + ("\": " + JsonString(value)))
  }

  function FileText(name: string, external: string, indentation: nat, end: string): string {
    "{" + NewLine(indentation, TypeField("file"),
    "," + NewLine(indentation, Field("name", name),
    "," + NewLine(indentation, Field("external-contents", external), end)))
  }

  function DirText(name: string, indentation: nat, rest: string): string {
    "{" + NewLine(indentation, TypeField("directory"),
    "," + NewLine(indentation, Field("name", name), rest))
  }

  /** The type field; the two types are their own escaped form. */
  function TypeField(kind: string): string {
    "\"" + ("type" + ("\": " + ("\"" + (kind + "\""))))
  }

  function PrintTree(tree: Tree, indentation: nat, rest: string): string
    decreases tree, 0
  {
    var end := NewLine(indentation, "}", rest);
    match tree
    case File(name, external) => FileText(name, external, indentation + 2, end)
    case Dir(name, contents) =>
      if contents == [] then DirText(name, indentation + 2, end)
      else DirText(name, indentation + 2,
             "," + NewLine(indentation + 2, "\"contents\": [",
                            PrintAll(contents, indentation + 4, NewLine(indentation + 2, "]", end))))
  }

  /** Trees one to a line, separated by commas. */
  function PrintAll(trees: seq<Tree>, indentation: nat, rest: string): string
    decreases trees, 1
  {
    if trees == [] then rest
    else NewLine(indentation, "",
      PrintTree(trees[0], indentation, Comma(|trees| > 1) + PrintAll(trees[1..], indentation, rest)))
  }

  function Comma(more: bool): string {
    if more then "," else ""
  }

  function PrintOverlay(roots: seq<Tree>): string {
    "{" + NewLine(2, "\"version\": 0",
    "," + NewLine(2, "\"case-sensitive\": false",
    "," + NewLine(2, "\"roots\": [", PrintAll(roots, 4, NewLine(2, "]", NewLine(0, "}", "\n"))))))
  }

  // ---------- text before what follows ----------

  lemma NewLineThen(indentation: nat, text: string, a: string, b: string)
    ensures NewLine(indentation, text, a + b) == NewLine(indentation, text, a) + b
  {
  }

  lemma CommaThen(indentation: nat, text: string, a: string, b: string)
    ensures "," + NewLine(indentation, text, a + b) == ("," + NewLine(indentation, text, a)) + b
  {
    NewLineThen(indentation, text, a, b);
  }

  lemma BraceThen(indentation: nat, text: string, a: string, b: string)
    ensures "{" + NewLine(indentation, text, a + b) == ("{" + NewLine(indentation, text, a)) + b
  {
    NewLineThen(indentation, text, a, b);
  }

  lemma FileTextThen(name: string, external: string, indentation: nat, end: string, b: string)
    ensures FileText(name, external, indentation, end + b) == FileText(name, external, indentation, end) + b
  {
    var third := "," + NewLine(indentation, Field("external-contents", external), end);
    CommaThen(indentation, Field("external-contents", external), end, b);
    CommaThen(indentation, Field("name", name), third, b);
    BraceThen(indentation, TypeField("file"), "," + NewLine(indentation, Field("name", name), third), b);
  }

  lemma DirTextThen(name: string, indentation: nat, a: string, b: string)
    ensures DirText(name, indentation, a + b) == DirText(name, indentation, a) + b
  {
    CommaThen(indentation, Field("name", name), a, b);
    BraceThen(indentation, TypeField("directory"), "," + NewLine(indentation, Field("name", name), a), b);
  }

  lemma {:induction false} PrintTreeThen(tree: Tree, indentation: nat, a: string, b: string)
    ensures PrintTree(tree, indentation, a + b) == PrintTree(tree, indentation, a) + b
    decreases tree, 0
  {
    NewLineThen(indentation, "}", a, b);
    var end := NewLine(indentation, "}", a);
    match tree
    case File(name, external) => FileTextThen(name, external, indentation + 2, end, b);
    case Dir(name, contents) =>
      if contents == [] {
        DirTextThen(name, indentation + 2, end, b);
      } else {
        NewLineThen(indentation + 2, "]", end, b);
        var all := NewLine(indentation + 2, "]", end);
        PrintAllThen(contents, indentation + 4, all, b);
        var list := PrintAll(contents, indentation + 4, all);
        CommaThen(indentation + 2, "\"contents\": [", list, b);
        DirTextThen(name, indentation + 2, "," + NewLine(indentation + 2, "\"contents\": [", list), b);
      }
  }

  lemma {:induction false} PrintAllThen(trees: seq<Tree>, indentation: nat, a: string, b: string)
    ensures PrintAll(trees, indentation, a + b) == PrintAll(trees, indentation, a) + b
    decreases trees, 1
  {
    if trees != [] {
      PrintAllThen(trees[1..], indentation, a, b);
      var tail := Comma(|trees| > 1) + PrintAll(trees[1..], indentation, a);
      assert Comma(|trees| > 1) + (PrintAll(trees[1..], indentation, a) + b) == tail + b;
      PrintTreeThen(trees[0], indentation, tail, b);
      NewLineThen(indentation, "", PrintTree(trees[0], indentation, tail), b);
    }
  }

  // ---------- what the text means ----------

  function TreeJson(tree: Tree): Json
    decreases tree, 0
  {
    match tree
    case File(name, external) =>
      Obj([("type", Str("file"))] + ([("name", Str(name))] + [("external-contents", Str(external))]))
    case Dir(name, contents) =>
      Obj([("type", Str("directory"))] +
          ([("name", Str(name))] + if contents == [] then [] else [("contents", Arr(TreesJson(contents)))]))
  }

  function TreesJson(trees: seq<Tree>): (r: seq<Json>)
    ensures |r| == |trees|
    decreases trees, 1
  {
    if trees == [] then [] else [TreeJson(trees[0])] + TreesJson(trees[1..])
  }

  function OverlayJson(roots: seq<Tree>): Json {
    Obj([("version", Number("0"))] + ([("case-sensitive", Bool(false))] + [("roots", Arr(TreesJson(roots)))]))
  }

  /** Different trees are described by different JSON values. */
  lemma {:induction false} TreeJsonInjective(a: Tree, b: Tree)
    requires TreeJson(a) == TreeJson(b)
    ensures a == b
    decreases a, 0
  {
    var members := TreeJson(a).members;
    assert members[0] == TreeJson(b).members[0] && members[1] == TreeJson(b).members[1];
    if a.File? {
      assert members[2] == TreeJson(b).members[2];
    } else if a.contents != [] {
      assert members[2] == TreeJson(b).members[2];
      TreesJsonInjective(a.contents, b.contents);
    } else {
      assert |members| == 2;
    }
  }

  lemma {:induction false} TreesJsonInjective(a: seq<Tree>, b: seq<Tree>)
    requires TreesJson(a) == TreesJson(b)
    ensures a == b
    decreases a, 1
  {
    if a != [] {
      assert TreeJson(a[0]) == TreesJson(a)[0] == TreesJson(b)[0] == TreeJson(b[0]);
      TreeJsonInjective(a[0], b[0]);
      assert TreesJson(a)[1..] == TreesJson(a[1..]) && TreesJson(b)[1..] == TreesJson(b[1..]);
      TreesJsonInjective(a[1..], b[1..]);
      assert a == [a[0]] + a[1..] && b == [b[0]] + b[1..];
    }
  }

  // ---------- reading it back ----------

  predicate IsWs(c: char) {
    c == ' ' || c == '\t' || c == '\n' || c == '\r'
  }

  lemma {:induction false} SkipSpaces(n: nat, s: string)
    requires s != [] && !IsWs(s[0])
    ensures SkipWs(Spaces(n) + s) == s
  {
    if n == 0 {
      assert Spaces(n) + s == s;
    } else {
      SkipSpaces(n - 1, s);
      assert (Spaces(n) + s)[1..] == Spaces(n - 1) + s;
    }
  }

  lemma SkipNewLine(indentation: nat, text: string, rest: string)
    requires text + rest != [] && !IsWs((text + rest)[0])
    ensures SkipWs(NewLine(indentation, text, rest)) == text + rest
  {
    SkipSpaces(indentation, text + rest);
    assert NewLine(indentation, text, rest)[1..] == Spaces(indentation) + (text + rest);
  }

  lemma SkipOneSpace(s: string)
    requires s != [] && !IsWs(s[0])
    ensures SkipWs(" " + s) == s
  {
    assert (" " + s)[1..] == s;
    assert SkipWs(s) == s;
  }

  /** A key that is its own escaped form. */
  predicate Plain(key: string) {
    forall i :: 0 <= i < |key| ==> key[i] as int >= 0x20 && key[i] != '"' && key[i] != '\\'
  }

  lemma PlainKeys()
    ensures Plain("type") && Plain("name") && Plain("contents") && Plain("external-contents")
    ensures Plain("file") && Plain("directory")
    ensures Plain("version") && Plain("case-sensitive") && Plain("roots")
  {
  }

  lemma {:induction false} PlainEscapes(key: string)
    requires Plain(key)
    ensures EscapeAll(key) == key
  {
    if key != [] {
      PlainEscapes(key[1..]);
      assert key == [key[0]] + key[1..];
    }
  }

  lemma ReadKeyChars(key: string, value: string)
    requires Plain(key)
    ensures ReadChars(("\"" + (key + ("\": " + value)))[1..]) == Some((key, ": " + value))
  {
    PlainEscapes(key);
    ReadEscaped(key, ": " + value);
    assert ("\"" + (key + ("\": " + value)))[1..] == EscapeAll(key) + ("\"" + (": " + value));
  }

  /** The reader takes a printed key, and goes on at the value after the colon. */
  lemma ReadKey(s: string, key: string, value: string, v: Json, rest: string)
    requires Plain(key) && SkipWs(s) == "\"" + (key + ("\": " + value))
    requires ReadValue(" " + value) == Some((v, rest))
    ensures ReadMembers(s) == MoreMembers(key, v, rest)
  {
    ReadKeyChars(key, value);
    var u := ": " + value;
    assert SkipWs(u) == u && u[1..] == " " + value;
  }

  lemma ReadStringValue(value: string, rest: string)
    ensures ReadValue(" " + (JsonString(value) + rest)) == Some((Str(value), rest))
  {
    JsonStringRoundTrip(value, rest);
    SkipOneSpace(JsonString(value) + rest);
  }

  lemma ReadField(indentation: nat, key: string, value: string, rest: string)
    requires Plain(key)
    ensures ReadMembers(NewLine(indentation, Field(key, value), rest)) == MoreMembers(key, Str(value), rest)
  {
    SkipNewLine(indentation, Field(key, value), rest);
    Regroup(key, JsonString(value), rest);
    ReadStringValue(value, rest);
    ReadKey(NewLine(indentation, Field(key, value), rest), key, JsonString(value) + rest, Str(value), rest);
  }

  lemma AfterComma(key: string, value: Json, next: string, members: seq<(string, Json)>, rest: string)
    requires ReadMembers(next) == Some((members, rest))
    ensures MoreMembers(key, value, "," + next) == Some(([(key, value)] + members, rest))
  {
    assert ("," + next)[1..] == next;
  }

  lemma AtClosingBrace(key: string, value: Json, indentation: nat, rest: string)
    ensures MoreMembers(key, value, NewLine(indentation, "}", rest)) == Some(([(key, value)], rest))
  {
    SkipNewLine(indentation, "}", rest);
    assert ("}" + rest)[1..] == rest;
  }

  lemma FieldThenMembers(indentation: nat, key: string, value: string, next: string, members: seq<(string, Json)>,
                         rest: string)
    requires Plain(key) && ReadMembers(next) == Some((members, rest))
    ensures ReadMembers(NewLine(indentation, Field(key, value), "," + next)) ==
      Some(([(key, Str(value))] + members, rest))
  {
    ReadField(indentation, key, value, "," + next);
    AfterComma(key, Str(value), next, members, rest);
  }

  lemma LastField(indentation: nat, key: string, value: string, closing: nat, rest: string)
    requires Plain(key)
    ensures ReadMembers(NewLine(indentation, Field(key, value), NewLine(closing, "}", rest))) ==
      Some(([(key, Str(value))], rest))
  {
    ReadField(indentation, key, value, NewLine(closing, "}", rest));
    AtClosingBrace(key, Str(value), closing, rest);
  }

  /** An object printed on several lines is read by reading its members. */
  lemma ReadBraces(first: string, members: seq<(string, Json)>, rest: string)
    requires ReadMembers(first) == Some((members, rest))
    ensures ReadValue("{" + first) == Some((Obj(members), rest))
  {
    assert ("{" + first)[1..] == first;
  }

  lemma TypeFieldIsField(kind: string)
    requires Plain(kind)
    ensures TypeField(kind) == Field("type", kind)
  {
    PlainEscapes(kind);
  }

  lemma TypeThenMembers(indentation: nat, kind: string, next: string, members: seq<(string, Json)>, rest: string)
    requires Plain(kind) && ReadMembers(next) == Some((members, rest))
    ensures ReadValue("{" + NewLine(indentation, TypeField(kind), "," + next)) ==
      Some((Obj([("type", Str(kind))] + members), rest))
  {
    PlainKeys();
    TypeFieldIsField(kind);
    FieldThenMembers(indentation, "type", kind, next, members, rest);
    ReadBraces(NewLine(indentation, TypeField(kind), "," + next), [("type", Str(kind))] + members, rest);
  }

  lemma ReadFile(name: string, external: string, indentation: nat, closing: nat, rest: string)
    ensures ReadValue(FileText(name, external, indentation, NewLine(closing, "}", rest)))
         == Some((TreeJson(File(name, external)), rest))
  {
    PlainKeys();
    var end := NewLine(closing, "}", rest);
    var third := NewLine(indentation, Field("external-contents", external), end);
    var second := NewLine(indentation, Field("name", name), "," + third);
    var members := [("external-contents", Str(external))];
    LastField(indentation, "external-contents", external, closing, rest);
    FieldThenMembers(indentation, "name", name, third, members, rest);
    TypeThenMembers(indentation, "file", second, [("name", Str(name))] + members, rest);
  }

  /** A directory, given what the lines after its type give. */
  lemma ReadDir(name: string, indentation: nat, tail: string, members: seq<(string, Json)>, rest: string)
    requires ReadMembers(NewLine(indentation, Field("name", name), tail)) == Some((members, rest))
    ensures ReadValue(DirText(name, indentation, tail)) == Some((Obj([("type", Str("directory"))] + members), rest))
  {
    PlainKeys();
    var second := NewLine(indentation, Field("name", name), tail);
    TypeThenMembers(indentation, "directory", second, members, rest);
  }

  lemma PrintTreeStarts(tree: Tree, indentation: nat, rest: string)
    ensures PrintTree(tree, indentation, rest) != [] && PrintTree(tree, indentation, rest)[0] == '{'
  {
  }

  /** A list member: the key, and the array printed over the following lines. */
  lemma ReadListField(indentation: nat, key: string, text: string, list: string, items: seq<Json>, closing: nat,
                      rest: string)
    requires Plain(key) && text == "\"" + (key + "\": [")
    requires SkipWs(list) != [] && SkipWs(list)[0] == '{'
    requires ReadElements(list) == Some((items, NewLine(closing, "}", rest)))
    ensures ReadMembers(NewLine(indentation, text, list)) == Some(([(key, Arr(items))], rest))
  {
    SkipNewLine(indentation, text, list);
    assert text == "\"" + (key + ("\": " + "["));
    Regroup(key, "[", list);
    ReadBrackets(list, items, NewLine(closing, "}", rest));
    ReadKey(NewLine(indentation, text, list), key, "[" + list, Arr(items), NewLine(closing, "}", rest));
    AtClosingBrace(key, Arr(items), closing, rest);
  }

  lemma ReadBrackets(list: string, items: seq<Json>, rest: string)
    requires SkipWs(list) != [] && SkipWs(list)[0] == '{'
    requires ReadElements(list) == Some((items, rest))
    ensures ReadValue(" " + ("[" + list)) == Some((Arr(items), rest))
  {
    SkipOneSpace("[" + list);
    assert ("[" + list)[1..] == list;
  }

  lemma ReadEmptyDir(name: string, indentation: nat, closing: nat, rest: string)
    ensures ReadValue(DirText(name, indentation, NewLine(closing, "}", rest))) == Some((TreeJson(Dir(name, [])), rest))
  {
    PlainKeys();
    LastField(indentation, "name", name, closing, rest);
    ReadDir(name, indentation, NewLine(closing, "}", rest), [("name", Str(name))], rest);
    assert [("name", Str(name))] + [] == [("name", Str(name))];
  }

  lemma ReadFullDir(name: string, indentation: nat, list: string, contents: seq<Tree>, closing: nat, rest: string)
    requires contents != []
    requires SkipWs(list) != [] && SkipWs(list)[0] == '{'
    requires ReadElements(list) == Some((TreesJson(contents), NewLine(closing, "}", rest)))
    ensures ReadValue(DirText(name, indentation, "," + NewLine(indentation, "\"contents\": [", list)))
         == Some((TreeJson(Dir(name, contents)), rest))
  {
    PlainKeys();
    ReadListField(indentation, "contents", "\"contents\": [", list, TreesJson(contents), closing, rest);
    var third := NewLine(indentation, "\"contents\": [", list);
    var members := [("contents", Arr(TreesJson(contents)))];
    FieldThenMembers(indentation, "name", name, third, members, rest);
    ReadDir(name, indentation, "," + third, [("name", Str(name))] + members, rest);
  }

  lemma {:induction false} ReadTree(tree: Tree, indentation: nat, rest: string)
    ensures ReadValue(PrintTree(tree, indentation, rest)) == Some((TreeJson(tree), rest))
    decreases tree, 0
  {
    match tree
    case File(name, external) => ReadFile(name, external, indentation + 2, indentation, rest);
    case Dir(name, contents) =>
      if contents == [] {
        ReadEmptyDir(name, indentation + 2, indentation, rest);
      } else {
        var end := NewLine(indentation, "}", rest);
        ReadAll(contents, indentation + 4, indentation + 2, end);
        ReadFullDir(name, indentation + 2, PrintAll(contents, indentation + 4, NewLine(indentation + 2, "]", end)),
                    contents, indentation, rest);
      }
  }

  lemma {:induction false} ReadAll(trees: seq<Tree>, indentation: nat, closing: nat, rest: string)
    requires trees != []
    ensures var list := PrintAll(trees, indentation, NewLine(closing, "]", rest));
      && SkipWs(list) != [] && SkipWs(list)[0] == '{'
      && ReadElements(list) == Some((TreesJson(trees), rest))
    decreases trees, 1
  {
    var end := NewLine(closing, "]", rest);
    var tail := Comma(|trees| > 1) + PrintAll(trees[1..], indentation, end);
    ReadTree(trees[0], indentation, tail);
    if |trees| > 1 {
      ReadAll(trees[1..], indentation, closing, rest);
    }
    ReadFirst(trees, indentation, closing, rest);
  }

  lemma ReadFirst(trees: seq<Tree>, indentation: nat, closing: nat, rest: string)
    requires trees != []
    requires var end := NewLine(closing, "]", rest);
      var tail := Comma(|trees| > 1) + PrintAll(trees[1..], indentation, end);
      && ReadValue(PrintTree(trees[0], indentation, tail)) == Some((TreeJson(trees[0]), tail))
      && (|trees| > 1 ==> ReadElements(PrintAll(trees[1..], indentation, end)) == Some((TreesJson(trees[1..]), rest)))
    ensures var list := PrintAll(trees, indentation, NewLine(closing, "]", rest));
      && SkipWs(list) != [] && SkipWs(list)[0] == '{'
      && ReadElements(list) == Some((TreesJson(trees), rest))
  {
    var next := PrintAll(trees[1..], indentation, NewLine(closing, "]", rest));
    var tail := Comma(|trees| > 1) + next;
    PrintTreeStarts(trees[0], indentation, tail);
    FirstElement(indentation, PrintTree(trees[0], indentation, tail), TreeJson(trees[0]), |trees| > 1, next,
      TreesJson(trees[1..]), closing, rest);
  }

  lemma FirstElement(indentation: nat, first: string, item: Json, more: bool, next: string, items: seq<Json>,
                     closing: nat, rest: string)
    requires first != [] && first[0] == '{' && ReadValue(first) == Some((item, Comma(more) + next))
    requires if more then ReadElements(next) == Some((items, rest))
             else items == [] && next == NewLine(closing, "]", rest)
    ensures SkipWs(NewLine(indentation, "", first)) == first
    ensures ReadElements(NewLine(indentation, "", first)) == Some(([item] + items, rest))
  {
    ReadFirstElement(indentation, first, item, Comma(more) + next);
    if more {
      MoreElementsAfterComma(item, next, items, rest);
    } else {
      assert Comma(more) + next == next && [item] + items == [item];
      LastElement(item, closing, rest);
    }
  }

  lemma MoreElementsAfterComma(item: Json, next: string, items: seq<Json>, rest: string)
    requires ReadElements(next) == Some((items, rest))
    ensures MoreElements(item, "," + next) == Some(([item] + items, rest))
  {
    assert ("," + next)[1..] == next;
  }

  lemma LastElement(item: Json, closing: nat, rest: string)
    ensures MoreElements(item, NewLine(closing, "]", rest)) == Some(([item], rest))
  {
    SkipNewLine(closing, "]", rest);
    assert ("]" + rest)[1..] == rest;
  }

  lemma ReadFirstElement(indentation: nat, first: string, item: Json, tail: string)
    requires first != [] && first[0] == '{' && ReadValue(first) == Some((item, tail))
    ensures SkipWs(NewLine(indentation, "", first)) == first
    ensures ReadElements(NewLine(indentation, "", first)) == MoreElements(item, tail)
  {
    assert "" + first == first;
    SkipNewLine(indentation, "", first);
  }

  /** The whole overlay, read as JSON: version 0, case-insensitive, and exactly the given trees. */
  lemma ReadOverlay(roots: seq<Tree>)
    requires roots != []
    ensures ReadDocument(PrintOverlay(roots)) == Some(OverlayJson(roots))
  {
    var end := NewLine(0, "}", "\n");
    ReadAll(roots, 4, 2, end);
    ReadHeader(PrintAll(roots, 4, NewLine(2, "]", end)), TreesJson(roots));
  }

  lemma ReadRoots(list: string, items: seq<Json>)
    requires SkipWs(list) != [] && SkipWs(list)[0] == '{'
    requires ReadElements(list) == Some((items, NewLine(0, "}", "\n")))
    ensures ReadMembers(NewLine(2, "\"roots\": [", list)) == Some(([("roots", Arr(items))], "\n"))
  {
    PlainKeys();
    ReadListField(2, "roots", "\"roots\": [", list, items, 0, "\n");
  }

  lemma ReadHeader(list: string, items: seq<Json>)
    requires SkipWs(list) != [] && SkipWs(list)[0] == '{'
    requires ReadElements(list) == Some((items, NewLine(0, "}", "\n")))
    ensures ReadDocument("{" + NewLine(2, "\"version\": 0", "," + NewLine(2, "\"case-sensitive\": false",
                         "," + NewLine(2, "\"roots\": [", list))))
         == Some(Obj([("version", Number("0"))] + ([("case-sensitive", Bool(false))] + [("roots", Arr(items))])))
  {
    var third := NewLine(2, "\"roots\": [", list);
    var second := NewLine(2, "\"case-sensitive\": false", "," + third);
    var members := [("roots", Arr(items))];
    ReadRoots(list, items);
    ReadCaseSensitive(third, members, "\n");
    ReadVersion(second, [("case-sensitive", Bool(false))] + members, "\n");
    ReadBraces(NewLine(2, "\"version\": 0", "," + second),
               [("version", Number("0"))] + ([("case-sensitive", Bool(false))] + members), "\n");
    assert SkipWs("\n") == [];
  }

  lemma ReadZero(rest: string)
    ensures ReadValue(" " + ("0" + ("," + rest))) == Some((Number("0"), "," + rest))
  {
    var value := "0" + ("," + rest);
    SkipOneSpace(value);
    assert value[0..] == value && value[1..] == "," + rest && value[..1] == "0";
    assert DigitRun(value[1..]) == 0;
  }

  lemma ReadFalse(rest: string)
    ensures ReadValue(" " + ("false" + ("," + rest))) == Some((Bool(false), "," + rest))
  {
    var value := "false" + ("," + rest);
    SkipOneSpace(value);
    assert value[5..] == "," + rest;
  }

  lemma HeaderTexts()
    ensures "\"version\": 0" == "\"" + ("version" + ("\": " + "0"))
    ensures "\"case-sensitive\": false" == "\"" + ("case-sensitive" + ("\": " + "false"))
  {
  }

  lemma Regroup(key: string, value: string, rest: string)
    ensures "\"" + (key + ("\": " + value)) + rest == "\"" + (key + ("\": " + (value + rest)))
  {
  }

  lemma ReadVersion(next: string, members: seq<(string, Json)>, rest: string)
    requires ReadMembers(next) == Some((members, rest))
    ensures ReadMembers(NewLine(2, "\"version\": 0", "," + next)) == Some(([("version", Number("0"))] + members, rest))
  {
    PlainKeys();
    HeaderTexts();
    ReadZero(next);
    LiteralMember("version", "\"version\": 0", "0", Number("0"), next, members, rest);
  }

  lemma ReadCaseSensitive(next: string, members: seq<(string, Json)>, rest: string)
    requires ReadMembers(next) == Some((members, rest))
    ensures ReadMembers(NewLine(2, "\"case-sensitive\": false", "," + next)) ==
      Some(([("case-sensitive", Bool(false))] + members, rest))
  {
    PlainKeys();
    HeaderTexts();
    ReadFalse(next);
    LiteralMember("case-sensitive", "\"case-sensitive\": false", "false", Bool(false), next, members, rest);
  }

  lemma LiteralMember(key: string, text: string, value: string, v: Json, next: string, members: seq<(string, Json)>,
                      rest: string)
    requires Plain(key) && text == "\"" + (key + ("\": " + value))
    requires ReadValue(" " + (value + ("," + next))) == Some((v, "," + next))
    requires ReadMembers(next) == Some((members, rest))
    ensures ReadMembers(NewLine(2, text, "," + next)) == Some(([(key, v)] + members, rest))
  {
    SkipNewLine(2, text, "," + next);
    Regroup(key, value, "," + next);
    ReadKey(NewLine(2, text, "," + next), key, value + ("," + next), v, "," + next);
    AfterComma(key, v, next, members, rest);
  }

  /** Two overlays with the same text show the same trees. */
  lemma OverlayTextInjective(a: seq<Tree>, b: seq<Tree>)
    requires a != [] && b != [] && PrintOverlay(a) == PrintOverlay(b)
    ensures a == b
  {
    ReadOverlay(a);
    ReadOverlay(b);
    assert OverlayJson(a).members[2] == OverlayJson(b).members[2];
    TreesJsonInjective(a, b);
  }
}
