/** The overlay of one directory with one file, line by line, and the escapes in its strings. */
module OverlayExample {
  import opened JsonStrings
  import opened VfsTree
  import opened VfsText

  // ---------- lines ----------

  /** Lines, each with its newline. */
  function OnLines(lines: seq<string>): string {
    if lines == [] then [] else lines[0] + ("\n" + OnLines(lines[1..]))
  }

  lemma LineFirst(line: string, rest: seq<string>)
    ensures OnLines([line] + rest) == line + ("\n" + OnLines(rest))
  {
    assert ([line] + rest)[1..] == rest;
  }

  /** A new line with its end, in front of the lines that follow. */
  lemma Line(indentation: nat, text: string, end: string, rest: seq<string>)
    ensures NewLine(indentation, text, end + ("\n" + OnLines(rest)))
         == "\n" + OnLines([Spaces(indentation) + text + end] + rest)
  {
    LineFirst(Spaces(indentation) + text + end, rest);
    Parts(Spaces(indentation), text, end, "\n" + OnLines(rest));
  }

  lemma Parts(a: string, b: string, c: string, d: string)
    ensures a + (b + (c + d)) == a + b + c + d
    ensures "" + d == d
  {
  }

  lemma EightSpaces()
    ensures Spaces(0) == "" && Spaces(2) == "  " && Spaces(4) == "    " && Spaces(6) == "      "
    ensures Spaces(8) == "        " && Spaces(10) == "          "
  {
    assert Spaces(1) == " ";
    assert Spaces(3) == "   ";
    assert Spaces(5) == "     ";
    assert Spaces(7) == "       ";
    assert Spaces(9) == "         ";
  }

  // ---------- the file ----------

  function FileLines(name: string, external: string): seq<string> {
    ["        " + "{"]
    + (["          " + "\"type\": \"file\"" + ","]
    + (["          " + ("\"name\": " + JsonString(name)) + ","]
    + (["          " + ("\"external-contents\": " + JsonString(external))]
    + ["        " + "}"])))
  }

  lemma NameField(name: string)
    ensures Field("name", name) == "\"name\": " + JsonString(name)
  {
    Parts("\"", "name", "\": ", JsonString(name));
    assert "\"" + "name" + "\": " == "\"name\": ";
  }

  lemma ExternalField(external: string)
    ensures Field("external-contents", external) == "\"external-contents\": " + JsonString(external)
  {
    Parts("\"", "external-contents", "\": ", JsonString(external));
    assert "\"" + "external-contents" + "\": " == "\"external-contents\": ";
  }

  lemma Types()
    ensures TypeField("file") == "\"type\": \"file\"" && TypeField("directory") == "\"type\": \"directory\""
  {
  }

  lemma NoEnd(text: string)
    ensures text + "" == text && "" + text == text
  {
  }

  lemma FileOnLines(name: string, external: string, rest: seq<string>)
    ensures NewLine(8, "", PrintTree(File(name, external), 8, "\n" + OnLines(rest)))
         == "\n" + OnLines(FileLines(name, external) + rest)
  {
    EightSpaces();
    NameField(name);
    ExternalField(external);
    Types();
    var first, last := Field("name", name), Field("external-contents", external);
    var l5 := ["        " + "}"] + rest;
    Line(8, "}", "", rest);
    NoEnd("        " + "}");
    NoEnd("\n" + OnLines(rest));
    var l4 := ["          " + last] + l5;
    Line(10, last, "", l5);
    NoEnd("          " + last);
    NoEnd("\n" + OnLines(l5));
    var l3 := ["          " + first + ","] + l4;
    Line(10, first, ",", l4);
    var l2 := ["          " + TypeField("file") + ","] + l3;
    Line(10, TypeField("file"), ",", l3);
    Line(8, "", "{", l2);
    NoEnd("        ");
    FiveLines("        " + "{", "          " + TypeField("file") + ",", "          " + first + ",",
              "          " + last, "        " + "}", rest);
  }

  lemma FiveLines(a: string, b: string, c: string, d: string, e: string, rest: seq<string>)
    ensures [a] + ([b] + ([c] + ([d] + ([e] + rest)))) == ([a] + ([b] + ([c] + ([d] + [e])))) + rest
  {
  }

  // ---------- the directory and the overlay ----------

  function RootLines(root: string, files: seq<string>): seq<string> {
    ["    " + "{"]
    + (["      " + "\"type\": \"directory\"" + ","]
    + (["      " + ("\"name\": " + JsonString(root)) + ","]
    + (["      " + "\"contents\": ["]
    + (files
    + (["      " + "]"]
    + ["    " + "}"])))))
  }

  lemma OneTree(tree: Tree, indentation: nat, rest: string)
    ensures PrintAll([tree], indentation, rest) == NewLine(indentation, "", PrintTree(tree, indentation, rest))
  {
    assert [tree][1..] == [];
    NoEnd(rest);
  }

  lemma RootOnLines(root: string, name: string, external: string, rest: seq<string>)
    ensures NewLine(4, "", PrintTree(Dir(root, [File(name, external)]), 4, "\n" + OnLines(rest)))
         == "\n" + OnLines(RootLines(root, FileLines(name, external)) + rest)
  {
    EightSpaces();
    NameField(root);
    Types();
    var field := Field("name", root);
    var l7 := ["    " + "}"] + rest;
    Line(4, "}", "", rest);
    NoEnd("    " + "}");
    NoEnd("\n" + OnLines(rest));
    var l6 := ["      " + "]"] + l7;
    Line(6, "]", "", l7);
    NoEnd("      " + "]");
    NoEnd("\n" + OnLines(l7));
    OneTree(File(name, external), 8, "\n" + OnLines(l6));
    FileOnLines(name, external, l6);
    var l5 := FileLines(name, external) + l6;
    var l4 := ["      " + "\"contents\": ["] + l5;
    Line(6, "\"contents\": [", "", l5);
    NoEnd("      " + "\"contents\": [");
    NoEnd("\n" + OnLines(l5));
    var l3 := ["      " + field + ","] + l4;
    Line(6, field, ",", l4);
    var l2 := ["      " + TypeField("directory") + ","] + l3;
    Line(6, TypeField("directory"), ",", l3);
    Line(4, "", "{", l2);
    NoEnd("    ");
    SevenLines("    " + "{", "      " + TypeField("directory") + ",", "      " + field + ",",
               "      " + "\"contents\": [", FileLines(name, external), "      " + "]", "    " + "}", rest);
  }

  lemma SevenLines(a: string, b: string, c: string, d: string, e: seq<string>, f: string, g: string, rest: seq<string>)
    ensures [a] + ([b] + ([c] + ([d] + (e + ([f] + ([g] + rest))))))
         == ([a] + ([b] + ([c] + ([d] + (e + ([f] + [g])))))) + rest
  {
  }

  function OverlayLines(roots: seq<string>): seq<string> {
    ["{"]
    + (["  " + "\"version\": 0" + ","]
    + (["  " + "\"case-sensitive\": false" + ","]
    + (["  " + "\"roots\": ["]
    + (roots
    + (["  " + "]"]
    + ["}"])))))
  }

  /** The overlay of one root with one file, in every byte but those of the names. */
  lemma OverlayOnLines(root: string, name: string, external: string)
    ensures PrintOverlay([Dir(root, [File(name, external)])])
         == OnLines(OverlayLines(RootLines(root, FileLines(name, external))))
  {
    EightSpaces();
    var tree, files := Dir(root, [File(name, external)]), FileLines(name, external);
    LineFirst("}", []);
    assert NewLine(0, "}", "\n") == "\n" + OnLines(["}"]);
    var l6 := ["  " + "]"] + ["}"];
    Line(2, "]", "", ["}"]);
    NoEnd("  " + "]");
    NoEnd("\n" + OnLines(["}"]));
    OneTree(tree, 4, "\n" + OnLines(l6));
    RootOnLines(root, name, external, l6);
    var l5 := RootLines(root, files) + l6;
    var l4 := ["  " + "\"roots\": ["] + l5;
    Line(2, "\"roots\": [", "", l5);
    NoEnd("  " + "\"roots\": [");
    NoEnd("\n" + OnLines(l5));
    var l3 := ["  " + "\"case-sensitive\": false" + ","] + l4;
    Line(2, "\"case-sensitive\": false", ",", l4);
    var l2 := ["  " + "\"version\": 0" + ","] + l3;
    Line(2, "\"version\": 0", ",", l3);
    LineFirst("{", l2);
  }

  // ---------- strings ----------

  lemma FourParts(a: string, b: string, c: string)
    ensures "\"" + ((a + (b + c)) + "\"") == "\"" + a + b + c + "\""
  {
  }

  lemma ThreeEscapes(a: char, b: char, c: char)
    ensures JsonString([a, b, c]) == "\"" + Escape(a) + Escape(b) + Escape(c) + "\""
  {
    assert [a, b, c][1..] == [b, c] && [b, c][1..] == [c] && [c][1..] == [];
    assert EscapeAll([c]) == Escape(c) + [];
    NoEnd(Escape(c));
    assert EscapeAll([b, c]) == Escape(b) + Escape(c);
    assert EscapeAll([a, b, c]) == Escape(a) + (Escape(b) + Escape(c));
    FourParts(Escape(a), Escape(b), Escape(c));
  }

  /** What is written for backspace, tab, newline, form feed, return, the two other escapes, and other bytes. */
  lemma WrittenEscapes()
    ensures JsonString([8 as char, 9 as char, 10 as char]) == "\"\\b\\t\\n\""
    ensures JsonString([12 as char, 13 as char, '/']) == "\"\\f\\r/\""
    ensures JsonString(['"', '\\', 'a']) == "\"\\\"\\\\a\""
    ensures JsonString([1 as char, 31 as char, ' ']) == "\"\\u0001\\u001f \""
  {
    ThreeEscapes(8 as char, 9 as char, 10 as char);
    ThreeEscapes(12 as char, 13 as char, '/');
    ThreeEscapes('"', '\\', 'a');
    ThreeEscapes(1 as char, 31 as char, ' ');
    HexEscapes();
  }

  lemma HexEscapes()
    ensures Escape(1 as char) == "\\u0001" && Escape(31 as char) == "\\u001f"
  {
    assert HexDigit(0) == '0' && HexDigit(1) == '1' && HexDigit(15) == 'f';
  }

  // ---------- paths ----------

  /** A separator is added unless there is nothing before it or one of either kind. */
  lemma JoinedPaths()
    ensures JoinPath("sdk", "um") == "sdk/um" && JoinPath("sdk/", "um") == "sdk/um"
    ensures JoinPath("sdk\\", "um") == "sdk\\um" && JoinPath("", "um") == "um"
    ensures GenericPath("sdk\\um") == "sdk/um"
  {
  }
}
