/**
 The overlay for several roots: they are sorted by generic spelling and rendered one
 after the other. When the result depends on the order they were given in, and when not.
 */
module VfsGenerate {
  import opened CStrings
  import opened Sorting
  import opened TextBuffer
  import opened JsonReader
  import opened VfsTree
  import opened VfsText
  import opened VfsRender

  /** A root: its path as given, its forward-slash spelling, and what opening the path finds. */
  datatype Root = Root(path: string, generic: string, node: Node)

  datatype GenerateError =
    | NoRoots
    | WalkFailed(root: string, detail: Error)

  function MakeRoot(path: string, node: Node): Root {
    Root(path, GenericPath(path), node)
  }

  function CompareRoots(a: Root, b: Root): int {
    StrCmp(a.generic, b.generic)
  }

  lemma CompareRootsIsTotal()
    ensures TotalPreorder(CompareRoots)
  {
    forall a, b
      ensures Antisymmetric(CompareRoots, a, b)
    {
      StrCmpFlip(a.generic, b.generic);
    }
    forall a, b, c
      ensures Transitive(CompareRoots, a, b, c)
    {
      if CompareRoots(a, b) <= 0 && CompareRoots(b, c) <= 0 {
        StrCmpTransitive(a.generic, b.generic, c.generic);
      }
    }
  }

  ghost function BuildRoot(root: Root): Result<Tree, Error> {
    BuildDirectory(root.path, root.generic, root.node)
  }

  /** The trees of the roots in this order, or the first root that is refused. */
  ghost function BuildRoots(order: seq<Root>): (r: Result<seq<Tree>, GenerateError>)
    ensures r.Success? ==> |r.value| == |order|
  {
    if order == [] then Success([])
    else
      match BuildRoot(order[0])
      case Failure(error) => Failure(WalkFailed(order[0].generic, error))
      case Success(tree) =>
        match BuildRoots(order[1..])
        case Failure(error) => Failure(error)
        case Success(trees) => Success([tree] + trees)
  }

  ghost function OverlayOf(order: seq<Root>): Result<string, GenerateError> {
    match BuildRoots(order)
    case Failure(error) => Failure(error)
    case Success(trees) => Success(PrintOverlay(trees))
  }

  // ---------- the generator ----------

  ghost function OverlayStart(): string {
    "{" + NewLine(2, "\"version\": 0", "," +
      NewLine(2, "\"case-sensitive\": false", "," + NewLine(2, "\"roots\": [", "")))
  }

  ghost function OverlayEnd(): string {
    NewLine(2, "]", NewLine(0, "}", "\n"))
  }

  lemma OverlayParts(roots: seq<Tree>)
    ensures OverlayStart() + PrintAll(roots, 4, OverlayEnd()) == PrintOverlay(roots)
  {
    var list := PrintAll(roots, 4, OverlayEnd());
    assert "" + list == list;
    var third := "," + NewLine(2, "\"roots\": [", "");
    CommaThen(2, "\"roots\": [", "", list);
    var second := "," + NewLine(2, "\"case-sensitive\": false", third);
    CommaThen(2, "\"case-sensitive\": false", third, list);
    BraceThen(2, "\"version\": 0", second, list);
  }

  lemma TwoSpaces()
    ensures Spaces(2) == "  "
  {
    assert Spaces(1) == " ";
  }

  lemma HeaderLines(first: string, second: string, third: string)
    ensures "{\n" + "  " + first + ",\n" + "  " + second + ",\n" + "  " + third + "\n"
         == "{" + ("\n" + ("  " + (first +
           ("," + ("\n" + ("  " + (second + ("," + ("\n" + ("  " + (third + ""))))))))))) + "\n"
  {
    assert "{\n" == "{" + "\n" && ",\n" == "," + "\n" && third + "" == third;
  }

  method AppendHeader(output: Buffer)
    requires output.Valid() && output.Contents() == ""
    modifies output.Repr
    ensures output.Valid() && fresh(output.Repr - old(output.Repr))
    ensures output.Contents() == OverlayStart() + "\n"
  {
    var version, insensitive, roots := "\"version\": 0", "\"case-sensitive\": false", "\"roots\": [";
    output.Append("{\n" + "  " + version + ",\n" + "  " + insensitive + ",\n");
    output.Append("  " + roots + "\n");
    TwoSpaces();
    HeaderLines(version, insensitive, roots);
    var top := "{\n" + "  " + version + ",\n" + "  " + insensitive + ",\n";
    assert "" + top == top;
    assert top + ("  " + roots + "\n") == top + "  " + roots + "\n";
  }

  method AppendFooter(output: Buffer, ghost line: string)
    requires output.Valid() && output.Contents() == line + "\n"
    modifies output.Repr
    ensures output.Valid() && output.Contents() == line + OverlayEnd()
  {
    output.Append("  ]\n}\n");
    TwoSpaces();
    assert Spaces(0) + ("}" + "\n") == "}" + "\n";
    assert "  ]\n}\n" == "  " + ("]" + ("\n" + ("}" + "\n")));
    assert line + "\n" + "  ]\n}\n" == line + ("\n" + "  ]\n}\n");
  }

  ghost predicate RestAgrees(order: seq<Root>, index: nat)
    requires index <= |order|
  {
    match BuildRoots(order)
    case Failure(e) => BuildRoots(order[index..]) == Failure(e)
    case Success(trees) => BuildRoots(order[index..]) == Success(trees[index..])
  }

  lemma RestStep(order: seq<Root>, index: nat)
    requires index < |order| && RestAgrees(order, index)
    ensures match BuildRoots(order)
      case Failure(e) => (
        match BuildRoot(order[index])
        case Failure(error) => e == WalkFailed(order[index].generic, error)
        case Success(_) => RestAgrees(order, index + 1))
      case Success(trees) => BuildRoot(order[index]) == Success(trees[index]) && RestAgrees(order, index + 1)
  {
    BuildStep(order, index);
    var whole := BuildRoots(order);
    if whole.Success? {
      var first, rest := BuildRoot(order[index]), BuildRoots(order[index + 1..]);
      assert first.Success? && rest.Success?;
      HeadAndRest(first.value, rest.value, whole.value, index);
    }
  }

  lemma BuildStep(order: seq<Root>, index: nat)
    requires index < |order|
    ensures BuildRoots(order[index..]) ==
      match BuildRoot(order[index])
      case Failure(error) => Failure(WalkFailed(order[index].generic, error))
      case Success(tree) =>
        match BuildRoots(order[index + 1..])
        case Failure(error) => Failure(error)
        case Success(trees) => Success([tree] + trees)
  {
    assert order[index..][0] == order[index] && order[index..][1..] == order[index + 1..];
  }

  method RenderRoot(root: Root, output: Buffer, more: bool) returns (error: Option<Error>)
    requires output.Valid() && ProperNames(root.node)
    modifies output.Repr
    ensures output.Valid() && fresh(output.Repr - old(output.Repr))
    ensures match BuildRoot(root)
      case Failure(e) => error == Some(e)
      case Success(tree) =>
        && error == None
        && output.Contents() == old(output.Contents()) + Spaces(4) + PrintTree(tree, 4, "") + Comma(more) + "\n"
  {
    Indent(output, 4);
    error := RenderDirectory(root.path, root.generic, root.node, output, 4);
    if error.None? {
      AppendEntryEnd(output, more);
    }
  }

  /** What holds of the text when `index` roots are written and all roots are accepted. */
  ghost predicate Written(order: seq<Root>, index: nat, contents: string, line: string)
    requires index <= |order|
  {
    BuildRoots(order).Success? ==>
      var trees := BuildRoots(order).value;
      contents == line + "\n" && line + PrintAll(trees[index..], 4, OverlayEnd()) == PrintOverlay(trees)
  }

  lemma WrittenStep(order: seq<Root>, index: nat, before: string, line: string) returns (line': string)
    requires index < |order| && Written(order, index, before, line) && RestAgrees(order, index)
    ensures BuildRoots(order).Success? ==>
      var tree := BuildRoots(order).value[index];
      Written(order, index + 1, before + Spaces(4) + PrintTree(tree, 4, "") + Comma(index + 1 != |order|) + "\n", line')
  {
    line' := line;
    if BuildRoots(order).Success? {
      var trees := BuildRoots(order).value;
      EntryStep(line, trees, index, 4, OverlayEnd());
      line' := line + "\n" + Spaces(4) + PrintTree(trees[index], 4, "") + Comma(index + 1 != |trees|);
    }
  }

  method RenderNextRoot(order: seq<Root>, index: nat, output: Buffer, ghost line: string)
      returns (error: Option<GenerateError>, ghost line': string)
    requires index < |order| && output.Valid() && ProperNames(order[index].node)
    requires RestAgrees(order, index) && Written(order, index, output.Contents(), line)
    modifies output.Repr
    ensures output.Valid() && fresh(output.Repr - old(output.Repr))
    ensures error.Some? ==> BuildRoots(order) == Failure(error.value)
    ensures error.None? ==> RestAgrees(order, index + 1) && Written(order, index + 1, output.Contents(), line')
  {
    RestStep(order, index);
    line' := WrittenStep(order, index, output.Contents(), line);
    var detail := RenderRoot(order[index], output, index + 1 != |order|);
    error := if detail.Some? then Some(WalkFailed(order[index].generic, detail.value)) else None;
  }

  method RenderRoots(order: seq<Root>, output: Buffer) returns (error: Option<GenerateError>, ghost line: string)
    requires output.Valid() && output.Contents() == OverlayStart() + "\n"
    requires forall root :: root in order ==> ProperNames(root.node)
    modifies output.Repr
    ensures output.Valid() && fresh(output.Repr - old(output.Repr))
    ensures match BuildRoots(order)
      case Failure(e) => error == Some(e)
      case Success(trees) =>
        error == None && output.Contents() == line + "\n" && line + OverlayEnd() == PrintOverlay(trees)
  {
    line := OverlayStart();
    FirstRoot(order);
    var index := 0;
    while index < |order|
      invariant index <= |order| && output.Valid() && fresh(output.Repr - old(output.Repr))
      invariant RestAgrees(order, index) && Written(order, index, output.Contents(), line)
    {
      error, line := RenderNextRoot(order, index, output, line);
      if error.Some? {
        return;
      }
      index := index + 1;
    }
    assert order[index..] == [];
    error := None;
  }

  lemma FirstRoot(order: seq<Root>)
    ensures RestAgrees(order, 0) && Written(order, 0, OverlayStart() + "\n", OverlayStart())
  {
    assert order[0..] == order;
    if BuildRoots(order).Success? {
      var trees := BuildRoots(order).value;
      assert trees[0..] == trees;
      OverlayParts(trees);
    }
  }

  function RootsOf(inputs: seq<(string, Node)>): seq<Root> {
    seq(|inputs|, i requires 0 <= i < |inputs| => MakeRoot(inputs[i].0, inputs[i].1))
  }

  method SortRoots(inputs: seq<(string, Node)>) returns (order: seq<Root>)
    requires forall i :: 0 <= i < |inputs| ==> ProperNames(inputs[i].1)
    ensures SortedPermutation(CompareRoots, RootsOf(inputs), order)
    ensures forall root :: root in order ==> ProperNames(root.node)
  {
    var roots := new Root[|inputs|](i requires 0 <= i < |inputs| => Root(inputs[i].0, "", inputs[i].1));
    for index := 0 to |inputs|
      invariant forall k :: 0 <= k < index ==> roots[k] == RootsOf(inputs)[k]
      invariant forall k :: index <= k < |inputs| ==> roots[k] == Root(inputs[k].0, "", inputs[k].1)
    {
      var generic := MakeGenericPath(inputs[index].0);
      roots[index] := Root(inputs[index].0, generic, inputs[index].1);
    }
    assert roots[..roots.Length] == RootsOf(inputs);
    CompareRootsIsTotal();
    QSort(roots, roots.Length, CompareRoots);
    order := roots[..roots.Length];
    forall root | root in order
      ensures ProperNames(root.node)
    {
      assert root in multiset(order);
      assert root in RootsOf(inputs);
    }
  }

  /**
   Generates the overlay. qsort may leave roots of equal spelling in any order, which is
   why the order actually used is part of the result.
   */
  method Generate(inputs: seq<(string, Node)>) returns (result: Result<string, GenerateError>, order: seq<Root>)
    requires forall i :: 0 <= i < |inputs| ==> ProperNames(inputs[i].1)
    ensures inputs == [] ==> result == Failure(NoRoots)
    ensures inputs != [] ==> SortedPermutation(CompareRoots, RootsOf(inputs), order) && result == OverlayOf(order)
  {
    order := [];
    if |inputs| == 0 {
      return Failure(NoRoots), order;
    }
    order := SortRoots(inputs);
    var output := new Buffer();
    AppendHeader(output);
    var error;
    ghost var line;
    error, line := RenderRoots(order, output);
    match error {
      case Some(e) =>
        result := Failure(e);
      case None =>
        AppendFooter(output, line);
        result := Success(output.data[..output.length]);
    }
  }

  // ---------- what the overlay is ----------

  lemma BuildFirst(first: Root, rest: seq<Root>)
    ensures BuildRoots([first] + rest).Success? <==> BuildRoot(first).Success? && BuildRoots(rest).Success?
    ensures BuildRoots([first] + rest).Success? ==>
      BuildRoots([first] + rest).value == [BuildRoot(first).value] + BuildRoots(rest).value
  {
    assert ([first] + rest)[1..] == rest;
  }

  lemma {:induction false} BuildRootsAt(order: seq<Root>)
    ensures BuildRoots(order).Success? <==> forall i :: 0 <= i < |order| ==> BuildRoot(order[i]).Success?
    ensures BuildRoots(order).Success? ==>
      forall i :: 0 <= i < |order| ==> BuildRoot(order[i]) == Success(BuildRoots(order).value[i])
  {
    if order != [] {
      var rest := order[1..];
      BuildRootsAt(rest);
      assert order == [order[0]] + rest;
      BuildFirst(order[0], rest);
    }
  }

  /**
   The generator succeeds exactly on acceptable roots, and the text it emits reads back as
   version 0, case-insensitive, and the trees of the roots in sorted order.
   */
  lemma OverlayReadsBack(order: seq<Root>)
    requires order != []
    ensures OverlayOf(order).Success? <==> forall i :: 0 <= i < |order| ==> Acceptable(order[i].node)
    ensures OverlayOf(order).Success? ==>
      && ReadDocument(OverlayOf(order).value) == Some(OverlayJson(BuildRoots(order).value))
      && forall i :: 0 <= i < |order| ==> BuildRoot(order[i]) == Success(BuildRoots(order).value[i])
  {
    BuildRootsAt(order);
    forall i | 0 <= i < |order|
      ensures BuildRoot(order[i]).Success? <==> Acceptable(order[i].node)
    {
      RootAccepted(order[i].path, order[i].generic, order[i].node);
    }
    if BuildRoots(order).Success? {
      ReadOverlay(BuildRoots(order).value);
    }
  }
}
