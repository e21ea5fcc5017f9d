/**
 What a parameter line stands for, told from how it is written: a word is made of plain,
 escaped and quoted parts, and every other line has one of four faults.
 */
module ShellForms {
  import opened CStrings
  import opened ShellWords

  // ---------- the parts of a word ----------

  /** A part and the text it stands for. In double quotes, the marks say which characters have a backslash in front. */
  datatype Part =
    | Plain(text: string)
    | Escaped(text: string)
    | InSingle(text: string)
    | InDouble(text: string, marks: seq<bool>)

  predicate PlainChar(c: char) {
    !IsSpace(c) && c != '\'' && c != '"' && c != '\\'
  }

  /** Quotes and backslashes are marked, and other characters may be. */
  predicate Marked(text: string, marks: seq<bool>) {
    |marks| == |text| && forall i :: 0 <= i < |text| && (text[i] == '"' || text[i] == '\\') ==> marks[i]
  }

  predicate ValidPart(part: Part) {
    match part
    case Plain(text) => text != [] && forall i :: 0 <= i < |text| ==> PlainChar(text[i])
    case Escaped(text) => text != []
    case InSingle(text) => '\'' !in text
    case InDouble(text, marks) => Marked(text, marks)
  }

  predicate ValidParts(parts: seq<Part>) {
    forall i :: 0 <= i < |parts| ==> ValidPart(parts[i])
  }

  /** Each character after a backslash. */
  function EscapeEach(text: string): string {
    if text == [] then [] else ['\\', text[0]] + EscapeEach(text[1..])
  }

  /** Each marked character after a backslash. */
  function EscapeMarked(text: string, marks: seq<bool>): string
    requires |marks| == |text|
  {
    if text == [] then []
    else (if marks[0] then ['\\', text[0]] else [text[0]]) + EscapeMarked(text[1..], marks[1..])
  }

  function Written(part: Part): string
    requires ValidPart(part)
  {
    match part
    case Plain(text) => text
    case Escaped(text) => EscapeEach(text)
    case InSingle(text) => "'" + (text + "'")
    case InDouble(text, marks) => "\"" + (EscapeMarked(text, marks) + "\"")
  }

  function WrittenAll(parts: seq<Part>): string
    requires ValidParts(parts)
  {
    if parts == [] then [] else Written(parts[0]) + WrittenAll(parts[1..])
  }

  /** The parts put together. */
  function TextOf(parts: seq<Part>): string {
    if parts == [] then [] else parts[0].text + TextOf(parts[1..])
  }

  // ---------- what each part adds ----------

  lemma AppendTwice(a: string, b: string, r: Result<string, DecodeError>)
    ensures AppendTo(a, AppendTo(b, r)) == AppendTo(a + b, r)
    ensures AppendTo("", r) == r
    ensures forall c :: PrependTo(c, r) == AppendTo([c], r)
  {
    if r.Success? {
      assert a + (b + r.value) == a + b + r.value;
      assert "" + r.value == r.value;
    }
  }

  lemma PlainStep(c: char, rest: string, started: bool)
    requires PlainChar(c)
    ensures DecodeFrom([c] + rest, Unquoted, started, false) == PrependTo(c, DecodeFrom(rest, Unquoted, true, false))
  {
    assert ([c] + rest)[1..] == rest;
  }

  lemma EscapedStep(c: char, rest: string, started: bool)
    ensures DecodeFrom(['\\', c] + rest, Unquoted, started, false)
         == PrependTo(c, DecodeFrom(rest, Unquoted, true, false))
  {
    var s := ['\\', c] + rest;
    assert s[1..][0] == c && s[1..][1..] == rest;
  }

  lemma {:induction false} PlainAdds(text: string, rest: string, started: bool)
    requires text != [] && forall i :: 0 <= i < |text| ==> PlainChar(text[i])
    ensures DecodeFrom(text + rest, Unquoted, started, false)
         == AppendTo(text, DecodeFrom(rest, Unquoted, true, false))
  {
    var c, more := text[0], text[1..];
    assert text == [c] + more;
    Reassociate([c], more, rest);
    PlainStep(c, more + rest, started);
    AppendTwice([c], more, DecodeFrom(rest, Unquoted, true, false));
    if more == [] {
      assert more + rest == rest;
      assert [c] + more == [c];
    } else {
      PlainAdds(more, rest, true);
    }
    AppendTwice("", "", DecodeFrom(more + rest, Unquoted, true, false));
  }

  lemma {:induction false} EscapedAdds(text: string, rest: string, started: bool)
    requires text != []
    ensures DecodeFrom(EscapeEach(text) + rest, Unquoted, started, false)
         == AppendTo(text, DecodeFrom(rest, Unquoted, true, false))
  {
    var c, more := text[0], text[1..];
    assert text == [c] + more;
    Reassociate(['\\', c], EscapeEach(more), rest);
    EscapedStep(c, EscapeEach(more) + rest, started);
    AppendTwice([c], more, DecodeFrom(rest, Unquoted, true, false));
    if more == [] {
      assert EscapeEach(more) + rest == rest;
      assert [c] + more == [c];
    } else {
      EscapedAdds(more, rest, true);
    }
    AppendTwice("", "", DecodeFrom(EscapeEach(more) + rest, Unquoted, true, false));
  }

  /** In single quotes, up to what ends them. */
  lemma {:induction false} SingleAdds(text: string, rest: string)
    requires '\'' !in text
    ensures DecodeFrom(text + rest, Single, true, false) == AppendTo(text, DecodeFrom(rest, Single, true, false))
  {
    AppendTwice("", "", DecodeFrom(rest, Single, true, false));
    if text == [] {
      assert text + rest == rest;
    } else {
      var c, more := text[0], text[1..];
      assert text == [c] + more;
      assert (text + rest)[1..] == more + rest;
      SingleAdds(more, rest);
      AppendTwice([c], more, DecodeFrom(rest, Single, true, false));
      AppendTwice("", "", DecodeFrom(more + rest, Single, true, false));
    }
  }

  lemma DoubleStep(c: char, mark: bool, rest: string)
    requires c == '"' || c == '\\' ==> mark
    ensures DecodeFrom((if mark then ['\\', c] else [c]) + rest, Double, true, false)
         == PrependTo(c, DecodeFrom(rest, Double, true, false))
  {
    var s := (if mark then ['\\', c] else [c]) + rest;
    if mark {
      assert s[1..][0] == c && s[1..][1..] == rest;
    } else {
      assert s[1..] == rest;
    }
  }

  lemma {:induction false} DoubleAdds(text: string, marks: seq<bool>, rest: string)
    requires Marked(text, marks)
    ensures DecodeFrom(EscapeMarked(text, marks) + rest, Double, true, false)
         == AppendTo(text, DecodeFrom(rest, Double, true, false))
  {
    AppendTwice("", "", DecodeFrom(rest, Double, true, false));
    if text == [] {
      assert EscapeMarked(text, marks) + rest == rest;
    } else {
      var c, more := text[0], text[1..];
      var head, body := if marks[0] then ['\\', c] else [c], EscapeMarked(more, marks[1..]);
      assert text == [c] + more;
      Reassociate(head, body, rest);
      DoubleStep(c, marks[0], body + rest);
      DoubleAdds(more, marks[1..], rest);
      AppendTwice([c], more, DecodeFrom(rest, Double, true, false));
      AppendTwice("", "", DecodeFrom(body + rest, Double, true, false));
    }
  }

  lemma OpenQuote(q: char, rest: string, started: bool)
    requires q == '\'' || q == '"'
    ensures DecodeFrom([q] + rest, Unquoted, started, false)
         == DecodeFrom(rest, if q == '"' then Double else Single, true, false)
    ensures DecodeFrom([q] + rest, if q == '"' then Double else Single, true, false)
         == DecodeFrom(rest, Unquoted, true, false)
  {
    assert ([q] + rest)[1..] == rest;
  }

  /** A part in front of a line puts its text in front of what the line stands for. */
  lemma PartAdds(part: Part, rest: string, started: bool)
    requires ValidPart(part)
    ensures DecodeFrom(Written(part) + rest, Unquoted, started, false)
         == AppendTo(part.text, DecodeFrom(rest, Unquoted, true, false))
  {
    match part
    case Plain(text) => PlainAdds(text, rest, started);
    case Escaped(text) => EscapedAdds(text, rest, started);
    case InSingle(text) =>
      assert Written(part) + rest == "'" + (text + ("'" + rest));
      OpenQuote('\'', text + ("'" + rest), started);
      SingleAdds(text, "'" + rest);
      OpenQuote('\'', rest, true);
    case InDouble(text, marks) =>
      var body := EscapeMarked(text, marks);
      assert Written(part) + rest == "\"" + (body + ("\"" + rest));
      OpenQuote('"', body + ("\"" + rest), started);
      DoubleAdds(text, marks, "\"" + rest);
      OpenQuote('"', rest, true);
  }

  lemma {:induction false} PartsAdd(parts: seq<Part>, rest: string, started: bool)
    requires ValidParts(parts)
    ensures DecodeFrom(WrittenAll(parts) + rest, Unquoted, started, false)
         == AppendTo(TextOf(parts), DecodeFrom(rest, Unquoted, started || parts != [], false))
  {
    AppendTwice("", "", DecodeFrom(rest, Unquoted, started, false));
    if parts == [] {
      assert WrittenAll(parts) + rest == rest;
    } else {
      var more := parts[1..];
      Reassociate(Written(parts[0]), WrittenAll(more), rest);
      PartAdds(parts[0], WrittenAll(more) + rest, started);
      PartsAdd(more, rest, true);
      AppendTwice(parts[0].text, TextOf(more), DecodeFrom(rest, Unquoted, true, false));
    }
  }

  // ---------- words and faults ----------

  /** A word with white space around it. */
  ghost predicate WordLine(s: string, before: string, parts: seq<Part>, after: string) {
    && AllSpace(before) && ValidParts(parts) && parts != [] && AllSpace(after)
    && s == before + (WrittenAll(parts) + after)
  }

  ghost predicate IsWord(s: string, w: string) {
    exists before, parts, after :: WordLine(s, before, parts, after) && w == TextOf(parts)
  }

  /** A word, white space, and something else. */
  ghost predicate TwoWords(s: string, before: string, parts: seq<Part>, gap: string, next: string) {
    && AllSpace(before) && ValidParts(parts) && parts != [] && gap != [] && AllSpace(gap)
    && next != [] && !IsSpace(next[0])
    && s == before + (WrittenAll(parts) + (gap + next))
  }

  ghost predicate IsTwoWords(s: string) {
    exists before, parts, gap, next :: TwoWords(s, before, parts, gap, next)
  }

  /** A quote that is not closed. */
  ghost predicate UnclosedPart(end: string) {
    || (exists text :: '\'' !in text && end == "'" + text)
    || (exists text, marks :: Marked(text, marks) && end == "\"" + EscapeMarked(text, marks))
  }

  /** A backslash at the very end, outside quotes or in double quotes. */
  ghost predicate CutPart(end: string) {
    || end == "\\"
    || (exists text, marks :: Marked(text, marks) && end == "\"" + (EscapeMarked(text, marks) + "\\"))
  }

  ghost predicate EndsWith(s: string, before: string, parts: seq<Part>, end: string) {
    AllSpace(before) && ValidParts(parts) && s == before + (WrittenAll(parts) + end)
  }

  ghost predicate IsUnclosed(s: string) {
    exists before, parts, end :: EndsWith(s, before, parts, end) && UnclosedPart(end)
  }

  ghost predicate IsCut(s: string) {
    exists before, parts, end :: EndsWith(s, before, parts, end) && CutPart(end)
  }

  lemma WordDecodes(before: string, parts: seq<Part>, after: string)
    requires AllSpace(before) && ValidParts(parts) && parts != [] && AllSpace(after)
    ensures Decode(before + (WrittenAll(parts) + after)) == Success(TextOf(parts))
  {
    LeadingSpace(before, WrittenAll(parts) + after);
    PartsAdd(parts, after, false);
    TrailingSpace(after, false);
    assert TextOf(parts) + [] == TextOf(parts);
  }

  lemma {:induction false} SecondWord(gap: string, next: string, separated: bool)
    requires AllSpace(gap) && (gap != [] || separated) && next != [] && !IsSpace(next[0])
    ensures DecodeFrom(gap + next, Unquoted, true, separated) == Failure(SeveralArguments)
  {
    if gap == [] {
      assert gap + next == next;
    } else {
      assert (gap + next)[1..] == gap[1..] + next;
      SecondWord(gap[1..], next, true);
    }
  }

  lemma TwoWordsFail(s: string, before: string, parts: seq<Part>, gap: string, next: string)
    requires TwoWords(s, before, parts, gap, next)
    ensures Decode(s) == Failure(SeveralArguments)
  {
    LeadingSpace(before, WrittenAll(parts) + (gap + next));
    PartsAdd(parts, gap + next, false);
    SecondWord(gap, next, false);
  }

  lemma UnclosedFails(end: string, started: bool)
    requires UnclosedPart(end)
    ensures DecodeFrom(end, Unquoted, started, false) == Failure(UnterminatedQuote)
  {
    if text :| '\'' !in text && end == "'" + text {
      OpenQuote('\'', text, started);
      assert text + [] == text;
      SingleAdds(text, []);
    } else {
      var text, marks :| Marked(text, marks) && end == "\"" + EscapeMarked(text, marks);
      OpenQuote('"', EscapeMarked(text, marks), started);
      assert EscapeMarked(text, marks) + [] == EscapeMarked(text, marks);
      DoubleAdds(text, marks, []);
    }
  }

  lemma CutFails(end: string, started: bool)
    requires CutPart(end)
    ensures DecodeFrom(end, Unquoted, started, false) == Failure(TrailingEscape)
  {
    if text, marks :| Marked(text, marks) && end == "\"" + (EscapeMarked(text, marks) + "\\") {
      OpenQuote('"', EscapeMarked(text, marks) + "\\", started);
      DoubleAdds(text, marks, "\\");
    }
  }

  lemma EndFails(s: string, before: string, parts: seq<Part>, end: string)
    requires EndsWith(s, before, parts, end)
    ensures UnclosedPart(end) ==> Decode(s) == Failure(UnterminatedQuote)
    ensures CutPart(end) ==> Decode(s) == Failure(TrailingEscape)
  {
    LeadingSpace(before, WrittenAll(parts) + end);
    PartsAdd(parts, end, false);
    if UnclosedPart(end) {
      UnclosedFails(end, parts != []);
    }
    if CutPart(end) {
      CutFails(end, parts != []);
    }
  }

  lemma BlankFails(s: string)
    requires AllSpace(s)
    ensures Decode(s) == Failure(NoArgument)
  {
    assert s + [] == s;
    LeadingSpace(s, []);
  }

  // ---------- every line is of one of these forms ----------

  lemma {:induction false} SpacesFirst(s: string) returns (spaces: string, rest: string)
    ensures s == spaces + rest && AllSpace(spaces) && (rest != [] ==> !IsSpace(rest[0]))
    ensures s != [] && IsSpace(s[0]) ==> spaces != []
  {
    if s == [] || !IsSpace(s[0]) {
      return "", s;
    }
    spaces, rest := SpacesFirst(s[1..]);
    Reassociate([s[0]], spaces, rest);
    spaces := [s[0]] + spaces;
  }

  /** The text in single quotes, and what follows the closing one. */
  lemma {:induction false} ScanSingle(s: string) returns (text: string, rest: string)
    ensures '\'' !in text && s == text + rest && (rest != [] ==> rest[0] == '\'')
  {
    if s == [] || s[0] == '\'' {
      return "", s;
    }
    text, rest := ScanSingle(s[1..]);
    Reassociate([s[0]], text, rest);
    text := [s[0]] + text;
  }

  lemma MarkedMore(c: char, mark: bool, text: string, marks: seq<bool>, rest: string)
    requires Marked(text, marks) && (c == '"' || c == '\\' ==> mark)
    ensures Marked([c] + text, [mark] + marks)
    ensures EscapeMarked([c] + text, [mark] + marks) + rest
         == (if mark then ['\\', c] else [c]) + (EscapeMarked(text, marks) + rest)
  {
    assert ([c] + text)[1..] == text && ([mark] + marks)[1..] == marks;
  }

  /** The text in double quotes, up to the closing one, the end, or a backslash at the end. */
  lemma {:induction false} ScanDouble(s: string) returns (text: string, marks: seq<bool>, rest: string)
    ensures Marked(text, marks) && s == EscapeMarked(text, marks) + rest
    ensures rest == [] || rest == "\\" || rest[0] == '"'
    decreases |s|
  {
    if s == [] || s == "\\" || s[0] == '"' {
      return "", [], s;
    }
    var mark := s[0] == '\\';
    var head := if mark then 2 else 1;
    assert s == s[..head] + s[head..];
    text, marks, rest := ScanDouble(s[head..]);
    MarkedMore(s[head - 1], mark, text, marks, rest);
    text, marks := [s[head - 1]] + text, [mark] + marks;
  }

  /** What can follow the parts of a word. */
  ghost predicate Stop(rest: string) {
    rest == [] || IsSpace(rest[0]) || UnclosedPart(rest) || CutPart(rest)
  }

  /** One part, if the line does not stop here. */
  lemma FirstPart(s: string) returns (part: Part, rest: string)
    requires !Stop(s)
    ensures ValidPart(part) && s == Written(part) + rest && |rest| < |s|
  {
    var c, more := s[0], s[1..];
    assert s == [c] + more;
    if c == '\'' {
      var text;
      text, rest := ScanSingle(more);
      assert rest == [] ==> more == text;
      assert rest != [] && rest == "'" + rest[1..];
      part, rest := InSingle(text), rest[1..];
      assert "'" + (text + ("'" + rest)) == "'" + (text + "'") + rest;
    } else if c == '"' {
      var text, marks;
      text, marks, rest := ScanDouble(more);
      NotStopped(s, text, marks, rest);
      assert rest == "\"" + rest[1..];
      part, rest := InDouble(text, marks), rest[1..];
      var body := EscapeMarked(text, marks);
      assert "\"" + (body + ("\"" + rest)) == "\"" + (body + "\"") + rest;
    } else if c == '\\' {
      assert more != [];
      part, rest := Escaped([more[0]]), more[1..];
      assert EscapeEach([more[0]]) == ['\\', more[0]];
    } else {
      part, rest := Plain([c]), more;
    }
  }

  lemma NotStopped(s: string, text: string, marks: seq<bool>, rest: string)
    requires !Stop(s) && Marked(text, marks) && s == "\"" + (EscapeMarked(text, marks) + rest)
    ensures rest != [] && rest != "\\"
  {
    assert EscapeMarked(text, marks) + [] == EscapeMarked(text, marks);
  }

  lemma {:induction false} ScanParts(s: string) returns (parts: seq<Part>, rest: string)
    ensures ValidParts(parts) && s == WrittenAll(parts) + rest && Stop(rest)
    decreases |s|
  {
    if Stop(s) {
      return [], s;
    }
    var part, next := FirstPart(s);
    parts, rest := ScanParts(next);
    Reassociate(Written(part), WrittenAll(parts), rest);
    assert ([part] + parts)[1..] == parts;
    parts := [part] + parts;
  }

  lemma EveryLine(s: string)
    ensures AllSpace(s) || (exists w :: IsWord(s, w)) || IsTwoWords(s) || IsUnclosed(s) || IsCut(s)
  {
    var before, line := SpacesFirst(s);
    if line != [] {
      var parts, rest := ScanParts(line);
      assert parts == [] ==> WrittenAll(parts) + rest == rest;
      if UnclosedPart(rest) || CutPart(rest) {
        assert EndsWith(s, before, parts, rest);
      } else {
        var gap, next := SpacesFirst(rest);
        if next == [] {
          assert gap + next == gap;
          assert WordLine(s, before, parts, gap);
          assert IsWord(s, TextOf(parts));
        } else {
          assert TwoWords(s, before, parts, gap, next);
        }
      }
    } else {
      assert before + line == before;
    }
  }

  /**
   A line stands for a text exactly if it is a word of parts with that text, with any white
   space around it. It is refused as several arguments, as an open quote, as ending in a
   backslash or as empty exactly if it has that form.
   */
  lemma DecodeMeaning(s: string)
    ensures forall w :: Decode(s) == Success(w) <==> IsWord(s, w)
    ensures Decode(s) == Failure(SeveralArguments) <==> IsTwoWords(s)
    ensures Decode(s) == Failure(UnterminatedQuote) <==> IsUnclosed(s)
    ensures Decode(s) == Failure(TrailingEscape) <==> IsCut(s)
    ensures Decode(s) == Failure(NoArgument) <==> AllSpace(s)
  {
    EveryLine(s);
    FormsDecode(s);
  }

  lemma FormsDecode(s: string)
    ensures forall w :: IsWord(s, w) ==> Decode(s) == Success(w)
    ensures IsTwoWords(s) ==> Decode(s) == Failure(SeveralArguments)
    ensures IsUnclosed(s) ==> Decode(s) == Failure(UnterminatedQuote)
    ensures IsCut(s) ==> Decode(s) == Failure(TrailingEscape)
    ensures AllSpace(s) ==> Decode(s) == Failure(NoArgument)
  {
    forall w | IsWord(s, w)
      ensures Decode(s) == Success(w)
    {
      var before, parts, after :| WordLine(s, before, parts, after) && w == TextOf(parts);
      WordDecodes(before, parts, after);
    }
    if before, parts, gap, next :| TwoWords(s, before, parts, gap, next) {
      TwoWordsFail(s, before, parts, gap, next);
    }
    if before, parts, end :| EndsWith(s, before, parts, end) && UnclosedPart(end) {
      EndFails(s, before, parts, end);
    }
    if before, parts, end :| EndsWith(s, before, parts, end) && CutPart(end) {
      EndFails(s, before, parts, end);
    }
    if AllSpace(s) {
      BlankFails(s);
    }
  }

  // ---------- single parts ----------

  lemma OnePart(part: Part, before: string, after: string)
    requires ValidPart(part) && AllSpace(before) && AllSpace(after)
    ensures Decode(before + (Written(part) + after)) == Success(part.text)
  {
    var parts := [part];
    assert parts[1..] == [];
    assert WrittenAll(parts) == Written(part) + [] && TextOf(parts) == part.text + [];
    assert Written(part) + [] == Written(part) && part.text + [] == part.text;
    WordDecodes(before, parts, after);
  }

  /** A word without white space, quotes and backslashes stands for itself. */
  lemma PlainWord(word: string, before: string, after: string)
    requires word != [] && (forall i :: 0 <= i < |word| ==> PlainChar(word[i])) && AllSpace(before) && AllSpace(after)
    ensures Decode(before + (word + after)) == Success(word)
  {
    OnePart(Plain(word), before, after);
  }

  /** Any string stands for itself with a backslash before each character. */
  lemma EscapedWord(word: string, before: string, after: string)
    requires word != [] && AllSpace(before) && AllSpace(after)
    ensures Decode(before + (EscapeEach(word) + after)) == Success(word)
  {
    OnePart(Escaped(word), before, after);
  }

  /** And in double quotes, with a backslash before each quote and backslash, and before others at will. */
  lemma DoubleQuotedWord(word: string, marks: seq<bool>, before: string, after: string)
    requires Marked(word, marks) && AllSpace(before) && AllSpace(after)
    ensures Decode(before + ("\"" + (EscapeMarked(word, marks) + "\"") + after)) == Success(word)
  {
    OnePart(InDouble(word, marks), before, after);
  }

  /** For instance the name of an object file. */
  lemma ObjectFile()
    ensures Decode("foo.o") == Success("foo.o")
  {
    PlainWord("foo.o", "", "");
    assert "" + ("foo.o" + "") == "foo.o";
  }
}
