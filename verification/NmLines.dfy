/**
 What the lines of a listing say, told from their text: where the name and the type letter
 stand, which lines are blank or malformed, and which part of a decorated name is the name.
 */
module NmLines {
  import opened CStrings
  import opened NmSymbols

  // ---------- lines ----------

  /**
   A path, a colon and a space, the name, white space, and what begins with the type letter.
   No later colon is followed by a space. Without a type letter the kind is NUL.
   */
  ghost predicate ShownAs(line: string, name: string, kind: char, path: string, space: string, tail: string) {
    && line == path + (": " + (name + (space + tail)))
    && (forall j :: |path| < j < |line| - 1 ==> !(line[j] == ':' && line[j + 1] == ' '))
    && SpaceFree(name) && space != [] && AllSpace(space)
    && (if tail == [] then kind == '\0' else !IsSpace(tail[0]) && kind == tail[0])
  }

  ghost predicate Shows(line: string, name: string, kind: char) {
    exists path, space, tail :: ShownAs(line, name, kind, path, space, tail)
  }

  lemma ShownIsParsed(line: string, name: string, kind: char, path: string, space: string, tail: string)
    requires ShownAs(line, name, kind, path, space, tail)
    ensures ParseLine(line) == Defined(name, kind)
  {
    var at, rest := |path|, name + (space + tail);
    assert line[at] == ':' && line[at + 1] == ' ';
    assert line[at + 2..] == rest;
    SeparatorChars(line, at);
    forall j: int | at < j
      ensures !OccursAt(line, SEPARATOR, j)
    {
      SeparatorChars(line, j);
    }
    assert LastOccurrence(line, at);
    UniqueLast(line, at);
    ParseSymbolAt(line, at + 2, name, space, tail);
  }

  lemma ParsedIsShown(line: string, name: string, kind: char)
    requires ParseLine(line) == Defined(name, kind)
    ensures Shows(line, name, kind)
  {
    var at := LastSeparator(line, |line|).value;
    NothingLater(line, at);
    var end := SkipWord(line, at + 2);
    var last := SkipSpace(line, end + 1);
    ShownAtParts(line, at, end, last, kind);
  }

  lemma NothingLater(line: string, at: nat)
    requires LastOccurrence(line, at)
    ensures at + 1 < |line| && line[at] == ':' && line[at + 1] == ' '
    ensures forall j :: at < j < |line| - 1 ==> !(line[j] == ':' && line[j + 1] == ' ')
  {
    SeparatorChars(line, at);
    forall j | at < j < |line| - 1
      ensures !(line[j] == ':' && line[j + 1] == ' ')
    {
      SeparatorChars(line, j);
    }
  }

  lemma ShownAtParts(line: string, at: nat, end: nat, last: nat, kind: char)
    requires at + 2 <= end < last <= |line| && line[at] == ':' && line[at + 1] == ' '
    requires forall j :: at < j < |line| - 1 ==> !(line[j] == ':' && line[j + 1] == ' ')
    requires forall i :: at + 2 <= i < end ==> !IsSpace(line[i])
    requires forall i :: end <= i < last ==> IsSpace(line[i])
    requires if last == |line| then kind == '\0' else !IsSpace(line[last]) && kind == line[last]
    ensures Shows(line, line[at + 2..end], kind)
  {
    var path, name, space, tail := line[..at], line[at + 2..end], line[end..last], line[last..];
    FourParts(line, at, end, last);
    assert ShownAs(line, name, kind, path, space, tail);
  }

  lemma FourParts(line: string, at: nat, end: nat, last: nat)
    requires at + 2 <= end <= last <= |line| && line[at] == ':' && line[at + 1] == ' '
    ensures line == line[..at] + (": " + (line[at + 2..end] + (line[end..last] + line[last..])))
  {
    assert line[at..at + 2] == [line[at], line[at + 1]];
    assert line[end..] == line[end..last] + line[last..];
    assert line[at + 2..] == line[at + 2..end] + line[end..];
  }

  /** A line defines a name with a kind exactly when it shows them; it is blank exactly when it is white space only. */
  lemma LineMeaning(line: string)
    ensures forall name, kind :: ParseLine(line) == Defined(name, kind) <==> Shows(line, name, kind)
    ensures ParseLine(line).Blank? <==> AllSpace(line)
    ensures ParseLine(line).Malformed? <==> !AllSpace(line) && !exists name, kind :: Shows(line, name, kind)
  {
    forall name, kind
      ensures ParseLine(line) == Defined(name, kind) <==> Shows(line, name, kind)
    {
      if ParseLine(line) == Defined(name, kind) {
        ParsedIsShown(line, name, kind);
      }
      if path, space, tail :| ShownAs(line, name, kind, path, space, tail) {
        ShownIsParsed(line, name, kind, path, space, tail);
      }
    }
    if AllSpace(line) {
      forall j: int
        ensures !OccursAt(line, SEPARATOR, j)
      {
        SeparatorChars(line, j);
      }
    }
    match ParseLine(line)
    case Defined(name, kind) => assert Shows(line, name, kind);
    case _ =>
  }

  // ---------- decorated names ----------

  predicate OnlyDigits(s: string) {
    forall i :: 0 <= i < |s| ==> 48 <= s[i] as int <= 57
  }

  /** An underscore, the name, an at sign and at least one digit. */
  ghost predicate Decorates(raw: string, name: string, digits: string) {
    raw == "_" + (name + ("@" + digits)) && digits != [] && OnlyDigits(digits)
  }

  /** The name inside the decoration; what is not decorated is the name itself. */
  ghost predicate Undecorated(raw: string, name: string) {
    || (exists digits :: Decorates(raw, name, digits))
    || (name == raw && forall inner, digits :: !Decorates(raw, inner, digits))
  }

  lemma NormalizeMeaning(raw: string, name: string)
    ensures NormalizeStdcall(raw) == name <==> Undecorated(raw, name)
  {
    if NormalizeStdcall(raw) != raw {
      var at := LastIndex(raw, '@', |raw|).value;
      DecoratedAt(raw, at);
    }
    forall inner, digits | Decorates(raw, inner, digits)
      ensures NormalizeStdcall(raw) == inner && inner != raw
    {
      StdcallRoundTrip(inner, digits);
      assert |inner| < |raw|;
    }
  }

  lemma DecoratedAt(raw: string, at: nat)
    requires raw != [] && raw[0] == '_' && at + 1 < |raw| && raw[at] == '@' && AllDigits(raw[at + 1..])
    ensures Decorates(raw, raw[1..at], raw[at + 1..])
  {
    assert raw[..1] == "_" && raw[at..at + 1] == "@";
    assert raw == raw[..1] + (raw[1..at] + (raw[at..at + 1] + raw[at + 1..]));
  }

  /** A name that does not begin with an underscore, or has no at sign, is left as it is. */
  lemma PlainNameStays(raw: string)
    requires raw == [] || raw[0] != '_' || '@' !in raw
    ensures NormalizeStdcall(raw) == raw
  {
    forall inner, digits
      ensures !Decorates(raw, inner, digits)
    {
      var s := "_" + (inner + ("@" + digits));
      assert s[0] == '_' && s[1 + |inner|] == '@';
    }
    NormalizeMeaning(raw, raw);
  }
}
