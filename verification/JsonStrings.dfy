/** JSON string literals: how the generator escapes them and how section 7 of RFC 8259 reads them. */
module JsonStrings {
  import opened CStrings

  // ---------- writing ----------

  function HexDigit(n: nat): char
    requires n < 16
  {
    "0123456789abcdef"[n]
  }

  function Escape(c: char): (e: string)
    ensures 1 <= |e| <= Cost(c)
    ensures Cost(c) == |e| + if IsShortControl(c) then 4 else 0
  {
    if c == '"' then "\\\""
    else if c == '\\' then "\\\\"
    else if c as int == 8 then "\\b"
    else if c as int == 12 then "\\f"
    else if c as int == 10 then "\\n"
    else if c as int == 13 then "\\r"
    else if c as int == 9 then "\\t"
    else if c as int < 0x20 then ['\\', 'u', '0', '0', HexDigit(c as int / 16), HexDigit(c as int % 16)]
    else [c]
  }

  /** The control characters with a two-character escape. */
  predicate IsShortControl(c: char) {
    c as int == 8 || c as int == 9 || c as int == 10 || c as int == 12 || c as int == 13
  }

  /** The bytes set aside for a character before escaping it. */
  function Cost(c: char): nat {
    if c as int < 0x20 then 6 else if c == '"' || c == '\\' then 2 else 1
  }

  function EscapeAll(s: string): string {
    if s == [] then [] else Escape(s[0]) + EscapeAll(s[1..])
  }

  function TotalCost(s: string): nat {
    if s == [] then 0 else Cost(s[0]) + TotalCost(s[1..])
  }

  function ShortControls(s: string): nat {
    if s == [] then 0 else (if IsShortControl(s[0]) then 1 else 0) + ShortControls(s[1..])
  }

  function JsonString(s: string): string {
    "\"" + (EscapeAll(s) + "\"")
  }

  lemma {:induction false} CostIsLength(s: string)
    ensures TotalCost(s) == |EscapeAll(s)| + 4 * ShortControls(s)
  {
    if s != [] {
      CostIsLength(s[1..]);
    }
  }

  method MeasureJsonString(value: string) returns (size: nat)
    ensures size == 3 + TotalCost(value)
  {
    size := 3;
    for index := 0 to |value|
      invariant size + TotalCost(value[index..]) == 3 + TotalCost(value)
    {
      size := size + Cost(value[index]);
      assert value[index..][1..] == value[index + 1..];
    }
  }

  method PutText(buffer: array<char>, offset: nat, text: string)
    requires offset + |text| <= buffer.Length
    modifies buffer
    ensures buffer[..offset + |text|] == old(buffer[..offset]) + text
  {
    forall i | 0 <= i < |text| {
      buffer[offset + i] := text[i];
    }
  }

  lemma EscapeNext(written: string, value: string, index: nat)
    requires index < |value|
    ensures written + Escape(value[index]) + EscapeAll(value[index + 1..]) == written + EscapeAll(value[index..])
    ensures TotalCost(value[index..]) == Cost(value[index]) + TotalCost(value[index + 1..])
  {
    assert value[index..][1..] == value[index + 1..];
  }

  method FillEscapes(result: array<char>, value: string) returns (offset: nat)
    requires result.Length == 3 + TotalCost(value) && result[0] == '"'
    modifies result
    ensures offset + 2 <= result.Length
    ensures result[..offset] == "\"" + EscapeAll(value)
  {
    offset := 1;
    ghost var body := "\"" + EscapeAll(value);
    for index := 0 to |value|
      invariant 1 <= offset && offset + TotalCost(value[index..]) + 2 <= result.Length
      invariant result[..offset] + EscapeAll(value[index..]) == body
    {
      EscapeNext(result[..offset], value, index);
      var escape := Escape(value[index]);
      PutText(result, offset, escape);
      offset := offset + |escape|;
    }
  }

  /**
   Escapes into a buffer sized beforehand. The text and its terminator fit, with four
   bytes to spare for each control character that has a short escape.
   */
  method WriteJsonString(value: string) returns (result: array<char>, offset: nat)
    ensures fresh(result) && offset < result.Length
    ensures result[..offset] == JsonString(value) && result[offset] == '\0'
    ensures offset + 1 == result.Length - 4 * ShortControls(value)
  {
    var size := MeasureJsonString(value);
    CostIsLength(value);
    result := new char[size];
    result[0] := '"';
    offset := FillEscapes(result, value);
    ghost var body := result[..offset];
    assert body + "\"" == JsonString(value);
    PutText(result, offset, "\"");
    offset := offset + 1;
    result[offset] := '\0';
    assert result[..offset] == body + "\"";
  }

  method MakeJsonString(value: string) returns (json: string)
    ensures json == JsonString(value)
  {
    var result, offset := WriteJsonString(value);
    json := result[..offset];
  }

  // ---------- reading ----------

  function HexValue(c: char): Option<nat> {
    if '0' <= c <= '9' then Some(c as int - '0' as int)
    else if 'a' <= c <= 'f' then Some(c as int - 'a' as int + 10)
    else if 'A' <= c <= 'F' then Some(c as int - 'A' as int + 10)
    else None
  }

  /** What follows a backslash: one of the eight short escapes, or u and four hexadecimal digits. */
  function ReadEscape(s: string): (r: Option<(char, string)>)
    ensures r.Some? ==> |r.value.1| < |s|
  {
    if s == [] then None
    else if s[0] == '"' || s[0] == '\\' || s[0] == '/' then Some((s[0], s[1..]))
    else if s[0] == 'b' then Some((8 as char, s[1..]))
    else if s[0] == 'f' then Some((12 as char, s[1..]))
    else if s[0] == 'n' then Some((10 as char, s[1..]))
    else if s[0] == 'r' then Some((13 as char, s[1..]))
    else if s[0] == 't' then Some((9 as char, s[1..]))
    else if s[0] == 'u' && |s| >= 5 then
      match (HexValue(s[1]), HexValue(s[2]), HexValue(s[3]), HexValue(s[4]))
      case (Some(a), Some(b), Some(c), Some(d)) =>
        var code := ((a * 16 + b) * 16 + c) * 16 + d;
        if code < 0xD800 then Some((code as char, s[5..])) else None
      case _ => None
    else None
  }

  /** Reads characters up to the closing quote; bare control characters are refused. */
  function ReadChars(s: string): (r: Option<(string, string)>)
    ensures r.Some? ==> |r.value.1| < |s|
    decreases |s|
  {
    if s == [] then None
    else if s[0] == '"' then Some(([], s[1..]))
    else if s[0] as int < 0x20 then None
    else if s[0] == '\\' then
      match ReadEscape(s[1..])
      case None => None
      case Some((c, rest)) => PrependChar(c, ReadChars(rest))
    else PrependChar(s[0], ReadChars(s[1..]))
  }

  function PrependChar(c: char, r: Option<(string, string)>): Option<(string, string)> {
    match r
    case None => None
    case Some((text, rest)) => Some(([c] + text, rest))
  }

  // ---------- reading undoes writing ----------

  lemma ReadShortEscape(c: char, letter: char, rest: string)
    requires Escape(c) == ['\\', letter] && letter != 'u'
    requires ReadEscape([letter] + rest) == Some((c, ([letter] + rest)[1..]))
    ensures ReadChars(Escape(c) + rest) == PrependChar(c, ReadChars(rest))
  {
    var s := Escape(c) + rest;
    assert s[1..] == [letter] + rest;
    assert ([letter] + rest)[1..] == rest;
  }

  lemma ReadUnicodeEscape(c: char, rest: string)
    requires |Escape(c)| == 6
    ensures ReadChars(Escape(c) + rest) == PrependChar(c, ReadChars(rest))
  {
    var s, code := Escape(c) + rest, c as int;
    var t := s[1..];
    assert t[5..] == rest;
    assert t[1] == '0' && t[2] == '0' && t[3] == HexDigit(code / 16) && t[4] == HexDigit(code % 16);
    assert HexValue(t[3]) == Some(code / 16) && HexValue(t[4]) == Some(code % 16);
  }

  lemma ReadOneEscaped(c: char, rest: string)
    ensures ReadChars(Escape(c) + rest) == PrependChar(c, ReadChars(rest))
  {
    var e := Escape(c);
    if |e| == 2 {
      ReadShortEscape(c, e[1], rest);
    } else if |e| == 6 {
      ReadUnicodeEscape(c, rest);
    } else {
      assert (e + rest)[1..] == rest;
    }
  }

  lemma {:induction false} ReadEscaped(s: string, rest: string)
    ensures ReadChars(EscapeAll(s) + ("\"" + rest)) == Some((s, rest))
  {
    var closing := "\"" + rest;
    if s == [] {
      assert EscapeAll(s) + closing == closing && closing[1..] == rest;
    } else {
      ReadEscaped(s[1..], rest);
      Reassociate(Escape(s[0]), EscapeAll(s[1..]), closing);
      ReadOneEscaped(s[0], EscapeAll(s[1..]) + closing);
      assert s == [s[0]] + s[1..];
    }
  }

  /** Unescaping the literal gives the string back, whatever follows the literal. */
  lemma JsonStringRoundTrip(s: string, rest: string)
    ensures var text := JsonString(s) + rest;
      text[0] == '"' && ReadChars(text[1..]) == Some((s, rest))
  {
    var text := JsonString(s) + rest;
    assert text[1..] == EscapeAll(s) + ("\"" + rest);
    ReadEscaped(s, rest);
  }

  /** Between the quotes: no control character, and no quote that a backslash does not introduce. */
  ghost predicate CleanBody(b: string)
    decreases |b|
  {
    b == [] ||
    if b[0] == '\\' then |b| >= 2 && b[1] as int >= 0x20 && CleanBody(b[2..])
    else b[0] != '"' && b[0] as int >= 0x20 && CleanBody(b[1..])
  }

  lemma {:induction false} EscapedIsClean(s: string)
    ensures CleanBody(EscapeAll(s))
  {
    if s != [] {
      EscapedIsClean(s[1..]);
      CleanStep(s[0], EscapeAll(s[1..]));
    }
  }

  lemma CleanStep(c: char, rest: string)
    requires CleanBody(rest)
    ensures CleanBody(Escape(c) + rest)
  {
    var e := Escape(c);
    var b := e + rest;
    assert b[0] == e[0];
    if |e| == 6 {
      CleanPrefix(e[2..], rest);
      assert b[1] == 'u' && b[2..] == e[2..] + rest;
    } else if |e| == 2 {
      assert b[1] == e[1] && b[2..] == rest;
    } else {
      assert b[1..] == rest;
    }
  }

  lemma {:induction false} CleanPrefix(p: string, rest: string)
    requires CleanBody(rest) && forall i :: 0 <= i < |p| ==> p[i] as int >= 0x30 && p[i] != '\\'
    ensures CleanBody(p + rest)
  {
    if p == [] {
      assert p + rest == rest;
    } else {
      CleanPrefix(p[1..], rest);
      assert (p + rest)[1..] == p[1..] + rest;
    }
  }
}
