/** A reader for the JSON grammar (RFC 8259, sections 2 to 7), independent of the generator. */
module JsonReader {
  import opened CStrings
  import opened JsonStrings

  datatype Json =
    | Null
    | Bool(b: bool)
    | Number(lexeme: string)
    | Str(s: string)
    | Arr(items: seq<Json>)
    | Obj(members: seq<(string, Json)>)

  function SkipWs(s: string): (r: string)
    ensures |r| <= |s|
  {
    if s != [] && (s[0] == ' ' || s[0] == '\t' || s[0] == '\n' || s[0] == '\r') then SkipWs(s[1..]) else s
  }

  function DigitRun(s: string): (n: nat)
    ensures n <= |s|
  {
    if s != [] && IsDigit(s[0]) then 1 + DigitRun(s[1..]) else 0
  }

  /** The length of an optional fraction: 0 when there is none, None when it is malformed. */
  function FractionLength(s: string): (r: Option<nat>)
    ensures r.Some? ==> r.value <= |s|
  {
    if s == [] || s[0] != '.' then Some(0)
    else if DigitRun(s[1..]) == 0 then None
    else Some(1 + DigitRun(s[1..]))
  }

  function ExponentLength(s: string): (r: Option<nat>)
    ensures r.Some? ==> r.value <= |s|
  {
    if s == [] || (s[0] != 'e' && s[0] != 'E') then Some(0)
    else
      var sign := if |s| > 1 && (s[1] == '+' || s[1] == '-') then 1 else 0;
      var digits := DigitRun(s[1 + sign..]);
      if digits == 0 then None else Some(1 + sign + digits)
  }

  /** A number: optional minus, digits without a superfluous leading zero, fraction, exponent. */
  function ReadNumber(s: string): (r: Option<(Json, string)>)
    ensures r.Some? ==> |r.value.1| < |s|
  {
    var minus := if s != [] && s[0] == '-' then 1 else 0;
    var digits := DigitRun(s[minus..]);
    if digits == 0 || (digits > 1 && s[minus] == '0') then None
    else
      match FractionLength(s[minus + digits..])
      case None => None
      case Some(fraction) =>
        match ExponentLength(s[minus + digits + fraction..])
        case None => None
        case Some(exponent) =>
          var end := minus + digits + fraction + exponent;
          Some((Number(s[..end]), s[end..]))
  }

  function ReadValue(s: string): (r: Option<(Json, string)>)
    ensures r.Some? ==> |r.value.1| < |s|
    decreases |s|, 2
  {
    var t := SkipWs(s);
    if t == [] then None
    else if t[0] == '{' then ReadObject(t[1..])
    else if t[0] == '[' then ReadArray(t[1..])
    else if t[0] == '"' then
      match ReadChars(t[1..])
      case None => None
      case Some((text, rest)) => Some((Str(text), rest))
    else if "true" <= t then Some((Bool(true), t[4..]))
    else if "false" <= t then Some((Bool(false), t[5..]))
    else if "null" <= t then Some((Null, t[4..]))
    else ReadNumber(t)
  }

  /** Reads an object after its opening brace. */
  function ReadObject(s: string): (r: Option<(Json, string)>)
    ensures r.Some? ==> |r.value.1| < |s|
    decreases |s|, 3
  {
    var t := SkipWs(s);
    if t != [] && t[0] == '}' then Some((Obj([]), t[1..]))
    else
      match ReadMembers(s)
      case None => None
      case Some((members, rest)) => Some((Obj(members), rest))
  }

  /** Reads one or more members and the closing brace. */
  function ReadMembers(s: string): (r: Option<(seq<(string, Json)>, string)>)
    ensures r.Some? ==> |r.value.1| < |s|
    decreases |s|, 1
  {
    var t := SkipWs(s);
    if t == [] || t[0] != '"' then None
    else
      match ReadChars(t[1..])
      case None => None
      case Some((key, rest)) =>
        var u := SkipWs(rest);
        if u == [] || u[0] != ':' then None
        else
          match ReadValue(u[1..])
          case None => None
          case Some((value, rest')) => MoreMembers(key, value, rest')
  }

  function MoreMembers(key: string, value: Json, s: string): (r: Option<(seq<(string, Json)>, string)>)
    ensures r.Some? ==> |r.value.1| < |s|
    decreases |s|, 2
  {
    var t := SkipWs(s);
    if t == [] then None
    else if t[0] == '}' then Some(([(key, value)], t[1..]))
    else if t[0] != ',' then None
    else
      match ReadMembers(t[1..])
      case None => None
      case Some((members, rest)) => Some(([(key, value)] + members, rest))
  }

  /** Reads an array after its opening bracket. */
  function ReadArray(s: string): (r: Option<(Json, string)>)
    ensures r.Some? ==> |r.value.1| < |s|
    decreases |s|, 4
  {
    var t := SkipWs(s);
    if t != [] && t[0] == ']' then Some((Arr([]), t[1..]))
    else
      match ReadElements(s)
      case None => None
      case Some((items, rest)) => Some((Arr(items), rest))
  }

  /** Reads one or more elements and the closing bracket. */
  function ReadElements(s: string): (r: Option<(seq<Json>, string)>)
    ensures r.Some? ==> |r.value.1| < |s|
    decreases |s|, 3
  {
    match ReadValue(s)
    case None => None
    case Some((item, rest)) => MoreElements(item, rest)
  }

  function MoreElements(item: Json, s: string): (r: Option<(seq<Json>, string)>)
    ensures r.Some? ==> |r.value.1| < |s|
    decreases |s|, 5
  {
    var t := SkipWs(s);
    if t == [] then None
    else if t[0] == ']' then Some(([item], t[1..]))
    else if t[0] != ',' then None
    else
      match ReadElements(t[1..])
      case None => None
      case Some((items, rest)) => Some(([item] + items, rest))
  }

  /** JSON-text = ws value ws, with nothing after it. */
  function ReadDocument(s: string): Option<Json> {
    match ReadValue(s)
    case None => None
    case Some((value, rest)) => if SkipWs(rest) == [] then Some(value) else None
  }
}
