/**
 Decoding one shell word of a parameter file, in place. Inside double quotes the decoder
 drops a backslash before any character; that is what is specified here.
 */
module ShellWords {
  import opened CStrings

  datatype Quote = Unquoted | Single | Double

  datatype DecodeError = TrailingEscape | SeveralArguments | UnterminatedQuote | NoArgument

  function PrependTo(c: char, r: Result<string, DecodeError>): Result<string, DecodeError> {
    match r
    case Success(s) => Success([c] + s)
    case Failure(e) => Failure(e)
  }

  /** The quote-state decoder, on a copy of the input. */
  function DecodeFrom(s: string, quote: Quote, started: bool, separated: bool): Result<string, DecodeError>
    decreases |s|
  {
    if s == [] then
      if !quote.Unquoted? then Failure(UnterminatedQuote)
      else if !started then Failure(NoArgument)
      else Success([])
    else
      var c, rest := s[0], s[1..];
      match quote
      case Single =>
        if c == '\'' then DecodeFrom(rest, Unquoted, started, separated)
        else PrependTo(c, DecodeFrom(rest, Single, started, separated))
      case Double =>
        if c == '"' then DecodeFrom(rest, Unquoted, started, separated)
        else if c == '\\' then
          if rest == [] then Failure(TrailingEscape)
          else PrependTo(rest[0], DecodeFrom(rest[1..], Double, started, separated))
        else PrependTo(c, DecodeFrom(rest, Double, started, separated))
      case Unquoted =>
        if IsSpace(c) then DecodeFrom(rest, Unquoted, started, started)
        else if separated then Failure(SeveralArguments)
        else if c == '\'' then DecodeFrom(rest, Single, true, separated)
        else if c == '"' then DecodeFrom(rest, Double, true, separated)
        else if c == '\\' then
          if rest == [] then Failure(TrailingEscape)
          else PrependTo(rest[0], DecodeFrom(rest[1..], Unquoted, true, separated))
        else PrependTo(c, DecodeFrom(rest, Unquoted, true, separated))
  }

  function Decode(s: string): Result<string, DecodeError> {
    DecodeFrom(s, Unquoted, false, false)
  }

  /** Success with `done` in front, or the same failure. */
  function AppendTo(done: string, r: Result<string, DecodeError>): Result<string, DecodeError> {
    match r
    case Success(s) => Success(done + s)
    case Failure(e) => Failure(e)
  }

  /** A NUL-terminated string at the start of an array. */
  ghost predicate IsCString(a: array<char>, s: string)
    reads a
  {
    |s| < a.Length && a[..|s|] == s && a[|s|] == '\0' && '\0' !in s
  }

  /**
   Decodes within the array that holds the input. The write position never passes the
   read position, so what is still to be read is as it was.
   */
  method DecodeShellArgument(value: array<char>, ghost s: string) returns (result: Result<nat, DecodeError>)
    requires IsCString(value, s)
    modifies value
    ensures match result
      case Success(length) => length <= |s| && Decode(s) == Success(value[..length]) && value[length] == '\0'
      case Failure(e) => Decode(s) == Failure(e)
  {
    var input: nat, output: nat := 0, 0;
    var quote, started, separated := Unquoted, false, false;
    ghost var n, goal := |s|, Decode(s);
    assert s[0..] == s;
    EmitNothing(goal);
    while value[input] != '\0'
      invariant output <= input <= n < value.Length
      invariant forall i :: input <= i < n ==> value[i] == s[i]
      invariant value[n] == '\0'
      invariant AppendTo(value[..output], DecodeFrom(s[input..], quote, started, separated)) == goal
      decreases n - input
    {
      assert input < n;
      var character := value[input];
      ghost var rest := s[input..];
      ghost var current := DecodeFrom(rest, quote, started, separated);
      assert rest[0] == character && rest[1..] == s[input + 1..];
      assert input + 1 < n ==> rest[1..][0] == s[input + 1] && rest[1..][1..] == s[input + 2..];
      input := input + 1;
      var write, emitted := false, character;
      match quote {
        case Single =>
          if character == '\'' {
            quote := Unquoted;
          } else {
            write := true;
          }
        case Double =>
          if character == '"' {
            quote := Unquoted;
          } else if character == '\\' {
            if value[input] == '\0' {
              EndOfInput(s, input);
              return Failure(TrailingEscape);
            }
            emitted := value[input];
            input := input + 1;
            write := true;
          } else {
            write := true;
          }
        case Unquoted =>
          if IsSpace(character) {
            separated := started;
          } else {
            if separated {
              return Failure(SeveralArguments);
            }
            started := true;
            if character == '\'' {
              quote := Single;
            } else if character == '"' {
              quote := Double;
            } else if character == '\\' {
              if value[input] == '\0' {
                EndOfInput(s, input);
                return Failure(TrailingEscape);
              }
              emitted := value[input];
              input := input + 1;
              write := true;
            } else {
              write := true;
            }
          }
      }
      ghost var next := DecodeFrom(s[input..], quote, started, separated);
      assert current == if write then PrependTo(emitted, next) else next;
      if write {
        EmitOne(value[..output], emitted, next);
        value[output] := emitted;
        assert value[..output + 1] == value[..output] + [emitted];
        output := output + 1;
      }
    }
    assert input == n;
    assert value[..output] + [] == value[..output];
    ghost var word := value[..output];
    if !quote.Unquoted? {
      return Failure(UnterminatedQuote);
    }
    if !started {
      return Failure(NoArgument);
    }
    value[output] := '\0';
    assert value[..output] == word;
    return Success(output);
  }

  lemma EmitNothing(r: Result<string, DecodeError>)
    ensures AppendTo("", r) == r
  {
    assert r.Success? ==> "" + r.value == r.value;
  }

  lemma EmitOne(done: string, c: char, r: Result<string, DecodeError>)
    ensures AppendTo(done, PrependTo(c, r)) == AppendTo(done + [c], r)
  {
    assert r.Success? ==> done + ([c] + r.value) == done + [c] + r.value;
  }

  lemma EndOfInput(s: string, input: nat)
    requires input <= |s| && '\0' !in s
    ensures s[input..] == [] <==> input == |s|
  {
  }

  // ---------- quoting ----------

  /** The single-quoted form of a string: each quote leaves the quotes, escaped, and enters them again. */
  function QuoteBody(s: string): string {
    if s == [] then [] else (if s[0] == '\'' then "'\\''" else [s[0]]) + QuoteBody(s[1..])
  }

  function Quoted(s: string): string {
    "'" + (QuoteBody(s) + "'")
  }

  lemma {:induction false} DecodeQuoteBody(s: string, after: string)
    requires AllSpace(after)
    ensures DecodeFrom(QuoteBody(s) + ("'" + after), Single, true, false) == Success(s)
  {
    var closing := "'" + after;
    if s == [] {
      assert (QuoteBody(s) + closing)[1..] == after;
      TrailingSpace(after, false);
    } else {
      DecodeQuoteBody(s[1..], after);
      var head, body := if s[0] == '\'' then "'\\''" else [s[0]], QuoteBody(s[1..]);
      DecodeQuotedChar(s[0], body + closing);
      assert (head + body) + closing == head + (body + closing);
      assert s == [s[0]] + s[1..];
    }
  }

  lemma DecodeQuotedChar(c: char, rest: string)
    ensures DecodeFrom((if c == '\'' then "'\\''" else [c]) + rest, Single, true, false)
         == PrependTo(c, DecodeFrom(rest, Single, true, false))
  {
    if c == '\'' {
      DecodeEscapedQuote(rest);
    } else {
      assert ([c] + rest)[1..] == rest;
    }
  }

  lemma {:induction false} TrailingSpace(after: string, separated: bool)
    requires AllSpace(after)
    ensures DecodeFrom(after, Unquoted, true, separated) == Success([])
  {
    if after != [] {
      TrailingSpace(after[1..], true);
    }
  }

  lemma DecodeEscapedQuote(rest: string)
    ensures DecodeFrom("'\\''" + rest, Single, true, false) == PrependTo('\'', DecodeFrom(rest, Single, true, false))
  {
    var text := "'\\''" + rest;
    assert text[1..] == "\\''" + rest;
    assert ("'" + rest)[1..] == rest;
    var t1, t2 := "\\''" + rest, "'" + rest;
    assert DecodeFrom(t2, Unquoted, true, false) == DecodeFrom(rest, Single, true, false);
    assert t1[1..][0] == '\'' && t1[1..][1..] == t2;
    assert DecodeFrom(t1, Unquoted, true, false) == PrependTo('\'', DecodeFrom(t2, Unquoted, true, false));
  }

  /** Decoding the single-quoted form of any string, surrounded by any white space, gives the string back. */
  lemma QuotedRoundTrip(s: string, before: string, after: string)
    requires AllSpace(before) && AllSpace(after)
    ensures Decode(before + (Quoted(s) + after)) == Success(s)
  {
    var text := Quoted(s) + after;
    assert text[1..] == QuoteBody(s) + ("'" + after);
    DecodeQuoteBody(s, after);
    LeadingSpace(before, text);
  }

  lemma {:induction false} LeadingSpace(before: string, s: string)
    requires AllSpace(before)
    ensures Decode(before + s) == Decode(s)
  {
    if before == [] {
      assert before + s == s;
    } else {
      LeadingSpace(before[1..], s);
      assert (before + s)[1..] == before[1..] + s;
    }
  }
}
