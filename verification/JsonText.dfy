/**
 String escaping and the hand-written JSON string reader of the floor file (strings as
 in section 7 of RFC 8259). Positions count characters.
 */
module JsonText {
  import opened Wrappers

  datatype ParseError =
    | ExpectedString
    | InvalidEscape
    | UnterminatedUnicodeEscape
    | InvalidUnicodeEscape
    | NotAScalar
    | UnterminatedString
    | MissingField
    | MissingColon
    | NotAnArray
    | NotCommaDelimited
    | NotAString
    | NotAnInteger
    | IntegerTooLarge

  const QUOTE: char := '\"'
  const BACKSLASH: char := '\\'

  // ---------------------------------------------------------------------
  // Escaping

  predicate IsControl(c: char)
  {
    c as int < 0x20 || 0x7F <= c as int < 0xA0
  }

  function HexDigit(n: nat): char
    requires n < 16
  {
    "0123456789abcdef"[n]
  }

  function EscapeChar(c: char): string
  {
    if c == QUOTE then [BACKSLASH, QUOTE]
    else if c == BACKSLASH then [BACKSLASH, BACKSLASH]
    else if c == '\n' then [BACKSLASH, 'n']
    else if c == '\r' then [BACKSLASH, 'r']
    else if c == '\t' then [BACKSLASH, 't']
    else if IsControl(c) then [BACKSLASH, 'u', '0', '0', HexDigit(c as int / 16), HexDigit(c as int % 16)]
    else [c]
  }

  function FlatMap(f: char -> string, s: string): string
  {
    if s == [] then [] else f(s[0]) + FlatMap(f, s[1..])
  }

  function Escape(s: string): string
  {
    FlatMap(EscapeChar, s)
  }

  function Quoted(s: string): string
  {
    [QUOTE] + Escape(s) + [QUOTE]
  }

  lemma {:induction false} FlatMapAppend(f: char -> string, a: string, b: string)
    ensures FlatMap(f, a + b) == FlatMap(f, a) + FlatMap(f, b)
  {
    if a == [] {
      assert a + b == b;
    } else {
      var x, y, z := f(a[0]), FlatMap(f, a[1..]), FlatMap(f, b);
      assert FlatMap(f, a[1..] + b) == y + z by {
        FlatMapAppend(f, a[1..], b);
      }
      assert FlatMap(f, a + b) == x + (y + z) by {
        assert (a + b)[0] == a[0] && (a + b)[1..] == a[1..] + b;
      }
      assert x + (y + z) == (x + y) + z;
    }
  }

  lemma {:induction false} FlatMapOne(f: char -> string, c: char)
    ensures FlatMap(f, [c]) == f(c)
  {
    assert FlatMap(f, [c]) == f(c) + FlatMap(f, [c][1..]);
  }

  lemma {:induction false} EscapeAppend(a: string, b: string)
    ensures Escape(a + b) == Escape(a) + Escape(b)
  {
    FlatMapAppend(EscapeChar, a, b);
  }

  method EscapeJson(value: string) returns (escaped: string)
    ensures escaped == Escape(value)
  {
    escaped := [];
    for k := 0 to |value|
      invariant escaped == Escape(value[..k])
    {
      EscapeAppend(value[..k], [value[k]]);
      assert value[..k + 1] == value[..k] + [value[k]];
      FlatMapOne(EscapeChar, value[k]);
      escaped := escaped + EscapeChar(value[k]);
    }
    assert value[..|value|] == value;
  }

  /** A bare quote in escaped text always follows a backslash, and escaping adds no colon. */
  lemma {:induction false} EscapeCharSafe(c: char)
    ensures c != QUOTE ==> QUOTE !in EscapeChar(c)
    ensures ':' in EscapeChar(c) <==> c == ':'
    ensures BACKSLASH in EscapeChar(c) <==> EscapeChar(c) != [c]
  {
  }

  // ---------------------------------------------------------------------
  // Reading

  function HexValue(c: char): Option<nat>
  {
    if '0' <= c <= '9' then Some(c as int - '0' as int)
    else if 'a' <= c <= 'f' then Some(c as int - 'a' as int + 10)
    else if 'A' <= c <= 'F' then Some(c as int - 'A' as int + 10)
    else None
  }

  /** Unsigned radix-16 parse; like the library routine it takes a leading plus sign. */
  function HexNumber(digits: string): Option<nat>
    requires digits != []
  {
    if digits[0] == '+' && |digits| > 1 then HexDigits(digits[1..], 0) else HexDigits(digits, 0)
  }

  function HexDigits(digits: string, value: nat): Option<nat>
  {
    if digits == [] then Some(value)
    else
      var d := HexValue(digits[0]);
      if d.None? then None else HexDigits(digits[1..], value * 16 + d.value)
  }

  predicate IsScalar(code: nat)
  {
    code < 0xD800 || 0xE000 <= code < 0x110000
  }

  /** The character behind a backslash and how many characters the escape takes. */
  function ReadEscape(s: string): Result<(char, nat), ParseError>
    requires s != [] && s[0] == BACKSLASH
  {
    if |s| < 2 then Err(InvalidEscape)
    else if s[1] == QUOTE then Ok((QUOTE, 2))
    else if s[1] == BACKSLASH then Ok((BACKSLASH, 2))
    else if s[1] == '/' then Ok(('/', 2))
    else if s[1] == 'b' then Ok((8 as char, 2))
    else if s[1] == 'f' then Ok((12 as char, 2))
    else if s[1] == 'n' then Ok(('\n', 2))
    else if s[1] == 'r' then Ok(('\r', 2))
    else if s[1] == 't' then Ok(('\t', 2))
    else if s[1] == 'u' then
      if |s| < 6 then Err(UnterminatedUnicodeEscape)
      else
        var code := HexNumber(s[2..6]);
        if code.None? then Err(InvalidUnicodeEscape)
        else if !IsScalar(code.value) then Err(NotAScalar)
        else Ok((code.value as char, 6))
    else Err(InvalidEscape)
  }

  /** The next character of a string and its width; nothing at the closing quote. */
  function NextChar(s: string): (r: Result<Option<(char, nat)>, ParseError>)
    requires s != []
    ensures r.Ok? && r.value.Some? ==> 0 < r.value.value.1 <= |s|
  {
    if s[0] == QUOTE then Ok(None)
    else if s[0] == BACKSLASH then
      var escape := ReadEscape(s);
      if escape.Err? then Err(escape.error) else Ok(Some(escape.value))
    else Ok(Some((s[0], 1)))
  }

  /** The text after an opening quote: the string it spells and the length up to the closing quote. */
  function ReadBody(s: string): (r: Result<(string, nat), ParseError>)
    ensures r.Ok? ==> 0 < r.value.1 <= |s|
    decreases |s|
  {
    if s == [] then Err(UnterminatedString)
    else
      var next := NextChar(s);
      if next.Err? then Err(next.error)
      else if next.value.None? then Ok(([], 1))
      else Prepend(next.value.value.0, next.value.value.1, ReadBody(s[next.value.value.1..]))
  }

  function Prepend(c: char, width: nat, rest: Result<(string, nat), ParseError>): Result<(string, nat), ParseError>
  {
    if rest.Err? then rest else Ok(([c] + rest.value.0, width + rest.value.1))
  }

  /** The string literal at the start of `value` and the number of characters it takes. */
  function ReadString(value: string): (r: Result<(string, nat), ParseError>)
    ensures r.Ok? ==> 1 < r.value.1 <= |value|
  {
    if value == [] || value[0] != QUOTE then Err(ExpectedString)
    else
      var body := ReadBody(value[1..]);
      if body.Err? then body else Ok((body.value.0, body.value.1 + 1))
  }

  /** The whole reading, when `parsed` was read up to `index` and `rest` is read from there. */
  function Resumed(parsed: string, index: nat, rest: Result<(string, nat), ParseError>)
    : Result<(string, nat), ParseError>
  {
    if rest.Err? then rest else Ok((parsed + rest.value.0, index + rest.value.1))
  }

  lemma {:induction false} ResumeAfter(parsed: string, index: nat, c: char, width: nat,
                                       rest: Result<(string, nat), ParseError>)
    ensures Resumed(parsed, index, Prepend(c, width, rest)) == Resumed(parsed + [c], index + width, rest)
  {
    if rest.Ok? {
      assert parsed + ([c] + rest.value.0) == (parsed + [c]) + rest.value.0;
    }
  }

  method ParseJsonString(value: string) returns (r: Result<(string, nat), ParseError>)
    ensures r == ReadString(value)
  {
    if value == [] || value[0] != QUOTE {
      return Err(ExpectedString);
    }
    var parsed: string := [];
    var index := 1;
    ghost var goal := ReadString(value);
    assert ReadBody(value[1..]).Ok? ==> [] + ReadBody(value[1..]).value.0 == ReadBody(value[1..]).value.0;
    while index < |value|
      invariant 1 <= index <= |value|
      invariant Resumed(parsed, index, ReadBody(value[index..])) == goal
    {
      var next := NextChar(value[index..]);
      if next.Err? {
        return Err(next.error);
      }
      if next.value.None? {
        assert parsed + [] == parsed;
        return Ok((parsed, index + 1));
      }
      var (c, width) := next.value.value;
      assert value[index..][width..] == value[index + width..];
      ResumeAfter(parsed, index, c, width, ReadBody(value[index + width..]));
      parsed, index := parsed + [c], index + width;
    }
    r := Err(UnterminatedString);
  }

  // ---------------------------------------------------------------------
  // Round trip

  lemma {:induction false} HexStep(digit: nat, rest: string, value: nat)
    requires digit < 16
    ensures HexDigits([HexDigit(digit)] + rest, value) == HexDigits(rest, value * 16 + digit)
  {
    var s := [HexDigit(digit)] + rest;
    assert s[0] == HexDigit(digit) && s[1..] == rest;
    assert HexValue(HexDigit(digit)) == Some(digit);
  }

  lemma {:induction false} ControlHex(n: nat)
    requires n < 256
    ensures HexNumber(['0', '0', HexDigit(n / 16), HexDigit(n % 16)]) == Some(n)
  {
    var hi, lo := n / 16, n % 16;
    var two, one := [HexDigit(hi)] + [HexDigit(lo)], [HexDigit(lo)];
    assert ['0', '0', HexDigit(hi), HexDigit(lo)] == [HexDigit(0)] + ([HexDigit(0)] + two);
    HexStep(0, [HexDigit(0)] + two, 0);
    HexStep(0, two, 0);
    HexStep(hi, one, 0);
    HexStep(lo, [], hi);
    assert one + [] == one;
  }

  lemma {:induction false} ReadEscapedChar(c: char, rest: string)
    ensures ReadBody(EscapeChar(c) + rest) == Prepend(c, |EscapeChar(c)|, ReadBody(rest))
  {
    var e := EscapeChar(c);
    var s := e + rest;
    if e == [c] {
      assert s[1..] == rest;
    } else {
      assert s[|e|..] == rest;
      if |e| == 6 {
        ControlHex(c as int);
        assert s[2..6] == ['0', '0', HexDigit(c as int / 16), HexDigit(c as int % 16)];
        assert ReadEscape(s) == Ok((c, 6));
      } else {
        assert ReadEscape(s) == Ok((c, 2));
      }
    }
  }

  /** Reading back an escaped string gives the string and ends at its closing quote. */
  lemma {:induction false} ReadEscaped(s: string, rest: string)
    ensures ReadBody(Escape(s) + [QUOTE] + rest) == Ok((s, |Escape(s)| + 1))
  {
    if s == [] {
      assert Escape(s) + [QUOTE] + rest == [QUOTE] + rest;
    } else {
      ReadEscaped(s[1..], rest);
      var tail := Escape(s[1..]) + [QUOTE] + rest;
      assert Escape(s) + [QUOTE] + rest == EscapeChar(s[0]) + tail;
      ReadEscapedChar(s[0], tail);
      assert s == [s[0]] + s[1..];
    }
  }

  /** For every string, whatever follows its literal. */
  lemma {:induction false} ReadQuoted(s: string, rest: string)
    ensures ReadString(Quoted(s) + rest) == Ok((s, |Quoted(s)|))
    ensures (Quoted(s) + rest)[|Quoted(s)|..] == rest
  {
    ReadEscaped(s, rest);
    assert (Quoted(s) + rest)[1..] == Escape(s) + [QUOTE] + rest;
  }
}
