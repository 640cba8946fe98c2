/**
 The characters of the floor file: what each escape stands for, what counts as blank, which texts
 are refused and how, and the names of the fields.
 */
module FloorSyntax {
  import opened Wrappers
  import opened JsonText
  import opened RawSearch
  import opened FloorFile

  // ---------------------------------------------------------------------
  // Writing characters

  /** The lower-case hexadecimal digit of value `n`. */
  predicate IsHexDigitOf(c: char, n: nat)
  {
    c as int == if n < 10 then 48 + n else 87 + n
  }

  /** The characters that are not printed as themselves besides the quote and the backslash. */
  predicate IsUnprintable(c: char)
  {
    c as int <= 31 || 127 <= c as int <= 159
  }

  /**
   A quote, a backslash, a line feed, a carriage return and a tab are written by a letter, other
   unprintable characters by their four-digit code, and all the rest as they are.
   */
  lemma {:induction false} EscapeExact(c: char)
    ensures EscapeChar('\"') == ['\\', '\"'] && EscapeChar('\\') == ['\\', '\\']
    ensures EscapeChar(10 as char) == "\\n" && EscapeChar(13 as char) == "\\r" && EscapeChar(9 as char) == "\\t"
    ensures IsUnprintable(c) && c as int != 10 && c as int != 13 && c as int != 9 ==>
              && |EscapeChar(c)| == 6 && EscapeChar(c)[..4] == "\\u00"
              && IsHexDigitOf(EscapeChar(c)[4], c as int / 16) && IsHexDigitOf(EscapeChar(c)[5], c as int % 16)
    ensures !IsUnprintable(c) && c != '\"' && c != '\\' ==> EscapeChar(c) == [c]
  {
  }

  /** No character of an escaped text is unprintable. */
  lemma {:induction false} EscapePrintable(s: string)
    ensures forall i :: 0 <= i < |Escape(s)| ==> !IsUnprintable(Escape(s)[i])
  {
    if s != [] {
      EscapePrintable(s[1..]);
      var first, rest := EscapeChar(s[0]), Escape(s[1..]);
      assert forall i :: 0 <= i < |first| ==> !IsUnprintable(first[i]);
      assert Escape(s) == first + rest;
    }
  }

  // ---------------------------------------------------------------------
  // Reading characters

  /** Two-character escapes. */
  lemma {:induction false} ShortEscapes(rest: string)
    ensures ReadEscape(['\\', '\"'] + rest) == Ok(('\"', 2)) && ReadEscape(['\\', '\\'] + rest) == Ok(('\\', 2))
    ensures ReadEscape(['\\', '/'] + rest) == Ok(('/', 2))
    ensures ReadEscape(['\\', 'b'] + rest) == Ok((8 as char, 2))
    ensures ReadEscape(['\\', 'f'] + rest) == Ok((12 as char, 2))
    ensures ReadEscape(['\\', 'n'] + rest) == Ok((10 as char, 2))
    ensures ReadEscape(['\\', 'r'] + rest) == Ok((13 as char, 2))
    ensures ReadEscape(['\\', 't'] + rest) == Ok((9 as char, 2))
  {
  }

  /** A digit is read in either case. */
  lemma {:induction false} HexValueExact(c: char, n: nat)
    ensures HexValue(c) == Some(n) <==>
            n < 16 && (c as int == (if n < 10 then 48 + n else 87 + n) || (n >= 10 && c as int == 55 + n))
  {
  }

  lemma {:induction false} HexRead(c: char, n: nat, rest: string, value: nat)
    requires HexValue(c) == Some(n)
    ensures HexDigits([c] + rest, value) == HexDigits(rest, value * 16 + n)
  {
    assert ([c] + rest)[1..] == rest;
  }

  lemma {:induction false} FourDigits(a: char, b: char, c: char, d: char)
    requires HexValue(a).Some? && HexValue(b).Some? && HexValue(c).Some? && HexValue(d).Some?
    ensures HexNumber([a, b, c, d]) ==
            Some(4096 * HexValue(a).value + 256 * HexValue(b).value + 16 * HexValue(c).value + HexValue(d).value)
  {
    var w, x, y, z := HexValue(a).value, HexValue(b).value, HexValue(c).value, HexValue(d).value;
    HexRead(a, w, [b, c, d], 0);
    HexRead(b, x, [c, d], w);
    HexRead(c, y, [d], w * 16 + x);
    HexRead(d, z, [], (w * 16 + x) * 16 + y);
    assert [a] + [b, c, d] == [a, b, c, d] && [b] + [c, d] == [b, c, d] && [c] + [d] == [c, d] && [d] + [] == [d];
  }

  /** A four-digit code is that character, unless it is half of a surrogate pair. */
  lemma {:induction false} CodeEscape(a: char, b: char, c: char, d: char, rest: string)
    requires HexValue(a).Some? && HexValue(b).Some? && HexValue(c).Some? && HexValue(d).Some?
    ensures var n := 4096 * HexValue(a).value + 256 * HexValue(b).value + 16 * HexValue(c).value + HexValue(d).value;
            ReadEscape(['\\', 'u', a, b, c, d] + rest) ==
            if 0xD800 <= n <= 0xDFFF then Err(NotAScalar) else Ok((n as char, 6))
  {
    var s := ['\\', 'u', a, b, c, d] + rest;
    assert s[2..6] == [a, b, c, d];
    FourDigits(a, b, c, d);
  }

  /** A plus sign is accepted in place of the first digit. */
  lemma {:induction false} SignedCode(b: char, c: char, d: char, rest: string)
    requires HexValue(b).Some? && HexValue(c).Some? && HexValue(d).Some?
    ensures ReadEscape(['\\', 'u', '+', b, c, d] + rest) == ReadEscape(['\\', 'u', '0', b, c, d] + rest)
  {
    var s, t := ['\\', 'u', '+', b, c, d] + rest, ['\\', 'u', '0', b, c, d] + rest;
    assert s[2..6] == ['+', b, c, d] && s[2..6][1..] == [b, c, d] && t[2..6] == ['0'] + [b, c, d];
    HexRead('0', 0, [b, c, d], 0);
  }

  /** What is refused behind a backslash. */
  lemma {:induction false} BadEscapes(s: string)
    requires s != [] && s[0] == '\\'
    ensures |s| == 1 || s[1] !in {'\"', '\\', '/', 'b', 'f', 'n', 'r', 't', 'u'} ==> ReadEscape(s) == Err(InvalidEscape)
    ensures 1 < |s| < 6 && s[1] == 'u' ==> ReadEscape(s) == Err(UnterminatedUnicodeEscape)
    ensures forall k :: 2 <= k < 6 <= |s| && s[1] == 'u' && HexValue(s[k]).None? && (k > 2 || s[k] != '+') ==>
              ReadEscape(s) == Err(InvalidUnicodeEscape)
  {
    forall k | 2 <= k < 6 <= |s| && s[1] == 'u' && HexValue(s[k]).None? && (k > 2 || s[k] != '+')
      ensures ReadEscape(s) == Err(InvalidUnicodeEscape)
    {
      var digits := s[2..6];
      BadDigit(digits, k - 2, 0);
      if k > 2 {
        BadDigit(digits[1..], k - 3, 0);
      }
    }
  }

  lemma {:induction false} BadDigit(digits: string, k: nat, value: nat)
    requires k < |digits| && HexValue(digits[k]).None?
    ensures HexDigits(digits, value).None?
  {
    if k > 0 && HexValue(digits[0]).Some? {
      BadDigit(digits[1..], k - 1, value * 16 + HexValue(digits[0]).value);
    }
  }

  /** Any other character stands for itself, control characters included. */
  lemma {:induction false} PlainCharacter(c: char, rest: string)
    requires c != '\"' && c != '\\'
    ensures ReadBody([c] + rest) == Prepend(c, 1, ReadBody(rest))
  {
    assert ([c] + rest)[1..] == rest;
  }

  // ---------------------------------------------------------------------
  // Blanks, lists and numbers

  lemma {:induction false} SpaceExact(c: char)
    ensures IsSpace(c) <==> c as int == 32 || c as int == 10 || c as int == 13 || c as int == 9
  {
  }

  /** Skipping goes to the first character that is not blank. */
  lemma {:induction false} SkipWsExact(s: string)
    ensures Blank(s[..|s| - |SkipWs(s)|]) && s[|s| - |SkipWs(s)|..] == SkipWs(s)
    ensures SkipWs(s) == [] || !IsSpace(SkipWs(s)[0])
  {
    if s != [] && IsSpace(s[0]) {
      var rest := s[1..];
      SkipWsExact(rest);
      var k := |rest| - |SkipWs(rest)|;
      assert s[..k + 1] == [s[0]] + rest[..k] && s[k + 1..] == rest[k..];
    }
  }

  /** A list starts with a bracket, and between its strings and the closing bracket stand single commas. */
  lemma {:induction false} ListRefusals(blank: string, s: string)
    requires Blank(blank) && s != [] && !IsSpace(s[0])
    ensures s[0] != '[' ==> ReadArray(blank + s) == Err(NotAnArray)
    ensures s[0] != ']' && s[0] != '\"' ==> ReadItems(blank + s) == Err(NotAString)
    ensures s[0] == ']' ==> ReadItems(blank + s) == Ok([])
  {
    SkipBlank(blank, s);
  }

  /** Behind a string: a comma and more strings, the end, or an error; a comma before the end is accepted. */
  lemma {:induction false} BehindString(item: string, blank: string, s: string)
    requires Blank(blank) && s != [] && !IsSpace(s[0])
    ensures s[0] == ',' ==> ReadItems(Quoted(item) + (blank + s)) == Cons(item, ReadItems(s[1..]))
    ensures s[0] == ']' ==> ReadItems(Quoted(item) + (blank + s)) == Ok([item])
    ensures s[0] != ',' && s[0] != ']' ==> ReadItems(Quoted(item) + (blank + s)) == Err(NotCommaDelimited)
    ensures s[0] == ',' && |s| > 1 && s[1] == ']' ==> ReadItems(Quoted(item) + (blank + s)) == Ok([item])
  {
    var text := Quoted(item) + (blank + s);
    assert text[0] == QUOTE && SkipWs(text) == text;
    ReadQuoted(item, blank + s);
    SkipBlank(blank, s);
    if |s| > 1 && s[1] == ']' {
      ListRefusals([], s[1..]);
      assert [] + s[1..] == s[1..] && [item] + [] == [item];
    }
  }

  /** Every printed number is read as itself if it fits 64 bits, and refused otherwise. */
  lemma {:induction false} CountExact(blank: string, n: nat, rest: string)
    requires Blank(blank) && (rest == [] || !IsDigit(rest[0]))
    ensures ReadCount(blank + (Decimal(n) + rest)) ==
            if n <= 0xFFFF_FFFF_FFFF_FFFF then Ok(n) else Err(IntegerTooLarge)
  {
    DecimalDigits(n);
    SkipBlank(blank, Decimal(n) + rest);
    PrefixOfDigits(Decimal(n), rest);
  }

  /** Numbers are printed without leading zeros. */
  lemma {:induction false} NoLeadingZero(n: nat)
    ensures n > 0 ==> Decimal(n)[0] != '0'
    ensures Decimal(0) == "0"
  {
    if n >= 10 {
      NoLeadingZero(n / 10);
      DecimalDigits(n / 10);
    }
  }

  /** The names of the fields and the spacing of the file. */
  lemma {:induction false} LayoutExact()
    ensures LAYOUT.tagKey == "cpython_tag" && LAYOUT.modulesKey == "passing_modules"
    ensures LAYOUT.countKey == "min_pass_count"
    ensures LAYOUT.open == "{\n  " && LAYOUT.space == " " && LAYOUT.indent == "\n  " && LAYOUT.newline == "\n"
    ensures LAYOUT.inner == "    " && LAYOUT.emptyClose == "  " && LAYOUT.end == "\n}\n"
  {
  }
}
