/**
 Locating a field of the floor file by searching its raw text for the quoted key: what
 such a search finds when the text holds arbitrary escaped strings.
 */
module RawSearch {
  import opened Wrappers
  import opened JsonText

  // ---------------------------------------------------------------------
  // Searching text

  /** The text after the first occurrence of `needle`. */
  function AfterNeedle(text: string, needle: string): Option<string>
  {
    if needle <= text then Some(text[|needle|..])
    else if text == [] then None
    else AfterNeedle(text[1..], needle)
  }

  /** The text after the first colon. */
  function AfterColon(text: string): Option<string>
  {
    if text == [] then None
    else if text[0] == ':' then Some(text[1..])
    else AfterColon(text[1..])
  }

  /** `needle` stands at position `i` of the text, and nowhere before. */
  ghost predicate FirstAt(text: string, needle: string, i: nat)
  {
    i <= |text| && needle <= text[i..] && forall j :: 0 <= j < i ==> !(needle <= text[j..])
  }

  /** The search finds the first occurrence. */
  lemma {:induction false} AfterNeedleExact(text: string, needle: string)
    ensures AfterNeedle(text, needle).None? ==> forall i: nat :: !FirstAt(text, needle, i)
    ensures AfterNeedle(text, needle).Some? ==>
              exists i: nat :: FirstAt(text, needle, i) && AfterNeedle(text, needle).value == text[i + |needle|..]
  {
    assert text[0..] == text;
    if needle <= text {
      assert FirstAt(text, needle, 0);
    } else if text != [] {
      var tail := text[1..];
      AfterNeedleExact(tail, needle);
      assert forall j :: 0 < j <= |text| ==> text[j..] == tail[j - 1..];
      if i: nat :| FirstAt(tail, needle, i) && AfterNeedle(tail, needle).value == tail[i + |needle|..] {
        assert text[i + 1..] == tail[i..] && FirstAt(text, needle, i + 1);
        assert text[i + 1 + |needle|..] == tail[i + |needle|..];
      }
      if i: nat :| FirstAt(text, needle, i) {
        assert i > 0 && text[i..] == tail[i - 1..];
        assert forall j :: 0 <= j < i - 1 ==> tail[j..] == text[j + 1..];
        assert FirstAt(tail, needle, i - 1);
      }
    }
  }

  lemma {:induction false} AfterColonExact(text: string)
    ensures AfterColon(text) == AfterNeedle(text, ":")
  {
    if text != [] && text[0] != ':' {
      AfterColonExact(text[1..]);
    }
  }

  /** The value of a field starts behind the first colon after the first occurrence of its quoted name. */
  lemma {:induction false} FieldValueExact(text: string, key: string)
    ensures var after := AfterNeedle(text, "\"" + key + "\"");
            FieldValue(text, key) ==
            if after.None? then Err(MissingField)
            else
              var value := AfterNeedle(after.value, ":");
              if value.None? then Err(MissingColon) else Ok(value.value)
  {
    var after := AfterNeedle(text, "\"" + key + "\"");
    assert Key(key) == "\"" + key + "\"";
    if after.Some? {
      AfterColonExact(after.value);
    }
  }

  function Key(key: string): string
  {
    [QUOTE] + key + [QUOTE]
  }

  function FieldValue(text: string, key: string): Result<string, ParseError>
  {
    var after := AfterNeedle(text, Key(key));
    if after.None? then Err(MissingField)
    else
      var value := AfterColon(after.value);
      if value.None? then Err(MissingColon) else Ok(value.value)
  }

  /** A key that escaping leaves alone. */
  predicate PlainKey(key: string)
  {
    QUOTE !in key && BACKSLASH !in key && ':' !in key
  }

  lemma {:induction false} SkipUnquoted(a: string, b: string, key: string)
    requires QUOTE !in a
    ensures AfterNeedle(a + b, Key(key)) == AfterNeedle(b, Key(key))
  {
    if a == [] {
      assert a + b == b;
    } else {
      assert (a + b)[0] == a[0] != QUOTE && Key(key)[0] == QUOTE;
      assert (a + b)[1..] == a[1..] + b;
      SkipUnquoted(a[1..], b, key);
    }
  }

  /** Between two quotes either the key is found or the second quote may open it. */
  lemma {:induction false} SearchQuoted(a: string, b: string, key: string)
    requires QUOTE !in a && QUOTE !in key
    ensures AfterNeedle([QUOTE] + a + [QUOTE] + b, Key(key)) ==
            if a == key then Some(b) else AfterNeedle([QUOTE] + b, Key(key))
  {
    var text, needle := [QUOTE] + a + [QUOTE] + b, Key(key);
    if a == key {
      assert text == needle + b;
    } else {
      NotAtQuote(a, b, key);
      assert text[1..] == a + ([QUOTE] + b);
      SkipUnquoted(a, [QUOTE] + b, key);
    }
  }

  lemma {:induction false} NotAtQuote(a: string, b: string, key: string)
    requires QUOTE !in a && QUOTE !in key && a != key
    ensures !(Key(key) <= [QUOTE] + a + [QUOTE] + b)
  {
    var text, needle := [QUOTE] + a + [QUOTE] + b, Key(key);
    assert text[|a| + 1] == QUOTE && needle[|key| + 1] == QUOTE;
    assert |a| < |key| ==> needle[|a| + 1] == key[|a|];
    assert |key| < |a| ==> text[|key| + 1] == a[|key|];
    if |a| == |key| {
      var i :| 0 <= i < |a| && a[i] != key[i];
      assert text[i + 1] == a[i] && needle[i + 1] == key[i];
    }
  }

  /** The escaped text of `s` ends in something the search takes for the key. */
  predicate Shadows(s: string, key: string)
  {
    s == key || (|s| > |key| && s[|s| - |key| - 1..] == [QUOTE] + key)
  }

  lemma {:induction false} ShadowsAfterQuote(x: string, y: string, key: string)
    requires QUOTE !in x && QUOTE !in key
    ensures Shadows(x + [QUOTE] + y, key) <==> Shadows(y, key)
  {
    var s := x + [QUOTE] + y;
    assert s[|x|] == QUOTE;
    if |s| > |key| {
      var at := |s| - |key| - 1;
      if at < |x| {
        assert s[at..][0] == x[at];
      } else if at == |x| {
        assert s[at..] == [QUOTE] + y;
        assert s[at..] == [QUOTE] + key ==> y == s[at..][1..] == key;
      } else {
        assert s[at..] == y[at - |x| - 1..];
      }
    }
    if y == key {
      assert s[|s| - |key| - 1..] == [QUOTE] + key;
    }
  }

  lemma {:induction false} EscapeUnquoted(s: string)
    requires QUOTE !in s
    ensures QUOTE !in Escape(s)
  {
    if s != [] {
      EscapeCharSafe(s[0]);
      EscapeUnquoted(s[1..]);
    }
  }

  lemma {:induction false} EscapeIsKey(s: string, key: string)
    requires BACKSLASH !in key && Escape(s) == key
    ensures s == key
  {
    if s != [] {
      EscapeCharSafe(s[0]);
      var e := EscapeChar(s[0]);
      assert Escape(s)[..|e|] == e;
      assert forall c :: c in e ==> c in Escape(s);
      assert e == [s[0]];
      EscapeIsKey(s[1..], key[1..]);
      assert key[1..] == Escape(s[1..]);
    }
  }

  lemma {:induction false} EscapeKey(key: string)
    requires PlainKey(key) && forall i :: 0 <= i < |key| ==> EscapeChar(key[i]) == [key[i]]
    ensures Escape(key) == key
  {
    if key != [] {
      EscapeKey(key[1..]);
    }
  }

  lemma {:induction false} EscapeAtQuote(x: string, y: string)
    ensures Escape(x + [QUOTE] + y) == Escape(x) + [BACKSLASH] + [QUOTE] + Escape(y)
  {
    EscapeAppend(x + [QUOTE], y);
    EscapeAppend(x, [QUOTE]);
    FlatMapOne(EscapeChar, QUOTE);
    assert Escape(x) + [BACKSLASH, QUOTE] == Escape(x) + [BACKSLASH] + [QUOTE];
  }

  /** An escaped quote is not the end of the key. */
  lemma {:induction false} PassEscapedQuote(x: string, y: string, b: string, key: string)
    requires PlainKey(key) && QUOTE !in x
    ensures AfterNeedle(Quoted(x + [QUOTE] + y) + b, Key(key)) == AfterNeedle(Quoted(y) + b, Key(key))
  {
    EscapeUnquoted(x);
    EscapeAtQuote(x, y);
    var a, rest := Escape(x) + [BACKSLASH], Escape(y) + [QUOTE] + b;
    assert Quoted(x + [QUOTE] + y) + b == [QUOTE] + a + [QUOTE] + rest;
    assert a[|a| - 1] == BACKSLASH && a != key;
    SearchQuoted(a, rest, key);
    assert [QUOTE] + rest == Quoted(y) + b;
  }

  /** Searching a string literal for the key: found only if the string shadows it. */
  lemma {:induction false} SearchLiteral(s: string, b: string, key: string)
    requires PlainKey(key) && Escape(key) == key
    ensures AfterNeedle(Quoted(s) + b, Key(key)) ==
            if Shadows(s, key) then Some(b) else AfterNeedle([QUOTE] + b, Key(key))
    decreases |s|
  {
    if i :| 0 <= i < |s| && s[i] == QUOTE && QUOTE !in s[..i] {
      var x, y := s[..i], s[i + 1..];
      assert s == x + [QUOTE] + y;
      ShadowsAfterQuote(x, y, key);
      PassEscapedQuote(x, y, b, key);
      SearchLiteral(y, b, key);
    } else {
      FirstQuote(s);
      EscapeUnquoted(s);
      SearchQuoted(Escape(s), b, key);
      if Escape(s) == key {
        EscapeIsKey(s, key);
      }
      assert |s| > |key| ==> s[|s| - |key| - 1..][0] == s[|s| - |key| - 1];
    }
  }

  lemma {:induction false} FirstQuote(s: string)
    ensures QUOTE in s ==> exists i :: 0 <= i < |s| && s[i] == QUOTE && QUOTE !in s[..i]
  {
    if QUOTE in s {
      if QUOTE in s[..|s| - 1] {
        FirstQuote(s[..|s| - 1]);
        var i :| 0 <= i < |s| - 1 && s[..|s| - 1][i] == QUOTE && QUOTE !in s[..|s| - 1][..i];
        assert s[..|s| - 1][..i] == s[..i];
      } else {
        assert s[|s| - 1] == QUOTE;
      }
    }
  }

  lemma {:induction false} SkipToColon(a: string, b: string)
    requires ':' !in a
    ensures AfterColon(a + b) == AfterColon(b)
  {
    if a == [] {
      assert a + b == b;
    } else {
      assert (a + b)[0] == a[0] && (a + b)[1..] == a[1..] + b;
      SkipToColon(a[1..], b);
    }
  }

  lemma {:induction false} ColonFound(a: string, b: string)
    requires AfterColon(a).Some?
    ensures AfterColon(a + b) == Some(AfterColon(a).value + b)
  {
    if a[0] == ':' {
      assert (a + b)[1..] == a[1..] + b;
    } else {
      assert (a + b)[0] == a[0] && (a + b)[1..] == a[1..] + b;
      ColonFound(a[1..], b);
    }
  }

  lemma {:induction false} ColonInEscape(s: string)
    ensures ':' in Escape(s) <==> ':' in s
  {
    if s != [] {
      EscapeCharSafe(s[0]);
      ColonInEscape(s[1..]);
      assert s == [s[0]] + s[1..];
    }
  }

  lemma {:induction false} HasColon(a: string)
    ensures AfterColon(a).Some? <==> ':' in a
  {
    if a != [] {
      HasColon(a[1..]);
      assert a == [a[0]] + a[1..];
    }
  }
}
