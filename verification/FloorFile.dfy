/**
 The conformance floor file: its printer, its reader, and exactly when reading gives
 back what was printed.
 */
module FloorFile {
  import opened Wrappers
  import opened JsonText
  import opened RawSearch

  datatype Floor = Floor(tag: string, modules: seq<string>, count: nat)

  /** One past the largest machine-word count. */
  const WORD_LIMIT: nat := 0x1_0000_0000_0000_0000

  /** The three field names and the text around the tokens of the file. */
  datatype Layout = Layout(
    tagKey: string,
    modulesKey: string,
    countKey: string,
    open: string,
    space: string,
    indent: string,
    newline: string,
    inner: string,
    item: string,
    close: string,
    emptyClose: string,
    end: string)

  const LAYOUT: Layout := Layout(
    "cpython_tag", "passing_modules", "min_pass_count",
    "{\n  ", " ", "\n  ", "\n", "    ", "\n    ", "\n  ", "  ", "\n}\n")

  predicate IsSpace(c: char)
  {
    c in {' ', '\n', '\r', '\t'}
  }

  predicate Blank(s: string)
  {
    forall i :: 0 <= i < |s| ==> IsSpace(s[i])
  }

  predicate KeyLike(key: string)
  {
    key != [] && forall i :: 0 <= i < |key| ==> 'a' <= key[i] <= 'z' || key[i] == '_'
  }

  predicate Sound(l: Layout)
  {
    && KeyLike(l.tagKey) && KeyLike(l.modulesKey) && KeyLike(l.countKey)
    && l.tagKey != l.modulesKey && l.tagKey != l.countKey && l.modulesKey != l.countKey
    && QUOTE !in l.open && Blank(l.space) && Blank(l.indent) && Blank(l.item) && Blank(l.close) && Blank(l.emptyClose)
    && l.item == l.newline + l.inner && l.close == l.newline + l.emptyClose
    && (l.end == [] || !IsDigit(l.end[0]))
  }

  lemma {:induction false} LayoutSound()
    ensures Sound(LAYOUT)
  {
    assert |LAYOUT.tagKey| == 11 && |LAYOUT.modulesKey| == 15 && |LAYOUT.countKey| == 14;
  }

  // ---------------------------------------------------------------------
  // Printing

  predicate IsDigit(c: char)
  {
    '0' <= c <= '9'
  }

  function Digit(n: nat): (c: char)
    requires n < 10
    ensures IsDigit(c) && c as int == '0' as int + n
  {
    "0123456789"[n]
  }

  function Decimal(n: nat): string
  {
    (if n < 10 then [] else Decimal(n / 10)) + [Digit(n % 10)]
  }

  function CountValue(l: Layout, n: nat): string
  {
    l.space + (Decimal(n) + l.end)
  }

  /** From the bracket that closes the module list. */
  function Closing(l: Layout, n: nat): string
  {
    "]," + (l.indent + (Key(l.countKey) + (":" + CountValue(l, n))))
  }

  /** The text behind the closing quote of the first of `modules`. */
  function AfterModule(l: Layout, modules: seq<string>, n: nat): string
    requires modules != []
  {
    if |modules| == 1 then l.close + Closing(l, n)
    else "," + (l.item + (Quoted(modules[1]) + AfterModule(l, modules[1..], n)))
  }

  /** The text behind the opening bracket of the module list. */
  function ModuleList(l: Layout, modules: seq<string>, n: nat): string
  {
    if modules == [] then l.emptyClose + Closing(l, n)
    else l.item + (Quoted(modules[0]) + AfterModule(l, modules, n))
  }

  function ModulesValue(l: Layout, modules: seq<string>, n: nat): string
  {
    l.space + ("[" + ModuleList(l, modules, n))
  }

  /** The text behind the closing quote of the tag. */
  function AfterTag(l: Layout, modules: seq<string>, n: nat): string
  {
    "," + (l.indent + (Key(l.modulesKey) + (":" + ModulesValue(l, modules, n))))
  }

  function TagValue(l: Layout, floor: Floor): string
  {
    l.space + (Quoted(floor.tag) + AfterTag(l, floor.modules, floor.count))
  }

  function Printed(l: Layout, floor: Floor): string
  {
    l.open + (Key(l.tagKey) + (":" + TagValue(l, floor)))
  }

  // ---------------------------------------------------------------------
  // Reading

  function SkipWs(s: string): (t: string)
    ensures |t| <= |s|
  {
    if s != [] && IsSpace(s[0]) then SkipWs(s[1..]) else s
  }

  function ReadStringField(text: string, key: string): Result<string, ParseError>
  {
    var value := FieldValue(text, key);
    if value.Err? then Err(value.error)
    else
      var parsed := ReadString(SkipWs(value.value));
      if parsed.Err? then Err(parsed.error) else Ok(parsed.value.0)
  }

  function Cons(first: string, rest: Result<seq<string>, ParseError>): Result<seq<string>, ParseError>
  {
    if rest.Err? then rest else Ok([first] + rest.value)
  }

  /** One turn of the list reader: the list is over, or one string is read and a comma passed. */
  datatype Turn = Over(result: Result<seq<string>, ParseError>) | More(item: string, rest: string)

  function NextItem(s: string): (turn: Turn)
    ensures turn.More? ==> |turn.rest| < |s|
  {
    var t := SkipWs(s);
    if t != [] && t[0] == ']' then Over(Ok([]))
    else if t != [] && t[0] == QUOTE then
      var item := ReadString(t);
      if item.Err? then Over(Err(item.error)) else BehindItem(item.value.0, SkipWs(t[item.value.1..]))
    else Over(Err(NotAString))
  }

  function BehindItem(item: string, rest: string): (turn: Turn)
    ensures turn.More? ==> |turn.rest| < |rest|
  {
    if rest != [] && rest[0] == ',' then More(item, rest[1..])
    else if rest != [] && rest[0] == ']' then Over(Ok([item]))
    else Over(Err(NotCommaDelimited))
  }

  /** The strings up to the closing bracket. */
  function ReadItems(s: string): Result<seq<string>, ParseError>
    decreases |s|
  {
    match NextItem(s)
    case Over(result) => result
    case More(item, rest) => Cons(item, ReadItems(rest))
  }

  function ReadArray(value: string): Result<seq<string>, ParseError>
  {
    var s := SkipWs(value);
    if s == [] || s[0] != '[' then Err(NotAnArray) else ReadItems(s[1..])
  }

  function ReadArrayField(text: string, key: string): Result<seq<string>, ParseError>
  {
    var value := FieldValue(text, key);
    if value.Err? then Err(value.error) else ReadArray(value.value)
  }

  predicate AllDigits(s: string)
  {
    forall i :: 0 <= i < |s| ==> IsDigit(s[i])
  }

  function DigitPrefix(s: string): (digits: string)
    ensures AllDigits(digits)
  {
    if s != [] && IsDigit(s[0]) then [s[0]] + DigitPrefix(s[1..]) else []
  }

  function DecimalValue(digits: string): nat
    requires AllDigits(digits)
  {
    if digits == [] then 0
    else DecimalValue(digits[..|digits| - 1]) * 10 + (digits[|digits| - 1] as int - '0' as int)
  }

  function ReadCount(value: string): Result<nat, ParseError>
  {
    var digits := DigitPrefix(SkipWs(value));
    if digits == [] then Err(NotAnInteger)
    else if DecimalValue(digits) >= WORD_LIMIT then Err(IntegerTooLarge)
    else Ok(DecimalValue(digits))
  }

  function ReadCountField(text: string, key: string): Result<nat, ParseError>
  {
    var value := FieldValue(text, key);
    if value.Err? then Err(value.error) else ReadCount(value.value)
  }

  function ReadFloor(l: Layout, text: string): Result<Floor, ParseError>
  {
    var tag := ReadStringField(text, l.tagKey);
    if tag.Err? then Err(tag.error)
    else
      var modules := ReadArrayField(text, l.modulesKey);
      if modules.Err? then Err(modules.error)
      else
        var count := ReadCountField(text, l.countKey);
        if count.Err? then Err(count.error) else Ok(Floor(tag.value, modules.value, count.value))
  }

  // ---------------------------------------------------------------------
  // Values

  lemma {:induction false} SkipBlank(ws: string, s: string)
    requires Blank(ws) && s != [] && !IsSpace(s[0])
    ensures SkipWs(ws + s) == s
  {
    if ws == [] {
      assert ws + s == s;
    } else {
      assert (ws + s)[0] == ws[0] && (ws + s)[1..] == ws[1..] + s;
      SkipBlank(ws[1..], s);
    }
  }

  lemma {:induction false} DecimalDigits(n: nat)
    ensures Decimal(n) != [] && AllDigits(Decimal(n)) && DecimalValue(Decimal(n)) == n
  {
    var s := Decimal(n);
    if n >= 10 {
      DecimalDigits(n / 10);
      assert s[..|s| - 1] == Decimal(n / 10);
    } else {
      assert s[..|s| - 1] == [];
    }
  }

  lemma {:induction false} PrefixOfDigits(digits: string, rest: string)
    requires AllDigits(digits) && (rest == [] || !IsDigit(rest[0]))
    ensures DigitPrefix(digits + rest) == digits
  {
    if digits == [] {
      assert digits + rest == rest;
    } else {
      assert (digits + rest)[0] == digits[0] && (digits + rest)[1..] == digits[1..] + rest;
      PrefixOfDigits(digits[1..], rest);
    }
  }

  lemma {:induction false} CountReadBack(l: Layout, n: nat)
    requires Sound(l) && n < WORD_LIMIT
    ensures ReadCount(CountValue(l, n)) == Ok(n)
  {
    DecimalDigits(n);
    SkipBlank(l.space, Decimal(n) + l.end);
    PrefixOfDigits(Decimal(n), l.end);
  }

  /** What follows a quote does not matter to the number before it. */
  lemma {:induction false} CountStopsAtQuote(y: string, a: string, b: string)
    ensures ReadCount(y + ([QUOTE] + a)) == ReadCount(y + ([QUOTE] + b))
  {
    if y != [] && IsSpace(y[0]) {
      assert forall z: string {:trigger y + z} :: (y + z)[0] == y[0] && (y + z)[1..] == y[1..] + z;
      CountStopsAtQuote(y[1..], a, b);
    } else {
      assert y == [] ==> y + ([QUOTE] + a) == [QUOTE] + a && y + ([QUOTE] + b) == [QUOTE] + b;
      DigitsStopAtQuote(y, a);
      DigitsStopAtQuote(y, b);
    }
  }

  lemma {:induction false} DigitsStopAtQuote(y: string, a: string)
    ensures DigitPrefix(y + ([QUOTE] + a)) == DigitPrefix(y)
  {
    var s := y + ([QUOTE] + a);
    if y == [] {
      assert s[0] == QUOTE;
    } else {
      assert s[0] == y[0] && s[1..] == y[1..] + ([QUOTE] + a);
      DigitsStopAtQuote(y[1..], a);
    }
  }

  /** One string of the list, then whatever its separator leads to. */
  lemma {:induction false} ReadItem(l: Layout, first: string, rest: string)
    requires Sound(l)
    ensures NextItem(l.item + (Quoted(first) + ("," + rest))) == More(first, rest)
    ensures NextItem(l.item + (Quoted(first) + (l.close + ("]" + rest)))) == Over(Ok([first]))
  {
    forall behind: string
      ensures SkipWs(l.item + (Quoted(first) + behind)) == Quoted(first) + behind
    {
      SkipBlank(l.item, Quoted(first) + behind);
    }
    ReadQuoted(first, "," + rest);
    assert SkipWs("," + rest) == "," + rest;
    assert ("," + rest)[1..] == rest;
    ReadQuoted(first, l.close + ("]" + rest));
    SkipBlank(l.close, "]" + rest);
  }

  lemma {:induction false} ItemsReadBack(l: Layout, modules: seq<string>, n: nat)
    requires Sound(l)
    ensures ReadItems(ModuleList(l, modules, n)) == Ok(modules)
  {
    var rest := "," + (l.indent + (Key(l.countKey) + (":" + CountValue(l, n))));
    assert Closing(l, n) == "]" + rest;
    if modules == [] {
      SkipBlank(l.emptyClose, "]" + rest);
    } else if |modules| == 1 {
      ReadItem(l, modules[0], rest);
      assert modules == [modules[0]];
    } else {
      ItemsReadBack(l, modules[1..], n);
      ReadItem(l, modules[0], ModuleList(l, modules[1..], n));
      assert modules == [modules[0]] + modules[1..];
    }
  }

  // ---------------------------------------------------------------------
  // Where the fields are found

  lemma {:induction false} KeyFacts(key: string)
    requires KeyLike(key)
    ensures PlainKey(key) && Escape(key) == key
  {
    EscapeKey(key);
  }

  lemma {:induction false} FoundHere(a: string, key: string, rest: string)
    requires QUOTE !in a && QUOTE !in key
    ensures FieldValue(a + (Key(key) + (":" + rest)), key) == Ok(rest)
  {
    var behind := ":" + rest;
    SkipUnquoted(a, Key(key) + behind, key);
    SearchQuoted(key, behind, key);
    assert behind[1..] == rest;
  }

  lemma {:induction false} PassKey(other: string, rest: string, key: string)
    requires QUOTE !in other && QUOTE !in key && other != key
    ensures AfterNeedle(Key(other) + rest, Key(key)) == AfterNeedle([QUOTE] + rest, Key(key))
  {
    SearchQuoted(other, rest, key);
  }

  /** Text between two literals is passed over. */
  lemma {:induction false} PassGap(gap: string, rest: string, key: string)
    requires QUOTE !in gap && KeyLike(key) && !KeyLike(gap) && rest != [] && rest[0] == QUOTE
    ensures AfterNeedle([QUOTE] + (gap + rest), Key(key)) == AfterNeedle(rest, Key(key))
  {
    var behind := rest[1..];
    assert rest == [QUOTE] + behind;
    assert [QUOTE] + (gap + rest) == [QUOTE] + gap + [QUOTE] + behind;
    SearchQuoted(gap, behind, key);
  }

  lemma {:induction false} TagFound(l: Layout, floor: Floor)
    requires Sound(l)
    ensures ReadStringField(Printed(l, floor), l.tagKey) == Ok(floor.tag)
  {
    FoundHere(l.open, l.tagKey, TagValue(l, floor));
    var rest := AfterTag(l, floor.modules, floor.count);
    SkipBlank(l.space, Quoted(floor.tag) + rest);
    ReadQuoted(floor.tag, rest);
  }

  /** Another key is searched for behind a string field, unless its string shadows the key. */
  lemma {:induction false} PassStringField(field: string, space: string, text: string, behind: string, key: string)
    requires Blank(space) && KeyLike(key) && KeyLike(field) && field != key
    ensures AfterNeedle(Key(field) + (":" + (space + (Quoted(text) + behind))), Key(key)) ==
            if Shadows(text, key) then Some(behind) else AfterNeedle([QUOTE] + behind, Key(key))
  {
    var literal, gap := Quoted(text) + behind, ":" + space;
    assert gap[0] == ':';
    assert ":" + (space + literal) == gap + literal;
    KeyFacts(field);
    KeyFacts(key);
    PassKey(field, gap + literal, key);
    PassGap(gap, literal, key);
    SearchLiteral(text, behind, key);
  }

  lemma {:induction false} SearchPastTag(l: Layout, floor: Floor, key: string)
    requires Sound(l) && KeyLike(key) && key != l.tagKey
    ensures AfterNeedle(Printed(l, floor), Key(key)) ==
            if Shadows(floor.tag, key) then Some(AfterTag(l, floor.modules, floor.count))
            else AfterNeedle([QUOTE] + AfterTag(l, floor.modules, floor.count), Key(key))
  {
    SkipUnquoted(l.open, Key(l.tagKey) + (":" + TagValue(l, floor)), key);
    PassStringField(l.tagKey, l.space, floor.tag, AfterTag(l, floor.modules, floor.count), key);
  }

  lemma {:induction false} ColonAfter(gap: string, key: string, rest: string)
    requires ':' !in gap && ':' !in key
    ensures AfterColon(gap + (Key(key) + (":" + rest))) == Some(rest)
  {
    var a, behind := gap + Key(key), ":" + rest;
    assert gap + (Key(key) + behind) == a + behind;
    SkipToColon(a, behind);
    assert behind[1..] == rest;
  }

  lemma {:induction false} ColonBehindTag(l: Layout, modules: seq<string>, n: nat)
    requires Sound(l)
    ensures AfterColon(AfterTag(l, modules, n)) == Some(ModulesValue(l, modules, n))
  {
    KeyFacts(l.modulesKey);
    var value := ModulesValue(l, modules, n);
    var field := Key(l.modulesKey) + (":" + value);
    assert "," + (l.indent + field) == ("," + l.indent) + field;
    ColonAfter("," + l.indent, l.modulesKey, value);
  }

  lemma {:induction false} ModulesFound(l: Layout, floor: Floor)
    requires Sound(l)
    ensures FieldValue(Printed(l, floor), l.modulesKey) == Ok(ModulesValue(l, floor.modules, floor.count))
  {
    var key := l.modulesKey;
    SearchPastTag(l, floor, key);
    if Shadows(floor.tag, key) {
      ColonBehindTag(l, floor.modules, floor.count);
    } else {
      var value := ModulesValue(l, floor.modules, floor.count);
      GapBeforeKey(l, key, ":" + value, key);
      FoundHere([], key, value);
      assert [] + (Key(key) + (":" + value)) == Key(key) + (":" + value);
    }
  }

  lemma {:induction false} GapBeforeKey(l: Layout, other: string, rest: string, key: string)
    requires Sound(l) && KeyLike(key)
    ensures AfterNeedle([QUOTE] + ("," + (l.indent + (Key(other) + rest))), Key(key)) ==
            AfterNeedle(Key(other) + rest, Key(key))
  {
    var gap, field := "," + l.indent, Key(other) + rest;
    assert gap[0] == ',';
    assert "," + (l.indent + field) == gap + field;
    PassGap(gap, field, key);
  }

  /** The module list always reads back, even behind a tag that shadows its key. */
  lemma {:induction false} ModulesReadBack(l: Layout, floor: Floor)
    requires Sound(l)
    ensures ReadArrayField(Printed(l, floor), l.modulesKey) == Ok(floor.modules)
  {
    ModulesFound(l, floor);
    var list := ModuleList(l, floor.modules, floor.count);
    SkipBlank(l.space, "[" + list);
    assert ("[" + list)[1..] == list;
    ItemsReadBack(l, floor.modules, floor.count);
  }

  // ---------------------------------------------------------------------
  // Where the count is found

  /** What the search for the count key leaves behind, from the first of `modules` on. */
  function BehindCount(l: Layout, modules: seq<string>, n: nat): string
    requires modules != []
  {
    if Shadows(modules[0], l.countKey) then AfterModule(l, modules, n)
    else if |modules| == 1 then ":" + CountValue(l, n)
    else BehindCount(l, modules[1..], n)
  }

  lemma {:induction false} SearchClosing(l: Layout, close: string, n: nat)
    requires Sound(l) && Blank(close)
    ensures AfterNeedle([QUOTE] + (close + Closing(l, n)), Key(l.countKey)) == Some(":" + CountValue(l, n))
  {
    var key, rest := l.countKey, ":" + CountValue(l, n);
    GapBeforeCount(close, l.indent, Key(key) + rest, key);
    KeyFacts(key);
    SearchQuoted(key, rest, key);
  }

  lemma {:induction false} GapBeforeCount(close: string, indent: string, field: string, key: string)
    requires Blank(close) && Blank(indent) && KeyLike(key) && field != [] && field[0] == QUOTE
    ensures AfterNeedle([QUOTE] + (close + ("]," + (indent + field))), Key(key)) == AfterNeedle(field, Key(key))
  {
    var gap := close + "]," + indent;
    assert gap[|close|] == ']';
    assert close + ("]," + (indent + field)) == gap + field;
    PassGap(gap, field, key);
  }

  lemma {:induction false} SearchModules(l: Layout, modules: seq<string>, n: nat)
    requires Sound(l) && modules != []
    ensures AfterNeedle(Quoted(modules[0]) + AfterModule(l, modules, n), Key(l.countKey)) ==
            Some(BehindCount(l, modules, n))
  {
    KeyFacts(l.countKey);
    SearchLiteral(modules[0], AfterModule(l, modules, n), l.countKey);
    if !Shadows(modules[0], l.countKey) {
      if |modules| == 1 {
        SearchClosing(l, l.close, n);
      } else {
        var next := Quoted(modules[1]) + AfterModule(l, modules[1..], n);
        GapBeforeModule(l.item, next, l.countKey);
        SearchModules(l, modules[1..], n);
      }
    }
  }

  lemma {:induction false} GapBeforeModule(item: string, next: string, key: string)
    requires Blank(item) && KeyLike(key) && next != [] && next[0] == QUOTE
    ensures AfterNeedle([QUOTE] + ("," + (item + next)), Key(key)) == AfterNeedle(next, Key(key))
  {
    var gap := "," + item;
    assert gap[0] == ',';
    assert "," + (item + next) == gap + next;
    PassGap(gap, next, key);
  }

  /** No string from `modules[from]` on holds a colon. */
  predicate NoColon(modules: seq<string>, from: nat)
  {
    forall j :: from <= j < |modules| ==> ':' !in modules[j]
  }

  lemma {:induction false} ColonInClosing(l: Layout, close: string, n: nat)
    requires Sound(l) && Blank(close)
    ensures AfterColon(close + Closing(l, n)) == Some(CountValue(l, n))
  {
    KeyFacts(l.countKey);
    var gap, field := close + "]," + l.indent, Key(l.countKey) + (":" + CountValue(l, n));
    assert close + ("]," + (l.indent + field)) == gap + field;
    ColonAfter(gap, l.countKey, CountValue(l, n));
  }

  /** Behind a module, the first colon belongs to the count if no later module has one. */
  lemma {:induction false} ColonOfCount(l: Layout, modules: seq<string>, n: nat)
    requires Sound(l) && modules != [] && NoColon(modules, 1)
    ensures AfterColon(AfterModule(l, modules, n)) == Some(CountValue(l, n))
  {
    if |modules| == 1 {
      ColonInClosing(l, l.close, n);
    } else {
      assert ':' !in modules[1];
      PassModule(l.item, modules[1], AfterModule(l, modules[1..], n));
      ColonOfCount(l, modules[1..], n);
    }
  }

  lemma {:induction false} PassModule(item: string, text: string, behind: string)
    requires Blank(item) && ':' !in text
    ensures AfterColon("," + (item + (Quoted(text) + behind))) == AfterColon(behind)
  {
    ColonInEscape(text);
    var a := "," + item + Quoted(text);
    assert "," + (item + (Quoted(text) + behind)) == a + behind;
    SkipToColon(a, behind);
  }

  lemma {:induction false} StopInModule(item: string, text: string, behind: string)
    requires Blank(item) && ':' in text
    ensures AfterColon(Escape(text)).Some?
    ensures AfterColon("," + (item + (Quoted(text) + behind))) ==
            Some(AfterColon(Escape(text)).value + ([QUOTE] + behind))
  {
    ColonInEscape(text);
    HasColon(Escape(text));
    var a, rest := "," + item + [QUOTE], [QUOTE] + behind;
    assert "," + (item + (Quoted(text) + behind)) == a + (Escape(text) + rest);
    SkipToColon(a, Escape(text) + rest);
    ColonFound(Escape(text), rest);
  }

  /** Otherwise the search stops inside a string, before the count has any influence. */
  lemma {:induction false} ColonInModule(l: Layout, modules: seq<string>, n: nat, m: nat)
    requires Sound(l) && modules != [] && !NoColon(modules, 1)
    ensures AfterColon(AfterModule(l, modules, n)).Some? && AfterColon(AfterModule(l, modules, m)).Some?
    ensures ReadCount(AfterColon(AfterModule(l, modules, n)).value) ==
            ReadCount(AfterColon(AfterModule(l, modules, m)).value)
  {
    var x, y := AfterModule(l, modules[1..], n), AfterModule(l, modules[1..], m);
    if ':' in modules[1] {
      StopInModule(l.item, modules[1], x);
      StopInModule(l.item, modules[1], y);
      CountStopsAtQuote(AfterColon(Escape(modules[1])).value, x, y);
    } else {
      PassModule(l.item, modules[1], x);
      PassModule(l.item, modules[1], y);
      var j :| 1 <= j < |modules| && ':' in modules[j];
      assert modules[1..][j - 1] == modules[j];
      ColonInModule(l, modules[1..], n, m);
    }
  }

  /** No string is taken for the count key, or none with a colon follows the ones that are. */
  predicate CountVisible(key: string, modules: seq<string>)
  {
    forall i, j :: 0 <= i < j < |modules| && Shadows(modules[i], key) ==> ':' !in modules[j]
  }

  lemma {:induction false} VisibleCount(l: Layout, modules: seq<string>, n: nat)
    requires Sound(l) && modules != [] && CountVisible(l.countKey, modules)
    ensures AfterColon(BehindCount(l, modules, n)) == Some(CountValue(l, n))
  {
    if Shadows(modules[0], l.countKey) {
      ColonOfCount(l, modules, n);
    } else if |modules| == 1 {
      assert (":" + CountValue(l, n))[1..] == CountValue(l, n);
    } else {
      VisibleCount(l, modules[1..], n);
    }
  }

  lemma {:induction false} HiddenCount(l: Layout, modules: seq<string>, n: nat, m: nat)
    requires Sound(l) && modules != [] && !CountVisible(l.countKey, modules)
    ensures AfterColon(BehindCount(l, modules, n)).Some? && AfterColon(BehindCount(l, modules, m)).Some?
    ensures ReadCount(AfterColon(BehindCount(l, modules, n)).value) ==
            ReadCount(AfterColon(BehindCount(l, modules, m)).value)
  {
    if Shadows(modules[0], l.countKey) {
      ColonInModule(l, modules, n, m);
    } else {
      HiddenCount(l, modules[1..], n, m);
    }
  }

  /** The search for the count behind a tag that does not shadow its key. */
  lemma {:induction false} SearchBehindTag(l: Layout, floor: Floor)
    requires Sound(l) && !Shadows(floor.tag, l.countKey)
    ensures AfterNeedle(Printed(l, floor), Key(l.countKey)) ==
            Some(if floor.modules == [] then ":" + CountValue(l, floor.count)
                else BehindCount(l, floor.modules, floor.count))
  {
    var key, modules, n := l.countKey, floor.modules, floor.count;
    SearchPastTag(l, floor, key);
    var value := ModulesValue(l, modules, n);
    GapBeforeKey(l, l.modulesKey, ":" + value, key);
    KeyFacts(l.modulesKey);
    KeyFacts(key);
    PassKey(l.modulesKey, ":" + value, key);
    if modules == [] {
      SearchEmptyList(l, n);
    } else {
      var next := Quoted(modules[0]) + AfterModule(l, modules, n);
      GapBeforeList(l.space, l.item, next, key);
      SearchModules(l, modules, n);
    }
  }

  lemma {:induction false} GapBeforeList(space: string, item: string, next: string, key: string)
    requires Blank(space) && Blank(item) && KeyLike(key) && next != [] && next[0] == QUOTE
    ensures AfterNeedle([QUOTE] + (":" + (space + ("[" + (item + next)))), Key(key)) == AfterNeedle(next, Key(key))
  {
    var gap := ":" + space + "[" + item;
    assert gap[0] == ':';
    assert ":" + (space + ("[" + (item + next))) == gap + next;
    PassGap(gap, next, key);
  }

  lemma {:induction false} SearchEmptyList(l: Layout, n: nat)
    requires Sound(l)
    ensures AfterNeedle([QUOTE] + (":" + ModulesValue(l, [], n)), Key(l.countKey)) == Some(":" + CountValue(l, n))
  {
    var key, rest := l.countKey, ":" + CountValue(l, n);
    var field := Key(key) + rest;
    var item := l.emptyClose + "]," + l.indent;
    assert l.emptyClose + ("]," + (l.indent + field)) == item + field;
    var gap := ":" + l.space + "[" + item;
    assert gap[0] == ':';
    assert ":" + (l.space + ("[" + (item + field))) == gap + field;
    PassGap(gap, field, key);
    KeyFacts(key);
    SearchQuoted(key, rest, key);
  }

  // ---------------------------------------------------------------------
  // The round trip

  /** The tag and the modules do not hide the count. */
  predicate ReadsBack(l: Layout, tag: string, modules: seq<string>)
  {
    !Shadows(tag, l.countKey) && CountVisible(l.countKey, modules)
  }

  lemma {:induction false} CountFound(l: Layout, floor: Floor)
    requires Sound(l) && ReadsBack(l, floor.tag, floor.modules) && floor.count < WORD_LIMIT
    ensures ReadCountField(Printed(l, floor), l.countKey) == Ok(floor.count)
  {
    SearchBehindTag(l, floor);
    CountReadBack(l, floor.count);
    if floor.modules == [] {
      assert (":" + CountValue(l, floor.count))[1..] == CountValue(l, floor.count);
    } else {
      VisibleCount(l, floor.modules, floor.count);
    }
  }

  lemma {:induction false} CountLost(l: Layout, tag: string, modules: seq<string>, n: nat, m: nat)
    requires Sound(l) && !ReadsBack(l, tag, modules)
    ensures ReadCountField(Printed(l, Floor(tag, modules, n)), l.countKey) ==
            ReadCountField(Printed(l, Floor(tag, modules, m)), l.countKey)
  {
    if Shadows(tag, l.countKey) {
      CountBehindTag(l, tag, modules, n);
      CountBehindTag(l, tag, modules, m);
    } else {
      SearchBehindTag(l, Floor(tag, modules, n));
      SearchBehindTag(l, Floor(tag, modules, m));
      HiddenCount(l, modules, n, m);
    }
  }

  lemma {:induction false} CountBehindTag(l: Layout, tag: string, modules: seq<string>, n: nat)
    requires Sound(l) && Shadows(tag, l.countKey)
    ensures ReadCountField(Printed(l, Floor(tag, modules, n)), l.countKey) == Err(NotAnInteger)
  {
    SearchPastTag(l, Floor(tag, modules, n), l.countKey);
    ColonBehindTag(l, modules, n);
    SkipBlank(l.space, "[" + ModuleList(l, modules, n));
  }

  lemma {:induction false} RoundTrip(l: Layout, floor: Floor)
    requires Sound(l) && ReadsBack(l, floor.tag, floor.modules) && floor.count < WORD_LIMIT
    ensures ReadFloor(l, Printed(l, floor)) == Ok(floor)
  {
    TagFound(l, floor);
    ModulesReadBack(l, floor);
    CountFound(l, floor);
  }

  lemma {:induction false} ZeroOrOneLost(l: Layout, tag: string, modules: seq<string>)
    requires Sound(l) && !ReadsBack(l, tag, modules)
    ensures var zero, one := Floor(tag, modules, 0), Floor(tag, modules, 1);
            ReadFloor(l, Printed(l, zero)) != Ok(zero) || ReadFloor(l, Printed(l, one)) != Ok(one)
  {
    CountLost(l, tag, modules, 0, 1);
  }

  /** Every count survives printing and reading exactly when nothing hides its key. */
  lemma {:induction false} RoundTripIff(l: Layout, tag: string, modules: seq<string>)
    requires Sound(l)
    ensures ReadsBack(l, tag, modules) <==>
            forall n: nat {:trigger Floor(tag, modules, n)} :: n < WORD_LIMIT ==>
              ReadFloor(l, Printed(l, Floor(tag, modules, n))) == Ok(Floor(tag, modules, n))
  {
    if ReadsBack(l, tag, modules) {
      forall n: nat {:trigger Floor(tag, modules, n)} | n < WORD_LIMIT
        ensures ReadFloor(l, Printed(l, Floor(tag, modules, n))) == Ok(Floor(tag, modules, n))
      {
        RoundTrip(l, Floor(tag, modules, n));
      }
    } else {
      ZeroOrOneLost(l, tag, modules);
      var zero, one := Floor(tag, modules, 0), Floor(tag, modules, 1);
    }
  }
}
