/**
 Writing and parsing the floor file: the loops over the text, proved against the printed
 form and the reading functions, and the round trip through both.
 */
module FloorCodec {
  import opened Wrappers
  import opened JsonText
  import opened RawSearch
  import opened FloorFile
  import opened SortedStrings

  // ---------------------------------------------------------------------
  // Writing

  /** What is still to be written once the first `index` modules are. */
  function Unwritten(l: Layout, modules: seq<string>, index: nat, n: nat): string
    requires index <= |modules|
  {
    if index == |modules| then l.emptyClose + Closing(l, n)
    else l.inner + (Quoted(modules[index]) + AfterModule(l, modules[index..], n))
  }

  function Comma(modules: seq<string>, index: nat): string
  {
    if index + 1 == |modules| then "" else ","
  }

  lemma {:induction false} WriteModule(l: Layout, modules: seq<string>, index: nat, n: nat, json: string)
    requires Sound(l) && index < |modules|
    ensures json + Unwritten(l, modules, index, n)
         == (json + l.inner + Quoted(modules[index]) + Comma(modules, index) + l.newline)
            + Unwritten(l, modules, index + 1, n)
  {
    Nested3(json, l.inner, Quoted(modules[index]), Comma(modules, index), l.newline,
        Unwritten(l, modules, index + 1, n));
  }

  lemma {:induction false} Nested3(json: string, a: string, b: string, c: string, d: string, e: string)
    ensures json + (a + (b + (c + (d + e)))) == (json + a + b + c + d) + e
  {
  }

  method ToJson(l: Layout, floor: Floor) returns (json: string)
    requires Sound(l)
    ensures json == Printed(l, floor.(modules := SortDedup(floor.modules)))
  {
    var modules := SortDedup(floor.modules);
    var tag := EscapeJson(floor.tag);
    json := l.open + Key(l.tagKey) + ":" + l.space + ([QUOTE] + tag + [QUOTE]);
    json := json + "," + l.indent + Key(l.modulesKey) + ":" + l.space + "[";
    if modules != [] {
      json := json + l.newline;
    }
    WriteHeader(l, floor.tag, modules, floor.count, json);
    for index := 0 to |modules|
      invariant json + Unwritten(l, modules, index, floor.count) == Printed(l, Floor(floor.tag, modules, floor.count))
    {
      var escaped := EscapeJson(modules[index]);
      WriteModule(l, modules, index, floor.count, json);
      json := json + l.inner + ([QUOTE] + escaped + [QUOTE]) + Comma(modules, index) + l.newline;
    }
    json := json + (l.emptyClose + Closing(l, floor.count));
  }

  lemma {:induction false} WriteHeader(l: Layout, tag: string, modules: seq<string>, n: nat, json: string)
    requires Sound(l)
    requires json == (l.open + Key(l.tagKey) + ":" + l.space + Quoted(tag))
                     + "," + l.indent + Key(l.modulesKey) + ":" + l.space + "["
                     + (if modules == [] then [] else l.newline)
    ensures json + Unwritten(l, modules, 0, n) == Printed(l, Floor(tag, modules, n))
  {
    var list := ModuleList(l, modules, n);
    var newline := if modules == [] then [] else l.newline;
    assert list == newline + Unwritten(l, modules, 0, n) by {
      if modules != [] {
        var q := Quoted(modules[0]) + AfterModule(l, modules, n);
        assert modules[0..] == modules;
        assert l.item + q == l.newline + (l.inner + q);
      }
    }
    Nested(l.open + Key(l.tagKey) + ":" + l.space + Quoted(tag), l.indent, Key(l.modulesKey), l.space, newline,
        Unwritten(l, modules, 0, n));
    Nested2(l.open, Key(l.tagKey), l.space, Quoted(tag), AfterTag(l, modules, n));
  }

  lemma {:induction false} Nested(a: string, b: string, c: string, d: string, e: string, f: string)
    ensures (a + "," + b + c + ":" + d + "[" + e) + f == a + ("," + (b + (c + (":" + (d + ("[" + (e + f)))))))
  {
  }

  lemma {:induction false} Nested2(a: string, b: string, c: string, d: string, e: string)
    ensures (a + b + ":" + c + d) + e == a + (b + (":" + (c + (d + e))))
  {
  }

  // ---------------------------------------------------------------------
  // Parsing

  method SkipWhitespace(value: string, start: nat) returns (index: nat)
    requires start <= |value|
    ensures start <= index <= |value| && value[index..] == SkipWs(value[start..])
  {
    index := start;
    while index < |value| && IsSpace(value[index])
      invariant start <= index <= |value|
      invariant SkipWs(value[index..]) == SkipWs(value[start..])
    {
      assert value[index..][1..] == value[index + 1..];
      index := index + 1;
    }
  }

  /** The whole list, when `values` have been read and `items` are read from there. */
  function Continued(values: seq<string>, items: Result<seq<string>, ParseError>): Result<seq<string>, ParseError>
  {
    if items.Err? then items else Ok(values + items.value)
  }

  lemma {:induction false} ContinueAfter(values: seq<string>, item: string, items: Result<seq<string>, ParseError>)
    ensures Continued(values, Cons(item, items)) == Continued(values + [item], items)
  {
    if items.Ok? {
      assert values + ([item] + items.value) == (values + [item]) + items.value;
    }
  }

  /** One turn of the list loop; `next` is where the following turn starts. */
  method ParseItem(value: string, start: nat) returns (turn: Turn, next: nat)
    requires start <= |value|
    ensures turn == NextItem(value[start..])
    ensures start <= next <= |value|
    ensures turn.More? ==> start < next && turn.rest == value[next..]
  {
    next := SkipWhitespace(value, start);
    if next < |value| && value[next] == ']' {
      return Over(Ok([])), next;
    }
    if next >= |value| || value[next] != QUOTE {
      return Over(Err(NotAString)), next;
    }
    var item := ParseJsonString(value[next..]);
    if item.Err? {
      return Over(Err(item.error)), next;
    }
    assert value[next..][item.value.1..] == value[next + item.value.1..];
    next := SkipWhitespace(value, next + item.value.1);
    turn := BehindItem(item.value.0, value[next..]);
    if turn.More? {
      assert value[next..][1..] == value[next + 1..];
      next := next + 1;
    }
  }

  method ParseItems(value: string, start: nat) returns (r: Result<seq<string>, ParseError>)
    requires start <= |value|
    ensures r == ReadItems(value[start..])
  {
    var index := start;
    var values: seq<string> := [];
    ghost var goal := ReadItems(value[start..]);
    assert goal.Ok? ==> [] + goal.value == goal.value;
    while true
      invariant index <= |value|
      invariant Continued(values, ReadItems(value[index..])) == goal
      decreases |value| - index
    {
      var turn, next := ParseItem(value, index);
      match turn
      case Over(result) =>
        return if result.Err? then result else Ok(values + result.value);
      case More(item, _) =>
        ContinueAfter(values, item, ReadItems(value[next..]));
        values := values + [item];
        index := next;
    }
  }

  method ParseStringArray(value: string) returns (r: Result<seq<string>, ParseError>)
    ensures r == ReadArray(value)
  {
    var index := SkipWhitespace(value, 0);
    assert value[0..] == value;
    if index >= |value| || value[index] != '[' {
      return Err(NotAnArray);
    }
    assert value[index..][1..] == value[index + 1..];
    r := ParseItems(value, index + 1);
  }

  lemma {:induction false} NextDigit(value: string, start: nat, end: nat)
    requires start <= end < |value| && IsDigit(value[end])
    ensures value[start..end] + DigitPrefix(value[end..]) == value[start..end + 1] + DigitPrefix(value[end + 1..])
  {
    var before, rest := value[start..end], DigitPrefix(value[end + 1..]);
    assert value[end..][1..] == value[end + 1..];
    assert value[start..end + 1] == before + [value[end]];
    assert before + ([value[end]] + rest) == (before + [value[end]]) + rest;
  }

  method DigitsEnd(value: string, start: nat) returns (end: nat)
    requires start <= |value|
    ensures start <= end <= |value| && value[start..end] == DigitPrefix(value[start..])
  {
    end := start;
    ghost var goal := DigitPrefix(value[start..]);
    assert value[start..start] + goal == goal;
    while end < |value| && IsDigit(value[end])
      invariant start <= end <= |value|
      invariant value[start..end] + DigitPrefix(value[end..]) == goal
    {
      NextDigit(value, start, end);
      end := end + 1;
    }
    assert DigitPrefix(value[end..]) == [];
    assert value[start..end] + [] == value[start..end];
  }

  method ParseUsize(value: string) returns (r: Result<nat, ParseError>)
    ensures r == ReadCount(value)
  {
    var start := SkipWhitespace(value, 0);
    assert value[0..] == value;
    var end := DigitsEnd(value, start);
    if start == end {
      return Err(NotAnInteger);
    }
    if DecimalValue(value[start..end]) >= WORD_LIMIT {
      return Err(IntegerTooLarge);
    }
    r := Ok(DecimalValue(value[start..end]));
  }

  method ParseFloor(l: Layout, text: string) returns (r: Result<Floor, ParseError>)
    ensures r == ReadFloor(l, text)
  {
    var tagValue := FieldValue(text, l.tagKey);
    if tagValue.Err? {
      return Err(tagValue.error);
    }
    var start := SkipWhitespace(tagValue.value, 0);
    assert tagValue.value[0..] == tagValue.value;
    var tag := ParseJsonString(tagValue.value[start..]);
    if tag.Err? {
      return Err(tag.error);
    }
    var modulesValue := FieldValue(text, l.modulesKey);
    if modulesValue.Err? {
      return Err(modulesValue.error);
    }
    var modules := ParseStringArray(modulesValue.value);
    if modules.Err? {
      return Err(modules.error);
    }
    var countValue := FieldValue(text, l.countKey);
    if countValue.Err? {
      return Err(countValue.error);
    }
    var count := ParseUsize(countValue.value);
    if count.Err? {
      return Err(count.error);
    }
    r := Ok(Floor(tag.value.0, modules.value, count.value));
  }

  // ---------------------------------------------------------------------
  // The round trip through both

  /** No tag or module hides the count: stated on the modules as given, in any order. */
  predicate UnambiguousFor(key: string, tag: string, modules: seq<string>)
  {
    && !Shadows(tag, key)
    && (forall m, k :: m in modules && k in modules && Shadows(m, key) && Less(m, k) ==> ':' !in k)
  }

  predicate Unambiguous(tag: string, modules: seq<string>)
  {
    UnambiguousFor(LAYOUT.countKey, tag, modules)
  }

  lemma {:induction false} UnambiguousSorted(tag: string, modules: seq<string>)
    ensures Unambiguous(tag, modules) <==> ReadsBack(LAYOUT, tag, SortDedup(modules))
  {
    var key, sorted := LAYOUT.countKey, SortDedup(modules);
    SortDedupSorted(modules);
    if !CountVisible(key, sorted) {
      var i, j :| 0 <= i < j < |sorted| && Shadows(sorted[i], key) && ':' in sorted[j];
      assert sorted[i] in modules && sorted[j] in modules && Less(sorted[i], sorted[j]);
    } else {
      forall m, k | m in modules && k in modules && Shadows(m, key) && Less(m, k) ensures ':' !in k {
        var i :| 0 <= i < |sorted| && sorted[i] == m;
        var j :| 0 <= j < |sorted| && sorted[j] == k;
        LessTotal(m, k);
        LessTotal(m, m);
      }
    }
  }

  /** Writing and parsing a floor, as one call after the other. */
  method WriteThenParse(floor: Floor) returns (r: Result<Floor, ParseError>)
    requires floor.count < WORD_LIMIT
    ensures Unambiguous(floor.tag, floor.modules) ==> r == Ok(floor.(modules := SortDedup(floor.modules)))
    ensures r.Ok? ==> r.value.tag == floor.tag && r.value.modules == SortDedup(floor.modules)
  {
    LayoutSound();
    var json := ToJson(LAYOUT, floor);
    r := ParseFloor(LAYOUT, json);
    ghost var written := floor.(modules := SortDedup(floor.modules));
    TagFound(LAYOUT, written);
    ModulesReadBack(LAYOUT, written);
    if Unambiguous(floor.tag, floor.modules) {
      UnambiguousSorted(floor.tag, floor.modules);
      RoundTrip(LAYOUT, written);
    }
  }

  /** Every count survives exactly when no tag or module hides the count. */
  lemma {:induction false} FloorRoundTripIff(tag: string, modules: seq<string>)
    ensures Unambiguous(tag, modules) <==>
            forall n: nat {:trigger Floor(tag, SortDedup(modules), n)} :: n < WORD_LIMIT ==>
              ReadFloor(LAYOUT, Printed(LAYOUT, Floor(tag, SortDedup(modules), n))) ==
                  Ok(Floor(tag, SortDedup(modules), n))
  {
    LayoutSound();
    UnambiguousSorted(tag, modules);
    RoundTripIff(LAYOUT, tag, SortDedup(modules));
  }

  // ---------------------------------------------------------------------
  // Floors whose count is lost

  /** A tag that is the name of the count field: the file cannot be read back, whatever the count. */
  lemma {:induction false} TagHidesCount(modules: seq<string>, n: nat)
    ensures ReadFloor(LAYOUT, Printed(LAYOUT, Floor(LAYOUT.countKey, modules, n))) == Err(NotAnInteger)
  {
    LayoutSound();
    var floor := Floor(LAYOUT.countKey, modules, n);
    TagFound(LAYOUT, floor);
    ModulesReadBack(LAYOUT, floor);
    CountBehindTag(LAYOUT, LAYOUT.countKey, modules, n);
  }

  /** A module of that name before one with a colon: whatever the count was, the digit behind the colon is read. */
  lemma {:induction false} ModuleHidesCount(l: Layout, tag: string, n: nat)
    requires Sound(l) && !Shadows(tag, l.countKey)
    ensures var modules := [l.countKey, "z:1"];
            ReadFloor(l, Printed(l, Floor(tag, modules, n))) == Ok(Floor(tag, modules, 1))
  {
    var modules := [l.countKey, "z:1"];
    var floor := Floor(tag, modules, n);
    TagFound(l, floor);
    ModulesReadBack(l, floor);
    SearchBehindTag(l, floor);
    var behind := AfterModule(l, modules[1..], n);
    StopInModule(l.item, "z:1", behind);
    ColonDigit();
    CountOfDigit(behind);
  }

  lemma {:induction false} ColonDigit()
    ensures AfterColon(Escape("z:1")) == Some("1")
  {
    EscapePlain("z:1");
    assert "z:1"[1..] == ":1" && ":1"[1..] == "1";
  }

  lemma {:induction false} EscapePlain(s: string)
    requires forall i :: 0 <= i < |s| ==> EscapeChar(s[i]) == [s[i]]
    ensures Escape(s) == s
  {
    if s != [] {
      EscapePlain(s[1..]);
    }
  }

  lemma {:induction false} CountOfDigit(behind: string)
    ensures ReadCount("1" + ([QUOTE] + behind)) == Ok(1)
  {
    var value := "1" + ([QUOTE] + behind);
    DigitsStopAtQuote("1", behind);
    assert value[0] == '1';
    assert SkipWs(value) == value;
    assert "1"[1..] == "" && DigitPrefix("1") == ['1'] + DigitPrefix("1"[1..]) == "1";
    assert "1"[..0] == "" && DecimalValue("1") == DecimalValue("1"[..0]) * 10 + 1;
  }

  lemma {:induction false} SortPair(a: string, b: string)
    requires Less(a, b)
    ensures SortDedup([b, a]) == [a, b]
  {
    LessTotal(a, b);
    LessTotal(a, a);
    assert [b, a][1..] == [a] && [a][1..] == [];
    assert SortDedup([a]) == InsertName(a, SortDedup([a][1..])) == [a];
    assert InsertName(b, [a]) == [a] + InsertName(b, [a][1..]) == [a] + [b];
  }

  lemma {:induction false} AmbiguousFor(l: Layout, tag: string, n: nat)
    requires Sound(l) && !Shadows(tag, l.countKey) && Less(l.countKey, "z:1")
    ensures var modules := ["z:1", l.countKey];
            && SortDedup(modules) == [l.countKey, "z:1"] && !UnambiguousFor(l.countKey, tag, modules)
            && ReadFloor(l, Printed(l, Floor(tag, SortDedup(modules), n))) == Ok(Floor(tag, SortDedup(modules), 1))
  {
    var key, other := l.countKey, "z:1";
    SortPair(key, other);
    ModuleHidesCount(l, tag, n);
    var given := [other, key];
    assert other[1] == ':';
    assert given[0] in given && given[1] in given;
  }

  lemma {:induction false} CountKeyFirst()
    ensures Less(LAYOUT.countKey, "z:1")
  {
    assert LAYOUT.countKey[0] == 'm';
  }

  /** A floor that is written without an error and read with another count. */
  lemma {:induction false} AmbiguousFloor(tag: string, n: nat)
    requires !Shadows(tag, LAYOUT.countKey)
    ensures var modules := ["z:1", LAYOUT.countKey];
            && SortDedup(modules) == [LAYOUT.countKey, "z:1"] && !Unambiguous(tag, modules)
            && ReadFloor(LAYOUT, Printed(LAYOUT, Floor(tag, SortDedup(modules), n)))
               == Ok(Floor(tag, SortDedup(modules), 1))
  {
    LayoutSound();
    CountKeyFirst();
    AmbiguousFor(LAYOUT, tag, n);
  }
}
