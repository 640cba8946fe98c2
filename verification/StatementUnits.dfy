/**
 Splitting a program into statement units: marked sections are kept whole, and a program
 without markers is split at its top-level lines.
 */
module StatementUnits {

  /** How a line looks to the splitter. */
  datatype Shape = Shape(begin: bool, end: bool, blank: bool, indented: bool)

  function Flatten<T>(chunks: seq<seq<T>>): seq<T>
  {
    if chunks == [] then [] else Flatten(chunks[..|chunks| - 1]) + chunks[|chunks| - 1]
  }

  lemma {:induction false} FlattenCons<T>(chunks: seq<seq<T>>)
    requires chunks != []
    ensures Flatten(chunks) == chunks[0] + Flatten(chunks[1..])
  {
    var k := |chunks| - 1;
    var init := chunks[..k];
    if k > 0 {
      FlattenCons(init);
      var first, middle, last := chunks[0], Flatten(init[1..]), chunks[k];
      assert chunks[1..][..k - 1] == init[1..] && chunks[1..][k - 1] == last;
      assert Flatten(chunks[1..]) == middle + last;
      assert (first + middle) + last == first + (middle + last);
    } else {
      assert init == [] && chunks[1..] == [];
    }
  }

  // ---------------------------------------------------------------------
  // Marked sections

  /** Whether a marked section is open after these lines. */
  function Open(shape: string -> Shape, lines: seq<string>): bool
  {
    lines != [] &&
    var last := shape(lines[|lines| - 1]);
    last.begin || (Open(shape, lines[..|lines| - 1]) && !last.end)
  }

  /** The lines that survive: all but the blank ones outside marked sections. */
  function Kept(shape: string -> Shape, lines: seq<string>): seq<string>
  {
    if lines == [] then []
    else
      var init, last := lines[..|lines| - 1], lines[|lines| - 1];
      Kept(shape, init) + if Open(shape, init) || shape(last).begin || !shape(last).blank then [last] else []
  }

  /** A line that closes a section. */
  predicate Closes(shape: string -> Shape, line: string)
  {
    shape(line).end && !shape(line).begin
  }

  /** A marked section: opened by its first line, and closed only by its last, if at all. */
  predicate Marked(shape: string -> Shape, chunk: seq<string>)
  {
    && chunk != [] && shape(chunk[0]).begin
    && forall i :: 0 < i < |chunk| - 1 ==> !Closes(shape, chunk[i])
  }

  predicate Closed(shape: string -> Shape, chunk: seq<string>)
  {
    Marked(shape, chunk) && Closes(shape, chunk[|chunk| - 1])
  }

  /** Lines between marked sections: none of them opens one and none is blank. */
  predicate Plain(shape: string -> Shape, chunk: seq<string>)
  {
    chunk != [] && forall i :: 0 <= i < |chunk| ==> !shape(chunk[i]).begin && !shape(chunk[i]).blank
  }

  /** A section is closed before anything follows it, and only a section follows other lines. */
  predicate Follows(shape: string -> Shape, a: seq<string>, b: seq<string>)
  {
    (Marked(shape, a) ==> Closed(shape, a)) && (Plain(shape, a) ==> Marked(shape, b))
  }

  /** Whole sections, and between two of them all the lines that stand there. */
  predicate Sections(shape: string -> Shape, chunks: seq<seq<string>>)
  {
    chunks == [] ||
    var k := |chunks| - 1;
    && (Marked(shape, chunks[k]) || Plain(shape, chunks[k]))
    && (k > 0 ==> Follows(shape, chunks[k - 1], chunks[k]))
    && Sections(shape, chunks[..k])
  }

  lemma {:induction false} OneMore(shape: string -> Shape, lines: seq<string>, k: nat)
    requires k < |lines|
    ensures Open(shape, lines[..k + 1]) <==> shape(lines[k]).begin || (Open(shape, lines[..k]) && !shape(lines[k]).end)
    ensures Kept(shape, lines[..k + 1]) ==
            Kept(shape, lines[..k])
            + if Open(shape, lines[..k]) || shape(lines[k]).begin || !shape(lines[k]).blank then [lines[k]] else []
  {
    assert lines[..k + 1][..k] == lines[..k];
  }

  /** A section still being read; nothing in it closes it. */
  predicate Opening(shape: string -> Shape, current: seq<string>)
  {
    current != [] && shape(current[0]).begin && forall i :: 0 < i < |current| ==> !Closes(shape, current[i])
  }

  /** The finished chunks can be followed by a section that is open, or by anything. */
  predicate Ready(shape: string -> Shape, chunks: seq<seq<string>>, inMarker: bool)
  {
    && Sections(shape, chunks)
    && (chunks == [] || Closed(shape, chunks[|chunks| - 1]) || (inMarker && Plain(shape, chunks[|chunks| - 1])))
  }

  /** The finished chunks, and the lines of the current one. */
  ghost predicate Splitting(shape: string -> Shape, chunks: seq<seq<string>>, current: seq<string>, inMarker: bool)
  {
    && Ready(shape, chunks, inMarker)
    && if inMarker then Opening(shape, current) else current == [] || Plain(shape, current)
  }

  lemma {:induction false} Flush(shape: string -> Shape, chunks: seq<seq<string>>, current: seq<string>, inMarker: bool)
    requires Ready(shape, chunks, inMarker)
    requires Marked(shape, current) || (!inMarker && Plain(shape, current))
    ensures Sections(shape, chunks + [current])
  {
    assert (chunks + [current])[..|chunks|] == chunks;
  }

  function TextOf(chunks: seq<seq<string>>, current: seq<string>): seq<string>
  {
    Flatten(chunks) + current
  }

  lemma {:induction false} TextGrows(chunks: seq<seq<string>>, current: seq<string>, line: string)
    ensures TextOf(chunks, current + [line]) == TextOf(chunks, current) + [line]
    ensures TextOf(chunks + [current], []) == TextOf(chunks, current)
    ensures TextOf(chunks + [current], [line]) == TextOf(chunks, current) + [line]
  {
    assert (chunks + [current])[..|chunks|] == chunks;
    assert Flatten(chunks) + (current + [line]) == (Flatten(chunks) + current) + [line];
  }

  method SplitMarked(shape: string -> Shape, lines: seq<string>) returns (chunks: seq<seq<string>>, sawMarker: bool)
    ensures Flatten(chunks) == Kept(shape, lines) && Sections(shape, chunks)
    ensures sawMarker <==> exists i :: 0 <= i < |lines| && shape(lines[i]).begin
  {
    chunks, sawMarker := [], false;
    var current: seq<string>, inMarker := [], false;
    for k := 0 to |lines|
      invariant inMarker == Open(shape, lines[..k]) && TextOf(chunks, current) == Kept(shape, lines[..k])
      invariant Splitting(shape, chunks, current, inMarker)
      invariant sawMarker <==> exists i :: 0 <= i < k && shape(lines[i]).begin
    {
      OneMore(shape, lines, k);
      chunks, current, inMarker := SplitLine(shape, lines[k], chunks, current, inMarker);
      sawMarker := sawMarker || shape(lines[k]).begin;
    }
    assert lines[..|lines|] == lines;
    if current != [] {
      TextGrows(chunks, current, "");
      Flush(shape, chunks, current, inMarker);
      chunks := chunks + [current];
    }
    assert TextOf(chunks, []) == Flatten(chunks);
  }

  /** One line: it opens a section, goes into the open one, or stands between sections. */
  method SplitLine(shape: string -> Shape, line: string, chunks: seq<seq<string>>, current: seq<string>, inMarker: bool)
    returns (chunks': seq<seq<string>>, current': seq<string>, inMarker': bool)
    requires Splitting(shape, chunks, current, inMarker)
    ensures Splitting(shape, chunks', current', inMarker')
    ensures inMarker' <==> shape(line).begin || (inMarker && !shape(line).end)
    ensures TextOf(chunks', current') ==
            TextOf(chunks, current) + if inMarker || shape(line).begin || !shape(line).blank then [line] else []
  {
    chunks', current', inMarker' := chunks, current, inMarker;
    TextGrows(chunks, current, line);
    if shape(line).begin {
      if current != [] && !inMarker {
        Flush(shape, chunks, current, inMarker);
        chunks', current' := chunks + [current], [];
      }
      current', inMarker' := current' + [line], true;
    } else if inMarker {
      current' := current + [line];
      if shape(line).end {
        TextGrows(chunks, current', line);
        Flush(shape, chunks, current', inMarker);
        chunks', current', inMarker' := chunks + [current'], [], false;
      }
    } else if !shape(line).blank {
      current' := current + [line];
    }
  }

  // ---------------------------------------------------------------------
  // There is only one way to split into sections

  lemma {:induction false} SectionAt(shape: string -> Shape, chunks: seq<seq<string>>, k: nat)
    requires Sections(shape, chunks) && k < |chunks|
    ensures Marked(shape, chunks[k]) || Plain(shape, chunks[k])
    ensures k > 0 ==> Follows(shape, chunks[k - 1], chunks[k])
  {
    if k < |chunks| - 1 {
      SectionAt(shape, chunks[..|chunks| - 1], k);
    }
  }

  lemma {:induction false} SectionsTail(shape: string -> Shape, chunks: seq<seq<string>>)
    requires Sections(shape, chunks) && chunks != []
    ensures Sections(shape, chunks[1..])
  {
    var k := |chunks| - 1;
    if k > 0 {
      SectionsTail(shape, chunks[..k]);
      assert chunks[1..][..k - 1] == chunks[..k][1..];
      if k > 1 {
        assert chunks[1..][k - 2] == chunks[k - 1];
      }
    }
  }

  /** What a first chunk looks like, given what follows it. */
  predicate Starts(shape: string -> Shape, first: seq<string>, rest: seq<string>)
  {
    && (Marked(shape, first) || Plain(shape, first))
    && (rest != [] ==> if shape(first[0]).begin then Closed(shape, first) else shape(rest[0]).begin)
  }

  lemma {:induction false} FirstSection(shape: string -> Shape, chunks: seq<seq<string>>)
    requires Sections(shape, chunks) && chunks != []
    ensures Starts(shape, chunks[0], Flatten(chunks[1..]))
  {
    SectionAt(shape, chunks, 0);
    if |chunks| > 1 {
      SectionAt(shape, chunks, 1);
      FlattenCons(chunks[1..]);
    }
  }

  /** The shorter of two first chunks would have to end where the longer one does not. */
  lemma {:induction false} NotShorter(shape: string -> Shape, a: seq<string>, b: seq<string>, text: seq<string>)
    requires |a| <= |text| && |b| <= |text| && a == text[..|a|] && b == text[..|b|]
    requires Starts(shape, a, text[|a|..]) && Starts(shape, b, text[|b|..])
    ensures |a| >= |b|
  {
    var cut := |a|;
    assert cut < |text| ==> text[cut..][0] == text[cut];
  }

  lemma {:induction false} SectionsUnique(shape: string -> Shape, a: seq<seq<string>>, b: seq<seq<string>>)
    requires Sections(shape, a) && Sections(shape, b) && Flatten(a) == Flatten(b)
    ensures a == b
  {
    if a != [] && b != [] {
      var text := Flatten(a);
      SplitFirst(shape, a, text);
      SplitFirst(shape, b, text);
      NotShorter(shape, a[0], b[0], text);
      NotShorter(shape, b[0], a[0], text);
      SectionsTail(shape, a);
      SectionsTail(shape, b);
      SectionsUnique(shape, a[1..], b[1..]);
      assert a == [a[0]] + a[1..] && b == [b[0]] + b[1..];
    } else {
      EmptySections(shape, a);
      EmptySections(shape, b);
    }
  }

  lemma {:induction false} SplitFirst(shape: string -> Shape, chunks: seq<seq<string>>, text: seq<string>)
    requires Sections(shape, chunks) && chunks != [] && text == Flatten(chunks)
    ensures |chunks[0]| <= |text| && chunks[0] == text[..|chunks[0]|] && Flatten(chunks[1..]) == text[|chunks[0]|..]
    ensures Starts(shape, chunks[0], text[|chunks[0]|..])
  {
    FlattenCons(chunks);
    FirstSection(shape, chunks);
  }

  lemma {:induction false} EmptySections(shape: string -> Shape, chunks: seq<seq<string>>)
    requires Sections(shape, chunks)
    ensures Flatten(chunks) == [] <==> chunks == []
  {
  }

  // ---------------------------------------------------------------------
  // Top-level lines

  predicate TopLevel(shape: string -> Shape, line: string)
  {
    !shape(line).blank && !shape(line).indented
  }

  /** Everything from the first line that is not blank. */
  function FromFirst(shape: string -> Shape, lines: seq<string>): seq<string>
  {
    if lines != [] && shape(lines[0]).blank then FromFirst(shape, lines[1..]) else lines
  }

  lemma {:induction false} FromFirstSnoc(shape: string -> Shape, lines: seq<string>, line: string)
    ensures FromFirst(shape, lines + [line]) ==
            if FromFirst(shape, lines) != [] || !shape(line).blank then FromFirst(shape, lines) + [line] else []
  {
    if lines == [] {
      assert [line][1..] == [] && lines + [line] == [line];
    } else if shape(lines[0]).blank {
      assert (lines + [line])[1..] == lines[1..] + [line];
      FromFirstSnoc(shape, lines[1..], line);
    }
  }

  /** A chunk's lines after its first are no new top-level statement. */
  predicate OneStatement(shape: string -> Shape, chunk: seq<string>)
  {
    chunk != [] && forall i :: 0 < i < |chunk| ==> shape(chunk[i]).blank || shape(chunk[i]).indented
  }

  predicate Statements(shape: string -> Shape, chunks: seq<seq<string>>)
  {
    && (forall k :: 0 <= k < |chunks| ==> OneStatement(shape, chunks[k]))
    && (forall k :: 0 < k < |chunks| ==> !shape(chunks[k][0]).blank && !shape(chunks[k][0]).indented)
  }

  /** What the splitter has done with `lines`. */
  ghost predicate Physical(shape: string -> Shape, lines: seq<string>, chunks: seq<seq<string>>, current: seq<string>)
  {
    && Flatten(chunks) + current == FromFirst(shape, lines)
    && Statements(shape, chunks)
    && if current == [] then chunks == []
       else OneStatement(shape, current) && (chunks != [] ==> TopLevel(shape, current[0]))
  }

  lemma {:induction false} NextLine(shape: string -> Shape, lines: seq<string>, line: string,
                                    chunks: seq<seq<string>>, current: seq<string>)
    requires Physical(shape, lines, chunks, current) && !(TopLevel(shape, line) && current != [])
    ensures Physical(shape, lines + [line], chunks,
                     if !shape(line).blank || current != [] then current + [line] else current)
  {
    FromFirstSnoc(shape, lines, line);
    assert Flatten(chunks) + (current + [line]) == (Flatten(chunks) + current) + [line];
  }

  lemma {:induction false} NewStatement(shape: string -> Shape, lines: seq<string>, line: string,
                                        chunks: seq<seq<string>>, current: seq<string>)
    requires Physical(shape, lines, chunks, current) && TopLevel(shape, line) && current != []
    ensures Physical(shape, lines + [line], chunks + [current], [line])
  {
    FromFirstSnoc(shape, lines, line);
  }

  method SplitPhysical(shape: string -> Shape, lines: seq<string>) returns (chunks: seq<seq<string>>)
    ensures Flatten(chunks) == FromFirst(shape, lines) && Statements(shape, chunks)
  {
    chunks := [];
    var current: seq<string> := [];
    for k := 0 to |lines|
      invariant Physical(shape, lines[..k], chunks, current)
    {
      var line := lines[k];
      assert lines[..k + 1] == lines[..k] + [line];
      if TopLevel(shape, line) && current != [] {
        NewStatement(shape, lines[..k], line, chunks, current);
        chunks, current := chunks + [current], [];
      } else {
        NextLine(shape, lines[..k], line, chunks, current);
      }
      if !shape(line).blank || current != [] {
        current := current + [line];
      }
    }
    assert lines[..|lines|] == lines;
    if current != [] {
      chunks := chunks + [current];
    }
  }

  ghost predicate HasMarker(shape: string -> Shape, lines: seq<string>)
  {
    exists i :: 0 <= i < |lines| && shape(lines[i]).begin
  }

  /** A marked program keeps its sections whole; any other is split at its top-level lines. */
  ghost predicate UnitsOf(shape: string -> Shape, lines: seq<string>, chunks: seq<seq<string>>)
  {
    if HasMarker(shape, lines) then Flatten(chunks) == Kept(shape, lines) && Sections(shape, chunks)
    else Flatten(chunks) == FromFirst(shape, lines) && Statements(shape, chunks)
  }

  method SplitStatementUnits(shape: string -> Shape, lines: seq<string>) returns (chunks: seq<seq<string>>)
    ensures UnitsOf(shape, lines, chunks)
  {
    var sawMarker;
    chunks, sawMarker := SplitMarked(shape, lines);
    if !sawMarker {
      chunks := SplitPhysical(shape, lines);
    }
  }

  // ---------------------------------------------------------------------
  // No line is invented or moved

  /** `a` is `b` with some elements left out. */
  predicate Subsequence<T(==)>(a: seq<T>, b: seq<T>)
  {
    a == [] ||
    (b != [] &&
     var shorter := b[..|b| - 1];
     || (a[|a| - 1] == b[|b| - 1] && Subsequence(a[..|a| - 1], shorter))
     || Subsequence(a, shorter))
  }

  lemma {:induction false} SubsequenceAppend<T>(a: seq<T>, b: seq<T>, c: seq<T>)
    requires Subsequence(a, b)
    ensures Subsequence(a, b + c) && Subsequence(a + c, b + c)
  {
    if c == [] {
      assert a + c == a && b + c == b;
    } else {
      var k := |c| - 1;
      SubsequenceAppend(a, b, c[..k]);
      assert (b + c)[..|b| + k] == b + c[..k];
      if a + c != [] {
        assert (a + c)[..|a| + k] == a + c[..k];
      }
    }
  }

  lemma {:induction false} SuffixIsSubsequence<T>(x: seq<T>, a: seq<T>)
    ensures Subsequence(a, x + a)
  {
    assert [] + a == a;
    SubsequenceAppend([], x, a);
  }

  lemma {:induction false} SubsequenceTransitive<T>(a: seq<T>, b: seq<T>, c: seq<T>)
    requires Subsequence(a, b) && Subsequence(b, c)
    ensures Subsequence(a, c)
    decreases |c|
  {
    if a != [] {
      var shorter := c[..|c| - 1];
      if Subsequence(b, shorter) {
        SubsequenceTransitive(a, b, shorter);
      } else {
        var init := b[..|b| - 1];
        if Subsequence(a, init) {
          SubsequenceTransitive(a, init, shorter);
        } else {
          SubsequenceTransitive(a[..|a| - 1], init, shorter);
        }
      }
    }
  }

  lemma {:induction false} KeptSubsequence(shape: string -> Shape, lines: seq<string>)
    ensures Subsequence(Kept(shape, lines), lines)
  {
    if lines != [] {
      var k := |lines| - 1;
      KeptSubsequence(shape, lines[..k]);
      SubsequenceAppend(Kept(shape, lines[..k]), lines[..k], [lines[k]]);
      assert lines == lines[..k] + [lines[k]];
      assert Kept(shape, lines[..k]) + [] == Kept(shape, lines[..k]);
    }
  }

  lemma {:induction false} FromFirstSuffix(shape: string -> Shape, lines: seq<string>) returns (blank: seq<string>)
    ensures lines == blank + FromFirst(shape, lines)
  {
    if lines != [] && shape(lines[0]).blank {
      var rest := FromFirstSuffix(shape, lines[1..]);
      var first, tail := lines[0], FromFirst(shape, lines[1..]);
      blank := [first] + rest;
      assert lines == [first] + lines[1..];
      assert [first] + (rest + tail) == ([first] + rest) + tail;
    } else {
      blank := [];
      assert blank + lines == lines;
    }
  }

  /** The units are lines of the program, in their order. */
  lemma {:induction false} UnitsSubsequence(shape: string -> Shape, lines: seq<string>, chunks: seq<seq<string>>)
    requires UnitsOf(shape, lines, chunks)
    ensures Subsequence(Flatten(chunks), lines)
  {
    if HasMarker(shape, lines) {
      KeptSubsequence(shape, lines);
    } else {
      var blank := FromFirstSuffix(shape, lines);
      SuffixIsSubsequence(blank, FromFirst(shape, lines));
    }
  }
}
