/**
 The divergence minimizer: greedily deleting statement units while the program still
 diverges.
 */
module Minimizer {
  import opened Wrappers
  import opened StatementUnits

  // ---------------------------------------------------------------------
  // Minimizing

  function Joined(units: seq<string>, separator: string): string
  {
    if units == [] then ""
    else if |units| == 1 then units[0]
    else Joined(units[..|units| - 1], separator) + separator + units[|units| - 1]
  }

  function JoinUnits(units: seq<string>): string
  {
    Joined(units, "\n\n") + "\n"
  }

  function Without<T>(s: seq<T>, i: nat): seq<T>
    requires i < |s|
  {
    s[..i] + s[i + 1..]
  }

  /** `kept` is `units` at the strictly increasing `positions`. */
  predicate Picks<T(==)>(kept: seq<T>, units: seq<T>, positions: seq<nat>)
  {
    && |positions| == |kept|
    && (forall i :: 0 <= i < |kept| ==> positions[i] < |units| && kept[i] == units[positions[i]])
    && (forall i, j :: 0 <= i < j < |positions| ==> positions[i] < positions[j])
  }

  lemma {:induction false} PicksWithout(kept: seq<string>, units: seq<string>, positions: seq<nat>, i: nat)
    requires Picks(kept, units, positions) && i < |kept|
    ensures Picks(Without(kept, i), units, Without(positions, i))
  {
  }

  /** Deleting takes out one element and keeps all others in their order. */
  lemma {:induction false} WithoutExact<T>(before: seq<T>, x: T, after: seq<T>)
    ensures Without(before + [x] + after, |before|) == before + after
  {
  }

  lemma {:induction false} Regroup(a: string, separator: string, b: string, c: string)
    ensures (a + separator + b) + separator + c == a + separator + (b + separator + c)
  {
  }

  /** Joining two lists puts one separator between their texts. */
  lemma {:induction false} JoinedAppend(a: seq<string>, b: seq<string>, separator: string)
    requires a != [] && b != []
    ensures Joined(a + b, separator) == Joined(a, separator) + separator + Joined(b, separator)
  {
    var all, k := a + b, |b| - 1;
    if k == 0 {
      assert all[..|a|] == a && all[|a|] == b[0];
    } else {
      var init := b[..k];
      assert all[..|all| - 1] == a + init && all[|all| - 1] == b[k];
      JoinedAppend(a, init, separator);
      Regroup(Joined(a, separator), separator, Joined(init, separator), b[k]);
    }
  }

  /** Units are separated by an empty line, and the program ends with a line end. */
  lemma {:induction false} UnitsJoined(units: seq<string>, last: string)
    ensures JoinUnits([last]) == last + "\n"
    ensures units != [] ==> JoinUnits(units + [last]) == Joined(units, "\n\n") + "\n\n" + last + "\n"
  {
    if units != [] {
      JoinedAppend(units, [last], "\n\n");
    }
  }

  function Triangle(n: nat): nat
  {
    if n == 0 then 0 else n + Triangle(n - 1)
  }

  /** Whether the program made of these units diverges. */
  function Tester<E>(diverges: string -> Result<bool, E>): seq<string> -> Result<bool, E>
  {
    (units: seq<string>) => diverges(JoinUnits(units))
  }

  ghost predicate Deletable<E>(test: seq<string> -> Result<bool, E>, units: seq<string>, i: nat)
    requires i < |units|
  {
    test(Without(units, i)) != Ok(false)
  }

  /** No single unit can go, or only one is left. */
  ghost predicate OneMinimal<E>(test: seq<string> -> Result<bool, E>, units: seq<string>)
  {
    |units| <= 1 || forall i: nat :: i < |units| ==> !Deletable(test, units, i)
  }

  /** The first call to fail, on some selection of the units. */
  ghost predicate FailsOn<E>(test: seq<string> -> Result<bool, E>, units: seq<string>, error: E)
  {
    exists kept, positions :: Picks(kept, units, positions) && test(kept) == Err(error)
  }

  /** No unit before `index` can go. */
  ghost predicate Tried<E>(test: seq<string> -> Result<bool, E>, units: seq<string>, index: nat)
    requires index <= |units|
  {
    forall i: nat :: i < index ==> !Deletable(test, units, i)
  }

  /** Greedy deletion, from the front again after every deletion. */
  method Shrink<E>(start: seq<string>, test: seq<string> -> Result<bool, E>)
    returns (r: Result<seq<string>, E>, attempts: nat, ghost positions: seq<nat>)
    requires |start| > 1
    ensures r.Ok? ==> r.value != [] && Picks(r.value, start, positions) && OneMinimal(test, r.value)
    ensures r.Ok? ==> r.value == start || test(r.value) == Ok(true)
    ensures r.Err? ==> FailsOn(test, start, r.error)
    ensures attempts <= Triangle(|start|)
  {
    var units, index := start, 0;
    attempts := 0;
    positions := seq(|units|, i => i);
    while index < |units| && |units| > 1
      invariant index <= |units| && units != [] && Picks(units, start, positions)
      invariant Tried(test, units, index)
      invariant units == start || test(units) == Ok(true)
      invariant attempts + Triangle(|units|) <= Triangle(|start|) + index
      decreases |units|, |units| - index
    {
      var candidate := Without(units, index);
      PicksWithout(units, start, positions, index);
      var outcome := test(candidate);
      attempts := attempts + 1;
      if outcome.Err? {
        return Err(outcome.error), attempts, positions;
      }
      if outcome.value {
        units, positions, index := candidate, Without(positions, index), 0;
      } else {
        assert !Deletable(test, units, index);
        index := index + 1;
      }
    }
    r := Ok(units);
  }

  // ---------------------------------------------------------------------
  // A whole program

  function Texts(chunks: seq<seq<string>>): seq<string>
  {
    seq(|chunks|, i requires 0 <= i < |chunks| => Joined(chunks[i], "\n"))
  }

  /** A unit's text is its lines with line ends between them. */
  lemma {:induction false} LinesJoined(chunks: seq<seq<string>>, lines: seq<string>, last: string)
    requires lines != []
    ensures Texts(chunks + [lines + [last]]) == Texts(chunks) + [Joined(lines, "\n") + "\n" + last]
  {
    var all := chunks + [lines + [last]];
    JoinedAppend(lines, [last], "\n");
    assert forall i :: 0 <= i < |chunks| ==> all[i] == chunks[i];
  }

  /** The chunks at these positions. */
  function Selected<T>(chunks: seq<T>, positions: seq<nat>): seq<T>
    requires forall i :: 0 <= i < |positions| ==> positions[i] < |chunks|
  {
    seq(|positions|, i requires 0 <= i < |positions| => chunks[positions[i]])
  }

  /** Selecting units selects lines. */
  lemma {:induction false} SelectedLines(kept: seq<seq<string>>, chunks: seq<seq<string>>, positions: seq<nat>)
    requires Picks(kept, chunks, positions)
    ensures Subsequence(Flatten(kept), Flatten(chunks))
    decreases |chunks|
  {
    if kept != [] {
      var k, n := |kept| - 1, |chunks| - 1;
      assert kept[k] == chunks[positions[k]];
      var text := Flatten(chunks[..n]);
      if positions[k] == n {
        SelectedLines(kept[..k], chunks[..n], positions[..k]);
        SubsequenceAppend(Flatten(kept[..k]), text, chunks[n]);
      } else {
        SelectedLines(kept, chunks[..n], positions);
        SubsequenceAppend(Flatten(kept), text, chunks[n]);
      }
    }
  }

  /**
   The result is made of whole units of the program, in their order: it still diverges if
   anything was deleted, and no single unit can be deleted. Its lines are lines of the program.
   At most `n + (n - 1) + ... + 1` programs are tried.
   */
  method MinimizeSource<E>(shape: string -> Shape, source: string, lines: seq<string>,
                           diverges: string -> Result<bool, E>)
    returns (r: Result<string, E>, attempts: nat, ghost chunks: seq<seq<string>>, ghost kept: seq<seq<string>>,
             ghost positions: seq<nat>)
    ensures UnitsOf(shape, lines, chunks)
    ensures |chunks| <= 1 ==> r == Ok(source) && attempts == 0
    ensures |chunks| > 1 && r.Ok? ==>
              && r.value == JoinUnits(Texts(kept)) && Picks(kept, chunks, positions) && kept != []
              && Subsequence(Flatten(kept), lines)
              && OneMinimal(Tester(diverges), Texts(kept))
              && (kept == chunks || diverges(r.value) == Ok(true))
    ensures r.Err? ==> FailsOn(Tester(diverges), Texts(chunks), r.error)
    ensures attempts <= Triangle(|chunks|)
  {
    var units := SplitStatementUnits(shape, lines);
    chunks, kept, positions := units, units, [];
    if |units| <= 1 {
      return Ok(source), 0, chunks, kept, positions;
    }
    var shrunk;
    shrunk, attempts, positions := Shrink(Texts(units), Tester(diverges));
    if shrunk.Err? {
      return Err(shrunk.error), attempts, chunks, kept, positions;
    }
    kept := KeptUnits(chunks, shrunk.value, positions);
    SelectedLines(kept, chunks, positions);
    UnitsSubsequence(shape, lines, chunks);
    SubsequenceTransitive(Flatten(kept), Flatten(chunks), lines);
    r := Ok(JoinUnits(shrunk.value));
  }

  lemma {:induction false} KeptUnits(chunks: seq<seq<string>>, texts: seq<string>, positions: seq<nat>)
    returns (kept: seq<seq<string>>)
    requires Picks(texts, Texts(chunks), positions)
    ensures Picks(kept, chunks, positions) && Texts(kept) == texts
    ensures texts == Texts(chunks) && |texts| == |chunks| ==> kept == chunks
  {
    kept := Selected(chunks, positions);
    if |texts| == |chunks| {
      AllPositions(positions, |chunks|);
    }
  }

  /** As many increasing positions as there are places are all the places. */
  lemma {:induction false} AllPositions(positions: seq<nat>, n: nat)
    requires |positions| == n && (forall i :: 0 <= i < n ==> positions[i] < n)
    requires forall i, j :: 0 <= i < j < n ==> positions[i] < positions[j]
    ensures forall i :: 0 <= i < n ==> positions[i] == i
  {
    forall i | 0 <= i < n ensures positions[i] == i {
      AtLeast(positions, i);
      AtMost(positions, n, i);
    }
  }

  lemma {:induction false} AtLeast(positions: seq<nat>, i: nat)
    requires i < |positions| && forall j, k :: 0 <= j < k < |positions| ==> positions[j] < positions[k]
    ensures positions[i] >= i
  {
    if i > 0 {
      AtLeast(positions, i - 1);
    }
  }

  lemma {:induction false} AtMost(positions: seq<nat>, n: nat, i: nat)
    requires |positions| == n && i < n && (forall k :: 0 <= k < n ==> positions[k] < n)
    requires forall j, k :: 0 <= j < k < |positions| ==> positions[j] < positions[k]
    ensures positions[i] <= i
    decreases n - i
  {
    if i < n - 1 {
      AtMost(positions, n, i + 1);
    }
  }
}
