/**
 Canonical ordering of combining marks (section 3.11 of the Unicode Standard):
 a specification by insertion, the in-place insertion loop of `ref_decompose`
 proved against it, and the proof that it computes the unique canonical form of
 a class of sequences related by swaps of adjacent, differently classed marks.
 */
module CanonicalOrdering {

  type CodePoint = nat

  type Text = seq<CodePoint>

  /** Canonical combining class of every code point; starters have class 0. */
  type Classes = CodePoint -> nat

  // ---------------------------------------------------------------------
  // Specification

  /** `x` moved left past every mark of a strictly higher class; starters do not move. */
  function Insert(ccc: Classes, done: Text, x: CodePoint): Text
  {
    if |done| > 0 && ccc(x) != 0 && ccc(done[|done| - 1]) > ccc(x) then
      Insert(ccc, done[..|done| - 1], x) + [done[|done| - 1]]
    else
      done + [x]
  }

  function InsertAll(ccc: Classes, done: Text, rest: Text): Text
  {
    if rest == [] then done
    else Insert(ccc, InsertAll(ccc, done, rest[..|rest| - 1]), rest[|rest| - 1])
  }

  function Reorder(ccc: Classes, s: Text): Text
  {
    InsertAll(ccc, [], s)
  }

  /** `a` directly followed by `b` may be exchanged without changing meaning. */
  predicate Exchangeable(ccc: Classes, a: CodePoint, b: CodePoint)
  {
    ccc(a) != 0 && ccc(b) != 0 && ccc(a) != ccc(b)
  }

  /** No pair of neighbours is out of order. */
  predicate InCanonicalOrder(ccc: Classes, s: Text)
  {
    forall i :: 0 <= i < |s| - 1 ==> ccc(s[i + 1]) == 0 || ccc(s[i]) <= ccc(s[i + 1])
  }

  function Swap(s: Text, i: nat): Text
    requires i + 1 < |s|
  {
    s[i := s[i + 1]][i + 1 := s[i]]
  }

  /** One exchange of neighbouring marks with different nonzero classes. */
  ghost predicate SwapStep(ccc: Classes, s: Text, t: Text)
  {
    exists i :: 0 <= i < |s| - 1 && Exchangeable(ccc, s[i], s[i + 1]) && t == Swap(s, i)
  }

  ghost predicate SwapChain(ccc: Classes, chain: seq<Text>)
  {
    |chain| > 0 && forall i :: 0 <= i < |chain| - 1 ==> SwapStep(ccc, chain[i], chain[i + 1])
  }

  /** Reordering-equivalence: `t` is reached from `s` by exchanges. */
  ghost predicate SwapEquivalent(ccc: Classes, s: Text, t: Text)
  {
    exists chain :: SwapChain(ccc, chain) && chain[0] == s && chain[|chain| - 1] == t
  }

  /** The code points of class `c`, in order of appearance. */
  function OfClass(ccc: Classes, s: Text, c: nat): Text
  {
    if s == [] then []
    else OfClass(ccc, s[..|s| - 1], c) + (if ccc(s[|s| - 1]) == c then [s[|s| - 1]] else [])
  }

  // ---------------------------------------------------------------------
  // The insertion loop

  /** The inner loop: sink the mark at `i` left until its left neighbour is not of a higher class. */
  method SinkMark(ccc: Classes, out: array<CodePoint>, i: nat)
    requires 0 < i < out.Length && ccc(out[i]) != 0
    modifies out
    ensures out[..i + 1] == Insert(ccc, old(out[..i]), old(out[i]))
    ensures out[i + 1..] == old(out[i + 1..])
  {
    ghost var left, x := out[..i], out[i];
    var c := ccc(out[i]);
    var j := i;
    while j > 0 && ccc(out[j - 1]) > c
      invariant 0 <= j <= i
      invariant forall k {:trigger out[k]} :: 0 <= k < j ==> out[k] == left[k]
      invariant out[j] == x
      invariant forall k {:trigger out[k]} :: j < k <= i ==> out[k] == left[k - 1]
      invariant forall k {:trigger out[k]} :: i < k < out.Length ==> out[k] == old(out[k])
      invariant forall k :: j <= k < i ==> ccc(left[k]) > c
    {
      out[j - 1], out[j] := out[j], out[j - 1];
      j := j - 1;
    }
    InsertPosition(ccc, left, j, x);
    assert out[..i + 1] == left[..j] + [x] + left[j..];
  }

  lemma {:induction false} InsertPosition(ccc: Classes, left: Text, j: nat, x: CodePoint)
    requires j <= |left| && ccc(x) > 0
    requires forall k :: j <= k < |left| ==> ccc(left[k]) > ccc(x)
    requires j > 0 ==> ccc(left[j - 1]) <= ccc(x)
    ensures Insert(ccc, left, x) == left[..j] + [x] + left[j..]
  {
    if j < |left| {
      var init, z := left[..|left| - 1], left[|left| - 1];
      InsertPosition(ccc, init, j, x);
      var before, behind := init[..j], init[j..];
      assert left[..j] == before && left[j..] == behind + [z];
      assert (before + [x] + behind) + [z] == before + [x] + (behind + [z]);
    } else {
      assert left[..j] == left && left[j..] == [];
    }
  }

  /** The canonical-ordering loop of `ref_decompose`. */
  method ReorderInPlace(ccc: Classes, out: array<CodePoint>)
    modifies out
    ensures out[..] == Reorder(ccc, old(out[..]))
  {
    ghost var input := out[..];
    if out.Length == 0 {
      return;
    }
    ReorderSnoc(ccc, [], input[0]);
    assert out[..1] == [] + [input[0]];
    for i := 1 to out.Length
      invariant out[..i] == Reorder(ccc, input[..i])
      invariant out[i..] == input[i..]
    {
      ReorderSnoc(ccc, input[..i], input[i]);
      assert input[..i + 1] == input[..i] + [input[i]];
      assert out[i] == out[i..][0] && out[i + 1..] == out[i..][1..];
      if ccc(out[i]) == 0 {
        assert out[..i + 1] == out[..i] + [out[i]];
      } else {
        SinkMark(ccc, out, i);
      }
    }
    assert out[..out.Length] == out[..] && input[..out.Length] == input;
  }

  // ---------------------------------------------------------------------
  // Algebra of insertion

  lemma {:induction false} ReorderSnoc(ccc: Classes, s: Text, x: CodePoint)
    ensures Reorder(ccc, s + [x]) == Insert(ccc, Reorder(ccc, s), x)
  {
    assert (s + [x])[..|s|] == s;
  }

  lemma {:induction false} InsertAllAppend(ccc: Classes, done: Text, a: Text, b: Text)
    ensures InsertAll(ccc, done, a + b) == InsertAll(ccc, InsertAll(ccc, done, a), b)
  {
    if b == [] {
      assert a + b == a;
    } else {
      InsertAllAppend(ccc, done, a, b[..|b| - 1]);
      assert (a + b)[..|a + b| - 1] == a + b[..|b| - 1];
    }
  }

  /** Insertions of exchangeable marks commute, whatever they are inserted into. */
  lemma {:induction false} InsertCommutes(ccc: Classes, done: Text, x: CodePoint, y: CodePoint)
    requires Exchangeable(ccc, x, y)
    ensures Insert(ccc, Insert(ccc, done, x), y) == Insert(ccc, Insert(ccc, done, y), x)
  {
    if ccc(y) < ccc(x) {
      InsertCommutesOrdered(ccc, done, y, x);
    } else {
      InsertCommutesOrdered(ccc, done, x, y);
    }
  }

  lemma {:induction false} InsertCommutesOrdered(ccc: Classes, done: Text, x: CodePoint, y: CodePoint)
    requires 0 < ccc(x) < ccc(y)
    ensures Insert(ccc, Insert(ccc, done, x), y) == Insert(ccc, Insert(ccc, done, y), x)
  {
    if |done| == 0 {
      assert [] + [y] == [y] && [] + [x] == [x];
    } else {
      var shorter, z := done[..|done| - 1], done[|done| - 1];
      assert done == shorter + [z];
      if ccc(z) > ccc(y) {
        InsertCommutesOrdered(ccc, shorter, x, y);
      }
    }
  }

  lemma {:induction false} InsertAllAfterInsert(ccc: Classes, done: Text, w: Text, x: CodePoint)
    ensures InsertAll(ccc, done, Insert(ccc, w, x)) == Insert(ccc, InsertAll(ccc, done, w), x)
  {
    if |w| > 0 && ccc(x) != 0 && ccc(w[|w| - 1]) > ccc(x) {
      var shorter, y := w[..|w| - 1], w[|w| - 1];
      InsertAllAfterInsert(ccc, done, shorter, x);
      var moved := Insert(ccc, shorter, x);
      assert (moved + [y])[..|moved|] == moved;
      InsertCommutes(ccc, InsertAll(ccc, done, shorter), x, y);
    } else {
      assert (w + [x])[..|w|] == w;
    }
  }

  lemma {:induction false} InsertAllReordered(ccc: Classes, done: Text, s: Text)
    ensures InsertAll(ccc, done, Reorder(ccc, s)) == InsertAll(ccc, done, s)
  {
    if s != [] {
      var shorter, x := s[..|s| - 1], s[|s| - 1];
      InsertAllReordered(ccc, done, shorter);
      InsertAllAfterInsert(ccc, done, Reorder(ccc, shorter), x);
    }
  }

  /** Reordering is a congruence: any part may be replaced by one that reorders alike. */
  lemma {:induction false} ReorderCongruence(ccc: Classes, before: Text, u: Text, v: Text, after: Text)
    requires Reorder(ccc, u) == Reorder(ccc, v)
    ensures Reorder(ccc, before + u + after) == Reorder(ccc, before + v + after)
  {
    InsertAllAppend(ccc, [], before + u, after);
    InsertAllAppend(ccc, [], before + v, after);
    InsertAllAppend(ccc, [], before, u);
    InsertAllAppend(ccc, [], before, v);
    InsertAllReordered(ccc, Reorder(ccc, before), u);
    InsertAllReordered(ccc, Reorder(ccc, before), v);
  }

  lemma {:induction false} ReorderIdempotent(ccc: Classes, s: Text)
    ensures Reorder(ccc, Reorder(ccc, s)) == Reorder(ccc, s)
  {
    InsertAllReordered(ccc, [], s);
  }

  /** A mark of class above all of `marks` may move left past them. */
  lemma {:induction false} ReorderMovesLeft(ccc: Classes, before: Text, marks: Text, x: CodePoint, after: Text)
    requires forall i :: 0 <= i < |marks| ==> 0 < ccc(marks[i]) < ccc(x)
    ensures Reorder(ccc, before + marks + [x] + after) == Reorder(ccc, before + [x] + marks + after)
  {
    if marks == [] {
      assert before + marks + [x] == before + [x] + marks;
    } else {
      var shorter, y := marks[..|marks| - 1], marks[|marks| - 1];
      assert Reorder(ccc, [y, x]) == Reorder(ccc, [x, y]) by {
        ReorderOfPair(ccc, x, y);
        InsertCommutes(ccc, [], x, y);
      }
      ReorderCongruence(ccc, before + shorter, [y, x], [x, y], after);
      ReorderMovesLeft(ccc, before, shorter, x, [y] + after);
      assert before + shorter + [y, x] + after == before + marks + [x] + after;
      assert before + shorter + [x, y] + after == before + shorter + [x] + ([y] + after);
      assert before + [x] + shorter + ([y] + after) == before + [x] + marks + after;
    }
  }

  lemma {:induction false} ReorderOfPair(ccc: Classes, x: CodePoint, y: CodePoint)
    ensures Reorder(ccc, [x, y]) == Insert(ccc, Insert(ccc, [], x), y)
    ensures Reorder(ccc, [y, x]) == Insert(ccc, Insert(ccc, [], y), x)
  {
    ReorderSnoc(ccc, [], x);
    ReorderSnoc(ccc, [], y);
    ReorderSnoc(ccc, [x], y);
    ReorderSnoc(ccc, [y], x);
    assert [] + [x] == [x] && [] + [y] == [y] && [x] + [y] == [x, y] && [y] + [x] == [y, x];
  }

  // ---------------------------------------------------------------------
  // What reordering keeps

  lemma {:induction false} InsertPermutes(ccc: Classes, done: Text, x: CodePoint)
    ensures multiset(Insert(ccc, done, x)) == multiset(done) + multiset{x}
    ensures |Insert(ccc, done, x)| == |done| + 1
  {
    if |done| > 0 && ccc(x) != 0 && ccc(done[|done| - 1]) > ccc(x) {
      InsertPermutes(ccc, done[..|done| - 1], x);
      assert done == done[..|done| - 1] + [done[|done| - 1]];
    }
  }

  lemma {:induction false} InsertKeepsStarters(ccc: Classes, done: Text, x: CodePoint, i: nat)
    requires i < |done| && ccc(done[i]) == 0
    ensures |Insert(ccc, done, x)| == |done| + 1 && Insert(ccc, done, x)[i] == done[i]
  {
    InsertPermutes(ccc, done, x);
    if ccc(x) != 0 && ccc(done[|done| - 1]) > ccc(x) {
      InsertKeepsStarters(ccc, done[..|done| - 1], x, i);
    }
  }

  lemma {:induction false} InsertKeepsOrder(ccc: Classes, done: Text, x: CodePoint)
    requires InCanonicalOrder(ccc, done)
    ensures InCanonicalOrder(ccc, Insert(ccc, done, x))
    ensures Insert(ccc, done, x)[|Insert(ccc, done, x)| - 1] ==
            if |done| > 0 && ccc(x) != 0 && ccc(done[|done| - 1]) > ccc(x) then done[|done| - 1] else x
  {
    if |done| > 0 && ccc(x) != 0 && ccc(done[|done| - 1]) > ccc(x) {
      var shorter, y := done[..|done| - 1], done[|done| - 1];
      InsertKeepsOrder(ccc, shorter, x);
      var moved := Insert(ccc, shorter, x);
      assert ccc(moved[|moved| - 1]) <= ccc(y) by {
        assert |shorter| > 0 ==> ccc(done[|done| - 2]) <= ccc(done[|done| - 1]);
      }
    }
  }

  lemma {:induction false} InsertStable(ccc: Classes, done: Text, x: CodePoint, c: nat)
    ensures OfClass(ccc, Insert(ccc, done, x), c) == OfClass(ccc, done, c) + (if ccc(x) == c then [x] else [])
  {
    if |done| > 0 && ccc(x) != 0 && ccc(done[|done| - 1]) > ccc(x) {
      var shorter, y := done[..|done| - 1], done[|done| - 1];
      InsertStable(ccc, shorter, x, c);
      var moved := Insert(ccc, shorter, x);
      assert (moved + [y])[..|moved|] == moved;
    } else {
      assert (done + [x])[..|done|] == done;
    }
  }

  lemma {:induction false} ReorderStable(ccc: Classes, s: Text, c: nat)
    ensures OfClass(ccc, Reorder(ccc, s), c) == OfClass(ccc, s, c)
  {
    if s != [] {
      var shorter, x := s[..|s| - 1], s[|s| - 1];
      ReorderStable(ccc, shorter, c);
      InsertStable(ccc, Reorder(ccc, shorter), x, c);
    }
  }

  lemma {:induction false} ReorderPermutes(ccc: Classes, s: Text)
    ensures multiset(Reorder(ccc, s)) == multiset(s) && |Reorder(ccc, s)| == |s|
  {
    if s != [] {
      var shorter, x := s[..|s| - 1], s[|s| - 1];
      ReorderPermutes(ccc, shorter);
      InsertPermutes(ccc, Reorder(ccc, shorter), x);
      assert s == shorter + [x];
    }
  }

  lemma {:induction false} ReorderKeepsStarters(ccc: Classes, s: Text, i: nat)
    requires i < |s| && ccc(s[i]) == 0
    ensures |Reorder(ccc, s)| == |s| && Reorder(ccc, s)[i] == s[i]
  {
    var shorter, x := s[..|s| - 1], s[|s| - 1];
    ReorderPermutes(ccc, shorter);
    InsertPermutes(ccc, Reorder(ccc, shorter), x);
    if i < |shorter| {
      ReorderKeepsStarters(ccc, shorter, i);
      InsertKeepsStarters(ccc, Reorder(ccc, shorter), x, i);
    }
  }

  lemma {:induction false} ReorderOrders(ccc: Classes, s: Text)
    ensures InCanonicalOrder(ccc, Reorder(ccc, s))
  {
    if s != [] {
      ReorderOrders(ccc, s[..|s| - 1]);
      InsertKeepsOrder(ccc, Reorder(ccc, s[..|s| - 1]), s[|s| - 1]);
    }
  }

  /**
   The output is a permutation in canonical order, starters keep their positions
   and the members of each class keep their order.
   */
  lemma {:induction false} ReorderCorrect(ccc: Classes, s: Text)
    ensures multiset(Reorder(ccc, s)) == multiset(s)
    ensures |Reorder(ccc, s)| == |s|
    ensures InCanonicalOrder(ccc, Reorder(ccc, s))
    ensures forall i :: 0 <= i < |s| && ccc(s[i]) == 0 ==> Reorder(ccc, s)[i] == s[i]
    ensures forall c :: OfClass(ccc, Reorder(ccc, s), c) == OfClass(ccc, s, c)
  {
    ReorderPermutes(ccc, s);
    ReorderOrders(ccc, s);
    forall i | 0 <= i < |s| && ccc(s[i]) == 0 ensures Reorder(ccc, s)[i] == s[i] {
      ReorderKeepsStarters(ccc, s, i);
    }
    forall c ensures OfClass(ccc, Reorder(ccc, s), c) == OfClass(ccc, s, c) {
      ReorderStable(ccc, s, c);
    }
  }

  lemma {:induction false} ReorderFixesCanonical(ccc: Classes, s: Text)
    requires InCanonicalOrder(ccc, s)
    ensures Reorder(ccc, s) == s
  {
    if s != [] {
      var shorter, x := s[..|s| - 1], s[|s| - 1];
      assert s == shorter + [x];
      ReorderFixesCanonical(ccc, shorter);
      ReorderSnoc(ccc, shorter, x);
      if shorter != [] {
        var k := |shorter| - 1;
        assert ccc(s[k + 1]) == 0 || ccc(s[k]) <= ccc(s[k + 1]);
      }
    }
  }

  // ---------------------------------------------------------------------
  // The canonical form of a swap-equivalence class

  lemma {:induction false} SwapStepKeepsReorder(ccc: Classes, s: Text, t: Text)
    requires SwapStep(ccc, s, t)
    ensures Reorder(ccc, s) == Reorder(ccc, t)
  {
    var i :| 0 <= i < |s| - 1 && Exchangeable(ccc, s[i], s[i + 1]) && t == Swap(s, i);
    var a, b := s[i], s[i + 1];
    var before, after := s[..i], s[i + 2..];
    assert s == before + [a, b] + after && t == before + [b, a] + after;
    assert Reorder(ccc, [a, b]) == Reorder(ccc, [b, a]) by {
      ReorderOfPair(ccc, a, b);
      InsertCommutes(ccc, [], a, b);
    }
    ReorderCongruence(ccc, before, [a, b], [b, a], after);
  }

  lemma {:induction false} SwapChainKeepsReorder(ccc: Classes, chain: seq<Text>)
    requires SwapChain(ccc, chain)
    ensures Reorder(ccc, chain[0]) == Reorder(ccc, chain[|chain| - 1])
  {
    if |chain| > 1 {
      assert SwapStep(ccc, chain[0], chain[1]);
      SwapStepKeepsReorder(ccc, chain[0], chain[1]);
      SwapChainKeepsReorder(ccc, chain[1..]);
    }
  }

  lemma {:induction false} SwapEquivalentTransitive(ccc: Classes, s: Text, t: Text, u: Text)
    requires SwapEquivalent(ccc, s, t) && SwapEquivalent(ccc, t, u)
    ensures SwapEquivalent(ccc, s, u)
  {
    var a :| SwapChain(ccc, a) && a[0] == s && a[|a| - 1] == t;
    var b :| SwapChain(ccc, b) && b[0] == t && b[|b| - 1] == u;
    var chain := a + b[1..];
    forall i | 0 <= i < |chain| - 1 ensures SwapStep(ccc, chain[i], chain[i + 1]) {
      if i < |a| - 1 {
        assert SwapStep(ccc, a[i], a[i + 1]);
      } else {
        assert SwapStep(ccc, b[i - |a| + 1], b[i - |a| + 2]);
      }
    }
    assert chain[0] == s && chain[|chain| - 1] == u;
    assert SwapChain(ccc, chain);
  }

  lemma {:induction false} SwapStepEquivalent(ccc: Classes, s: Text, t: Text)
    requires s == t || SwapStep(ccc, s, t)
    ensures SwapEquivalent(ccc, s, t)
  {
    var chain := if s == t then [s] else [s, t];
    assert SwapChain(ccc, chain) && chain[0] == s && chain[|chain| - 1] == t;
  }

  lemma {:induction false} SwapStepSymmetric(ccc: Classes, u: Text, v: Text)
    requires SwapStep(ccc, u, v)
    ensures SwapStep(ccc, v, u)
  {
    var k :| 0 <= k < |u| - 1 && Exchangeable(ccc, u[k], u[k + 1]) && v == Swap(u, k);
    assert Exchangeable(ccc, v[k], v[k + 1]) && u == Swap(v, k);
  }

  lemma {:induction false} SwapEquivalentSymmetric(ccc: Classes, s: Text, t: Text)
    requires SwapEquivalent(ccc, s, t)
    ensures SwapEquivalent(ccc, t, s)
  {
    var a :| SwapChain(ccc, a) && a[0] == s && a[|a| - 1] == t;
    var chain := seq(|a|, i requires 0 <= i < |a| => a[|a| - 1 - i]);
    forall i | 0 <= i < |chain| - 1 ensures SwapStep(ccc, chain[i], chain[i + 1]) {
      var j := |a| - 2 - i;
      assert SwapStep(ccc, a[j], a[j + 1]);
      SwapStepSymmetric(ccc, a[j], a[j + 1]);
    }
    assert SwapChain(ccc, chain) && chain[0] == t && chain[|chain| - 1] == s;
  }

  lemma {:induction false} AppendKeepsEquivalence(ccc: Classes, chain: seq<Text>, x: CodePoint)
    requires SwapChain(ccc, chain)
    ensures SwapEquivalent(ccc, chain[0] + [x], chain[|chain| - 1] + [x])
  {
    if |chain| == 1 {
      SwapStepEquivalent(ccc, chain[0] + [x], chain[0] + [x]);
    } else {
      var s, t := chain[0], chain[1];
      assert SwapStep(ccc, s, t);
      var k :| 0 <= k < |s| - 1 && Exchangeable(ccc, s[k], s[k + 1]) && t == Swap(s, k);
      assert (s + [x])[k] == s[k] && (s + [x])[k + 1] == s[k + 1];
      assert t + [x] == Swap(s + [x], k);
      SwapStepEquivalent(ccc, s + [x], t + [x]);
      AppendKeepsEquivalence(ccc, chain[1..], x);
      SwapEquivalentTransitive(ccc, s + [x], t + [x], chain[|chain| - 1] + [x]);
    }
  }

  lemma {:induction false} InsertBySwaps(ccc: Classes, done: Text, x: CodePoint)
    ensures SwapEquivalent(ccc, done + [x], Insert(ccc, done, x))
  {
    if |done| > 0 && ccc(x) != 0 && ccc(done[|done| - 1]) > ccc(x) {
      var shorter, y := done[..|done| - 1], done[|done| - 1];
      assert done == shorter + [y];
      var i := |shorter|;
      var s, t := done + [x], shorter + [x] + [y];
      assert 0 <= i < |s| - 1 && Exchangeable(ccc, s[i], s[i + 1]) && t == Swap(s, i);
      SwapStepEquivalent(ccc, s, t);
      InsertBySwaps(ccc, shorter, x);
      var chain :| SwapChain(ccc, chain) && chain[0] == shorter + [x] && chain[|chain| - 1] == Insert(ccc, shorter, x);
      AppendKeepsEquivalence(ccc, chain, y);
      SwapEquivalentTransitive(ccc, s, t, Insert(ccc, done, x));
    } else {
      SwapStepEquivalent(ccc, done + [x], done + [x]);
    }
  }

  lemma {:induction false} ReorderBySwaps(ccc: Classes, s: Text)
    ensures SwapEquivalent(ccc, s, Reorder(ccc, s))
  {
    if s == [] {
      SwapStepEquivalent(ccc, s, s);
    } else {
      var shorter, x := s[..|s| - 1], s[|s| - 1];
      assert s == shorter + [x];
      ReorderBySwaps(ccc, shorter);
      var chain :| SwapChain(ccc, chain) && chain[0] == shorter && chain[|chain| - 1] == Reorder(ccc, shorter);
      AppendKeepsEquivalence(ccc, chain, x);
      InsertBySwaps(ccc, Reorder(ccc, shorter), x);
      SwapEquivalentTransitive(ccc, s, Reorder(ccc, shorter) + [x], Reorder(ccc, s));
    }
  }

  /** Two sequences are related by swaps exactly when they reorder alike. */
  lemma {:induction false} SwapEquivalentIffReorderEqual(ccc: Classes, s: Text, t: Text)
    ensures SwapEquivalent(ccc, s, t) <==> Reorder(ccc, s) == Reorder(ccc, t)
  {
    if SwapEquivalent(ccc, s, t) {
      var chain :| SwapChain(ccc, chain) && chain[0] == s && chain[|chain| - 1] == t;
      SwapChainKeepsReorder(ccc, chain);
    }
    if Reorder(ccc, s) == Reorder(ccc, t) {
      ReorderBySwaps(ccc, s);
      ReorderBySwaps(ccc, t);
      SwapEquivalentSymmetric(ccc, t, Reorder(ccc, t));
      SwapEquivalentTransitive(ccc, s, Reorder(ccc, s), t);
    }
  }

  /** Every swap-equivalence class holds exactly one sequence in canonical order. */
  lemma {:induction false} CanonicalOrderUnique(ccc: Classes, s: Text, t: Text)
    ensures SwapEquivalent(ccc, s, t) && InCanonicalOrder(ccc, t) <==> t == Reorder(ccc, s)
  {
    SwapEquivalentIffReorderEqual(ccc, s, t);
    ReorderCorrect(ccc, s);
    ReorderIdempotent(ccc, s);
    if InCanonicalOrder(ccc, t) {
      ReorderFixesCanonical(ccc, t);
    }
  }
}
