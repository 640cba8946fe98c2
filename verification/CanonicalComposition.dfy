/**
 Decomposition and canonical composition (definitions D115 and D117 of the Unicode
 Standard) over an arbitrary character data set: the composition loop refines the
 declarative definition, and composing preserves canonical equivalence whenever the
 data set is lawful.
 */
module CanonicalComposition {
  import opened CanonicalOrdering
  import opened Wrappers

  /** Combining classes, full decomposition of a character, primary composite of a pair. */
  datatype CharData = CharData(
    ccc: Classes,
    dec: CodePoint -> Text,
    pair: (CodePoint, CodePoint) -> Option<CodePoint>)

  // ---------------------------------------------------------------------
  // Specification

  function Expand(d: CharData, text: Text): Text
  {
    if text == [] then []
    else Expand(d, text[..|text| - 1]) + d.dec(text[|text| - 1])
  }

  function Decompose(d: CharData, text: Text): Text
  {
    Reorder(d.ccc, Expand(d, text))
  }

  /** `k` is the last starter of `out`. */
  predicate IsLastStarter(ccc: Classes, out: Text, k: nat)
  {
    k < |out| && ccc(out[k]) == 0 && forall i :: k < i < |out| ==> ccc(out[i]) != 0
  }

  /** Definition D115: something between `out[k]` and the next character stops their composition. */
  predicate Blocked(ccc: Classes, out: Text, k: nat, next: CodePoint)
  {
    exists i :: k < i < |out| && (ccc(out[i]) == 0 || ccc(out[i]) >= ccc(next))
  }

  /** `next` composes with the starter at `k` of `out`. */
  predicate Composes(d: CharData, out: Text, k: nat, next: CodePoint)
  {
    && IsLastStarter(d.ccc, out, k)
    && !Blocked(d.ccc, out, k, next)
    && d.pair(out[k], next).Some?
  }

  /** Definition D117: one character taken into the composed text. */
  ghost function ComposeStep(d: CharData, out: Text, next: CodePoint): Text
  {
    if exists k: nat :: k < |out| && Composes(d, out, k, next) then
      var k: nat :| k < |out| && Composes(d, out, k, next);
      out[k := d.pair(out[k], next).value]
    else
      out + [next]
  }

  ghost function ComposeAll(d: CharData, buf: Text): Text
  {
    if buf == [] then []
    else ComposeStep(d, ComposeAll(d, buf[..|buf| - 1]), buf[|buf| - 1])
  }

  /** The character is its own full decomposition. */
  predicate Atomic(d: CharData, cp: CodePoint)
  {
    d.dec(cp) == [cp]
  }

  predicate AllAtomic(d: CharData, text: Text)
  {
    forall i :: 0 <= i < |text| ==> Atomic(d, text[i])
  }

  /**
   Decompositions are full, a composite of a starter is a starter, and a composite
   has the canonical decomposition of the pair it replaces.
   */
  ghost predicate Lawful(d: CharData)
  {
    && (forall cp :: AllAtomic(d, d.dec(cp)))
    && (forall a, b :: d.pair(a, b).Some? ==>
          && Reorder(d.ccc, d.dec(d.pair(a, b).value)) == Reorder(d.ccc, d.dec(a) + d.dec(b))
          && (d.ccc(a) == 0 ==> d.ccc(d.pair(a, b).value) == 0))
  }

  // ---------------------------------------------------------------------
  // The loops

  method DecomposeText(d: CharData, text: Text) returns (out: Text)
    ensures out == Decompose(d, text)
  {
    out := [];
    for k := 0 to |text|
      invariant out == Expand(d, text[..k])
    {
      assert text[..k + 1][..k] == text[..k];
      out := out + d.dec(text[k]);
    }
    assert text[..|text|] == text;
    var cells := new CodePoint[|out|](i requires 0 <= i < |out| => out[i]);
    assert cells[..] == out;
    ReorderInPlace(d.ccc, cells);
    out := cells[..];
  }

  lemma {:induction false} ComposeStepAt(d: CharData, out: Text, k: nat, next: CodePoint)
    requires IsLastStarter(d.ccc, out, k)
    ensures ComposeStep(d, out, next) ==
            if Composes(d, out, k, next) then out[k := d.pair(out[k], next).value] else out + [next]
  {
  }

  /** What the loop knows: the running starter and last class describe `out`. */
  ghost predicate Tracks(ccc: Classes, done: Text, out: Text, starter: int, lastCcc: nat)
  {
    && -1 <= starter < |out|
    && (starter >= 0 ==> IsLastStarter(ccc, out, starter))
    && (starter == -1 ==> forall i :: 0 <= i < |out| ==> ccc(out[i]) != 0)
    && (|out| > starter + 1 && starter >= 0 ==>
          && (forall i :: starter < i < |out| ==> ccc(out[i]) <= lastCcc)
          && lastCcc == ccc(out[|out| - 1])
          && |done| > 0 && lastCcc <= ccc(done[|done| - 1]))
  }

  lemma {:induction false} UnblockedIffTracked(ccc: Classes, done: Text, out: Text, starter: int, lastCcc: nat,
                                               next: CodePoint)
    requires Tracks(ccc, done, out, starter, lastCcc) && starter >= 0
    ensures |out| == starter + 1 || lastCcc < ccc(next) <==> !Blocked(ccc, out, starter, next)
  {
    if |out| > starter + 1 {
      assert ccc(out[|out| - 1]) == lastCcc;
    }
  }

  lemma {:induction false} TracksComposed(d: CharData, done: Text, out: Text, starter: nat, lastCcc: nat,
                                          next: CodePoint)
    requires Lawful(d) && Tracks(d.ccc, done, out, starter, lastCcc) && Composes(d, out, starter, next)
    ensures Tracks(d.ccc, done + [next], out[starter := d.pair(out[starter], next).value], starter, lastCcc)
  {
    UnblockedIffTracked(d.ccc, done, out, starter, lastCcc, next);
  }

  lemma {:induction false} TracksAppended(ccc: Classes, done: Text, out: Text, starter: int, lastCcc: nat,
                                          next: CodePoint)
    requires Tracks(ccc, done, out, starter, lastCcc)
    requires |done| > 0 && ccc(next) != 0 ==> ccc(done[|done| - 1]) <= ccc(next)
    ensures Tracks(ccc, done + [next], out + [next], if ccc(next) == 0 then |out| else starter, ccc(next))
  {
  }

  /** One turn of the loop: compose the next character with the last starter, or append it. */
  method ComposeNext(d: CharData, out: Text, starter: int, lastCcc: nat, cp: CodePoint, ghost done: Text)
    returns (out': Text, starter': int, lastCcc': nat)
    requires Lawful(d) && Tracks(d.ccc, done, out, starter, lastCcc)
    requires |done| > 0 && d.ccc(cp) != 0 ==> d.ccc(done[|done| - 1]) <= d.ccc(cp)
    ensures out' == ComposeStep(d, out, cp) && Tracks(d.ccc, done + [cp], out', starter', lastCcc')
  {
    var c := d.ccc(cp);
    if starter >= 0 {
      UnblockedIffTracked(d.ccc, done, out, starter, lastCcc, cp);
      ComposeStepAt(d, out, starter, cp);
    }
    if starter >= 0 && (|out| == starter + 1 || lastCcc < c) {
      var composed := d.pair(out[starter], cp);
      if composed.Some? {
        TracksComposed(d, done, out, starter, lastCcc, cp);
        return out[starter := composed.value], starter, lastCcc;
      }
    }
    TracksAppended(d.ccc, done, out, starter, lastCcc, cp);
    out', starter', lastCcc' := out + [cp], if c == 0 then |out| else starter, c;
  }

  method ComposeText(d: CharData, buf: Text) returns (out: Text)
    requires Lawful(d) && InCanonicalOrder(d.ccc, buf)
    ensures out == ComposeAll(d, buf)
  {
    out := [];
    var starter: int := -1;
    var lastCcc := 0;
    for i := 0 to |buf|
      invariant out == ComposeAll(d, buf[..i])
      invariant Tracks(d.ccc, buf[..i], out, starter, lastCcc)
    {
      assert buf[..i + 1][..i] == buf[..i] && buf[..i + 1] == buf[..i] + [buf[i]];
      assert i > 0 ==> d.ccc(buf[i - 1 + 1]) == 0 || d.ccc(buf[i - 1]) <= d.ccc(buf[i - 1 + 1]);
      out, starter, lastCcc := ComposeNext(d, out, starter, lastCcc, buf[i], buf[..i]);
    }
    assert buf[..|buf|] == buf;
  }

  // ---------------------------------------------------------------------
  // Expansion

  lemma {:induction false} ExpandAppend(d: CharData, a: Text, b: Text)
    ensures Expand(d, a + b) == Expand(d, a) + Expand(d, b)
  {
    if b == [] {
      assert a + b == a;
    } else {
      ExpandAppend(d, a, b[..|b| - 1]);
      assert (a + b)[..|a + b| - 1] == a + b[..|b| - 1];
    }
  }

  lemma {:induction false} ExpandAround(d: CharData, before: Text, cp: CodePoint, after: Text)
    ensures Expand(d, before + [cp] + after) == Expand(d, before) + d.dec(cp) + Expand(d, after)
  {
    ExpandAppend(d, before + [cp], after);
    ExpandAppend(d, before, [cp]);
    assert [cp][..0] == [] && Expand(d, [cp]) == [] + d.dec(cp);
  }

  lemma {:induction false} ExpandAtomic(d: CharData, text: Text)
    requires AllAtomic(d, text)
    ensures Expand(d, text) == text
  {
    if text != [] {
      ExpandAtomic(d, text[..|text| - 1]);
      assert Atomic(d, text[|text| - 1]);
    }
  }

  lemma {:induction false} ExpandIsAtomic(d: CharData, text: Text)
    requires Lawful(d)
    ensures AllAtomic(d, Expand(d, text))
  {
    if text != [] {
      ExpandIsAtomic(d, text[..|text| - 1]);
      assert AllAtomic(d, d.dec(text[|text| - 1]));
    }
  }

  /** Every character of a decomposition is its own full decomposition, in canonical order. */
  lemma {:induction false} DecomposeIsFull(d: CharData, text: Text)
    requires Lawful(d)
    ensures AllAtomic(d, Decompose(d, text))
    ensures InCanonicalOrder(d.ccc, Decompose(d, text))
    ensures Decompose(d, Decompose(d, text)) == Decompose(d, text)
  {
    var expanded, full := Expand(d, text), Decompose(d, text);
    ExpandIsAtomic(d, text);
    ReorderPermutes(d.ccc, expanded);
    forall i | 0 <= i < |full| ensures Atomic(d, full[i]) {
      assert full[i] in multiset(full);
      assert full[i] in expanded;
    }
    ReorderOrders(d.ccc, expanded);
    ExpandAtomic(d, full);
    ReorderIdempotent(d.ccc, expanded);
  }

  // ---------------------------------------------------------------------
  // Composition preserves the decomposition

  /** Every mark of a composed text is an untouched character of the decomposition. */
  ghost predicate MarksAtomic(d: CharData, out: Text)
  {
    forall i :: 0 <= i < |out| && d.ccc(out[i]) != 0 ==> Atomic(d, out[i])
  }

  lemma {:induction false} ComposeStepPreserves(d: CharData, done: Text, out: Text, next: CodePoint)
    requires Lawful(d) && Atomic(d, next) && MarksAtomic(d, out)
    requires Decompose(d, out) == Reorder(d.ccc, done)
    ensures MarksAtomic(d, ComposeStep(d, out, next))
    ensures Decompose(d, ComposeStep(d, out, next)) == Reorder(d.ccc, done + [next])
  {
    assert Decompose(d, out + [next]) == Reorder(d.ccc, done + [next]) by {
      assert (out + [next])[..|out|] == out;
      ReorderSnoc(d.ccc, Expand(d, out), next);
      ReorderSnoc(d.ccc, done, next);
    }
    if k: nat :| k < |out| && Composes(d, out, k, next) {
      ComposeStepAt(d, out, k, next);
      ComposedAt(d, out, k, next);
    }
  }

  lemma {:induction false} ComposedAt(d: CharData, out: Text, k: nat, next: CodePoint)
    requires Lawful(d) && Atomic(d, next) && MarksAtomic(d, out) && Composes(d, out, k, next)
    ensures Decompose(d, out[k := d.pair(out[k], next).value]) == Decompose(d, out + [next])
  {
    var composed := d.pair(out[k], next).value;
    var left, base, marks := Expand(d, out[..k]), d.dec(out[k]), out[k + 1..];
    ExpandAtStarter(d, out, k, composed);
    ExpandAtStarter(d, out, k, out[k]);
    assert out[k := out[k]] == out;
    assert Expand(d, out + [next]) == left + base + marks + [next] by {
      assert (out + [next])[..|out|] == out;
    }
    ReorderCongruence(d.ccc, left, d.dec(composed), base + [next], marks);
    MovePastMarks(d.ccc, left + base, out, k, next);
    assert left + (base + [next]) + marks == left + base + [next] + marks;
  }

  lemma {:induction false} ExpandAtStarter(d: CharData, out: Text, k: nat, cp: CodePoint)
    requires MarksAtomic(d, out) && IsLastStarter(d.ccc, out, k)
    ensures Expand(d, out[k := cp]) == Expand(d, out[..k]) + d.dec(cp) + out[k + 1..]
  {
    assert out[k := cp] == out[..k] + [cp] + out[k + 1..];
    ExpandAround(d, out[..k], cp, out[k + 1..]);
    ExpandAtomic(d, out[k + 1..]);
  }

  lemma {:induction false} MovePastMarks(ccc: Classes, before: Text, out: Text, k: nat, next: CodePoint)
    requires IsLastStarter(ccc, out, k) && !Blocked(ccc, out, k, next)
    ensures Reorder(ccc, before + out[k + 1..] + [next]) == Reorder(ccc, before + [next] + out[k + 1..])
  {
    var marks := out[k + 1..];
    forall i | 0 <= i < |marks| ensures 0 < ccc(marks[i]) < ccc(next) {
      assert marks[i] == out[k + 1 + i];
    }
    ReorderMovesLeft(ccc, before, marks, next, []);
    assert before + marks + [next] + [] == before + marks + [next];
    assert before + [next] + marks + [] == before + [next] + marks;
  }

  lemma {:induction false} ComposeAllNext(d: CharData, buf: Text, next: CodePoint)
    ensures ComposeAll(d, buf + [next]) == ComposeStep(d, ComposeAll(d, buf), next)
  {
    assert (buf + [next])[..|buf|] == buf;
  }

  /** Composing a full decomposition does not change what it decomposes to. */
  lemma {:induction false} ComposeAllPreserves(d: CharData, buf: Text)
    requires Lawful(d) && AllAtomic(d, buf)
    ensures MarksAtomic(d, ComposeAll(d, buf))
    ensures Decompose(d, ComposeAll(d, buf)) == Reorder(d.ccc, buf)
  {
    if buf != [] {
      var shorter, next := buf[..|buf| - 1], buf[|buf| - 1];
      assert buf == shorter + [next];
      ComposeAllPreserves(d, shorter);
      ComposeAllNext(d, shorter, next);
      ComposeStepPreserves(d, shorter, ComposeAll(d, shorter), next);
    }
  }

  /** Decomposing the composition of a decomposition gives the decomposition back. */
  lemma {:induction false} DecomposeComposed(d: CharData, text: Text)
    requires Lawful(d)
    ensures Decompose(d, ComposeAll(d, Decompose(d, text))) == Decompose(d, text)
  {
    DecomposeIsFull(d, text);
    ComposeAllPreserves(d, Decompose(d, text));
    ReorderIdempotent(d.ccc, Expand(d, text));
  }

  // ---------------------------------------------------------------------
  // Composition does happen

  /** A composable neighbour of a lone starter is absorbed into it. */
  lemma {:induction false} LoneStarterComposes(d: CharData, buf: Text, next: CodePoint)
    requires |ComposeAll(d, buf)| == 1 && d.ccc(ComposeAll(d, buf)[0]) == 0
    requires d.pair(ComposeAll(d, buf)[0], next).Some?
    ensures ComposeAll(d, buf + [next]) == [d.pair(ComposeAll(d, buf)[0], next).value]
  {
    var out := ComposeAll(d, buf);
    assert (buf + [next])[..|buf|] == buf;
    ComposeStepAt(d, out, 0, next);
    assert Composes(d, out, 0, next);
  }

  lemma {:induction false} ComposeSingle(d: CharData, cp: CodePoint)
    ensures ComposeAll(d, [cp]) == [cp]
  {
    assert [cp][..0] == [];
    assert ComposeAll(d, [cp]) == ComposeStep(d, ComposeAll(d, [cp][..0]), cp) == [] + [cp];
  }

  lemma {:induction false} ComposeTriple(d: CharData, lead: CodePoint, vowel: CodePoint, open: CodePoint)
    requires d.ccc(lead) == 0 && d.ccc(open) == 0 && d.pair(lead, vowel) == Some(open)
    ensures ComposeAll(d, [lead, vowel]) == [open]
    ensures forall trail :: d.pair(open, trail).Some? ==>
            ComposeAll(d, [lead, vowel, trail]) == [d.pair(open, trail).value]
  {
    ComposeSingle(d, lead);
    LoneStarterComposes(d, [lead], vowel);
    assert [lead] + [vowel] == [lead, vowel];
    forall trail | d.pair(open, trail).Some?
      ensures ComposeAll(d, [lead, vowel, trail]) == [d.pair(open, trail).value]
    {
      LoneStarterComposes(d, [lead, vowel], trail);
      assert [lead, vowel] + [trail] == [lead, vowel, trail];
    }
  }

  lemma {:induction false} DecomposeStarters(d: CharData, cp: CodePoint)
    requires forall i :: 0 <= i < |d.dec(cp)| ==> d.ccc(d.dec(cp)[i]) == 0
    ensures Decompose(d, [cp]) == d.dec(cp)
  {
    assert [cp][..0] == [] && Expand(d, [cp]) == Expand(d, []) + d.dec(cp) == d.dec(cp);
    ReorderFixesCanonical(d.ccc, d.dec(cp));
  }

  /** Two characters that are their own decompositions and have a composite become that composite. */
  lemma {:induction false} PairComposes(d: CharData, a: CodePoint, b: CodePoint)
    requires Atomic(d, a) && Atomic(d, b) && d.ccc(a) == 0 && d.pair(a, b).Some?
    ensures ComposeAll(d, Decompose(d, [a, b])) == [d.pair(a, b).value]
  {
    var single, text := [a], [a, b];
    assert Decompose(d, text) == text by {
      ExpandAtomic(d, text);
      ReorderFixesCanonical(d.ccc, text);
    }
    ComposeSingle(d, a);
    LoneStarterComposes(d, single, b);
    assert single + [b] == text;
  }

  /** A character made of two or three starters that pair up again is recomposed. */
  lemma {:induction false} RecomposeParts(d: CharData, cp: CodePoint, lead: CodePoint, vowel: CodePoint,
                                          trail: CodePoint, open: CodePoint)
    requires d.ccc(lead) == 0 && d.ccc(vowel) == 0 && d.ccc(open) == 0 && d.pair(lead, vowel) == Some(open)
    requires || (d.dec(cp) == [lead, vowel] && cp == open)
             || (d.dec(cp) == [lead, vowel, trail] && d.ccc(trail) == 0 && d.pair(open, trail) == Some(cp))
    ensures ComposeAll(d, Decompose(d, [cp])) == [cp]
  {
    DecomposeStarters(d, cp);
    ComposeTriple(d, lead, vowel, open);
  }

  // ---------------------------------------------------------------------
  // Nothing composable is left

  /** Definition D115: only marks of lower classes stand between the starter at `k` and the character at `i`. */
  ghost predicate Unblocked(ccc: Classes, out: Text, k: nat, i: nat)
  {
    && k < i < |out| && ccc(out[k]) == 0
    && forall j :: k < j < i ==> 0 < ccc(out[j]) < ccc(out[i])
  }

  /** No character could still be composed with a starter before it. */
  ghost predicate FullyComposed(d: CharData, out: Text)
  {
    forall k: nat, i: nat :: Unblocked(d.ccc, out, k, i) ==> d.pair(out[k], out[i]).None?
  }

  /** Composable pairs expand in canonical order, and a composite is no second half of a pair. */
  ghost predicate Tidy(d: CharData)
  {
    && (forall a, b :: d.pair(a, b).Some? ==> InCanonicalOrder(d.ccc, d.dec(a) + d.dec(b)))
    && (forall a, b, c :: d.pair(a, b).Some? ==> d.pair(c, d.pair(a, b).value).None?)
  }

  lemma {:induction false} OrderedPrefix(ccc: Classes, s: Text, x: CodePoint)
    requires InCanonicalOrder(ccc, s + [x])
    ensures InCanonicalOrder(ccc, s)
    ensures s != [] ==> ccc(x) == 0 || ccc(s[|s| - 1]) <= ccc(x)
  {
    var longer := s + [x];
    forall i | 0 <= i < |s| - 1 ensures ccc(s[i + 1]) == 0 || ccc(s[i]) <= ccc(s[i + 1]) {
      assert longer[i] == s[i] && longer[i + 1] == s[i + 1];
    }
    if s != [] {
      var k := |s| - 1;
      assert longer[k] == s[k] && longer[k + 1] == x;
    }
  }

  /** A starter that absorbed a mark composes with no mark of a lower class. */
  lemma {:induction false} CompositeRefuses(d: CharData, s: CodePoint, y: CodePoint, x: CodePoint)
    requires Lawful(d) && Tidy(d) && Atomic(d, x) && Atomic(d, y)
    requires d.pair(s, y).Some? && 0 < d.ccc(x) < d.ccc(y)
    ensures d.pair(d.pair(s, y).value, x).None?
  {
    var composed := d.pair(s, y).value;
    if d.pair(composed, x).Some? {
      OrderedPrefix(d.ccc, d.dec(composed), x);
      ReorderFixesCanonical(d.ccc, d.dec(composed));
      ReorderFixesCanonical(d.ccc, d.dec(s) + d.dec(y));
      assert false;
    }
  }

  lemma {:induction false} AppendedUnpaired(d: CharData, out: Text, next: CodePoint)
    requires FullyComposed(d, out) && forall k: nat :: !Composes(d, out, k, next)
    ensures FullyComposed(d, out + [next])
  {
    var longer := out + [next];
    forall k: nat, i: nat | Unblocked(d.ccc, longer, k, i) ensures d.pair(longer[k], longer[i]).None? {
      assert forall j :: k <= j < i ==> longer[j] == out[j];
      if i < |out| {
        assert Unblocked(d.ccc, out, k, i);
      } else {
        assert forall j :: k < j < i ==> 0 < d.ccc(longer[j]) < d.ccc(longer[i]);
        assert !Composes(d, out, k, next);
      }
    }
  }

  lemma {:induction false} AbsorbedUnpaired(d: CharData, out: Text, s: nat, next: CodePoint)
    requires Lawful(d) && Tidy(d) && MarksAtomic(d, out) && Atomic(d, next)
    requires FullyComposed(d, out) && Composes(d, out, s, next)
    ensures FullyComposed(d, out[s := d.pair(out[s], next).value])
  {
    var composed := d.pair(out[s], next).value;
    var result := out[s := composed];
    forall k: nat, i: nat | Unblocked(d.ccc, result, k, i) ensures d.pair(result[k], result[i]).None? {
      if i == s {
        assert result[i] == composed;
      } else if k == s {
        assert !(d.ccc(out[i]) == 0 || d.ccc(out[i]) >= d.ccc(next));
        CompositeRefuses(d, out[s], next, out[i]);
      } else {
        assert d.ccc(result[s]) == 0 && forall j :: k <= j <= i && j != s ==> result[j] == out[j];
        assert !(k < s < i);
        assert Unblocked(d.ccc, out, k, i);
      }
    }
  }

  /** Composition goes as far as it can. */
  lemma {:induction false} ComposesFully(d: CharData, buf: Text)
    requires Lawful(d) && Tidy(d) && AllAtomic(d, buf)
    ensures FullyComposed(d, ComposeAll(d, buf))
  {
    if buf != [] {
      var shorter, next := buf[..|buf| - 1], buf[|buf| - 1];
      assert buf == shorter + [next];
      ComposesFully(d, shorter);
      ComposeAllNext(d, shorter, next);
      ComposeAllPreserves(d, shorter);
      var out := ComposeAll(d, shorter);
      if k: nat :| k < |out| && Composes(d, out, k, next) {
        ComposeStepAt(d, out, k, next);
        AbsorbedUnpaired(d, out, k, next);
      } else {
        AppendedUnpaired(d, out, next);
      }
    }
  }
}
