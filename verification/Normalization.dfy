/**
 The reference normalizer over the generated tables (UAX #15; Hangul as in section
 3.12 of the Unicode Standard), in all four forms.
 */
module Normalization {
  import opened CanonicalOrdering
  import opened CanonicalComposition
  import opened Wrappers

  datatype Form = NFC | NFD | NFKC | NFKD

  type Table = map<CodePoint, Text>

  type Pairs = map<(CodePoint, CodePoint), CodePoint>

  /** The probed data: combining classes, the two full-decomposition tables, the composition pairs. */
  datatype Ucd = Ucd(ccc: Classes, nfd: Table, nfkd: Table, compose: Pairs)

  const HANGUL_S_BASE: nat := 0xAC00
  const HANGUL_S_COUNT: nat := 11172

  predicate IsHangulSyllable(cp: CodePoint)
  {
    HANGUL_S_BASE <= cp < HANGUL_S_BASE + HANGUL_S_COUNT
  }

  predicate IsJamo(cp: CodePoint)
  {
    0x1100 <= cp <= 0x1112 || 0x1161 <= cp <= 0x1175 || 0x11A8 <= cp <= 0x11C2
  }

  function DecomposeChar(table: Table, cp: CodePoint): Text
  {
    if IsHangulSyllable(cp) then
      var s := cp - HANGUL_S_BASE;
      [0x1100 + s / 588, 0x1161 + s % 588 / 28] + (if s % 28 != 0 then [0x11A7 + s % 28] else [])
    else if cp in table then table[cp]
    else [cp]
  }

  function ComposePair(compose: Pairs, a: CodePoint, b: CodePoint): Option<CodePoint>
  {
    if 0x1100 <= a <= 0x1112 && 0x1161 <= b <= 0x1175 then
      Some(HANGUL_S_BASE + ((a - 0x1100) * 21 + (b - 0x1161)) * 28)
    else if IsHangulSyllable(a) && (a - HANGUL_S_BASE) % 28 == 0 && 0x11A8 <= b <= 0x11C2 then
      Some(a + (b - 0x11A7))
    else if (a, b) in compose then Some(compose[(a, b)])
    else None
  }

  function TableOf(ucd: Ucd, form: Form): Table
  {
    if form == NFKC || form == NFKD then ucd.nfkd else ucd.nfd
  }

  function DataOver(ccc: Classes, table: Table, compose: Pairs): CharData
  {
    CharData(ccc, (cp: CodePoint) => DecomposeChar(table, cp),
        (a: CodePoint, b: CodePoint) => ComposePair(compose, a, b))
  }

  function DataOf(ucd: Ucd, form: Form): CharData
  {
    DataOver(ucd.ccc, TableOf(ucd, form), ucd.compose)
  }

  ghost function Normalize(ucd: Ucd, form: Form, text: Text): Text
  {
    var buf := Decompose(DataOf(ucd, form), text);
    if form == NFD || form == NFKD then buf else ComposeAll(DataOf(ucd, form), buf)
  }

  /**
   What the probed tables satisfy: entries are full normalizations, jamo do not
   decompose, a composition pair has the full decomposition of its composite, and
   jamo, Hangul syllables and composites of a starter are starters.
   */
  ghost predicate Coherent(ccc: Classes, table: Table, compose: Pairs)
  {
    && (forall cp, i :: cp in table && 0 <= i < |table[cp]| ==>
        !IsHangulSyllable(table[cp][i]) && table[cp][i] !in table)
    && (forall cp :: IsJamo(cp) ==> cp !in table && ccc(cp) == 0)
    && (forall p :: p in compose ==>
          && Reorder(ccc, DecomposeChar(table, compose[p]))
             == Reorder(ccc, DecomposeChar(table, p.0) + DecomposeChar(table, p.1))
          && (ccc(p.0) == 0 ==> ccc(compose[p]) == 0))
    && (forall cp :: IsHangulSyllable(cp) ==> ccc(cp) == 0)
  }

  ghost predicate CoherentUcd(ucd: Ucd)
  {
    Coherent(ucd.ccc, ucd.nfd, ucd.compose) && Coherent(ucd.ccc, ucd.nfkd, ucd.compose)
  }

  /** The reference normalizer. */
  method RefNormalize(ucd: Ucd, form: Form, text: Text) returns (out: Text)
    requires CoherentUcd(ucd)
    ensures out == Normalize(ucd, form, text)
  {
    CoherentIsLawful(ucd, form);
    DecomposeIsFull(DataOf(ucd, form), text);
    out := DecomposeText(DataOf(ucd, form), text);
    if form == NFD || form == NFKD {
      return;
    }
    out := ComposeText(DataOf(ucd, form), out);
  }

  // ---------------------------------------------------------------------
  // The tables together with the Hangul arithmetic are lawful

  /** The digits of a syllable index in the mixed radix 21, 28. */
  lemma {:induction false} HangulDigits(l: nat, v: nat, t: nat)
    requires v < 21 && t < 28
    ensures (l * 588 + v * 28 + t) / 588 == l
    ensures (l * 588 + v * 28 + t) % 588 / 28 == v
    ensures (l * 588 + v * 28 + t) % 28 == t
  {
    HighDigit(l, v * 28 + t);
    LowDigit(v, t);
    LowDigit(l * 21 + v, t);
    assert l * 588 + v * 28 + t == l * 588 + (v * 28 + t) == (l * 21 + v) * 28 + t;
  }

  lemma {:induction false} HighDigit(l: nat, r: nat)
    requires r < 588
    ensures (l * 588 + r) / 588 == l && (l * 588 + r) % 588 == r
  {
  }

  lemma {:induction false} LowDigit(m: nat, t: nat)
    requires t < 28
    ensures (m * 28 + t) / 28 == m && (m * 28 + t) % 28 == t
  {
  }

  /** The syllable with leading consonant `l`, vowel `v` and trailing consonant `t` (0 for none). */
  function Syllable(l: nat, v: nat, t: nat): CodePoint
  {
    HANGUL_S_BASE + l * 588 + v * 28 + t
  }

  lemma {:induction false} SyllableParts(table: Table, l: nat, v: nat, t: nat)
    requires l < 19 && v < 21 && t < 28
    ensures IsHangulSyllable(Syllable(l, v, t))
    ensures DecomposeChar(table, Syllable(l, v, t)) == [0x1100 + l, 0x1161 + v] + (if t != 0 then [0x11A7 + t] else [])
  {
    HangulDigits(l, v, t);
    assert Syllable(l, v, t) - HANGUL_S_BASE == l * 588 + v * 28 + t;
  }

  lemma {:induction false} OpenSyllable(cp: CodePoint) returns (l: nat, v: nat)
    requires IsHangulSyllable(cp) && (cp - HANGUL_S_BASE) % 28 == 0
    ensures l < 19 && v < 21 && cp == Syllable(l, v, 0)
  {
    var s := cp - HANGUL_S_BASE;
    l, v := s / 588, s % 588 / 28;
    assert s % 588 % 28 == 0;
  }

  lemma {:induction false} HangulPair(table: Table, compose: Pairs, a: CodePoint, b: CodePoint)
    requires forall cp :: IsJamo(cp) ==> cp !in table
    requires (0x1100 <= a <= 0x1112 && 0x1161 <= b <= 0x1175)
          || (IsHangulSyllable(a) && (a - HANGUL_S_BASE) % 28 == 0 && 0x11A8 <= b <= 0x11C2)
    ensures ComposePair(compose, a, b).Some? && IsHangulSyllable(ComposePair(compose, a, b).value)
    ensures DecomposeChar(table, ComposePair(compose, a, b).value) == DecomposeChar(table, a) + DecomposeChar(table, b)
  {
    assert IsJamo(b);
    if a <= 0x1112 {
      assert IsJamo(a);
      var l, v := a - 0x1100, b - 0x1161;
      SyllableParts(table, l, v, 0);
      assert ComposePair(compose, a, b) == Some(Syllable(l, v, 0));
    } else {
      var l, v := OpenSyllable(a);
      SyllableParts(table, l, v, 0);
      SyllableParts(table, l, v, b - 0x11A7);
      assert ComposePair(compose, a, b) == Some(Syllable(l, v, b - 0x11A7));
    }
  }

  /** A composite decomposes like the pair it replaces: table pairs and Hangul arithmetic alike. */
  lemma {:induction false} PairDecomposition(ccc: Classes, table: Table, compose: Pairs, a: CodePoint, b: CodePoint)
    requires Coherent(ccc, table, compose) && ComposePair(compose, a, b).Some?
    ensures Reorder(ccc, DecomposeChar(table, ComposePair(compose, a, b).value))
         == Reorder(ccc, DecomposeChar(table, a) + DecomposeChar(table, b))
    ensures ccc(a) == 0 ==> ccc(ComposePair(compose, a, b).value) == 0
  {
    if  || (0x1100 <= a <= 0x1112 && 0x1161 <= b <= 0x1175)
        || (IsHangulSyllable(a) && (a - HANGUL_S_BASE) % 28 == 0 && 0x11A8 <= b <= 0x11C2) {
      HangulPair(table, compose, a, b);
    } else {
      assert (a, b) in compose;
    }
  }

  lemma {:induction false} CoherentIsLawful(ucd: Ucd, form: Form)
    requires CoherentUcd(ucd)
    ensures Lawful(DataOf(ucd, form))
  {
    var d, table := DataOf(ucd, form), TableOf(ucd, form);
    assert forall cp :: AllAtomic(d, d.dec(cp));
    forall a, b | d.pair(a, b).Some?
      ensures Reorder(d.ccc, d.dec(d.pair(a, b).value)) == Reorder(d.ccc, d.dec(a) + d.dec(b))
      ensures d.ccc(a) == 0 ==> d.ccc(d.pair(a, b).value) == 0
    {
      PairDecomposition(ucd.ccc, table, ucd.compose, a, b);
    }
  }

  // ---------------------------------------------------------------------
  // Main results

  function DecomposedForm(form: Form): Form
  {
    match form
    case NFC | NFD => NFD
    case NFKC | NFKD => NFKD
  }

  /** Decomposing a normalized text gives exactly the decomposition of the original. */
  lemma {:induction false} NormalizePreservesEquivalence(ucd: Ucd, form: Form, text: Text)
    requires CoherentUcd(ucd)
    ensures Normalize(ucd, DecomposedForm(form), Normalize(ucd, form, text)) ==
            Normalize(ucd, DecomposedForm(form), text)
  {
    var target := DecomposedForm(form);
    CoherentIsLawful(ucd, form);
    assert DataOf(ucd, target) == DataOf(ucd, form);
    DecomposeComposed(DataOf(ucd, form), text);
    DecomposeIsFull(DataOf(ucd, form), text);
  }

  lemma {:induction false} NormalizeIdempotent(ucd: Ucd, form: Form, text: Text)
    requires CoherentUcd(ucd)
    ensures Normalize(ucd, form, Normalize(ucd, form, text)) == Normalize(ucd, form, text)
  {
    NormalizePreservesEquivalence(ucd, form, text);
    assert DataOf(ucd, DecomposedForm(form)) == DataOf(ucd, form);
  }

  /**
   Two texts get the same normal form exactly when their expansions are related by
   exchanges of neighbouring marks, in the composed and in the decomposed form.
   */
  lemma {:induction false} NormalFormsDecideEquivalence(ucd: Ucd, form: Form, x: Text, y: Text)
    requires CoherentUcd(ucd)
    ensures Normalize(ucd, form, x) == Normalize(ucd, form, y)
       <==> SwapEquivalent(ucd.ccc, Expand(DataOf(ucd, form), x), Expand(DataOf(ucd, form), y))
  {
    SwapEquivalentIffReorderEqual(ucd.ccc, Expand(DataOf(ucd, form), x), Expand(DataOf(ucd, form), y));
    NormalizePreservesEquivalence(ucd, form, x);
    NormalizePreservesEquivalence(ucd, form, y);
    assert DataOf(ucd, DecomposedForm(form)) == DataOf(ucd, form);
  }

  // ---------------------------------------------------------------------
  // Which table decides

  /** A character outside the Hangul block is decomposed by the table of its form, or kept. */
  lemma {:induction false} CharacterDecomposes(ucd: Ucd, cp: CodePoint)
    requires !(0xAC00 <= cp < 0xAC00 + 11172)
    ensures Normalize(ucd, NFD, [cp]) == Reorder(ucd.ccc, if cp in ucd.nfd then ucd.nfd[cp] else [cp])
    ensures Normalize(ucd, NFKD, [cp]) == Reorder(ucd.ccc, if cp in ucd.nfkd then ucd.nfkd[cp] else [cp])
  {
    ExpandSingle(DataOf(ucd, NFD), cp);
    ExpandSingle(DataOf(ucd, NFKD), cp);
  }

  lemma {:induction false} ExpandSingle(d: CharData, cp: CodePoint)
    ensures Expand(d, [cp]) == d.dec(cp)
  {
    assert [cp][..0] == [] && Expand(d, [cp]) == Expand(d, []) + d.dec(cp);
  }

  /** Section 3.12: a syllable is decomposed into its two or three jamo. */
  lemma {:induction false} HangulDecomposes(ucd: Ucd, form: Form, l: nat, v: nat, t: nat)
    requires CoherentUcd(ucd) && (form == NFD || form == NFKD) && l < 19 && v < 21 && t < 28
    ensures Normalize(ucd, form, [0xAC00 + (l * 21 + v) * 28 + t])
         == [0x1100 + l, 0x1161 + v] + (if t == 0 then [] else [0x11A7 + t])
  {
    var d, cp, table := DataOf(ucd, form), Syllable(l, v, t), TableOf(ucd, form);
    SyllableLiteral(l, v, t);
    SyllableParts(table, l, v, t);
    assert IsJamo(0x1100 + l) && IsJamo(0x1161 + v) && (t != 0 ==> IsJamo(0x11A7 + t));
    assert Coherent(ucd.ccc, table, ucd.compose);
    DecomposeStarters(d, cp);
  }

  lemma {:induction false} SyllableLiteral(l: nat, v: nat, t: nat)
    ensures Syllable(l, v, t) == 0xAC00 + (l * 21 + v) * 28 + t
  {
  }

  /** A decomposed text is the ordered concatenation of its decomposed parts. */
  lemma {:induction false} DecompositionAppends(ucd: Ucd, form: Form, a: Text, b: Text)
    requires form == NFD || form == NFKD
    ensures Normalize(ucd, form, a + b) == Reorder(ucd.ccc, Normalize(ucd, form, a) + Normalize(ucd, form, b))
  {
    var d := DataOf(ucd, form);
    ExpandAppend(d, a, b);
    ReorderParts(d.ccc, Expand(d, a), Expand(d, b));
  }

  lemma {:induction false} ReorderParts(ccc: Classes, x: Text, y: Text)
    ensures Reorder(ccc, Reorder(ccc, x) + Reorder(ccc, y)) == Reorder(ccc, x + y)
  {
    var first, second := Reorder(ccc, x), Reorder(ccc, y);
    ReorderIdempotent(ccc, x);
    ReorderIdempotent(ccc, y);
    assert Reorder(ccc, first + y) == Reorder(ccc, x + y) by {
      ReorderCongruence(ccc, [], x, first, y);
      assert [] + x + y == x + y && [] + first + y == first + y;
    }
    assert Reorder(ccc, first + second) == Reorder(ccc, first + y) by {
      ReorderCongruence(ccc, first, y, second, []);
      assert first + y + [] == first + y && first + second + [] == first + second;
    }
  }

  /** The canonical forms never consult the compatibility table, nor the other way round. */
  lemma {:induction false} FormsUseOneTable(ucd: Ucd, other: Table, text: Text)
    ensures Normalize(ucd.(nfkd := other), NFD, text) == Normalize(ucd, NFD, text)
    ensures Normalize(ucd.(nfkd := other), NFC, text) == Normalize(ucd, NFC, text)
    ensures Normalize(ucd.(nfd := other), NFKD, text) == Normalize(ucd, NFKD, text)
    ensures Normalize(ucd.(nfd := other), NFKC, text) == Normalize(ucd, NFKC, text)
  {
  }

  // ---------------------------------------------------------------------
  // Composition goes as far as it can

  /**
   What the probed composition pairs satisfy besides: their halves decompose to a text in
   canonical order, second halves are no syllables, and composites are neither jamo nor second halves.
   */
  ghost predicate TidyPairs(ccc: Classes, table: Table, compose: Pairs)
  {
    forall p :: p in compose ==>
      && InCanonicalOrder(ccc, DecomposeChar(table, p.0) + DecomposeChar(table, p.1))
      && !IsHangulSyllable(p.1) && !IsJamo(compose[p])
      && forall q :: q in compose ==> q.1 != compose[p]
  }

  lemma {:induction false} TidyUcd(ucd: Ucd, form: Form)
    requires CoherentUcd(ucd) && TidyPairs(ucd.ccc, TableOf(ucd, form), ucd.compose)
    ensures Tidy(DataOf(ucd, form))
  {
    var d, table := DataOf(ucd, form), TableOf(ucd, form);
    forall a, b | d.pair(a, b).Some? ensures InCanonicalOrder(d.ccc, d.dec(a) + d.dec(b)) {
      PairOrdered(ucd.ccc, table, ucd.compose, a, b);
    }
    forall a, b, c | d.pair(a, b).Some? ensures d.pair(c, d.pair(a, b).value).None? {
      CompositeNotSecond(ucd.ccc, table, ucd.compose, a, b, c);
    }
  }

  lemma {:induction false} PairOrdered(ccc: Classes, table: Table, compose: Pairs, a: CodePoint, b: CodePoint)
    requires Coherent(ccc, table, compose) && TidyPairs(ccc, table, compose) && ComposePair(compose, a, b).Some?
    ensures InCanonicalOrder(ccc, DecomposeChar(table, a) + DecomposeChar(table, b))
  {
    if 0x1100 <= a <= 0x1112 && 0x1161 <= b <= 0x1175 {
      assert IsJamo(a) && IsJamo(b);
    } else if IsHangulSyllable(a) && (a - HANGUL_S_BASE) % 28 == 0 && 0x11A8 <= b <= 0x11C2 {
      var l, v := OpenSyllable(a);
      SyllableParts(table, l, v, 0);
      assert IsJamo(0x1100 + l) && IsJamo(0x1161 + v) && IsJamo(b);
    } else {
      assert (a, b) in compose;
    }
  }

  lemma {:induction false} CompositeNotSecond(ccc: Classes, table: Table, compose: Pairs, a: CodePoint, b: CodePoint,
                                              c: CodePoint)
    requires Coherent(ccc, table, compose) && TidyPairs(ccc, table, compose) && ComposePair(compose, a, b).Some?
    ensures ComposePair(compose, c, ComposePair(compose, a, b).value).None?
  {
    var composed := ComposePair(compose, a, b).value;
    if  || (0x1100 <= a <= 0x1112 && 0x1161 <= b <= 0x1175)
        || (IsHangulSyllable(a) && (a - HANGUL_S_BASE) % 28 == 0 && 0x11A8 <= b <= 0x11C2) {
      HangulPair(table, compose, a, b);
    } else {
      assert composed == compose[(a, b)] && !IsJamo(composed);
    }
    assert (c, composed) !in compose;
  }

  /** In a composed form no character is left that could be composed with the starter before it. */
  lemma {:induction false} ComposedFormComplete(ucd: Ucd, form: Form, text: Text)
    requires CoherentUcd(ucd) && (form == NFC || form == NFKC)
    requires TidyPairs(ucd.ccc, if form == NFC then ucd.nfd else ucd.nfkd, ucd.compose)
    ensures var out := Normalize(ucd, form, text);
            forall k: nat, i: nat :: Unblocked(ucd.ccc, out, k, i) ==>
              (out[k], out[i]) !in ucd.compose && !IsHangulPair(out[k], out[i])
  {
    var d, out := DataOf(ucd, form), Normalize(ucd, form, text);
    CoherentIsLawful(ucd, form);
    TidyUcd(ucd, form);
    DecomposeIsFull(d, text);
    ComposesFully(d, Decompose(d, text));
    forall k: nat, i: nat | Unblocked(ucd.ccc, out, k, i)
      ensures (out[k], out[i]) !in ucd.compose && !IsHangulPair(out[k], out[i])
    {
      Unpaired(ucd.compose, out[k], out[i]);
    }
  }

  lemma {:induction false} Unpaired(compose: Pairs, a: CodePoint, b: CodePoint)
    requires ComposePair(compose, a, b).None?
    ensures (a, b) !in compose && !IsHangulPair(a, b)
  {
  }

  /** A leading consonant and a vowel, or an open syllable and a trailing consonant. */
  predicate IsHangulPair(a: CodePoint, b: CodePoint)
  {
    || (0x1100 <= a < 0x1100 + 19 && 0x1161 <= b < 0x1161 + 21)
    || (0xAC00 <= a < 0xAC00 + 19 * 21 * 28 && (a - 0xAC00) % 28 == 0 && 0x11A7 < b < 0x11A7 + 28)
  }

  // ---------------------------------------------------------------------
  // Composition does happen

  /** The host check of the generator: a pair of undecomposable characters composes to its composite. */
  lemma {:induction false} TablePairComposes(ucd: Ucd, form: Form, a: CodePoint, b: CodePoint)
    requires CoherentUcd(ucd) && (form == NFC || form == NFKC)
    requires (a, b) in ucd.compose && ucd.ccc(a) == 0 && !IsJamo(a) && !IsJamo(b)
    requires Atomic(DataOf(ucd, form), a) && Atomic(DataOf(ucd, form), b)
    ensures Normalize(ucd, form, [a, b]) == [ucd.compose[(a, b)]]
  {
    var d := DataOf(ucd, form);
    PairComposes(d, a, b);
    CoherentIsLawful(ucd, form);
    assert d.pair(a, b) == Some(ucd.compose[(a, b)]);
  }

  lemma {:induction false} SyllablePairs(compose: Pairs, l: nat, v: nat, t: nat)
    requires l < 19 && v < 21 && t < 28
    ensures ComposePair(compose, 0x1100 + l, 0x1161 + v) == Some(Syllable(l, v, 0))
    ensures t != 0 ==> ComposePair(compose, Syllable(l, v, 0), 0x11A7 + t) == Some(Syllable(l, v, t))
  {
    HangulDigits(l, v, 0);
    assert IsHangulSyllable(Syllable(l, v, 0)) && Syllable(l, v, 0) - HANGUL_S_BASE == l * 588 + v * 28 + 0;
  }

  /** Section 3.12: every Hangul syllable is recomposed from its jamo. */
  lemma {:induction false} HangulRecomposes(ucd: Ucd, form: Form, l: nat, v: nat, t: nat)
    requires CoherentUcd(ucd) && (form == NFC || form == NFKC) && l < 19 && v < 21 && t < 28
    ensures Normalize(ucd, form, [Syllable(l, v, t)]) == [Syllable(l, v, t)]
  {
    var d, open := DataOf(ucd, form), Syllable(l, v, 0);
    var lead, vowel, trail := 0x1100 + l, 0x1161 + v, 0x11A7 + t;
    SyllablePairs(ucd.compose, l, v, t);
    SyllableParts(TableOf(ucd, form), l, v, 0);
    SyllableParts(TableOf(ucd, form), l, v, t);
    assert IsJamo(lead) && IsJamo(vowel) && (t != 0 ==> IsJamo(trail));
    if t != 0 {
      assert d.dec(Syllable(l, v, t)) == [lead, vowel, trail];
    }
    RecomposeParts(d, Syllable(l, v, t), lead, vowel, trail, open);
  }
}
