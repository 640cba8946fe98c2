/**
 The ledger's glob dialect: `*` matches any run of characters, `?` exactly one,
 everything else itself. The iterative matcher re-anchors only the last star.
 */
module Glob {
  import opened Wrappers

  // ---------------------------------------------------------------------
  // Specification

  /** The declarative glob relation. */
  predicate Matches(pattern: string, text: string)
  {
    if pattern == [] then text == []
    else if pattern[0] == '*' then exists k :: 0 <= k <= |text| && Matches(pattern[1..], text[k..])
    else text != [] && (pattern[0] == '?' || pattern[0] == text[0]) && Matches(pattern[1..], text[1..])
  }

  predicate AllStars(pattern: string)
  {
    forall i :: 0 <= i < |pattern| ==> pattern[i] == '*'
  }

  /** The last star met and where in the candidate it is anchored. */
  datatype Anchor = Anchor(p: nat, c: nat)

  predicate InRange(pattern: string, candidate: string, p: nat, c: nat, star: Option<Anchor>)
  {
    && p <= |pattern| && c <= |candidate|
    && (star.Some? ==> star.value.p < p && star.value.c <= c && pattern[star.value.p] == '*')
  }

  /** What the matcher answers from a position, one iteration per unfolding. */
  predicate Scan(pattern: string, candidate: string, p: nat, c: nat, star: Option<Anchor>)
    requires InRange(pattern, candidate, p, c, star)
    decreases
      if star.Some? then |pattern| - star.value.p else |pattern| + 1,
      if star.Some? then |candidate| - star.value.c else |candidate|,
      |pattern| - p + |candidate| - c
  {
    if c == |candidate| then AllStars(pattern[p..])
    else if p < |pattern| && (pattern[p] == '?' || pattern[p] == candidate[c]) then
      Scan(pattern, candidate, p + 1, c + 1, star)
    else if p < |pattern| && pattern[p] == '*' then
      Scan(pattern, candidate, p + 1, c, Some(Anchor(p, c)))
    else if star.Some? then
      Scan(pattern, candidate, star.value.p + 1, star.value.c + 1, Some(Anchor(star.value.p, star.value.c + 1)))
    else false
  }

  // ---------------------------------------------------------------------
  // The matcher

  method GlobMatchAt(pattern: string, candidate: string) returns (matched: bool)
    ensures matched == Scan(pattern, candidate, 0, 0, None)
    ensures matched ==> Matches(pattern, candidate)
    ensures '*' !in candidate ==> matched == Matches(pattern, candidate)
  {
    ScanSound(pattern, candidate, 0, 0, None);
    if '*' !in candidate && Matches(pattern, candidate) {
      ScanComplete(pattern, candidate, 0, 0, None);
    }
    var p: nat, c: nat := 0, 0;
    var star: Option<Anchor> := None;
    while c < |candidate|
      invariant InRange(pattern, candidate, p, c, star)
      invariant Scan(pattern, candidate, p, c, star) == Scan(pattern, candidate, 0, 0, None)
      decreases
        if star.Some? then |pattern| - star.value.p else |pattern| + 1,
        if star.Some? then |candidate| - star.value.c else |candidate|,
        |pattern| - p + |candidate| - c
    {
      if p < |pattern| && (pattern[p] == '?' || pattern[p] == candidate[c]) {
        p := p + 1;
        c := c + 1;
      } else if p < |pattern| && pattern[p] == '*' {
        star := Some(Anchor(p, c));
        p := p + 1;
      } else if star.Some? {
        p := star.value.p + 1;
        c := star.value.c + 1;
        star := Some(Anchor(star.value.p, star.value.c + 1));
      } else {
        return false;
      }
    }
    ghost var stop := p;
    while p < |pattern| && pattern[p] == '*'
      invariant stop <= p <= |pattern|
      invariant forall i :: stop <= i < p ==> pattern[i] == '*'
    {
      p := p + 1;
    }
    assert p < |pattern| ==> pattern[stop..][p - stop] != '*';
    matched := p == |pattern|;
  }

  /** A pattern matches a unit by its match key or by its stem. */
  method PatternMatchesUnit(pattern: string, key: string, stem: string) returns (matched: bool)
    ensures matched ==> Matches(pattern, key) || Matches(pattern, stem)
    ensures '*' !in key && '*' !in stem ==> matched == (Matches(pattern, key) || Matches(pattern, stem))
    ensures matched <==> Scan(pattern, key, 0, 0, None) || Scan(pattern, stem, 0, 0, None)
  {
    matched := GlobMatchAt(pattern, key);
    if !matched {
      matched := GlobMatchAt(pattern, stem);
    }
  }

  // ---------------------------------------------------------------------
  // Soundness

  lemma {:induction false} MatchesConcat(p1: string, c1: string, p2: string, c2: string)
    requires Matches(p1, c1) && Matches(p2, c2)
    ensures Matches(p1 + p2, c1 + c2)
  {
    if p1 == [] {
      assert p1 + p2 == p2 && c1 + c2 == c2;
    } else {
      assert (p1 + p2)[1..] == p1[1..] + p2;
      if p1[0] == '*' {
        var k :| 0 <= k <= |c1| && Matches(p1[1..], c1[k..]);
        MatchesConcat(p1[1..], c1[k..], p2, c2);
        assert (c1 + c2)[k..] == c1[k..] + c2;
      } else {
        MatchesConcat(p1[1..], c1[1..], p2, c2);
        assert (c1 + c2)[1..] == c1[1..] + c2;
      }
    }
  }

  lemma {:induction false} MatchesOne(x: char, y: char)
    requires x == '?' || x == y
    ensures Matches([x], [y])
  {
    assert [x][1..] == [] && [y][1..] == [];
    if x == '*' {
      assert Matches([x][1..], [y][1..]);
    }
  }

  lemma {:induction false} MatchesStar(text: string)
    ensures Matches("*", text)
  {
    assert "*"[1..] == "" && text[|text|..] == [];
    assert Matches("*"[1..], text[|text|..]);
  }

  lemma {:induction false} AllStarsMatchNothing(pattern: string)
    requires AllStars(pattern)
    ensures Matches(pattern, [])
  {
    if pattern != [] {
      AllStarsMatchNothing(pattern[1..]);
      assert ""[0..] == "" && Matches(pattern[1..], ""[0..]);
    }
  }

  lemma {:induction false} StarAbsorbs(pattern: string, text: string, more: string)
    requires pattern != [] && pattern[|pattern| - 1] == '*' && Matches(pattern, text)
    ensures Matches(pattern, text + more)
  {
    if |pattern| == 1 {
      assert pattern == "*";
      MatchesStar(text + more);
    } else if pattern[0] == '*' {
      var k :| 0 <= k <= |text| && Matches(pattern[1..], text[k..]);
      StarAbsorbs(pattern[1..], text[k..], more);
      assert (text + more)[k..] == text[k..] + more;
    } else {
      StarAbsorbs(pattern[1..], text[1..], more);
      assert (text + more)[1..] == text[1..] + more;
    }
  }

  /** The consumed parts match, and the star may still absorb more. */
  ghost predicate ConsumedMatches(pattern: string, candidate: string, p: nat, c: nat, star: Option<Anchor>)
    requires InRange(pattern, candidate, p, c, star)
  {
    && Matches(pattern[..p], candidate[..c])
    && (star.Some? ==> Matches(pattern[..star.value.p + 1], candidate[..star.value.c]))
  }

  lemma {:induction false} SoundEnd(consumed: string, text: string, rest: string)
    requires Matches(consumed, text) && AllStars(rest)
    ensures Matches(consumed + rest, text)
  {
    AllStarsMatchNothing(rest);
    MatchesConcat(consumed, text, rest, []);
    assert text + [] == text;
  }

  lemma {:induction false} SoundLiteral(consumed: string, text: string, x: char, y: char)
    requires Matches(consumed, text) && (x == '?' || x == y)
    ensures Matches(consumed + [x], text + [y])
  {
    MatchesOne(x, y);
    MatchesConcat(consumed, text, [x], [y]);
  }

  lemma {:induction false} SoundStar(consumed: string, text: string)
    requires Matches(consumed, text)
    ensures Matches(consumed + ['*'], text)
  {
    MatchesStar([]);
    MatchesConcat(consumed, text, "*", []);
    assert text + [] == text;
  }

  /** What one iteration keeps of the consumed parts. */
  lemma {:induction false} ConsumedNext(pattern: string, candidate: string, p: nat, c: nat, star: Option<Anchor>)
    requires InRange(pattern, candidate, p, c, star) && ConsumedMatches(pattern, candidate, p, c, star)
    ensures p < |pattern| && c < |candidate| && (pattern[p] == '?' || pattern[p] == candidate[c]) ==>
              ConsumedMatches(pattern, candidate, p + 1, c + 1, star)
    ensures p < |pattern| && pattern[p] == '*' ==> ConsumedMatches(pattern, candidate, p + 1, c, Some(Anchor(p, c)))
  {
    var consumed, text := pattern[..p], candidate[..c];
    if p < |pattern| && c < |candidate| && (pattern[p] == '?' || pattern[p] == candidate[c]) {
      SoundLiteral(consumed, text, pattern[p], candidate[c]);
      assert pattern[..p + 1] == consumed + [pattern[p]] && candidate[..c + 1] == text + [candidate[c]];
    }
    if p < |pattern| && pattern[p] == '*' {
      SoundStar(consumed, text);
      assert pattern[..p + 1] == consumed + ['*'];
    }
  }

  lemma {:induction false} ConsumedBacktrack(pattern: string, candidate: string, p: nat, c: nat, star: Anchor)
    requires InRange(pattern, candidate, p, c, Some(star)) && ConsumedMatches(pattern, candidate, p, c, Some(star))
    requires c < |candidate|
    ensures ConsumedMatches(pattern, candidate, star.p + 1, star.c + 1, Some(Anchor(star.p, star.c + 1)))
  {
    StarAbsorbs(pattern[..star.p + 1], candidate[..star.c], [candidate[star.c]]);
    assert candidate[..star.c + 1] == candidate[..star.c] + [candidate[star.c]];
  }

  lemma {:induction false} ScanSound(pattern: string, candidate: string, p: nat, c: nat, star: Option<Anchor>)
    requires InRange(pattern, candidate, p, c, star) && ConsumedMatches(pattern, candidate, p, c, star)
    ensures Scan(pattern, candidate, p, c, star) ==> Matches(pattern, candidate)
    decreases
      if star.Some? then |pattern| - star.value.p else |pattern| + 1,
      if star.Some? then |candidate| - star.value.c else |candidate|,
      |pattern| - p + |candidate| - c
  {
    ConsumedNext(pattern, candidate, p, c, star);
    if c == |candidate| {
      if AllStars(pattern[p..]) {
        SoundEnd(pattern[..p], candidate[..c], pattern[p..]);
        assert pattern[..p] + pattern[p..] == pattern && candidate[..c] == candidate;
      }
    } else if p < |pattern| && (pattern[p] == '?' || pattern[p] == candidate[c]) {
      ScanSound(pattern, candidate, p + 1, c + 1, star);
    } else if p < |pattern| && pattern[p] == '*' {
      ScanSound(pattern, candidate, p + 1, c, Some(Anchor(p, c)));
    } else if star.Some? {
      ConsumedBacktrack(pattern, candidate, p, c, star.value);
      ScanSound(pattern, candidate, star.value.p + 1, star.value.c + 1, Some(Anchor(star.value.p, star.value.c + 1)));
    }
  }

  // ---------------------------------------------------------------------
  // Completeness for candidates without a star

  lemma {:induction false} FixedPrefix(w: string, q: string, text: string)
    requires '*' !in w && Matches(w + q, text)
    ensures |text| >= |w| && Matches(q, text[|w|..])
  {
    if w == [] {
      assert w + q == q && text[0..] == text;
    } else {
      assert (w + q)[0] == w[0] && (w + q)[1..] == w[1..] + q;
      FixedPrefix(w[1..], q, text[1..]);
      assert text[1..][|w[1..]|..] == text[|w|..];
    }
  }

  lemma {:induction false} NothingHead(pattern: string, text: string)
    requires text == [] && pattern != [] && Matches(pattern, text)
    ensures pattern[0] == '*' && Matches(pattern[1..], [])
  {
    var k :| 0 <= k <= |text| && Matches(pattern[1..], text[k..]);
    assert text[k..] == [];
  }

  lemma {:induction false} MatchesNothing(pattern: string)
    requires Matches(pattern, [])
    ensures AllStars(pattern)
  {
    if pattern != [] {
      NothingHead(pattern, []);
      MatchesNothing(pattern[1..]);
      assert pattern == [pattern[0]] + pattern[1..];
    }
  }

  /** A later anchor of the last star lets the rest match. */
  predicate LaterAnchor(pattern: string, candidate: string, star: Anchor)
    requires star.p < |pattern|
  {
    exists k :: star.c < k <= |candidate| && Matches(pattern[star.p + 1..], candidate[k..])
  }

  /** Some continuation from here matches; the text since the anchor was matched character by character. */
  ghost predicate Hopeful(pattern: string, candidate: string, p: nat, c: nat, star: Option<Anchor>)
    requires InRange(pattern, candidate, p, c, star)
  {
    && (Matches(pattern[p..], candidate[c..]) || (star.Some? && LaterAnchor(pattern, candidate, star.value)))
    && (star.Some? ==> '*' !in pattern[star.value.p + 1..p] && p - star.value.p - 1 == c - star.value.c)
  }

  lemma {:induction false} LaterAnchorSkips(pattern: string, candidate: string, p: nat, c: nat, star: Anchor)
    requires InRange(pattern, candidate, p, c, Some(star)) && LaterAnchor(pattern, candidate, star)
    requires '*' !in pattern[star.p + 1..p] && p - star.p - 1 == c - star.c
    ensures exists j :: c < j <= |candidate| && Matches(pattern[p..], candidate[j..])
  {
    var k :| star.c < k <= |candidate| && Matches(pattern[star.p + 1..], candidate[k..]);
    var w := pattern[star.p + 1..p];
    assert pattern[star.p + 1..] == w + pattern[p..];
    FixedPrefix(w, pattern[p..], candidate[k..]);
    assert candidate[k..][|w|..] == candidate[k + |w|..];
  }

  lemma {:induction false} ScanComplete(pattern: string, candidate: string, p: nat, c: nat, star: Option<Anchor>)
    requires InRange(pattern, candidate, p, c, star) && '*' !in candidate && Hopeful(pattern, candidate, p, c, star)
    ensures Scan(pattern, candidate, p, c, star)
    decreases
      if star.Some? then |pattern| - star.value.p else |pattern| + 1,
      if star.Some? then |candidate| - star.value.c else |candidate|,
      |pattern| - p + |candidate| - c
  {
    if c == |candidate| {
      CompleteEnd(pattern, candidate, p, star);
    } else if p < |pattern| && (pattern[p] == '?' || pattern[p] == candidate[c]) {
      CompleteOne(pattern, candidate, p, c, star);
      assert Scan(pattern, candidate, p, c, star) == Scan(pattern, candidate, p + 1, c + 1, star);
      ScanComplete(pattern, candidate, p + 1, c + 1, star);
    } else if p < |pattern| && pattern[p] == '*' {
      CompleteStar(pattern, candidate, p, c, star);
      assert Scan(pattern, candidate, p, c, star) == Scan(pattern, candidate, p + 1, c, Some(Anchor(p, c)));
      ScanComplete(pattern, candidate, p + 1, c, Some(Anchor(p, c)));
    } else {
      CompleteBacktrack(pattern, candidate, p, c, star);
      var next := Anchor(star.value.p, star.value.c + 1);
      assert Scan(pattern, candidate, p, c, star) == Scan(pattern, candidate, next.p + 1, next.c, Some(next));
      ScanComplete(pattern, candidate, next.p + 1, next.c, Some(next));
    }
  }

  lemma {:induction false} CompleteOne(pattern: string, candidate: string, p: nat, c: nat, star: Option<Anchor>)
    requires InRange(pattern, candidate, p, c, star) && '*' !in candidate && Hopeful(pattern, candidate, p, c, star)
    requires p < |pattern| && c < |candidate| && (pattern[p] == '?' || pattern[p] == candidate[c])
    ensures Hopeful(pattern, candidate, p + 1, c + 1, star)
  {
    assert pattern[p..][1..] == pattern[p + 1..] && candidate[c..][1..] == candidate[c + 1..];
    assert pattern[p] != '*';
    if star.Some? {
      var done := pattern[star.value.p + 1..p];
      assert pattern[star.value.p + 1..p + 1] == done + [pattern[p]];
    }
  }

  lemma {:induction false} CompleteEnd(pattern: string, candidate: string, p: nat, star: Option<Anchor>)
    requires InRange(pattern, candidate, p, |candidate|, star) && Hopeful(pattern, candidate, p, |candidate|, star)
    ensures AllStars(pattern[p..])
  {
    if star.Some? && LaterAnchor(pattern, candidate, star.value) {
      LaterAnchorSkips(pattern, candidate, p, |candidate|, star.value);
    }
    assert candidate[|candidate|..] == [];
    MatchesNothing(pattern[p..]);
  }

  lemma {:induction false} CompleteStar(pattern: string, candidate: string, p: nat, c: nat, star: Option<Anchor>)
    requires InRange(pattern, candidate, p, c, star) && Hopeful(pattern, candidate, p, c, star)
    requires c < |candidate| && p < |pattern| && pattern[p] == '*'
    ensures Hopeful(pattern, candidate, p + 1, c, Some(Anchor(p, c)))
  {
    if star.Some? && LaterAnchor(pattern, candidate, star.value) {
      LaterAnchorSkips(pattern, candidate, p, c, star.value);
      var j :| c < j <= |candidate| && Matches(pattern[p..], candidate[j..]);
      assert candidate[c..][j - c..] == candidate[j..];
    }
    var k :| 0 <= k <= |candidate[c..]| && Matches(pattern[p..][1..], candidate[c..][k..]);
    assert pattern[p..][1..] == pattern[p + 1..] && candidate[c..][k..] == candidate[c + k..];
    assert pattern[p + 1..p + 1] == [];
  }

  /** A character that meets neither itself nor a wildcard. */
  lemma {:induction false} Mismatch(pattern: string, candidate: string, p: nat, c: nat)
    requires p <= |pattern| && c < |candidate|
    requires p < |pattern| ==> pattern[p] != '?' && pattern[p] != candidate[c] && pattern[p] != '*'
    ensures !Matches(pattern[p..], candidate[c..])
  {
  }

  lemma {:induction false} CompleteBacktrack(pattern: string, candidate: string, p: nat, c: nat, star: Option<Anchor>)
    requires InRange(pattern, candidate, p, c, star) && Hopeful(pattern, candidate, p, c, star) && c < |candidate|
    requires p < |pattern| ==> pattern[p] != '?' && pattern[p] != candidate[c] && pattern[p] != '*'
    ensures star.Some?
    ensures var next := Some(Anchor(star.value.p, star.value.c + 1));
            && InRange(pattern, candidate, star.value.p + 1, star.value.c + 1, next)
            && Hopeful(pattern, candidate, star.value.p + 1, star.value.c + 1, next)
  {
    Mismatch(pattern, candidate, p, c);
    var sp, sc := star.value.p, star.value.c;
    var k :| sc < k <= |candidate| && Matches(pattern[sp + 1..], candidate[k..]);
    assert pattern[sp + 1..sp + 1] == [];
    if k != sc + 1 {
      assert LaterAnchor(pattern, candidate, Anchor(sp, sc + 1));
    }
  }

  // ---------------------------------------------------------------------
  // The exact condition

  function Wildcards(n: nat): (s: string)
    ensures |s| == n && forall i :: 0 <= i < n ==> s[i] == '?'
  {
    seq(n, _ => '?')
  }

  lemma {:induction false} WildcardsMatch(text: string)
    ensures Matches(Wildcards(|text|), text)
  {
    if text != [] {
      WildcardsMatch(text[1..]);
      assert Wildcards(|text|)[1..] == Wildcards(|text[1..]|);
    }
  }

  lemma {:induction false} ScanLiterally(pattern: string, candidate: string, j: nat)
    requires j <= |candidate| <= |pattern|
    requires forall i :: j <= i < |candidate| ==> pattern[i] == '?' || pattern[i] == candidate[i]
    ensures Scan(pattern, candidate, j, j, None) == AllStars(pattern[|candidate|..])
    decreases |candidate| - j
  {
    if j < |candidate| {
      ScanLiterally(pattern, candidate, j + 1);
    }
  }

  /** A pattern the matcher gets wrong for a candidate with a star at `i`. */
  function Misjudged(candidate: string, i: nat): string
    requires i < |candidate|
  {
    Wildcards(i) + "*" + Wildcards(|candidate| - i)
  }

  /** The star of the pattern is spent on the star of the candidate, so one wildcard is left over. */
  lemma {:induction false} MisjudgedFails(candidate: string, i: nat)
    requires i < |candidate| && candidate[i] == '*'
    ensures Matches(Misjudged(candidate, i), candidate)
    ensures !Scan(Misjudged(candidate, i), candidate, 0, 0, None)
  {
    MisjudgedMatches(candidate, i);
    var pattern := Misjudged(candidate, i);
    assert |pattern| == |candidate| + 1;
    assert forall k :: 0 <= k < |pattern| ==> pattern[k] == if k == i then '*' else '?';
    ScanLiterally(pattern, candidate, 0);
    assert pattern[|candidate|..][0] == pattern[|candidate|] == '?';
  }

  lemma {:induction false} MisjudgedMatches(candidate: string, i: nat)
    requires i < |candidate|
    ensures Matches(Misjudged(candidate, i), candidate)
  {
    WildcardsMatch(candidate[..i]);
    WildcardsMatch(candidate[i..]);
    StarBetween(Wildcards(i), candidate[..i], Wildcards(|candidate| - i), candidate[i..]);
    assert candidate[..i] + candidate[i..] == candidate;
  }

  lemma {:induction false} StarBetween(p1: string, c1: string, p2: string, c2: string)
    requires Matches(p1, c1) && Matches(p2, c2)
    ensures Matches(p1 + "*" + p2, c1 + c2)
  {
    MatchesStar([]);
    MatchesConcat(p1, c1, "*", []);
    assert c1 + [] == c1;
    MatchesConcat(p1 + "*", c1, p2, c2);
  }

  /** The matcher agrees with the glob relation on every pattern exactly when the candidate has no star. */
  lemma {:induction false} ScanExactIffNoStar(candidate: string)
    ensures '*' !in candidate
       <==> forall pattern :: Scan(pattern, candidate, 0, 0, None) == Matches(pattern, candidate)
  {
    if '*' !in candidate {
      forall pattern ensures Scan(pattern, candidate, 0, 0, None) == Matches(pattern, candidate) {
        ScanSound(pattern, candidate, 0, 0, None);
        assert pattern[0..] == pattern && candidate[0..] == candidate;
        if Matches(pattern, candidate) {
          ScanComplete(pattern, candidate, 0, 0, None);
        }
      }
    } else {
      var i :| 0 <= i < |candidate| && candidate[i] == '*';
      MisjudgedFails(candidate, i);
    }
  }
}
