/**
 Sorting a list of strings and dropping duplicates: the one strictly sorted list with the
 same members.
 */
module SortedStrings {
  /** Order by code points, which is also the order of the encoded bytes. */
  predicate Less(a: string, b: string)
  {
    b != [] && (a == [] || a[0] < b[0] || (a[0] == b[0] && Less(a[1..], b[1..])))
  }

  predicate StrictlySorted(s: seq<string>)
  {
    forall i, j :: 0 <= i < j < |s| ==> Less(s[i], s[j])
  }

  function InsertName(x: string, s: seq<string>): seq<string>
  {
    if s == [] then [x]
    else if x == s[0] then s
    else if Less(x, s[0]) then [x] + s
    else [s[0]] + InsertName(x, s[1..])
  }

  function SortDedup(s: seq<string>): seq<string>
  {
    if s == [] then [] else InsertName(s[0], SortDedup(s[1..]))
  }

  /** `a` is a proper prefix of `b`, or has the smaller character where they first differ. */
  ghost predicate ComesBefore(a: string, b: string, k: nat)
  {
    k <= |a| && k < |b| && a[..k] == b[..k] && (k == |a| || a[k] < b[k])
  }

  lemma {:induction false} LessExact(a: string, b: string)
    ensures Less(a, b) <==> exists k: nat :: ComesBefore(a, b, k)
  {
    if a == [] || b == [] || a[0] != b[0] {
      if b != [] && (a == [] || a[0] < b[0]) {
        assert ComesBefore(a, b, 0);
      } else {
        forall k: nat ensures !ComesBefore(a, b, k) {
          assert k > 0 && k <= |a| && k < |b| ==> a[..k][0] == a[0] && b[..k][0] == b[0];
        }
      }
    } else {
      var x, y := a[1..], b[1..];
      LessExact(x, y);
      if k: nat :| ComesBefore(x, y, k) {
        assert a[..k + 1] == [a[0]] + x[..k] && b[..k + 1] == [b[0]] + y[..k];
        assert ComesBefore(a, b, k + 1);
      }
      if k: nat :| ComesBefore(a, b, k) {
        assert k > 0 && x[..k - 1] == a[..k][1..] && y[..k - 1] == b[..k][1..];
        assert ComesBefore(x, y, k - 1);
      }
    }
  }

  lemma {:induction false} LessTotal(a: string, b: string)
    ensures Less(a, b) || a == b || Less(b, a)
    ensures !(Less(a, b) && Less(b, a)) && !Less(a, a)
  {
    if a != [] && b != [] {
      LessTotal(a[1..], b[1..]);
      LessTotal(a[1..], a[1..]);
      assert a == [a[0]] + a[1..] && b == [b[0]] + b[1..];
    } else if a != [] {
      LessTotal(a[1..], a[1..]);
    }
  }

  lemma {:induction false} LessTransitive(a: string, b: string, c: string)
    requires Less(a, b) && Less(b, c)
    ensures Less(a, c)
  {
    if a != [] && a[0] == b[0] == c[0] {
      LessTransitive(a[1..], b[1..], c[1..]);
    }
  }

  lemma {:induction false} InsertMember(x: string, s: seq<string>, m: string)
    ensures m in InsertName(x, s) <==> m == x || m in s
  {
    if s != [] && x != s[0] && !Less(x, s[0]) {
      InsertMember(x, s[1..], m);
      assert s == [s[0]] + s[1..];
    }
  }

  lemma {:induction false} InsertSorted(x: string, s: seq<string>)
    requires StrictlySorted(s)
    ensures StrictlySorted(InsertName(x, s))
  {
    if s != [] && x != s[0] {
      if Less(x, s[0]) {
        forall j | 0 <= j < |s| ensures Less(x, s[j]) {
          if j > 0 {
            LessTransitive(x, s[0], s[j]);
          }
        }
      } else {
        LessTotal(x, s[0]);
        InsertSorted(x, s[1..]);
        var tail := InsertName(x, s[1..]);
        forall j | 0 <= j < |tail| ensures Less(s[0], tail[j]) {
          InsertMember(x, s[1..], tail[j]);
          if tail[j] != x {
            var k :| 0 <= k < |s| - 1 && s[1..][k] == tail[j];
            assert s[k + 1] == tail[j];
          }
        }
      }
    }
  }

  /** The written list is strictly sorted and has exactly the given members. */
  lemma {:induction false} SortDedupSorted(s: seq<string>)
    ensures StrictlySorted(SortDedup(s))
    ensures forall m :: m in SortDedup(s) <==> m in s
  {
    if s != [] {
      SortDedupSorted(s[1..]);
      InsertSorted(s[0], SortDedup(s[1..]));
      forall m ensures m in SortDedup(s) <==> m in s {
        InsertMember(s[0], SortDedup(s[1..]), m);
        assert s == [s[0]] + s[1..];
      }
    }
  }

  /** Only one list is strictly sorted and has these members. */
  lemma {:induction false} SortedUnique(s: seq<string>, t: seq<string>)
    requires StrictlySorted(s) && StrictlySorted(t)
    requires forall m :: m in s <==> m in t
    ensures s == t
  {
    assert s != [] ==> s[0] in t;
    assert t != [] ==> t[0] in s;
    if s != [] {
      LessTotal(s[0], t[0]);
      TailMembers(s);
      TailMembers(t);
      SortedUnique(s[1..], t[1..]);
      assert s == [s[0]] + s[1..] && t == [t[0]] + t[1..];
    }
  }

  lemma {:induction false} TailMembers(s: seq<string>)
    requires StrictlySorted(s) && s != []
    ensures forall m :: m in s[1..] <==> m in s && m != s[0]
  {
    LessTotal(s[0], s[0]);
    assert s == [s[0]] + s[1..];
    forall m | m in s[1..] ensures m != s[0] {
      var k :| 0 <= k < |s| - 1 && s[1..][k] == m;
      assert s[k + 1] == m;
    }
  }
}
