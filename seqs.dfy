/**
 * `Array.prototype.filter` and the facts about it that every list filter
 * of the system relies on: the result is an order-preserving subsequence,
 * it keeps exactly the matching elements, and filtering twice is filtering
 * once by the conjunction.
 */
module Seqs {
  import opened Wrappers

  /** `s.filter(p)`. */
  function Keep<T(==)>(s: seq<T>, p: T -> bool): (r: seq<T>)
    ensures |r| <= |s|
    ensures forall i :: 0 <= i < |r| ==> r[i] in s && p(r[i])
    ensures forall i :: 0 <= i < |s| && p(s[i]) ==> s[i] in r
  {
    if |s| == 0 then []
    else if p(s[0]) then [s[0]] + Keep(s[1..], p)
    else Keep(s[1..], p)
  }

  /** `a` is `b` with some elements removed and the rest in their order. */
  predicate IsSubseq<T(==)>(a: seq<T>, b: seq<T>)
    decreases |b|
  {
    if |a| == 0 then true
    else if |b| == 0 then false
    else if a[0] == b[0] then IsSubseq(a[1..], b[1..])
    else IsSubseq(a, b[1..])
  }

  lemma {:induction false} SubseqOfTail<T>(a: seq<T>, b: seq<T>)
    requires |b| > 0 && IsSubseq(a, b[1..])
    ensures IsSubseq(a, b)
    decreases |b|, 0
  {
    if |a| > 0 && a[0] == b[0] {
      SubseqShrink(a, b[1..]);
    }
  }

  /** Dropping the head of a subsequence keeps it a subsequence. */
  lemma {:induction false} SubseqShrink<T>(a: seq<T>, b: seq<T>)
    requires |a| > 0 && IsSubseq(a, b)
    ensures IsSubseq(a[1..], b)
    decreases |b|, 1
  {
    assert |b| > 0;
    if a[0] == b[0] {
      assert IsSubseq(a[1..], b[1..]);
      SubseqOfTail(a[1..], b);
    } else {
      SubseqShrink(a, b[1..]);
      SubseqOfTail(a[1..], b);
    }
  }

  lemma {:induction false} KeepIsSubseq<T>(s: seq<T>, p: T -> bool)
    ensures IsSubseq(Keep(s, p), s)
  {
    if |s| > 0 {
      KeepIsSubseq(s[1..], p);
      if !p(s[0]) {
        SubseqOfTail(Keep(s[1..], p), s);
      }
    }
  }

  /** A filter keeps every matching element as often as it occurs, and no other. */
  lemma {:induction false} KeepMultiset<T>(s: seq<T>, p: T -> bool)
    ensures forall x :: multiset(Keep(s, p))[x] == if p(x) then multiset(s)[x] else 0
  {
    if |s| > 0 {
      KeepMultiset(s[1..], p);
      assert s == [s[0]] + s[1..];
    }
  }

  /** A filter that every element passes keeps the whole list. */
  lemma {:induction false} KeepAll<T>(s: seq<T>, p: T -> bool)
    requires forall i :: 0 <= i < |s| ==> p(s[i])
    ensures Keep(s, p) == s
  {
    if |s| > 0 {
      KeepAll(s[1..], p);
    }
  }

  /** Two filters in a row are one filter by the conjunction. */
  lemma {:induction false} KeepKeep<T>(s: seq<T>, p: T -> bool, q: T -> bool)
    ensures Keep(Keep(s, p), q) == Keep(s, x => p(x) && q(x))
  {
    if |s| > 0 {
      KeepKeep(s[1..], p, q);
      if p(s[0]) {
        assert Keep(s, p) == [s[0]] + Keep(s[1..], p);
        assert ([s[0]] + Keep(s[1..], p))[1..] == Keep(s[1..], p);
      }
    }
  }

  /** Filters that agree on every element give the same result. */
  lemma {:induction false} KeepExt<T>(s: seq<T>, p: T -> bool, q: T -> bool)
    requires forall i :: 0 <= i < |s| ==> p(s[i]) == q(s[i])
    ensures Keep(s, p) == Keep(s, q)
  {
    if |s| > 0 {
      KeepExt(s[1..], p, q);
    }
  }

  /** Narrowing a filtered list once more is filtering the original by both tests. */
  lemma KeepThen<T>(s: seq<T>, p: T -> bool, q: T -> bool, r: T -> bool)
    requires forall x :: r(x) == (p(x) && q(x))
    ensures Keep(Keep(s, p), q) == Keep(s, r)
  {
    KeepKeep(s, p, q);
    KeepExt(s, x => p(x) && q(x), r);
  }

  lemma {:induction false} KeepAppend<T>(a: seq<T>, b: seq<T>, p: T -> bool)
    ensures Keep(a + b, p) == Keep(a, p) + Keep(b, p)
  {
    if |a| == 0 {
      assert a + b == b;
    } else {
      assert (a + b)[1..] == a[1..] + b;
      KeepAppend(a[1..], b, p);
    }
  }

  /** A filter no element passes keeps nothing. */
  lemma KeepNone<T>(s: seq<T>, p: T -> bool)
    requires forall i :: 0 <= i < |s| ==> !p(s[i])
    ensures Keep(s, p) == []
  {
    if |Keep(s, p)| > 0 {
      assert false;
    }
  }

  /** A filter shortens a list exactly when some element fails it. */
  lemma {:induction false} KeepDrops<T>(s: seq<T>, p: T -> bool)
    ensures |Keep(s, p)| < |s| <==> exists i :: 0 <= i < |s| && !p(s[i])
  {
    if |s| > 0 {
      KeepDrops(s[1..], p);
      if p(s[0]) {
        if exists i :: 0 <= i < |s| && !p(s[i]) {
          var i :| 0 <= i < |s| && !p(s[i]);
          assert s[1..][i - 1] == s[i];
        }
        if exists i :: 0 <= i < |s[1..]| && !p(s[1..][i]) {
          var i :| 0 <= i < |s[1..]| && !p(s[1..][i]);
          assert s[i + 1] == s[1..][i];
        }
      }
    }
  }

  /** Filtering a list without repeated entries leaves none. */
  lemma {:induction false} KeepDistinct<T>(s: seq<T>, p: T -> bool)
    requires Distinct(s)
    ensures Distinct(Keep(s, p))
  {
    if |s| > 0 {
      var t := Keep(s[1..], p);
      KeepDistinct(s[1..], p);
      if p(s[0]) {
        assert s[0] !in s[1..] by {
          forall j | 0 <= j < |s| - 1 ensures s[1..][j] != s[0] {
            assert s[1..][j] == s[j + 1];
          }
        }
        var r := [s[0]] + t;
        forall i, j | 0 <= i < j < |r| ensures r[i] != r[j] {
          if i == 0 {
            assert r[j] == t[j - 1] && t[j - 1] in s[1..];
          } else {
            assert r[i] == t[i - 1] && r[j] == t[j - 1];
          }
        }
      }
    }
  }

  /** `s.find(p)`: the first element that passes, `None` when none does. */
  function Find<T(==)>(s: seq<T>, p: T -> bool): (r: Option<T>)
    ensures r.None? <==> forall i :: 0 <= i < |s| ==> !p(s[i])
    ensures r.Some? ==> exists k :: 0 <= k < |s| && s[k] == r.value && p(s[k])
                                    && forall j :: 0 <= j < k ==> !p(s[j])
  {
    if |s| == 0 then None
    else if p(s[0]) then Some(s[0])
    else
      var r := Find(s[1..], p);
      if r.Some? then
        var k :| 0 <= k < |s[1..]| && s[1..][k] == r.value && p(s[1..][k]) && forall j :: 0 <= j < k ==> !p(s[1..][j]);
        assert s[k + 1] == r.value;
        assert forall j :: 1 <= j < k + 1 ==> s[j] == s[1..][j - 1];
        r
      else r
  }

  /** Searching a list grown at the end finds the old answer, or else the new element if it passes. */
  lemma {:induction false} FindSnoc<T>(s: seq<T>, x: T, p: T -> bool)
    ensures Find(s + [x], p) == if Find(s, p).Some? then Find(s, p) else if p(x) then Some(x) else None
  {
    if |s| == 0 {
      assert [] + [x] == [x];
    } else {
      assert (s + [x])[1..] == s[1..] + [x];
      FindSnoc(s[1..], x, p);
    }
  }

  /** Filtering a list grown at the end. */
  lemma KeepSnoc<T>(s: seq<T>, x: T, p: T -> bool)
    ensures Keep(s + [x], p) == Keep(s, p) + (if p(x) then [x] else [])
  {
    KeepAppend(s, [x], p);
    assert [x][1..] == [];
  }

  /** The number of elements that satisfy `p`. */
  function Count<T(==)>(s: seq<T>, p: T -> bool): nat {
    |Keep(s, p)|
  }

  /** Counting by a test that is the disjoint union of two others adds their counts. */
  lemma {:induction false} CountDisjointUnion<T>(s: seq<T>, p: T -> bool, q: T -> bool, r: T -> bool)
    requires forall x :: r(x) == (p(x) || q(x))
    requires forall x :: !(p(x) && q(x))
    ensures Count(s, r) == Count(s, p) + Count(s, q)
  {
    if |s| > 0 {
      CountDisjointUnion(s[1..], p, q, r);
    }
  }

  /** The elements of a list as a set (`new Set(list)` read back unordered). */
  function ToSet<T>(s: seq<T>): set<T> {
    set x | x in s
  }

  predicate Distinct<T(==)>(s: seq<T>) {
    forall i, j :: 0 <= i < j < |s| ==> s[i] != s[j]
  }

  /** A list has as many different elements as entries exactly when no entry repeats. */
  lemma {:induction false} CardToSet<T>(s: seq<T>)
    ensures |ToSet(s)| <= |s|
    ensures |ToSet(s)| == |s| <==> Distinct(s)
  {
    if |s| > 0 {
      var t := s[1..];
      CardToSet(t);
      assert ToSet(s) == {s[0]} + ToSet(t);
      if s[0] in t {
        assert ToSet(s) == ToSet(t);
        var j :| 0 <= j < |t| && t[j] == s[0];
        assert s[0] == s[j + 1];
      } else {
        assert |ToSet(s)| == |ToSet(t)| + 1;
        if Distinct(t) {
          forall i, j | 0 <= i < j < |s| ensures s[i] != s[j] {
            if i == 0 {
              assert s[j] == t[j - 1];
            } else {
              assert s[i] == t[i - 1] && s[j] == t[j - 1];
            }
          }
        } else {
          var i, j :| 0 <= i < j < |t| && t[i] == t[j];
          assert s[i + 1] == s[j + 1];
        }
      }
    }
  }

  /**
   * The distinct elements of a list in order of first appearance, after the
   * ones already in `seen` (`new Set(list)` iterated, or `Map` keys).
   */
  function DedupeAfter<T(==)>(s: seq<T>, seen: seq<T>): (r: seq<T>)
    requires Distinct(seen)
    ensures Distinct(r)
    ensures |seen| <= |r| && r[..|seen|] == seen
    ensures ToSet(r) == ToSet(seen) + ToSet(s)
  {
    if |s| == 0 then seen
    else if s[0] in seen then DedupeAfter(s[1..], seen)
    else
      var r := DedupeAfter(s[1..], seen + [s[0]]);
      assert r[..|seen|] == (seen + [s[0]])[..|seen|];
      r
  }

  function Dedupe<T(==)>(s: seq<T>): (r: seq<T>)
    ensures Distinct(r)
    ensures ToSet(r) == ToSet(s)
    ensures |s| > 0 ==> |r| > 0 && r[0] == s[0]
  {
    if |s| > 0 then
      var r := DedupeAfter(s[1..], [s[0]]);
      assert r[..1] == [s[0]];
      r
    else []
  }

  /** A list without repeated entries holds each value at most once. */
  lemma {:induction false} DistinctMultiplicity<T>(s: seq<T>, x: T)
    requires Distinct(s)
    ensures multiset(s)[x] <= 1
  {
    if |s| > 0 {
      assert s == [s[0]] + s[1..];
      DistinctMultiplicity(s[1..], x);
      if s[0] == x {
        assert x !in s[1..];
      }
    }
  }

  /** Rearranging a list without repeated entries cannot create a repeated entry. */
  lemma DistinctPermutation<T>(a: seq<T>, b: seq<T>)
    requires Distinct(a) && multiset(a) == multiset(b)
    ensures Distinct(b)
  {
    forall i, j | 0 <= i < j < |b| ensures b[i] != b[j] {
      if b[i] == b[j] {
        var x := b[i];
        assert b == b[..j] + b[j..];
        assert x in b[..j] && x in b[j..];
        assert multiset(b)[x] == multiset(b[..j])[x] + multiset(b[j..])[x];
        DistinctMultiplicity(a, x);
      }
    }
  }

  lemma {:induction false} SubsetCard<T>(a: set<T>, b: set<T>)
    requires a <= b
    ensures |a| <= |b|
    decreases |a|
  {
    if a != {} {
      var x :| x in a;
      SubsetCard(a - {x}, b - {x});
    }
  }
}
