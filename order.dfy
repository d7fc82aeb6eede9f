/**
 * Sorting. The system sorts strings with `localeCompare` and lets SQL sort
 * rows by key; both are modelled by a total preorder passed to an insertion
 * sort, instantiated with code-point order on strings and with `<=` on
 * integers.
 */
module Order {
  import opened Seqs

  ghost predicate TotalPreorder<T(!new)>(leq: (T, T) -> bool) {
    (forall a, b :: leq(a, b) || leq(b, a))
    && (forall a, b, c :: leq(a, b) && leq(b, c) ==> leq(a, c))
  }

  predicate SortedBy<T>(s: seq<T>, leq: (T, T) -> bool) {
    forall i, j :: 0 <= i < j < |s| ==> leq(s[i], s[j])
  }

  /** Inserts `x` before the first element it is not above. */
  function InsertBy<T>(x: T, s: seq<T>, leq: (T, T) -> bool): seq<T> {
    if |s| == 0 || leq(x, s[0]) then [x] + s
    else [s[0]] + InsertBy(x, s[1..], leq)
  }

  lemma {:induction false} InsertByPermutes<T>(x: T, s: seq<T>, leq: (T, T) -> bool)
    ensures multiset(InsertBy(x, s, leq)) == multiset(s) + multiset{x}
  {
    if |s| > 0 && !leq(x, s[0]) {
      InsertByPermutes(x, s[1..], leq);
      assert s == [s[0]] + s[1..];
    }
  }

  lemma {:induction false} InsertBySorted<T(!new)>(x: T, s: seq<T>, leq: (T, T) -> bool)
    requires TotalPreorder(leq) && SortedBy(s, leq)
    ensures SortedBy(InsertBy(x, s, leq), leq)
  {
    if |s| > 0 && !leq(x, s[0]) {
      var t := InsertBy(x, s[1..], leq);
      InsertBySorted(x, s[1..], leq);
      InsertByPermutes(x, s[1..], leq);
      assert leq(s[0], x);
      var r := [s[0]] + t;
      forall j | 0 <= j < |t| ensures leq(s[0], t[j]) {
        assert t[j] in multiset(t);
        if t[j] != x {
          assert t[j] in multiset(s[1..]);
          var m :| 0 <= m < |s[1..]| && s[1..][m] == t[j];
          assert s[m + 1] == t[j];
        }
      }
      forall i, j | 0 <= i < j < |r| ensures leq(r[i], r[j]) {
        if i == 0 {
          assert r[j] == t[j - 1];
        } else {
          assert r[i] == t[i - 1] && r[j] == t[j - 1];
        }
      }
    }
  }

  /** Insertion sort. */
  function SortBy<T>(s: seq<T>, leq: (T, T) -> bool): seq<T> {
    if |s| == 0 then [] else InsertBy(s[0], SortBy(s[1..], leq), leq)
  }

  /** Under a total preorder, insertion sort gives an ordered rearrangement of its input. */
  lemma {:induction false} SortBySpec<T(!new)>(s: seq<T>, leq: (T, T) -> bool)
    requires TotalPreorder(leq)
    ensures SortedBy(SortBy(s, leq), leq)
    ensures multiset(SortBy(s, leq)) == multiset(s)
  {
    if |s| > 0 {
      var t := SortBy(s[1..], leq);
      SortBySpec(s[1..], leq);
      assert s == [s[0]] + s[1..];
      InsertBySorted(s[0], t, leq);
      InsertByPermutes(s[0], t, leq);
    }
  }

  /** Code-point lexicographic order, standing in for `localeCompare` and SQL collation. */
  predicate LexLeq(a: string, b: string) {
    |a| == 0 || (|b| > 0 && (a[0] < b[0] || (a[0] == b[0] && LexLeq(a[1..], b[1..]))))
  }

  lemma {:induction false} LexTotal(a: string, b: string)
    ensures LexLeq(a, b) || LexLeq(b, a)
  {
    if |a| > 0 && |b| > 0 && a[0] == b[0] {
      LexTotal(a[1..], b[1..]);
    }
  }

  lemma {:induction false} LexTrans(a: string, b: string, c: string)
    requires LexLeq(a, b) && LexLeq(b, c)
    ensures LexLeq(a, c)
  {
    if |a| > 0 && a[0] == b[0] && b[0] == c[0] {
      LexTrans(a[1..], b[1..], c[1..]);
    }
  }

  lemma {:induction false} LexAntisym(a: string, b: string)
    requires LexLeq(a, b) && LexLeq(b, a)
    ensures a == b
  {
    if |a| > 0 {
      LexAntisym(a[1..], b[1..]);
      assert a == [a[0]] + a[1..] && b == [b[0]] + b[1..];
    }
  }

  lemma LexIsTotalPreorder()
    ensures TotalPreorder(LexLeq)
  {
    forall a, b ensures LexLeq(a, b) || LexLeq(b, a) {
      LexTotal(a, b);
    }
    forall a, b, c | LexLeq(a, b) && LexLeq(b, c) ensures LexLeq(a, c) {
      LexTrans(a, b, c);
    }
  }

  function SortStrings(s: seq<string>): (r: seq<string>)
    ensures SortedBy(r, LexLeq)
    ensures multiset(r) == multiset(s)
  {
    LexIsTotalPreorder();
    SortBySpec(s, LexLeq);
    SortBy(s, LexLeq)
  }

  predicate IntLeq(a: int, b: int) { a <= b }

  function SortInts(s: seq<int>): (r: seq<int>)
    ensures forall i, j :: 0 <= i < j < |r| ==> r[i] <= r[j]
    ensures multiset(r) == multiset(s)
  {
    assert TotalPreorder(IntLeq);
    SortBySpec(s, IntLeq);
    var r := SortBy(s, IntLeq);
    assert SortedBy(r, IntLeq);
    r
  }
}
