/**
 * Ordering used before both folds (App.tsx:85-88, components/Dashboard.tsx:73-76):
 * ascending date, and on equal dates every BUY before any other trade. Dates
 * are compared as strings, code point by code point (the locale rules of
 * `localeCompare` are not modelled). The sort of a copy is modelled by a
 * stable insertion sort; the source's comparator is not consistent inside a
 * group of equal keys, so the model fixes one of the orders it may produce.
 * The same generic sort serves the year keys and the two descending sorts of
 * holdings by invested capital.
 */
module TradeOrder {
  import opened Types

  /** Strict lexicographic order on strings. */
  predicate StrLess(a: string, b: string)
    decreases |a|
  {
    if a == [] then b != []
    else if b == [] then false
    else if a[0] != b[0] then a[0] < b[0]
    else StrLess(a[1..], b[1..])
  }

  predicate StrLeq(a: string, b: string) {
    a == b || StrLess(a, b)
  }

  lemma {:induction false} StrLessIrreflexive(a: string)
    ensures !StrLess(a, a)
    decreases |a|
  {
    if a != [] {
      StrLessIrreflexive(a[1..]);
    }
  }

  lemma {:induction false} StrLessTrichotomy(a: string, b: string)
    ensures a == b || StrLess(a, b) || StrLess(b, a)
    decreases |a|
  {
    if a != [] && b != [] && a[0] == b[0] {
      StrLessTrichotomy(a[1..], b[1..]);
      if a[1..] == b[1..] {
        assert a == [a[0]] + a[1..] && b == [b[0]] + b[1..];
      }
    }
  }

  lemma {:induction false} StrLessTransitive(a: string, b: string, c: string)
    requires StrLess(a, b) && StrLess(b, c)
    ensures StrLess(a, c)
    decreases |a|
  {
    if a != [] && a[0] == b[0] && b[0] == c[0] {
      StrLessTransitive(a[1..], b[1..], c[1..]);
    }
  }

  lemma StrLessAsymmetric(a: string, b: string)
    requires StrLess(a, b)
    ensures !StrLess(b, a)
  {
    if StrLess(b, a) {
      StrLessTransitive(a, b, a);
      StrLessIrreflexive(a);
    }
  }

  ghost predicate TotalPreorder<T(!new)>(leq: (T, T) -> bool) {
    && (forall a, b :: leq(a, b) || leq(b, a))
    && (forall a, b, c :: leq(a, b) && leq(b, c) ==> leq(a, c))
  }

  lemma StrLeqTotalPreorder()
    ensures TotalPreorder(StrLeq)
  {
    forall a, b ensures StrLeq(a, b) || StrLeq(b, a) {
      StrLessTrichotomy(a, b);
    }
    forall a, b, c | StrLeq(a, b) && StrLeq(b, c) ensures StrLeq(a, c) {
      if a != b && b != c {
        StrLessTransitive(a, b, c);
      }
    }
  }

  ghost predicate SortedBy<T>(s: seq<T>, leq: (T, T) -> bool) {
    forall i, j :: 0 <= i < j < |s| ==> leq(s[i], s[j])
  }

  /** Places `x` before the first element it may precede. */
  function Insert<T>(x: T, s: seq<T>, leq: (T, T) -> bool): (r: seq<T>)
    ensures multiset(r) == multiset(s) + multiset{x}
    ensures |r| == |s| + 1
  {
    if s == [] then [x]
    else if leq(x, s[0]) then [x] + s
    else
      assert s == [s[0]] + s[1..];
      [s[0]] + Insert(x, s[1..], leq)
  }

  /** Stable insertion sort: equal elements keep their input order. */
  function SortBy<T>(s: seq<T>, leq: (T, T) -> bool): (r: seq<T>)
    ensures multiset(r) == multiset(s)
    ensures |r| == |s|
  {
    if s == [] then []
    else
      assert s == [s[0]] + s[1..];
      Insert(s[0], SortBy(s[1..], leq), leq)
  }

  /** Sorting keeps exactly the elements it was given. */
  lemma SortByMembers<T>(s: seq<T>, leq: (T, T) -> bool)
    ensures forall x :: x in SortBy(s, leq) <==> x in s
  {
    forall x ensures x in SortBy(s, leq) <==> x in s {
      assert x in SortBy(s, leq) <==> x in multiset(SortBy(s, leq));
      assert x in s <==> x in multiset(s);
    }
  }

  /** Sorting a sequence without repeats produces none. */
  lemma {:induction false} SortByDistinct<T>(s: seq<T>, leq: (T, T) -> bool)
    requires Distinct(s)
    ensures Distinct(SortBy(s, leq))
  {
    if s != [] {
      SortByDistinct(s[1..], leq);
      var r := SortBy(s[1..], leq);
      assert s[0] !in multiset(r) by {
        assert s[0] !in s[1..];
      }
      InsertDistinct(s[0], r, leq);
    }
  }

  lemma {:induction false} InsertDistinct<T>(x: T, s: seq<T>, leq: (T, T) -> bool)
    requires Distinct(s) && x !in multiset(s)
    ensures Distinct(Insert(x, s, leq))
  {
    if s != [] && !leq(x, s[0]) {
      assert s == [s[0]] + s[1..];
      InsertDistinct(x, s[1..], leq);
      var r := Insert(x, s[1..], leq);
      assert s[0] !in multiset(r) by {
        assert s[0] !in s[1..];
      }
      assert forall j :: 0 <= j < |r| ==> r[j] in multiset(r);
    }
  }

  lemma {:induction false} InsertSorted<T(!new)>(x: T, s: seq<T>, leq: (T, T) -> bool)
    requires TotalPreorder(leq) && SortedBy(s, leq)
    ensures SortedBy(Insert(x, s, leq), leq)
  {
    if s != [] && !leq(x, s[0]) {
      InsertSorted(x, s[1..], leq);
      var r := Insert(x, s[1..], leq);
      assert leq(s[0], x);
      forall y | y in multiset(r) ensures leq(s[0], y) {
        assert y in multiset(s[1..]) + multiset{x};
        if y != x {
          assert y in s[1..];
        }
      }
    } else if s != [] {
      assert forall j :: 0 <= j < |s| ==> leq(s[0], s[j]);
    }
  }

  lemma {:induction false} SortBySorted<T(!new)>(s: seq<T>, leq: (T, T) -> bool)
    requires TotalPreorder(leq)
    ensures SortedBy(SortBy(s, leq), leq)
  {
    if s != [] {
      SortBySorted(s[1..], leq);
      InsertSorted(s[0], SortBy(s[1..], leq), leq);
    }
  }

  /**
   * The head of the sorted sequence is the first element of the input that
   * may precede every element: stability, as seen from the front.
   */
  lemma {:induction false} SortByHead<T(!new)>(s: seq<T>, leq: (T, T) -> bool)
    requires TotalPreorder(leq) && |s| > 0
    ensures exists i :: 0 <= i < |s| && SortBy(s, leq)[0] == s[i]
              && (forall j :: 0 <= j < |s| ==> leq(s[i], s[j]))
              && (forall j :: 0 <= j < i ==> !leq(s[j], s[i]))
  {
    var rest := SortBy(s[1..], leq);
    if |s| == 1 {
      assert SortBy(s, leq)[0] == s[0];
    } else {
      SortByHead(s[1..], leq);
      var i' :| 0 <= i' < |s| - 1 && rest[0] == s[1..][i']
                && (forall j :: 0 <= j < |s| - 1 ==> leq(s[1..][i'], s[1..][j]))
                && (forall j :: 0 <= j < i' ==> !leq(s[1..][j], s[1..][i']));
      var h := s[i' + 1];
      if leq(s[0], h) {
        assert SortBy(s, leq)[0] == s[0];
        forall j | 0 <= j < |s| ensures leq(s[0], s[j]) {
          if j > 0 {
            assert leq(h, s[1..][j - 1]);
          }
        }
      } else {
        assert SortBy(s, leq)[0] == h;
        forall j | 0 <= j < |s| ensures leq(h, s[j]) {
          if j > 0 {
            assert s[j] == s[1..][j - 1];
          }
        }
        forall j | 0 <= j < i' + 1 ensures !leq(s[j], h) {
          if j > 0 {
            assert s[j] == s[1..][j - 1];
          }
        }
      }
    }
  }

  /** The fold's comparator: earlier date first; on equal dates BUY first. */
  predicate FoldLeq(a: Transaction, b: Transaction) {
    StrLess(a.date, b.date) || (a.date == b.date && (a.kind == BUY || b.kind != BUY))
  }

  lemma FoldLeqTotalPreorder()
    ensures TotalPreorder(FoldLeq)
  {
    forall a, b ensures FoldLeq(a, b) || FoldLeq(b, a) {
      StrLessTrichotomy(a.date, b.date);
    }
    forall a, b, c | FoldLeq(a, b) && FoldLeq(b, c) ensures FoldLeq(a, c) {
      if StrLess(a.date, b.date) && StrLess(b.date, c.date) {
        StrLessTransitive(a.date, b.date, c.date);
      }
    }
  }

  /** The sorted copy both folds walk. */
  function FoldOrder(txs: seq<Transaction>): (r: seq<Transaction>)
    ensures multiset(r) == multiset(txs)
    ensures forall t :: t in r <==> t in txs
  {
    var r := SortBy(txs, FoldLeq);
    assert forall t :: t in r <==> t in multiset(r);
    assert forall t :: t in txs <==> t in multiset(txs);
    r
  }

  /**
   * The fold order is a permutation of the log in which dates never decrease
   * and, within a date, no BUY follows a non-BUY.
   */
  lemma FoldOrderIsOrdered(txs: seq<Transaction>)
    ensures multiset(FoldOrder(txs)) == multiset(txs)
    ensures forall i, j :: 0 <= i < j < |FoldOrder(txs)| ==>
              StrLeq(FoldOrder(txs)[i].date, FoldOrder(txs)[j].date)
    ensures forall i, j ::
              (0 <= i < j < |FoldOrder(txs)| && FoldOrder(txs)[i].date == FoldOrder(txs)[j].date
               && FoldOrder(txs)[j].kind == BUY) ==> FoldOrder(txs)[i].kind == BUY
  {
    FoldLeqTotalPreorder();
    SortBySorted(txs, FoldLeq);
    var r := FoldOrder(txs);
    forall i, j | 0 <= i < j < |r| && r[i].date == r[j].date && r[j].kind == BUY
      ensures r[i].kind == BUY
    {
      StrLessIrreflexive(r[i].date);
      assert FoldLeq(r[i], r[j]);
    }
  }
}
