/**
 * The whole-table pandas operations both pipelines use, on a table seen as
 * the sequence of its rows: `head`, boolean filtering, `sort_values` on one
 * key column and the 80/20 `iloc` split. The forecasting model (Prophet) is
 * an opaque `Predictor`: once fitted on a sequence of (ds, y) training pairs
 * it gives one point estimate (`yhat`) per requested timestamp.
 */
module Frames {
  import opened Wrappers

  type Predictor = (seq<(int, int)>, int) -> real

  /** `df.head(n)`: the first n rows; a negative n keeps all rows but the last -n. */
  function Head<T>(s: seq<T>, n: int): (r: seq<T>)
    ensures |r| <= |s| && r == s[..|r|]
    ensures n >= 0 ==> |r| == (if n < |s| then n else |s|)
    ensures n < 0 ==> |r| == (if |s| + n > 0 then |s| + n else 0)
  {
    if n >= 0 then (if n < |s| then s[..n] else s)
    else if |s| + n > 0 then s[..|s| + n]
    else []
  }

  /**
   * An element-wise conversion of a column followed by `isnull().any()`:
   * every element converted, one result per element in the same order, or
   * nothing at all.
   */
  function AllOrNothing<A, B>(xs: seq<A>, f: A -> Option<B>): (r: Option<seq<B>>)
    ensures r.Some? <==> forall i :: 0 <= i < |xs| ==> f(xs[i]).Some?
    ensures r.Some? ==> |r.value| == |xs| && forall i :: 0 <= i < |xs| ==> f(xs[i]) == Some(r.value[i])
  {
    if |xs| == 0 then Some([])
    else
      var first, rest := f(xs[0]), AllOrNothing(xs[1..], f);
      assert forall i :: 1 <= i < |xs| ==> xs[i] == xs[1..][i - 1];
      if first.None? || rest.None? then None
      else
        var r := [first.value] + rest.value;
        assert forall i :: 1 <= i < |r| ==> r[i] == rest.value[i - 1];
        Some(r)
  }

  /** `df[mask]`: the rows satisfying p, in their original order. */
  function Filter<T(==, !new)>(s: seq<T>, p: T -> bool): (r: seq<T>)
    ensures |r| <= |s|
    ensures forall i :: 0 <= i < |r| ==> p(r[i])
    ensures forall x :: multiset(r)[x] == if p(x) then multiset(s)[x] else 0
  {
    if |s| == 0 then []
    else
      assert s == [s[0]] + s[1..];
      if p(s[0]) then [s[0]] + Filter(s[1..], p) else Filter(s[1..], p)
  }

  /** When every row passes the mask, filtering keeps the rows as they are. */
  lemma {:induction false} FilterKeepsAll<T(!new)>(s: seq<T>, p: T -> bool)
    requires forall i :: 0 <= i < |s| ==> p(s[i])
    ensures Filter(s, p) == s
  {
    if |s| > 0 {
      FilterKeepsAll(s[1..], p);
      assert s == [s[0]] + s[1..];
    }
  }

  /** Filtering a row followed by more rows: the row, if it passes, stays in front. */
  lemma {:induction false} FilterCons<T(!new)>(x: T, s: seq<T>, p: T -> bool)
    ensures Filter([x] + s, p) == if p(x) then [x] + Filter(s, p) else Filter(s, p)
  {
    assert ([x] + s)[0] == x && ([x] + s)[1..] == s;
  }

  /**
   * The mask keeps the original order: filtering two blocks of rows one
   * after the other is filtering each block and putting the results one
   * after the other.
   */
  lemma {:induction false} FilterConcat<T(!new)>(a: seq<T>, b: seq<T>, p: T -> bool)
    ensures Filter(a + b, p) == Filter(a, p) + Filter(b, p)
  {
    if |a| == 0 {
      assert a == [];
      EmptyConcat(b);
      EmptyConcat(Filter(b, p));
    } else {
      var x, rest := a[0], a[1..];
      assert a == [x] + rest;
      FilterConcat(rest, b, p);
      FilterConcatStep(x, rest, b, p);
    }
  }

  lemma {:induction false} FilterConcatStep<T(!new)>(x: T, rest: seq<T>, b: seq<T>, p: T -> bool)
    requires Filter(rest + b, p) == Filter(rest, p) + Filter(b, p)
    ensures Filter([x] + rest + b, p) == Filter([x] + rest, p) + Filter(b, p)
  {
    ConsAssoc(x, rest, b);
    FilterCons(x, rest + b, p);
    FilterCons(x, rest, p);
    if p(x) {
      ConsAssoc(x, Filter(rest, p), Filter(b, p));
    }
  }

  lemma EmptyConcat<T>(u: seq<T>)
    ensures [] + u == u
  {
  }

  lemma ConsAssoc<T>(x: T, u: seq<T>, v: seq<T>)
    ensures [x] + u + v == [x] + (u + v)
  {
  }

  /** `.max()` of a non-empty key column. */
  function MaxKey<T>(s: seq<T>, key: T -> int): (m: int)
    requires |s| > 0
    ensures exists i :: 0 <= i < |s| && key(s[i]) == m
    ensures forall i :: 0 <= i < |s| ==> key(s[i]) <= m
  {
    if |s| == 1 then key(s[0])
    else
      var rest := MaxKey(s[1..], key);
      assert forall i :: 1 <= i < |s| ==> s[i] == s[1..][i - 1];
      if key(s[0]) >= rest then key(s[0]) else rest
  }

  /** `.min()` of a non-empty key column. */
  function MinKey<T>(s: seq<T>, key: T -> int): (m: int)
    requires |s| > 0
    ensures exists i :: 0 <= i < |s| && key(s[i]) == m
    ensures forall i :: 0 <= i < |s| ==> m <= key(s[i])
  {
    if |s| == 1 then key(s[0])
    else
      var rest := MinKey(s[1..], key);
      assert forall i :: 1 <= i < |s| ==> s[i] == s[1..][i - 1];
      if key(s[0]) <= rest then key(s[0]) else rest
  }

  /** The rows are in non-decreasing order of key. */
  predicate SortedBy<T>(s: seq<T>, key: T -> int) {
    forall i, j :: 0 <= i < j < |s| ==> key(s[i]) <= key(s[j])
  }

  function Insert<T(==)>(x: T, s: seq<T>, key: T -> int): (r: seq<T>)
    requires SortedBy(s, key)
    ensures SortedBy(r, key)
    ensures multiset(r) == multiset(s) + multiset{x}
  {
    if |s| == 0 then [x]
    else if key(x) <= key(s[0]) then [x] + s
    else
      SortedTail(s, key);
      var tail := Insert(x, s[1..], key);
      assert s == [s[0]] + s[1..];
      BoundedByMultiset(key(s[0]), tail, s[1..], x, key);
      SortedCons(s[0], tail, key);
      [s[0]] + tail
  }

  /** Dropping the first row of sorted rows leaves sorted rows, all keyed at least as high as it. */
  lemma {:induction false} SortedTail<T>(s: seq<T>, key: T -> int)
    requires SortedBy(s, key) && |s| > 0
    ensures SortedBy(s[1..], key)
    ensures forall i :: 0 <= i < |s[1..]| ==> key(s[0]) <= key(s[1..][i])
  {
    assert forall i :: 0 <= i < |s[1..]| ==> s[1..][i] == s[i + 1];
  }

  /** A row keyed no higher than every row of sorted rows can go in front of them. */
  lemma {:induction false} SortedCons<T>(h: T, t: seq<T>, key: T -> int)
    requires SortedBy(t, key) && forall i :: 0 <= i < |t| ==> key(h) <= key(t[i])
    ensures SortedBy([h] + t, key)
  {
    var r := [h] + t;
    assert forall i :: 0 < i < |r| ==> r[i] == t[i - 1];
  }

  /** A lower bound on the keys of u and on the key of x bounds every row of u with x added. */
  lemma {:induction false} BoundedByMultiset<T>(lo: int, t: seq<T>, u: seq<T>, x: T, key: T -> int)
    requires multiset(t) == multiset(u) + multiset{x}
    requires lo <= key(x) && forall i :: 0 <= i < |u| ==> lo <= key(u[i])
    ensures forall i :: 0 <= i < |t| ==> lo <= key(t[i])
  {
    forall i | 0 <= i < |t| ensures lo <= key(t[i]) {
      var y := t[i];
      assert y in multiset(t);
      if y != x {
        assert y in multiset(u);
        var j :| 0 <= j < |u| && u[j] == y;
      }
    }
  }

  /**
   * `sort_values` on the key: some arrangement of the same rows in
   * non-decreasing key order. (Insertion sort; pandas' default quicksort may
   * order rows with equal keys differently, and nothing below depends on it.)
   */
  function SortBy<T(==)>(s: seq<T>, key: T -> int): (r: seq<T>)
    ensures SortedBy(r, key)
    ensures multiset(r) == multiset(s)
    ensures |r| == |s|
  {
    if |s| == 0 then []
    else
      assert s == [s[0]] + s[1..];
      Insert(s[0], SortBy(s[1..], key), key)
  }

  /** Sorting rows that are already in key order leaves them as they are. */
  lemma {:induction false} SortByKeepsSorted<T>(s: seq<T>, key: T -> int)
    requires SortedBy(s, key)
    ensures SortBy(s, key) == s
  {
    if |s| > 0 {
      SortedTail(s, key);
      SortByKeepsSorted(s[1..], key);
      assert s == [s[0]] + s[1..];
      InsertInFront(s[0], s[1..], key);
    }
  }

  /** A row keyed no higher than the first of sorted rows is inserted in front. */
  lemma {:induction false} InsertInFront<T>(x: T, t: seq<T>, key: T -> int)
    requires SortedBy(t, key) && (|t| == 0 || key(x) <= key(t[0]))
    ensures Insert(x, t, key) == [x] + t
  {
  }

  /** `int(n * 0.8)`, the number of training rows. */
  function SplitIndex(n: nat): (k: nat)
    ensures 5 * k <= 4 * n < 5 * k + 5
  {
    (4 * n) / 5
  }

  /**
   * The 80/20 split: training rows `iloc[:k]` and validation rows `iloc[k:]`
   * are disjoint, together make up the table, and every non-empty table
   * leaves at least one validation row; one row gives no training row at
   * all, and the model can be fitted (two training rows or more) exactly
   * from three rows on.
   */
  lemma SplitSizes<T>(s: seq<T>)
    ensures var k := SplitIndex(|s|);
      k <= |s| && |s[..k]| + |s[k..]| == |s| && s[..k] + s[k..] == s
      && (|s| >= 1 ==> |s[k..]| >= 1)
      && (|s| == 1 ==> s[..k] == [] && s[k..] == s)
      && (k >= 2 <==> |s| >= 3)
  {
  }

  /** No temporal leakage: in sorted rows, every training key is at most every validation key. */
  lemma TrainPrecedesValidation<T>(s: seq<T>, key: T -> int, k: nat)
    requires SortedBy(s, key) && k <= |s|
    ensures forall a, b :: a in s[..k] && b in s[k..] ==> key(a) <= key(b)
  {
    forall a, b | a in s[..k] && b in s[k..] ensures key(a) <= key(b) {
      var i :| 0 <= i < k && s[..k][i] == a;
      var j :| 0 <= j < |s| - k && s[k..][j] == b;
      assert s[i] == a && s[k + j] == b;
    }
  }
}
