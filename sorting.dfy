/** Ordering rows by an SQL `ORDER BY` list: each row gets a key of integers (a descending
    column enters negated) and rows are compared lexicographically on their keys. */
module Sorting {

  /** `a` sorts no later than `b`: a lexicographic comparison of integer keys. */
  predicate LexLe(a: seq<int>, b: seq<int>)
  {
    if |a| == 0 then true
    else if |b| == 0 then false
    else a[0] < b[0] || (a[0] == b[0] && LexLe(a[1..], b[1..]))
  }

  lemma {:induction false} LexLeTotal(a: seq<int>, b: seq<int>)
    ensures LexLe(a, b) || LexLe(b, a)
  {
    if |a| > 0 && |b| > 0 && a[0] == b[0] {
      LexLeTotal(a[1..], b[1..]);
    }
  }

  lemma {:induction false} LexLeTransitive(a: seq<int>, b: seq<int>, c: seq<int>)
    requires LexLe(a, b) && LexLe(b, c)
    ensures LexLe(a, c)
  {
    if |a| > 0 && |b| > 0 && |c| > 0 && a[0] == b[0] == c[0] {
      LexLeTransitive(a[1..], b[1..], c[1..]);
    }
  }

  predicate SortedBy<T>(xs: seq<T>, key: T -> seq<int>)
  {
    forall i, j :: 0 <= i < j < |xs| ==> LexLe(key(xs[i]), key(xs[j]))
  }

  /** Inserting `x` into a sorted sequence before the first element it does not sort after. */
  function InsertBy<T>(x: T, xs: seq<T>, key: T -> seq<int>): (ys: seq<T>)
    requires SortedBy(xs, key)
    ensures multiset(ys) == multiset(xs) + multiset{x}
    ensures SortedBy(ys, key)
  {
    if xs == [] then [x]
    else if LexLe(key(x), key(xs[0])) then
      InsertFrontSorted(x, xs, key);
      [x] + xs
    else
      var rest := InsertBy(x, xs[1..], key);
      LexLeTotal(key(x), key(xs[0]));
      ConsSorted(xs[0], rest, xs[1..], x, key);
      assert xs == [xs[0]] + xs[1..];
      [xs[0]] + rest
  }

  lemma InsertFrontSorted<T>(x: T, xs: seq<T>, key: T -> seq<int>)
    requires xs != [] && SortedBy(xs, key) && LexLe(key(x), key(xs[0]))
    ensures SortedBy([x] + xs, key)
  {
    forall j | 0 < j < |xs|
      ensures LexLe(key(x), key(xs[j]))
    {
      LexLeTransitive(key(x), key(xs[0]), key(xs[j]));
    }
  }

  lemma ConsSorted<T>(h: T, rest: seq<T>, tail: seq<T>, x: T, key: T -> seq<int>)
    requires SortedBy(rest, key) && multiset(rest) == multiset(tail) + multiset{x}
    requires forall j :: 0 <= j < |tail| ==> LexLe(key(h), key(tail[j]))
    requires LexLe(key(h), key(x))
    ensures SortedBy([h] + rest, key)
  {
    forall j | 0 <= j < |rest|
      ensures LexLe(key(h), key(rest[j]))
    {
      assert rest[j] in multiset(rest);
      if rest[j] != x {
        assert rest[j] in multiset(tail);
        var k :| 0 <= k < |tail| && tail[k] == rest[j];
      }
    }
  }

  /** Insertion sort by `key`: the same rows, in key order. */
  function SortBy<T>(xs: seq<T>, key: T -> seq<int>): (ys: seq<T>)
    ensures multiset(ys) == multiset(xs)
    ensures SortedBy(ys, key)
  {
    if xs == [] then []
    else
      assert xs == [xs[0]] + xs[1..];
      InsertBy(xs[0], SortBy(xs[1..], key), key)
  }

  predicate Distinct<T(==)>(xs: seq<T>)
  {
    forall i, j :: 0 <= i < j < |xs| ==> xs[i] != xs[j]
  }

  lemma {:induction false} DistinctCount<T>(xs: seq<T>, x: T)
    requires Distinct(xs)
    ensures multiset(xs)[x] <= 1
  {
    if xs != [] {
      assert xs == [xs[0]] + xs[1..];
      DistinctCount(xs[1..], x);
      if xs[0] == x {
        assert x !in xs[1..];
      }
    }
  }

  /** Reordering keeps a sequence free of repeats. */
  lemma DistinctPermutation<T>(xs: seq<T>, ys: seq<T>)
    requires Distinct(xs) && multiset(xs) == multiset(ys)
    ensures Distinct(ys)
  {
    forall i, j | 0 <= i < j < |ys|
      ensures ys[i] != ys[j]
    {
      if ys[i] == ys[j] {
        var x := ys[i];
        assert ys == ys[..i] + [x] + ys[i + 1..j] + [x] + ys[j + 1..];
        assert multiset(ys)[x] >= 2;
        DistinctCount(xs, x);
        assert false;
      }
    }
  }
}
