/** Python's `sorted(xs, key=...)` and `list.sort(key=...)`: a stable sort by a
    total preorder, written as insertion sort on sequences, and the
    lexicographic order on strings that Python's `<` uses. */
module Sorting {

  /** Any two elements are comparable. */
  ghost predicate Total<T(!new)>(le: (T, T) -> bool) {
    forall a, b :: le(a, b) || le(b, a)
  }

  /** The order is transitive. */
  ghost predicate Transitive<T(!new)>(le: (T, T) -> bool) {
    forall a, b, c :: le(a, b) && le(b, c) ==> le(a, c)
  }

  /** Every element is `le` every later one. */
  predicate SortedBy<T>(xs: seq<T>, le: (T, T) -> bool) {
    forall i, j :: 0 <= i < j < |xs| ==> le(xs[i], xs[j])
  }

  /** `x` placed before the first element it is `le`, so that it stays ahead
      of the elements it ties with. */
  function Insert<T>(x: T, xs: seq<T>, le: (T, T) -> bool): (r: seq<T>)
    ensures multiset(r) == multiset(xs) + multiset{x}
    decreases |xs|
  {
    if |xs| == 0 || le(x, xs[0]) then [x] + xs
    else
      assert xs == [xs[0]] + xs[1..];
      [xs[0]] + Insert(x, xs[1..], le)
  }

  /** Inserting into a sorted sequence keeps it sorted. */
  lemma {:induction false} InsertSorted<T(!new)>(x: T, xs: seq<T>, le: (T, T) -> bool)
    requires Total(le) && Transitive(le) && SortedBy(xs, le)
    ensures SortedBy(Insert(x, xs, le), le)
    decreases |xs|
  {
    if |xs| > 0 && !le(x, xs[0]) {
      var tail := xs[1..];
      assert SortedBy(tail, le) by {
        forall i, j | 0 <= i < j < |tail| ensures le(tail[i], tail[j]) {
          assert tail[i] == xs[i + 1] && tail[j] == xs[j + 1];
        }
      }
      InsertSorted(x, tail, le);
      var ins := Insert(x, tail, le);
      var r := [xs[0]] + ins;
      forall j | 0 < j < |r| ensures le(xs[0], r[j]) {
        assert r[j] in multiset(ins);
        assert r[j] in multiset(tail) + multiset{x};
        if r[j] != x {
          var k :| 0 <= k < |tail| && tail[k] == r[j];
          assert xs[k + 1] == r[j];
        }
      }
    }
  }

  /** `sorted(xs, key=...)`: the elements of `xs`, ordered by `le`, ties in
      their original order. */
  function SortBy<T>(xs: seq<T>, le: (T, T) -> bool): (r: seq<T>)
    ensures multiset(r) == multiset(xs)
    decreases |xs|
  {
    if |xs| == 0 then []
    else
      assert xs == [xs[0]] + xs[1..];
      Insert(xs[0], SortBy(xs[1..], le), le)
  }

  /** The result of `SortBy` is sorted. */
  lemma {:induction false} SortBySorted<T(!new)>(xs: seq<T>, le: (T, T) -> bool)
    requires Total(le) && Transitive(le)
    ensures SortedBy(SortBy(xs, le), le)
    decreases |xs|
  {
    if |xs| > 0 {
      SortBySorted(xs[1..], le);
      InsertSorted(xs[0], SortBy(xs[1..], le), le);
    }
  }

  /** The elements of `xs` that tie with `k` under `le`, in their order. */
  function Ties<T>(xs: seq<T>, le: (T, T) -> bool, k: T): seq<T>
    decreases |xs|
  {
    if |xs| == 0 then []
    else (if le(xs[0], k) && le(k, xs[0]) then [xs[0]] else []) + Ties(xs[1..], le, k)
  }

  /** Inserting `x` puts it ahead of everything it ties with and keeps the
      order of the rest. */
  lemma {:induction false} InsertTies<T(!new)>(x: T, xs: seq<T>, le: (T, T) -> bool, k: T)
    requires Transitive(le)
    ensures Ties(Insert(x, xs, le), le, k)
            == (if le(x, k) && le(k, x) then [x] else []) + Ties(xs, le, k)
    decreases |xs|
  {
    var r := Insert(x, xs, le);
    if |xs| == 0 || le(x, xs[0]) {
      assert r[1..] == xs;
    } else {
      InsertTies(x, xs[1..], le, k);
      assert r[1..] == Insert(x, xs[1..], le);
      assert xs[0] == r[0];
      if le(x, k) && le(k, x) {
        assert !(le(xs[0], k) && le(k, xs[0]));
      }
    }
  }

  /** `SortBy` is stable: the elements that tie with any `k` come out in the
      order they went in. */
  lemma {:induction false} SortByStable<T(!new)>(xs: seq<T>, le: (T, T) -> bool, k: T)
    requires Transitive(le)
    ensures Ties(SortBy(xs, le), le, k) == Ties(xs, le, k)
    decreases |xs|
  {
    if |xs| > 0 {
      SortByStable(xs[1..], le, k);
      InsertTies(xs[0], SortBy(xs[1..], le), le, k);
    }
  }

  /** A sorted result has the same length and the same elements. */
  lemma SortByElements<T>(xs: seq<T>, le: (T, T) -> bool)
    ensures |SortBy(xs, le)| == |xs|
    ensures forall x :: x in SortBy(xs, le) <==> x in xs
  {
    var r := SortBy(xs, le);
    assert |multiset(r)| == |multiset(xs)|;
    forall x ensures x in r <==> x in xs {
      assert x in r <==> x in multiset(r);
    }
  }

  /** Python's `<=` on strings: lexicographic by code point, a prefix first. */
  predicate StrLe(a: string, b: string)
    decreases |a|
  {
    |a| == 0 || (|b| > 0 && (a[0] < b[0] || (a[0] == b[0] && StrLe(a[1..], b[1..]))))
  }

  /** Any two strings are ordered one way or the other. */
  lemma {:induction false} StrLeTotal(a: string, b: string)
    ensures StrLe(a, b) || StrLe(b, a)
    decreases |a|
  {
    if |a| > 0 && |b| > 0 && a[0] == b[0] {
      StrLeTotal(a[1..], b[1..]);
    }
  }

  /** `StrLe` is transitive. */
  lemma {:induction false} StrLeTrans(a: string, b: string, c: string)
    requires StrLe(a, b) && StrLe(b, c)
    ensures StrLe(a, c)
    decreases |a|
  {
    if |a| > 0 && a[0] == b[0] && b[0] == c[0] {
      StrLeTrans(a[1..], b[1..], c[1..]);
    }
  }

  /** Strings that are `StrLe` both ways are equal. */
  lemma {:induction false} StrLeAntisymmetric(a: string, b: string)
    requires StrLe(a, b) && StrLe(b, a)
    ensures a == b
    decreases |a|
  {
    if |a| > 0 {
      StrLeAntisymmetric(a[1..], b[1..]);
      assert a == [a[0]] + a[1..] && b == [b[0]] + b[1..];
    }
  }
}
