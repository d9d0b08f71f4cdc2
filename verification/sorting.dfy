/** Sorting by a string key in ascending lexicographic order. Stands in for
    Swift's `sorted()` on strings and `sorted(by:)` with a case-insensitive
    comparison, whose tie order the source leaves unspecified. */
module Sorting {
  import opened Strings

  predicate SortedBy<T>(xs: seq<T>, key: T -> string)
  {
    forall i, j :: 0 <= i < j < |xs| ==> LexLe(key(xs[i]), key(xs[j]))
  }

  function Id(s: string): string { s }

  /** Insert `x` in front of the first element whose key is not below it. */
  function InsertBy<T>(x: T, xs: seq<T>, key: T -> string): (r: seq<T>)
    requires SortedBy(xs, key)
    ensures SortedBy(r, key)
    ensures multiset(r) == multiset(xs) + multiset{x}
    decreases |xs|
  {
    if xs == [] then [x]
    else if LexLe(key(x), key(xs[0])) then
      var r := [x] + xs;
      forall j | 1 <= j < |r|
        ensures LexLe(key(x), key(r[j]))
      {
        if j > 1 { LexLeTransitive(key(x), key(xs[0]), key(xs[j - 1])); }
      }
      assert xs == r[1..];
      r
    else
      LexLeTotal(key(x), key(xs[0]));
      var tail := InsertBy(x, xs[1..], key);
      var r := [xs[0]] + tail;
      assert xs == [xs[0]] + xs[1..];
      forall j | 1 <= j < |r|
        ensures LexLe(key(xs[0]), key(r[j]))
      {
        assert r[j] in multiset(tail);
        assert r[j] == x || r[j] in multiset(xs[1..]);
        if r[j] != x {
          var k :| 0 <= k < |xs[1..]| && xs[1..][k] == r[j];
          assert xs[k + 1] == r[j];
        }
      }
      r
  }

  /** Insertion sort: the result is sorted by `key` and a permutation of
      the input. */
  function SortBy<T>(xs: seq<T>, key: T -> string): (r: seq<T>)
    ensures SortedBy(r, key)
    ensures multiset(r) == multiset(xs)
    ensures |r| == |xs|
    decreases |xs|
  {
    if xs == [] then []
    else
      assert xs == [xs[0]] + xs[1..];
      InsertBy(xs[0], SortBy(xs[1..], key), key)
  }

  /** The head of a sorted sequence is at most every element of it. */
  lemma HeadIsLeast(xs: seq<string>, y: string)
    requires SortedBy(xs, Id) && y in xs
    ensures LexLe(xs[0], y)
  {
    var k :| 0 <= k < |xs| && xs[k] == y;
    if k == 0 {
      LexLeTotal(y, y);
    }
  }

  lemma SortedTail<T>(xs: seq<T>, key: T -> string)
    requires xs != [] && SortedBy(xs, key)
    ensures SortedBy(xs[1..], key)
  {
    forall i, j | 0 <= i < j < |xs| - 1
      ensures LexLe(key(xs[1..][i]), key(xs[1..][j]))
    {
      assert xs[1..][i] == xs[i + 1] && xs[1..][j] == xs[j + 1];
    }
  }

  lemma MultisetTail(a: seq<string>, b: seq<string>)
    requires a != [] && b != [] && a[0] == b[0]
    requires multiset(a) == multiset(b)
    ensures multiset(a[1..]) == multiset(b[1..])
  {
    assert a == [a[0]] + a[1..] && b == [b[0]] + b[1..];
    calc {
      multiset(a[1..]);
      multiset(a) - multiset{a[0]};
      multiset(b) - multiset{b[0]};
      multiset(b[1..]);
    }
  }

  /** Two sorted sequences of strings with the same elements are equal: the
      sorted form of a list determines and is determined by its multiset. */
  lemma {:induction false} SortedUnique(a: seq<string>, b: seq<string>)
    requires SortedBy(a, Id) && SortedBy(b, Id)
    requires multiset(a) == multiset(b)
    ensures a == b
    decreases |a|
  {
    if a != [] {
      assert |b| == |a| by { assert |multiset(a)| == |multiset(b)|; }
      assert a[0] in multiset(b) && b[0] in multiset(a);
      HeadIsLeast(b, a[0]);
      HeadIsLeast(a, b[0]);
      LexLeAntisymmetric(a[0], b[0]);
      MultisetTail(a, b);
      SortedTail(a, Id);
      SortedTail(b, Id);
      SortedUnique(a[1..], b[1..]);
      assert a == [a[0]] + a[1..] && b == [b[0]] + b[1..];
    }
  }

  /** Comparing sorted copies of two string lists is the same as comparing
      their multisets. */
  lemma SortedEqualIffSameElements(a: seq<string>, b: seq<string>)
    ensures SortBy(a, Id) == SortBy(b, Id) <==> multiset(a) == multiset(b)
  {
    if multiset(a) == multiset(b) {
      SortedUnique(SortBy(a, Id), SortBy(b, Id));
    }
  }
}
