/** Generic sequence helpers shared by every part of the recipe model:
    an Option type, order-preserving filtering, safe indexing, removal at a
    set of offsets, and the shuffle that stands in for `shuffled()`. */
module Seqs {

  datatype Option<+T> = None | Some(value: T)

  /** `a` can be obtained from `b` by deleting elements (order is kept). */
  predicate IsSubsequence<T(==)>(a: seq<T>, b: seq<T>)
    decreases |b|
  {
    if a == [] then true
    else if b == [] then false
    else if a[0] == b[0] then IsSubsequence(a[1..], b[1..])
    else IsSubsequence(a, b[1..])
  }

  predicate Distinct<T(==)>(xs: seq<T>)
  {
    forall i, j :: 0 <= i < j < |xs| ==> xs[i] != xs[j]
  }

  /** The elements of `xs` satisfying `p`, in their original order. */
  function Filter<T(!new)>(xs: seq<T>, p: T -> bool): (r: seq<T>)
    ensures |r| <= |xs|
    ensures forall x :: x in r <==> x in xs && p(x)
    ensures IsSubsequence(r, xs)
    ensures Distinct(xs) ==> Distinct(r)
    decreases |xs|
  {
    if xs == [] then []
    else
      var rest := Filter(xs[1..], p);
      assert forall x :: x in xs <==> x == xs[0] || x in xs[1..];
      if p(xs[0]) then
        var r := [xs[0]] + rest;
        assert r[1..] == rest;
        r
      else
        SubsequenceOfTail(rest, xs);
        rest
  }

  lemma SubsequenceOfTail<T>(a: seq<T>, b: seq<T>)
    requires b != []
    requires IsSubsequence(a, b[1..])
    ensures IsSubsequence(a, b)
    decreases |b|, 0
  {
    if a != [] && a[0] == b[0] {
      SubsequenceDropHead(a, b[1..]);
    }
  }

  lemma SubsequenceDropHead<T>(a: seq<T>, b: seq<T>)
    requires a != []
    requires IsSubsequence(a, b)
    ensures IsSubsequence(a[1..], b)
    decreases |b|, 1
  {
    if a[0] == b[0] {
      if a[1..] != [] {
        SubsequenceOfTail(a[1..], b);
      }
    } else {
      SubsequenceDropHead(a, b[1..]);
      if a[1..] != [] {
        SubsequenceOfTail(a[1..], b);
      }
    }
  }

  /** Filtering with two complementary predicates splits the input: every
      element lands in exactly one of the two results. */
  lemma {:induction false} FilterComplement<T(!new)>(xs: seq<T>, p: T -> bool, q: T -> bool)
    requires forall x :: x in xs ==> (q(x) <==> !p(x))
    ensures |Filter(xs, p)| + |Filter(xs, q)| == |xs|
    ensures forall x :: x in xs ==> (x in Filter(xs, p) <==> x !in Filter(xs, q))
    decreases |xs|
  {
    if xs != [] {
      assert forall x :: x in xs[1..] ==> x in xs;
      FilterComplement(xs[1..], p, q);
    }
  }

  /** A filter whose predicate implies another's keeps a subsequence of it. */
  lemma {:induction false} FilterMonotone<T(!new)>(xs: seq<T>, p: T -> bool, q: T -> bool)
    requires forall x :: x in xs && p(x) ==> q(x)
    ensures IsSubsequence(Filter(xs, p), Filter(xs, q))
    decreases |xs|
  {
    if xs != [] {
      assert forall x :: x in xs[1..] ==> x in xs;
      FilterMonotone(xs[1..], p, q);
      var a, b := Filter(xs[1..], p), Filter(xs[1..], q);
      if p(xs[0]) {
        assert Filter(xs, p) == [xs[0]] + a && Filter(xs, q) == [xs[0]] + b;
        assert ([xs[0]] + a)[1..] == a && ([xs[0]] + b)[1..] == b;
      } else if q(xs[0]) {
        assert Filter(xs, q) == [xs[0]] + b;
        assert ([xs[0]] + b)[1..] == b;
        SubsequenceOfTail(a, [xs[0]] + b);
      }
    }
  }

  /** `xs[safe: i]`: the element at `i` when `i` is a valid index, else None. */
  function SafeGet<T>(xs: seq<T>, i: int): (r: Option<T>)
    ensures r.Some? <==> 0 <= i < |xs|
    ensures r.Some? ==> r.value == xs[i]
  {
    if 0 <= i < |xs| then Some(xs[i]) else None
  }

  /** The indices below `n` that are not in `offsets`, in increasing
      order. */
  function KeptIndices(n: nat, offsets: set<nat>): (r: seq<nat>)
    ensures forall k :: 0 <= k < |r| ==> r[k] < n
    ensures forall i: nat :: i in r <==> i < n && i !in offsets
    ensures forall a, b :: 0 <= a < b < |r| ==> r[a] < r[b]
    decreases n
  {
    if n == 0 then []
    else
      var front := KeptIndices(n - 1, offsets - {n - 1});
      if n - 1 in offsets then front else front + [n - 1]
  }

  /** `remove(atOffsets:)`: drop the elements at the given indices. */
  function RemoveAtOffsets<T(!new)>(xs: seq<T>, offsets: set<nat>): (r: seq<T>)
    requires forall i :: i in offsets ==> i < |xs|
    ensures |r| == |xs| - |offsets|
    ensures IsSubsequence(r, xs)
    ensures forall i :: 0 <= i < |xs| && i !in offsets ==> xs[i] in r
    ensures forall x :: x in r ==> exists i :: 0 <= i < |xs| && i !in offsets && xs[i] == x
    decreases |xs|
  {
    if xs == [] then
      assert offsets == {};
      []
    else
      var n := |xs| - 1;
      var front := xs[..n];
      var rest := RemoveAtOffsets(front, offsets - {n});
      SubsequenceAppend(rest, front, xs[n]);
      if n in offsets then
        assert |offsets - {n}| == |offsets| - 1;
        SubsequenceOfPrefix(rest, front, [xs[n]]);
        assert front + [xs[n]] == xs;
        rest
      else
        assert offsets - {n} == offsets;
        assert xs == front + [xs[n]];
        rest + [xs[n]]
  }

  /** Position by position: the element at position `k` of the result is
      the one at the `k`-th index not removed. */
  lemma {:induction false} RemoveAtOffsetsPositions<T(!new)>(xs: seq<T>, offsets: set<nat>)
    requires forall i :: i in offsets ==> i < |xs|
    ensures var r, kept := RemoveAtOffsets(xs, offsets), KeptIndices(|xs|, offsets);
            && |r| == |kept|
            && forall k :: 0 <= k < |r| ==> r[k] == xs[kept[k]]
    decreases |xs|
  {
    if xs != [] {
      var n := |xs| - 1;
      var front := xs[..n];
      RemoveAtOffsetsPositions(front, offsets - {n});
      var rest, keptFront := RemoveAtOffsets(front, offsets - {n}), KeptIndices(n, offsets - {n});
      var r, kept := RemoveAtOffsets(xs, offsets), KeptIndices(|xs|, offsets);
      forall k | 0 <= k < |rest|
        ensures rest[k] == xs[keptFront[k]]
      {
        assert front[keptFront[k]] == xs[keptFront[k]];
      }
      if n in offsets {
        assert r == rest && kept == keptFront;
      } else {
        assert r == rest + [xs[n]] && kept == keptFront + [n];
      }
    }
  }

  lemma SubsequenceAppend<T>(a: seq<T>, b: seq<T>, x: T)
    requires IsSubsequence(a, b)
    ensures IsSubsequence(a + [x], b + [x])
    decreases |b|
  {
    if a == [] {
      assert a + [x] == [x];
      SubsequenceSingleton(x, b);
    } else if a[0] == b[0] {
      assert (a + [x])[1..] == a[1..] + [x];
      assert (b + [x])[1..] == b[1..] + [x];
      SubsequenceAppend(a[1..], b[1..], x);
    } else {
      assert (b + [x])[1..] == b[1..] + [x];
      SubsequenceAppend(a, b[1..], x);
    }
  }

  lemma SubsequenceSingleton<T>(x: T, b: seq<T>)
    ensures IsSubsequence([x], b + [x])
    decreases |b|
  {
    if b != [] {
      assert (b + [x])[1..] == b[1..] + [x];
      SubsequenceSingleton(x, b[1..]);
    }
  }

  lemma SubsequenceOfPrefix<T>(a: seq<T>, b: seq<T>, c: seq<T>)
    requires IsSubsequence(a, b)
    ensures IsSubsequence(a, b + c)
    decreases |b|
  {
    if a != [] {
      if b == [] {
        assert false;
      } else {
        assert (b + c)[1..] == b[1..] + c;
        if a[0] == b[0] {
          SubsequenceOfPrefix(a[1..], b[1..], c);
        } else {
          SubsequenceOfPrefix(a, b[1..], c);
        }
      }
    }
  }

  /** Every element of a subsequence is an element of the whole. */
  lemma SubsequenceMembers<T>(a: seq<T>, b: seq<T>)
    requires IsSubsequence(a, b)
    ensures forall x :: x in a ==> x in b
    decreases |b|
  {
    if a != [] && b != [] {
      if a[0] == b[0] {
        SubsequenceMembers(a[1..], b[1..]);
        assert forall x :: x in a ==> x == a[0] || x in a[1..];
      } else {
        SubsequenceMembers(a, b[1..]);
      }
    }
  }

  /** The first random roll, or 0 once the rolls run out. */
  function Roll(rolls: seq<nat>): nat
  {
    if rolls == [] then 0 else rolls[0]
  }

  function Rest(rolls: seq<nat>): seq<nat>
  {
    if rolls == [] then [] else rolls[1..]
  }

  /** `shuffled()`: a Fisher-Yates shuffle driven by the random numbers in
      `rolls`. */
  function Shuffle<T>(xs: seq<T>, rolls: seq<nat>): (r: seq<T>)
    ensures |r| == |xs|
    ensures multiset(r) == multiset(xs)
    decreases |xs|
  {
    if |xs| <= 1 then xs
    else
      var j := Roll(rolls) % |xs|;
      var rest := xs[..j] + xs[j + 1..];
      assert xs == xs[..j] + [xs[j]] + xs[j + 1..];
      Shuffle(rest, Rest(rolls)) + [xs[j]]
  }

  /** A sequence without repeats holds each element at most once. */
  lemma DistinctCounts<T>(xs: seq<T>, x: T)
    requires Distinct(xs)
    ensures multiset(xs)[x] <= 1
    decreases |xs|
  {
    if xs != [] {
      assert xs == [xs[0]] + xs[1..];
      assert Distinct(xs[1..]) by {
        forall i, j | 0 <= i < j < |xs[1..]|
          ensures xs[1..][i] != xs[1..][j]
        {
          assert xs[1..][i] == xs[i + 1] && xs[1..][j] == xs[j + 1];
        }
      }
      DistinctCounts(xs[1..], x);
      if xs[0] == x {
        assert x !in xs[1..];
      }
    }
  }

  /** A permutation of a sequence without repeats has no repeats. */
  lemma DistinctPermutation<T>(xs: seq<T>, ys: seq<T>)
    requires Distinct(xs) && multiset(ys) == multiset(xs)
    ensures Distinct(ys)
  {
    forall i, j | 0 <= i < j < |ys|
      ensures ys[i] != ys[j]
    {
      if ys[i] == ys[j] {
        var x := ys[i];
        assert ys == ys[..j] + ys[j..];
        assert x in ys[..j] && x in ys[j..];
        assert multiset(ys)[x] == multiset(ys[..j])[x] + multiset(ys[j..])[x];
        DistinctCounts(xs, x);
        assert false;
      }
    }
  }

  lemma SubsequenceReflexive<T>(xs: seq<T>)
    ensures IsSubsequence(xs, xs)
    decreases |xs|
  {
    if xs != [] {
      SubsequenceReflexive(xs[1..]);
    }
  }

  /** No two positions of `xs` share a key. */
  predicate DistinctBy<T, K(==)>(xs: seq<T>, key: T -> K)
  {
    forall i, j :: 0 <= i < j < |xs| ==> key(xs[i]) != key(xs[j])
  }

  /** An order-preserving sub-list keeps keys pairwise different. */
  lemma {:induction false} SubsequenceDistinctBy<T, K>(a: seq<T>, b: seq<T>, key: T -> K)
    requires IsSubsequence(a, b) && DistinctBy(b, key)
    ensures DistinctBy(a, key)
    decreases |b|
  {
    if a != [] && b != [] {
      var tb := b[1..];
      assert DistinctBy(tb, key) by {
        forall i, j | 0 <= i < j < |tb|
          ensures key(tb[i]) != key(tb[j])
        {
          assert tb[i] == b[i + 1] && tb[j] == b[j + 1];
        }
      }
      if a[0] == b[0] {
        SubsequenceDistinctBy(a[1..], tb, key);
        SubsequenceMembers(a[1..], tb);
        forall i, j | 0 <= i < j < |a|
          ensures key(a[i]) != key(a[j])
        {
          assert a[j] == a[1..][j - 1];
          if i == 0 {
            assert a[j] in tb;
            var k :| 0 <= k < |tb| && tb[k] == a[j];
            assert b[k + 1] == a[j];
          } else {
            assert a[i] == a[1..][i - 1];
          }
        }
      } else {
        SubsequenceDistinctBy(a, tb, key);
      }
    }
  }

  /** A sub-list of a sequence without repeats has no repeats. */
  lemma {:induction false} SubsequenceDistinct<T>(a: seq<T>, b: seq<T>)
    requires IsSubsequence(a, b) && Distinct(b)
    ensures Distinct(a)
  {
    SubsequenceDistinctBy(a, b, (x: T) => x);
  }

  /** Permutations have the same members. */
  lemma PermutationMembers<T>(a: seq<T>, b: seq<T>)
    requires multiset(a) == multiset(b)
    ensures forall x :: x in a <==> x in b
  {
    forall x
      ensures x in a <==> x in b
    {
      assert x in a <==> x in multiset(a);
      assert x in b <==> x in multiset(b);
    }
  }

  /** A permutation of a sequence whose keys are pairwise different has
      pairwise different keys. */
  lemma PermutationDistinctBy<T, K>(a: seq<T>, b: seq<T>, key: T -> K)
    requires multiset(a) == multiset(b) && DistinctBy(a, key)
    ensures DistinctBy(b, key)
  {
    PermutationMembers(a, b);
    assert Distinct(a) by {
      forall i, j | 0 <= i < j < |a|
        ensures a[i] != a[j]
      {
        assert key(a[i]) != key(a[j]);
      }
    }
    DistinctPermutation(a, b);
    forall i, j | 0 <= i < j < |b|
      ensures key(b[i]) != key(b[j])
    {
      assert b[i] in a && b[j] in a;
      var p :| 0 <= p < |a| && a[p] == b[i];
      var q :| 0 <= q < |a| && a[q] == b[j];
      assert b[i] != b[j];
      if p < q {
        assert key(a[p]) != key(a[q]);
      } else {
        assert key(a[q]) != key(a[p]);
      }
    }
  }

  /** A filter that every element passes keeps the whole sequence. */
  lemma {:induction false} FilterAll<T(!new)>(xs: seq<T>, p: T -> bool)
    requires forall x :: x in xs ==> p(x)
    ensures Filter(xs, p) == xs
    decreases |xs|
  {
    if xs != [] {
      assert forall x :: x in xs[1..] ==> x in xs;
      FilterAll(xs[1..], p);
      assert [xs[0]] + xs[1..] == xs;
    }
  }

  /** Filtering keeps every passing element as often as it occurs and drops
      every other one entirely. */
  lemma {:induction false} FilterCounts<T(!new)>(xs: seq<T>, p: T -> bool)
    ensures forall x :: multiset(Filter(xs, p))[x] == if p(x) then multiset(xs)[x] else 0
    decreases |xs|
  {
    if xs != [] {
      FilterCounts(xs[1..], p);
      assert xs == [xs[0]] + xs[1..];
    }
  }

  /** Filtering distributes over appending one element. */
  lemma {:induction false} FilterSnoc<T(!new)>(xs: seq<T>, y: T, p: T -> bool)
    ensures Filter(xs + [y], p) == Filter(xs, p) + (if p(y) then [y] else [])
    decreases |xs|
  {
    if xs == [] {
      assert [] + [y] == [y];
      assert [y][1..] == [];
    } else {
      assert (xs + [y])[0] == xs[0];
      assert (xs + [y])[1..] == xs[1..] + [y];
      FilterSnoc(xs[1..], y, p);
    }
  }
}
