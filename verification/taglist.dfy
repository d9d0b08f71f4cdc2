/** The tag overview (`TagListView.filteredTags`): one tag per distinct
    name, without the "to try" tag, sorted case-insensitively, narrowed by
    the search text. */
module TagList {
  import opened Seqs
  import opened Strings
  import opened Sorting
  import opened RecipeStore

  /** `order` lists tags of `tags`, each at most once: the result of the
      tag fetch. Tags with equal names appear in an order the fetch leaves
      open. */
  predicate FromTags(tags: map<TagId, Tag>, order: seq<TagId>)
  {
    Distinct(order) && forall t :: t in order ==> t in tags
  }

  function NameOf(tags: map<TagId, Tag>, t: TagId): string
  {
    if t in tags then tags[t].name else []
  }

  function Name(tags: map<TagId, Tag>): TagId -> string
  {
    (t: TagId) => NameOf(tags, t)
  }

  /** The names of the tags listed in `xs`. */
  function NamesIn(tags: map<TagId, Tag>, xs: seq<TagId>): set<string>
  {
    set t | t in xs :: NameOf(tags, t)
  }

  /** The tags in `order` whose names are not in `seen`, one per name. */
  function FirstPerName(tags: map<TagId, Tag>, order: seq<TagId>, seen: set<string>): (r: seq<TagId>)
    ensures IsSubsequence(r, order)
    ensures DistinctBy(r, Name(tags))
    ensures NamesIn(tags, r) == NamesIn(tags, order) - seen
    decreases |order|
  {
    if order == [] then []
    else
      var t := order[0];
      var tail := order[1..];
      assert forall u :: u in order <==> u == t || u in tail;
      assert NamesIn(tags, order) == NamesIn(tags, tail) + {NameOf(tags, t)};
      if NameOf(tags, t) in seen then
        var r := FirstPerName(tags, tail, seen);
        SubsequenceOfTail(r, order);
        r
      else
        var rest := FirstPerName(tags, tail, seen + {NameOf(tags, t)});
        var r := [t] + rest;
        assert r[1..] == rest;
        assert forall i :: 1 <= i < |r| ==> r[i] == rest[i - 1];
        assert forall u :: u in r <==> u == t || u in rest;
        assert NamesIn(tags, r) == NamesIn(tags, rest) + {NameOf(tags, t)};
        r
  }

  /** Each kept tag is the first tag of its name in `order`: no tag before
      it in `order` carries the same name. */
  lemma {:induction false} FirstPerNameKeepsFirst(tags: map<TagId, Tag>, order: seq<TagId>, seen: set<string>)
    requires Distinct(order)
    ensures var r := FirstPerName(tags, order, seen);
            forall i, j :: 0 <= j < i < |order| && order[i] in r ==>
              NameOf(tags, order[j]) != NameOf(tags, order[i])
    decreases |order|
  {
    if order != [] {
      var t0, tail := order[0], order[1..];
      var r := FirstPerName(tags, order, seen);
      var seen' := if NameOf(tags, t0) in seen then seen else seen + {NameOf(tags, t0)};
      var rest := FirstPerName(tags, tail, seen');
      assert forall t :: t in r && t != t0 ==> t in rest;
      FirstPerNameKeepsFirst(tags, tail, seen');
      forall i, j | 0 <= j < i < |order| && order[i] in r
        ensures NameOf(tags, order[j]) != NameOf(tags, order[i])
      {
        assert order[i] == tail[i - 1] && order[i] != t0;
        assert order[i] in rest;
        assert NameOf(tags, order[i]) in NamesIn(tags, rest);
        if j > 0 {
          assert order[j] == tail[j - 1];
        }
      }
    }
  }

  /** `Dictionary(grouping: tags, by: name).compactMap { $0.value.first }`:
      exactly one tag per distinct name, the first of its name in the
      fetch. */
  function UniqueByName(tags: map<TagId, Tag>, order: seq<TagId>): (r: seq<TagId>)
    requires Distinct(order)
    ensures Distinct(r) && forall t :: t in r ==> t in order
    ensures DistinctBy(r, Name(tags))
    ensures NamesIn(tags, r) == NamesIn(tags, order)
    ensures forall i, j :: 0 <= j < i < |order| && order[i] in r ==>
              NameOf(tags, order[j]) != NameOf(tags, order[i])
  {
    var r := FirstPerName(tags, order, {});
    FirstPerNameKeepsFirst(tags, order, {});
    SubsequenceMembers(r, order);
    SubsequenceDistinct(r, order);
    r
  }

  /** The sort key: the folded name. */
  function FoldedName(tags: map<TagId, Tag>, fold: Fold): TagId -> string
  {
    (t: TagId) => fold(NameOf(tags, t))
  }

  /** `localizedCaseInsensitiveCompare("Ausprobieren") != .orderedSame`. */
  function NotTryTag(tags: map<TagId, Tag>, fold: Fold): TagId -> bool
  {
    (t: TagId) => fold(NameOf(tags, t)) != fold(TryTag)
  }

  function NameContains(tags: map<TagId, Tag>, search: string, fold: Fold): TagId -> bool
  {
    (t: TagId) => FoldedContains(fold, NameOf(tags, t), search)
  }

  /** Deduplicated and without the try tag, before sorting. */
  function KeptTags(tags: map<TagId, Tag>, order: seq<TagId>, fold: Fold): (r: seq<TagId>)
    requires FromTags(tags, order)
    ensures Distinct(r) && DistinctBy(r, Name(tags))
    ensures forall t :: t in r ==> t in tags
    ensures forall n :: n in NamesIn(tags, r) <==> n in NamesIn(tags, order) && fold(n) != fold(TryTag)
  {
    var unique := UniqueByName(tags, order);
    var r := Filter(unique, NotTryTag(tags, fold));
    SubsequenceDistinctBy(r, unique, Name(tags));
    SubsequenceDistinct(r, unique);
    forall n | n in NamesIn(tags, order) && fold(n) != fold(TryTag)
      ensures n in NamesIn(tags, r)
    {
      assert n in NamesIn(tags, unique);
      var u :| u in unique && NameOf(tags, u) == n;
      assert u in r;
    }
    r
  }

  /** The overview before the search is applied: deduplicated, without the
      try tag, sorted by folded name. */
  function SortedTags(tags: map<TagId, Tag>, order: seq<TagId>, fold: Fold): (r: seq<TagId>)
    requires FromTags(tags, order)
    ensures Distinct(r) && SortedBy(r, FoldedName(tags, fold))
    ensures DistinctBy(r, Name(tags))
    ensures forall t :: t in r ==> t in tags
    ensures forall n :: n in NamesIn(tags, r) <==> n in NamesIn(tags, order) && fold(n) != fold(TryTag)
  {
    var kept := KeptTags(tags, order, fold);
    var r := SortBy(kept, FoldedName(tags, fold));
    DistinctPermutation(kept, r);
    PermutationMembers(kept, r);
    PermutationDistinctBy(kept, r, Name(tags));
    assert NamesIn(tags, r) == NamesIn(tags, kept);
    r
  }

  /** The search step: the tags of a sorted overview whose names contain
      the search text, in the same order. */
  function SearchTags(tags: map<TagId, Tag>, sorted: seq<TagId>, search: string, fold: Fold): (r: seq<TagId>)
    requires Distinct(sorted) && SortedBy(sorted, FoldedName(tags, fold))
    requires DistinctBy(sorted, Name(tags))
    ensures Distinct(r) && SortedBy(r, FoldedName(tags, fold))
    ensures DistinctBy(r, Name(tags))
    ensures forall t :: t in r ==> t in sorted
    ensures forall n :: n in NamesIn(tags, r) <==> n in NamesIn(tags, sorted) && FoldedContains(fold, n, search)
  {
    var r := Filter(sorted, NameContains(tags, search, fold));
    SubsequenceSorted(r, sorted, FoldedName(tags, fold));
    SubsequenceDistinctBy(r, sorted, Name(tags));
    SubsequenceDistinct(r, sorted);
    forall n | n in NamesIn(tags, sorted) && FoldedContains(fold, n, search)
      ensures n in NamesIn(tags, r)
    {
      var u :| u in sorted && NameOf(tags, u) == n;
      assert u in r;
    }
    r
  }

  /** `TagListView.filteredTags`: no two listed tags share a name, each is a
      tag of the store, the list is sorted by folded name, and a name is
      listed iff some fetched tag carries it, it does not fold to the try
      tag's name and it contains the search text (when there is one). */
  function FilteredTags(tags: map<TagId, Tag>, order: seq<TagId>, search: string, fold: Fold): (r: seq<TagId>)
    requires FromTags(tags, order)
    ensures Distinct(r) && SortedBy(r, FoldedName(tags, fold))
    ensures forall t :: t in r ==> t in tags
    ensures forall i, j :: 0 <= i < j < |r| ==> tags[r[i]].name != tags[r[j]].name
    ensures forall n :: n in NamesIn(tags, r) <==>
              && n in NamesIn(tags, order)
              && fold(n) != fold(TryTag)
              && (search == [] || FoldedContains(fold, n, search))
  {
    var sorted := SortedTags(tags, order, fold);
    var r := if search == [] then sorted else SearchTags(tags, sorted, search, fold);
    assert forall i, j :: 0 <= i < j < |r| ==> NameOf(tags, r[i]) != NameOf(tags, r[j]);
    r
  }

  /** When `order` is the whole tag fetch, the names it lists are all the
      tag names of the store. */
  lemma FetchNames(s: Store, order: seq<TagId>)
    requires forall t :: t in order <==> t in s.tags
    ensures NamesIn(s.tags, order) == AllTagNames(s)
  {
  }

  /** An order-preserving sub-list of a sorted list is sorted. */
  lemma {:induction false} SubsequenceSorted<T>(a: seq<T>, b: seq<T>, key: T -> string)
    requires IsSubsequence(a, b) && SortedBy(b, key)
    ensures SortedBy(a, key)
    decreases |b|
  {
    if a != [] && b != [] {
      SortedTail(b, key);
      if a[0] == b[0] {
        SubsequenceSorted(a[1..], b[1..], key);
        SubsequenceMembers(a[1..], b[1..]);
        forall i, j | 0 <= i < j < |a|
          ensures LexLe(key(a[i]), key(a[j]))
        {
          assert a[j] == a[1..][j - 1];
          if i == 0 {
            assert a[j] in b[1..];
            var k :| 0 <= k < |b[1..]| && b[1..][k] == a[j];
            assert b[k + 1] == a[j];
          } else {
            assert a[i] == a[1..][i - 1];
          }
        }
      } else {
        SubsequenceSorted(a, b[1..], key);
      }
    }
  }

  /** A search only narrows the overview: the result is an order-preserving
      sub-list of the unsearched overview, and an empty search returns it
      whole. */
  lemma TagSearchNarrows(tags: map<TagId, Tag>, order: seq<TagId>, search: string, fold: Fold)
    requires FromTags(tags, order)
    ensures IsSubsequence(FilteredTags(tags, order, search, fold), FilteredTags(tags, order, [], fold))
  {
    if search == [] {
      SubsequenceReflexive(FilteredTags(tags, order, [], fold));
    }
  }
}
