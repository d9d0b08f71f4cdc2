/** The read-only views of the store: the main recipe list with its title
    search, the "to try" list, the recipes carrying a tag name, the tag
    exclusion filter of the home deck, and the ingredient search. Each
    takes the fetch (the store's recipe ids in the order the fetch request
    yields them) and keeps an order-preserving sub-list of it. */
module RecipeQueries {
  import opened Seqs
  import opened Strings
  import opened RecipeStore

  /** `fetch` lists recipes of `s`, each at most once. */
  predicate FromStore(s: Store, fetch: seq<RecipeId>)
  {
    Distinct(fetch) && forall id :: id in fetch ==> id in s.recipes
  }

  /** `fetch` lists every recipe of `s` exactly once. */
  predicate IsFetch(s: Store, fetch: seq<RecipeId>)
  {
    FromStore(s, fetch) && forall id :: id in s.recipes ==> id in fetch
  }

  /** `ANY tags.name == name`: the recipe carries some tag with exactly
      this name. */
  function WithTagName(s: Store, name: string): RecipeId -> bool
  {
    id => id in s.recipes && HasTagNamed(s, s.recipes[id], name)
  }

  /** The recipe carries no tag named "Ausprobieren" and, when the search
      text is non-empty, has a title containing it case-insensitively. */
  function InMainList(s: Store, search: string, fold: Fold): RecipeId -> bool
  {
    id => id in s.recipes && !HasTagNamed(s, s.recipes[id], TryTag)
          && (search == [] || (s.recipes[id].title.Some?
                               && FoldedContains(fold, s.recipes[id].title.value, search)))
  }

  /** `RecipeListView.filteredRecipes`. */
  function MainList(s: Store, fetch: seq<RecipeId>, search: string, fold: Fold): (r: seq<RecipeId>)
    ensures IsSubsequence(r, fetch)
    ensures forall id :: id in r <==>
              && id in fetch && id in s.recipes
              && TryTag !in NamesOf(s.tags, s.recipes[id].tags)
              && (search != [] ==> s.recipes[id].title.Some?
                                   && FoldedContains(fold, s.recipes[id].title.value, search))
    ensures Distinct(fetch) ==> Distinct(r)
  {
    Filter(fetch, InMainList(s, search, fold))
  }

  /** The recipes carrying a tag named exactly `name`, in fetch order
      (`FilteredRecipeListView`, `FilteredRecipeListView1`). */
  function RecipesWithTagName(s: Store, fetch: seq<RecipeId>, name: string): (r: seq<RecipeId>)
    ensures IsSubsequence(r, fetch)
    ensures forall id :: id in r <==>
              id in fetch && id in s.recipes
              && exists t :: t in s.recipes[id].tags && t in s.tags && s.tags[t].name == name
    ensures Distinct(fetch) ==> Distinct(r)
  {
    var r := Filter(fetch, WithTagName(s, name));
    assert forall id :: id in s.recipes ==>
      (HasTagNamed(s, s.recipes[id], name) <==>
       exists t :: t in s.recipes[id].tags && t in s.tags && s.tags[t].name == name);
    r
  }

  /** `TryRecipeListView`: the recipes tagged "Ausprobieren". */
  function TryList(s: Store, fetch: seq<RecipeId>): (r: seq<RecipeId>)
    ensures IsSubsequence(r, fetch)
    ensures forall id :: id in r <==> id in fetch && id in s.recipes && HasTagNamed(s, s.recipes[id], TryTag)
  {
    Filter(fetch, WithTagName(s, TryTag))
  }

  /** With an empty search the main list and the try list split the fetch:
      every recipe is in exactly one of them. */
  lemma MainAndTryPartition(s: Store, fetch: seq<RecipeId>, fold: Fold)
    requires FromStore(s, fetch)
    ensures |MainList(s, fetch, [], fold)| + |TryList(s, fetch)| == |fetch|
    ensures forall id :: id in fetch ==> (id in MainList(s, fetch, [], fold) <==> id !in TryList(s, fetch))
  {
    FilterComplement(fetch, InMainList(s, [], fold), WithTagName(s, TryTag));
  }

  /** A search only ever narrows the main list: the searched list is a
      sub-list of the unsearched one. */
  lemma SearchNarrowsMainList(s: Store, fetch: seq<RecipeId>, search: string, fold: Fold)
    ensures IsSubsequence(MainList(s, fetch, search, fold), MainList(s, fetch, [], fold))
  {
    FilterMonotone(fetch, InMainList(s, search, fold), InMainList(s, [], fold));
  }

  /** `FilteredRecipeListView1.fetchRecipes` for the selected tag `t`. With
      unique tag names it lists exactly the recipes carrying `t` itself. */
  lemma TagRecipesAreTagged(s: Store, fetch: seq<RecipeId>, t: TagId)
    requires Valid(s) && t in s.tags && UniqueTagNames(s.tags)
    ensures forall id :: id in RecipesWithTagName(s, fetch, s.tags[t].name) <==>
              id in fetch && id in s.recipes && t in s.recipes[id].tags
  {
    var name := s.tags[t].name;
    forall id | id in fetch && id in s.recipes && t in s.recipes[id].tags
      ensures id in RecipesWithTagName(s, fetch, name)
    {
      assert t in s.recipes[id].tags && t in s.tags && s.tags[t].name == name;
    }
  }

  /** `!recipeTags.contains { excludedTags.contains($0.name ?? "") }`. */
  function NoExcludedTag(s: Store, excluded: seq<string>): RecipeId -> bool
  {
    id => id in s.recipes && forall t :: t in s.recipes[id].tags && t in s.tags ==> s.tags[t].name !in excluded
  }

  /** The recipe filter of `HomeView.filterRecipes`. */
  function ExcludingTags(s: Store, fetch: seq<RecipeId>, excluded: seq<string>): (r: seq<RecipeId>)
    ensures IsSubsequence(r, fetch)
    ensures forall id :: id in r <==>
              id in fetch && id in s.recipes && NamesOf(s.tags, s.recipes[id].tags) !! Elems(excluded)
    ensures Distinct(fetch) ==> Distinct(r)
  {
    var r := Filter(fetch, NoExcludedTag(s, excluded));
    forall id | id in s.recipes
      ensures NoExcludedTag(s, excluded)(id) <==> NamesOf(s.tags, s.recipes[id].tags) !! Elems(excluded)
    {
      if !NoExcludedTag(s, excluded)(id) {
        var t :| t in s.recipes[id].tags && t in s.tags && s.tags[t].name in excluded;
        assert s.tags[t].name in NamesOf(s.tags, s.recipes[id].tags);
      }
    }
    r
  }

  /** Excluding nothing keeps every recipe of the fetch. */
  lemma ExcludingNothing(s: Store, fetch: seq<RecipeId>)
    requires FromStore(s, fetch)
    ensures ExcludingTags(s, fetch, []) == fetch
    decreases |fetch|
  {
    if fetch != [] {
      assert FromStore(s, fetch[1..]) by {
        forall i, j | 0 <= i < j < |fetch[1..]|
          ensures fetch[1..][i] != fetch[1..][j]
        {
          assert fetch[1..][i] == fetch[i + 1] && fetch[1..][j] == fetch[j + 1];
        }
      }
      ExcludingNothing(s, fetch[1..]);
    }
  }

  /** Excluding more names never brings a recipe back. */
  lemma ExcludingMoreNarrows(s: Store, fetch: seq<RecipeId>, fewer: seq<string>, more: seq<string>)
    requires forall n :: n in fewer ==> n in more
    ensures IsSubsequence(ExcludingTags(s, fetch, more), ExcludingTags(s, fetch, fewer))
  {
    FilterMonotone(fetch, NoExcludedTag(s, more), NoExcludedTag(s, fewer));
  }

  /** `ANY ingredients.name CONTAINS[cd] term` for every term: the AND of
      the per-term predicates (an empty AND holds). */
  predicate MatchesAllTerms(ingredients: seq<string>, terms: seq<string>, fold: Fold)
  {
    forall k :: 0 <= k < |terms| ==> SomeIngredientContains(ingredients, terms[k], fold)
  }

  /** `ANY ingredients.name CONTAINS[cd] term`. */
  predicate SomeIngredientContains(ingredients: seq<string>, term: string, fold: Fold)
  {
    exists i :: 0 <= i < |ingredients| && FoldedContains(fold, ingredients[i], term)
  }

  function HasAllTerms(s: Store, terms: seq<string>, fold: Fold): RecipeId -> bool
  {
    id => id in s.recipes && MatchesAllTerms(s.recipes[id].ingredients, terms, fold)
  }

  /** `IngredientSearchView.searchRecipes`. */
  function IngredientSearch(s: Store, fetch: seq<RecipeId>, terms: seq<string>, fold: Fold): (r: seq<RecipeId>)
    ensures IsSubsequence(r, fetch)
    ensures forall id :: id in r <==>
              id in fetch && id in s.recipes && MatchesAllTerms(s.recipes[id].ingredients, terms, fold)
    ensures Distinct(fetch) ==> Distinct(r)
  {
    Filter(fetch, HasAllTerms(s, terms, fold))
  }

  /** Dropping the last term of a search keeps every match. */
  lemma MatchesFewerTerms(ingredients: seq<string>, terms: seq<string>, term: string, fold: Fold)
    requires MatchesAllTerms(ingredients, terms + [term], fold)
    ensures MatchesAllTerms(ingredients, terms, fold)
  {
    forall k | 0 <= k < |terms|
      ensures SomeIngredientContains(ingredients, terms[k], fold)
    {
      assert (terms + [term])[k] == terms[k];
    }
  }

  /** Every prefix of the terms is matched by a recipe matching all of
      them: the search can be undone term by term. */
  lemma MatchesPrefixTerms(ingredients: seq<string>, terms: seq<string>, n: nat, fold: Fold)
    requires MatchesAllTerms(ingredients, terms, fold) && n <= |terms|
    ensures MatchesAllTerms(ingredients, terms[..n], fold)
  {
    forall k | 0 <= k < n
      ensures SomeIngredientContains(ingredients, terms[..n][k], fold)
    {
      assert terms[..n][k] == terms[k];
    }
  }

  /** Adding a search term never adds a result: the predicate is a
      conjunction, so the longer search yields a sub-list. */
  lemma MoreTermsNarrow(s: Store, fetch: seq<RecipeId>, terms: seq<string>, term: string, fold: Fold)
    ensures IsSubsequence(IngredientSearch(s, fetch, terms + [term], fold), IngredientSearch(s, fetch, terms, fold))
    ensures forall id :: id in IngredientSearch(s, fetch, terms + [term], fold) ==> id in IngredientSearch(s, fetch, terms, fold)
  {
    forall id | HasAllTerms(s, terms + [term], fold)(id)
      ensures HasAllTerms(s, terms, fold)(id)
    {
      MatchesFewerTerms(s.recipes[id].ingredients, terms, term, fold);
    }
    FilterMonotone(fetch, HasAllTerms(s, terms + [term], fold), HasAllTerms(s, terms, fold));
    SubsequenceMembers(IngredientSearch(s, fetch, terms + [term], fold), IngredientSearch(s, fetch, terms, fold));
  }
}
