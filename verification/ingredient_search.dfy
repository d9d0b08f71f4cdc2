/** The ingredient search screen (`IngredientSearchView`): a list of
    search terms, each added through a text field, and the recipes whose
    ingredients match every term. */
module IngredientSearchForm {
  import opened Seqs
  import opened Strings
  import opened RecipeStore
  import opened RecipeQueries

  datatype Search = Search(text: string, terms: seq<string>, results: seq<RecipeId>)

  /** The screen's state after `resetSearch`, and its initial state. */
  const Cleared: Search := Search([], [], [])

  /** The state the screen keeps: terms are trimmed, non-empty and
      pairwise different, and the results are the search for the terms
      (none before the first term). */
  predicate Consistent(s: Store, fetch: seq<RecipeId>, fold: Fold, st: Search)
  {
    && Distinct(st.terms)
    && (forall i :: 0 <= i < |st.terms| ==> st.terms[i] != [] && Trim(st.terms[i]) == st.terms[i])
    && st.results == (if st.terms == [] then [] else IngredientSearch(s, fetch, st.terms, fold))
  }

  /** `addIngredient`: the trimmed text becomes a new term and the search
      runs, unless the trimmed text is empty or already a term; either way
      the field is cleared. */
  function AddIngredient(s: Store, fetch: seq<RecipeId>, fold: Fold, st: Search): (r: Search)
    ensures r.text == []
    ensures Trim(st.text) == [] || Trim(st.text) in st.terms ==> r.terms == st.terms && r.results == st.results
    ensures Trim(st.text) != [] && Trim(st.text) !in st.terms ==>
              && r.terms == st.terms + [Trim(st.text)]
              && (forall id :: id in r.results <==>
                    id in fetch && id in s.recipes && MatchesAllTerms(s.recipes[id].ingredients, r.terms, fold))
  {
    var t := Trim(st.text);
    if t != [] && t !in st.terms then
      var terms := st.terms + [t];
      Search([], terms, IngredientSearch(s, fetch, terms, fold))
    else
      st.(text := [])
  }

  /** `resetSearch`. */
  function ResetSearch(st: Search): (r: Search)
    ensures r.terms == [] && r.results == [] && r.text == []
  {
    Cleared
  }

  /** Adding a term keeps the screen consistent. */
  lemma AddIngredientConsistent(s: Store, fetch: seq<RecipeId>, fold: Fold, st: Search)
    requires Consistent(s, fetch, fold, st)
    ensures Consistent(s, fetch, fold, AddIngredient(s, fetch, fold, st))
  {
    var t := Trim(st.text);
    if t != [] && t !in st.terms {
      TrimIdempotent(st.text);
      AppendTerm(st.terms, t);
    }
  }

  /** A trimmed, non-empty term not yet listed keeps the term list
      well-formed. */
  lemma AppendTerm(terms: seq<string>, t: string)
    requires Distinct(terms) && forall i :: 0 <= i < |terms| ==> terms[i] != [] && Trim(terms[i]) == terms[i]
    requires t != [] && Trim(t) == t && t !in terms
    ensures Distinct(terms + [t])
    ensures forall i :: 0 <= i < |terms + [t]| ==> (terms + [t])[i] != [] && Trim((terms + [t])[i]) == (terms + [t])[i]
  {
    var r := terms + [t];
    forall i, j | 0 <= i < j < |r|
      ensures r[i] != r[j]
    {
      if j < |terms| {
        assert r[i] == terms[i] && r[j] == terms[j];
      } else {
        assert r[i] == terms[i] && r[j] == t;
      }
    }
    forall i | 0 <= i < |r|
      ensures r[i] != [] && Trim(r[i]) == r[i]
    {
      if i < |terms| {
        assert r[i] == terms[i];
      }
    }
  }

  /** Resetting always yields a consistent screen, whatever the store. */
  lemma ResetConsistent(s: Store, fetch: seq<RecipeId>, fold: Fold, st: Search)
    ensures Consistent(s, fetch, fold, ResetSearch(st))
  {
  }

  /** Once a term is in place, each further term only narrows the results. */
  lemma AddIngredientNarrows(s: Store, fetch: seq<RecipeId>, fold: Fold, st: Search)
    requires Consistent(s, fetch, fold, st) && st.terms != []
    ensures var r := AddIngredient(s, fetch, fold, st);
            IsSubsequence(r.results, st.results)
  {
    var t := Trim(st.text);
    if t != [] && t !in st.terms {
      MoreTermsNarrow(s, fetch, st.terms, t, fold);
    } else {
      SubsequenceReflexive(st.results);
    }
  }
}
