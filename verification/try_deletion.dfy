/** Swipe-to-delete in the "to try" list (`TryRecipeListView.deleteRecipe`):
    the offsets index the list as shown, and the recipes at those offsets
    are deleted in one save. */
module TryDeletion {
  import opened Seqs
  import opened RecipeStore
  import opened RecipeQueries

  /** The recipes shown at the given offsets of a list. */
  function AtOffsets(list: seq<RecipeId>, offsets: set<nat>): (r: set<RecipeId>)
    requires forall i :: i in offsets ==> i < |list|
    ensures forall id :: id in r <==> exists i :: i in offsets && list[i] == id
  {
    set i | i in offsets :: list[i]
  }

  /** `deleteRecipe(at:)`: delete the recipes at `offsets` of the try list
      and commit once. */
  function DeleteTryRecipesAt(s: Store, fetch: seq<RecipeId>, offsets: set<nat>): (r: Store)
    requires Valid(s)
    requires forall i :: i in offsets ==> i < |TryList(s, fetch)|
    ensures Valid(r) && r.tags == s.tags
    ensures r.recipes.Keys == s.recipes.Keys - AtOffsets(TryList(s, fetch), offsets)
    ensures forall o :: o in r.recipes ==> r.recipes[o] == s.recipes[o]
  {
    DeleteRecipes(s, AtOffsets(TryList(s, fetch), offsets))
  }

  /** After the deletion the try list shows exactly the rows that were not
      swiped away: the same recipes as removing those rows from the list. */
  lemma TryListAfterDelete(s: Store, fetch: seq<RecipeId>, offsets: set<nat>)
    requires Valid(s) && FromStore(s, fetch)
    requires forall i :: i in offsets ==> i < |TryList(s, fetch)|
    ensures var list := TryList(s, fetch);
            var r := DeleteTryRecipesAt(s, fetch, offsets);
            forall id :: id in TryList(r, fetch) <==> id in RemoveAtOffsets(list, offsets)
  {
    var list := TryList(s, fetch);
    var r := DeleteTryRecipesAt(s, fetch, offsets);
    SubsequenceDistinct(list, fetch);
    forall id
      ensures id in TryList(r, fetch) <==> id in RemoveAtOffsets(list, offsets)
    {
      if id in TryList(r, fetch) {
        assert id in list;
        var i :| 0 <= i < |list| && list[i] == id;
        assert id !in AtOffsets(list, offsets);
        assert i !in offsets;
      }
      if id in RemoveAtOffsets(list, offsets) {
        var i :| 0 <= i < |list| && i !in offsets && list[i] == id;
        assert forall k :: k in offsets ==> k != i && list[k] != id;
        assert id in r.recipes;
      }
    }
  }

  /** Deleting no rows changes nothing. */
  lemma DeleteNoRows(s: Store, fetch: seq<RecipeId>)
    requires Valid(s)
    ensures DeleteTryRecipesAt(s, fetch, {}) == s
  {
    assert AtOffsets(TryList(s, fetch), {}) == {};
    assert s.recipes - {} == s.recipes;
  }
}
