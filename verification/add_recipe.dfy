/** The add-recipe form (`AddRecipeView`): its fields, the "to try" mode
    that pre-fills the try tag, and the save that creates one Recipe with
    its ingredients and find-or-create tags and then clears the form. */
module AddRecipe {
  import opened Seqs
  import opened RecipeStore
  import opened FormLists

  datatype AddForm = AddForm(
    title: string,
    description: string,
    ingredients: seq<string>,
    ingredientText: string,
    tags: seq<string>,
    tagText: string,
    image: Option<Image>)

  /** `resetForm`: every field empty, no image. */
  const BlankForm: AddForm := AddForm("", "", [], "", [], "", None)

  /** The tag "+" button: the field is cleared and non-empty text is
      appended to the tags; nothing else changes. */
  function AddTagEntry(f: AddForm): (r: AddForm)
    ensures r == f.(tags := r.tags, tagText := [])
    ensures r.tags == if f.tagText == [] then f.tags else f.tags + [f.tagText]
  {
    var (list, text) := AddEntry(f.tags, f.tagText);
    assert list[..|f.tags|] == f.tags;
    f.(tags := list, tagText := text)
  }

  /** The ingredient "+" button, likewise for the ingredients. */
  function AddIngredientEntry(f: AddForm): (r: AddForm)
    ensures r == f.(ingredients := r.ingredients, ingredientText := [])
    ensures r.ingredients == if f.ingredientText == [] then f.ingredients else f.ingredients + [f.ingredientText]
  {
    var (list, text) := AddEntry(f.ingredients, f.ingredientText);
    assert list[..|f.ingredients|] == f.ingredients;
    f.(ingredients := list, ingredientText := text)
  }

  /** `removeTag(at:)`: the rows not swiped away stay, in their order;
      nothing else changes. */
  function RemoveTags(f: AddForm, offsets: set<nat>): (r: AddForm)
    requires forall i :: i in offsets ==> i < |f.tags|
    ensures r == f.(tags := r.tags)
    ensures |r.tags| == |f.tags| - |offsets| == |KeptIndices(|f.tags|, offsets)|
    ensures forall k :: 0 <= k < |r.tags| ==> r.tags[k] == f.tags[KeptIndices(|f.tags|, offsets)[k]]
  {
    f.(tags := RemoveEntries(f.tags, offsets))
  }

  /** `removeIngredient(at:)`, likewise. */
  function RemoveIngredients(f: AddForm, offsets: set<nat>): (r: AddForm)
    requires forall i :: i in offsets ==> i < |f.ingredients|
    ensures r == f.(ingredients := r.ingredients)
    ensures |r.ingredients| == |f.ingredients| - |offsets| == |KeptIndices(|f.ingredients|, offsets)|
    ensures forall k :: 0 <= k < |r.ingredients| ==>
              r.ingredients[k] == f.ingredients[KeptIndices(|f.ingredients|, offsets)[k]]
  {
    f.(ingredients := RemoveEntries(f.ingredients, offsets))
  }

  /** The form's lists hold no empty entry. */
  predicate WellFormed(f: AddForm)
  {
    NoEmptyEntries(f.ingredients) && NoEmptyEntries(f.tags)
  }

  /** Every action of the form keeps its lists free of empty entries, so a
      save never creates an ingredient or tag with an empty name. */
  lemma FormActionsKeepWellFormed(f: AddForm, isTry: bool, offsets: set<nat>)
    requires WellFormed(f)
    ensures WellFormed(AddIngredientEntry(f)) && WellFormed(AddTagEntry(f))
    ensures WellFormed(OnAppear(f, isTry)) && WellFormed(BlankForm)
    ensures (forall i :: i in offsets ==> i < |f.ingredients|) ==> WellFormed(RemoveIngredients(f, offsets))
    ensures (forall i :: i in offsets ==> i < |f.tags|) ==> WellFormed(RemoveTags(f, offsets))
  {
    AddEntryKeepsNoEmpty(f.ingredients, f.ingredientText);
    AddEntryKeepsNoEmpty(f.tags, f.tagText);
    if forall i :: i in offsets ==> i < |f.ingredients| {
      RemoveEntriesKeepsNoEmpty(f.ingredients, offsets);
    }
    if forall i :: i in offsets ==> i < |f.tags| {
      RemoveEntriesKeepsNoEmpty(f.tags, offsets);
    }
    var a := OnAppear(f, isTry);
    forall i | 0 <= i < |a.tags|
      ensures a.tags[i] != []
    {
      if i < |f.tags| {
        assert a.tags[i] == a.tags[..|f.tags|][i];
      }
    }
  }

  /** `onAppear`: in "to try" mode the try tag is added to the tag list
      unless it is already there. */
  function OnAppear(f: AddForm, isTry: bool): (r: AddForm)
    ensures isTry ==> TryTag in r.tags
    ensures |f.tags| <= |r.tags| && r.tags[..|f.tags|] == f.tags
    ensures multiset(r.tags)[TryTag] == if isTry && TryTag !in f.tags then 1 else multiset(f.tags)[TryTag]
    ensures forall n :: n != TryTag ==> multiset(r.tags)[n] == multiset(f.tags)[n]
    ensures r == f.(tags := r.tags)
  {
    if isTry && TryTag !in f.tags then f.(tags := f.tags + [TryTag]) else f
  }

  /** Showing the form again never adds the try tag a second time. */
  lemma OnAppearIdempotent(f: AddForm, isTry: bool)
    ensures OnAppear(OnAppear(f, isTry), isTry) == OnAppear(f, isTry)
  {
  }

  /** The `where tagName != "Ausprobieren" || !isTryRecipe` clause: in try
      mode the try tag has been attached already and is skipped. */
  function Skipping(isTry: bool): string -> bool
  {
    (n: string) => n != TryTag || !isTry
  }

  /** The new Recipe record before any tag is attached. */
  function NewRecipe(f: AddForm): Recipe
  {
    Recipe(Some(f.title), f.description, f.image, f.ingredients, {})
  }

  /** The first steps of the save: insert the record and, in try mode,
      attach the try tag. Yields the store and the new recipe's id. */
  function Prepare(s: Store, f: AddForm, isTry: bool): (r: (Store, RecipeId))
    requires Valid(s)
    ensures Valid(r.0) && r.1 == s.nextRecipe && r.1 !in s.recipes
    ensures r.0.recipes.Keys == s.recipes.Keys + {r.1}
    ensures r.0.recipes[r.1] == NewRecipe(f).(tags := r.0.recipes[r.1].tags)
    ensures forall o :: o in s.recipes ==> r.0.recipes[o] == s.recipes[o]
    ensures TagsExtend(s.tags, r.0.tags)
  {
    var (s1, id) := InsertRecipe(s, NewRecipe(f));
    (if isTry then AttachTagByName(s1, id, TryTag) else s1, id)
  }

  /** After the first steps the record carries just the try tag in try mode
      and no tag otherwise. */
  lemma PrepareNames(s: Store, f: AddForm, isTry: bool)
    requires Valid(s)
    ensures var (p, id) := Prepare(s, f, isTry);
            && NamesOf(p.tags, p.recipes[id].tags) == (if isTry then {TryTag} else {})
            && AllTagNames(p) == AllTagNames(s) + (if isTry then {TryTag} else {})
            && (UniqueTagNames(s.tags) ==> UniqueTagNames(p.tags))
  {
    var (s1, id) := InsertRecipe(s, NewRecipe(f));
    assert NamesOf(s1.tags, s1.recipes[id].tags) == {};
    assert AllTagNames(s1) == AllTagNames(s);
    if isTry {
      AttachTagByNameNames(s1, id, TryTag);
    }
  }

  /** `saveRecipe`: a new Recipe with the form's title, description,
      ingredients and image; in try mode the try tag found or created and
      attached; then each listed tag name found or created and attached;
      finally the form is cleared. Yields the new store, the new recipe's
      id and the cleared form. */
  function SaveRecipe(s: Store, f: AddForm, isTry: bool): (r: (Store, RecipeId, AddForm))
    requires Valid(s)
    ensures Valid(r.0) && r.2 == BlankForm
    ensures r.1 !in s.recipes && r.0.recipes.Keys == s.recipes.Keys + {r.1}
    ensures forall o :: o in s.recipes ==> r.0.recipes[o] == s.recipes[o]
    ensures r.0.recipes[r.1].title == Some(f.title) && r.0.recipes[r.1].description == f.description
    ensures r.0.recipes[r.1].ingredients == f.ingredients && r.0.recipes[r.1].image == f.image
    ensures TagsExtend(s.tags, r.0.tags)
  {
    var (p, id) := Prepare(s, f, isTry);
    (AttachTagsByName(p, id, Filter(f.tags, Skipping(isTry))), id, BlankForm)
  }

  /** Skipping the try tag loses nothing once it is added back. */
  lemma SkippingElems(tags: seq<string>, isTry: bool)
    ensures Elems(Filter(tags, Skipping(isTry))) + (if isTry then {TryTag} else {})
         == Elems(tags) + (if isTry then {TryTag} else {})
  {
  }

  /** The new recipe carries exactly the listed tag names, plus the try tag
      in try mode. */
  lemma SaveRecipeTagNames(s: Store, f: AddForm, isTry: bool)
    requires Valid(s)
    ensures var (r, id, _) := SaveRecipe(s, f, isTry);
            NamesOf(r.tags, r.recipes[id].tags) == Elems(f.tags) + (if isTry then {TryTag} else {})
  {
    var (p, id) := Prepare(s, f, isTry);
    PrepareNames(s, f, isTry);
    AttachTagsByNameNames(p, id, Filter(f.tags, Skipping(isTry)));
    SkippingElems(f.tags, isTry);
  }

  /** The store's tag names grow by exactly the same names. */
  lemma SaveRecipeAllNames(s: Store, f: AddForm, isTry: bool)
    requires Valid(s)
    ensures AllTagNames(SaveRecipe(s, f, isTry).0) == AllTagNames(s) + Elems(f.tags) + (if isTry then {TryTag} else {})
  {
    var (p, id) := Prepare(s, f, isTry);
    var kept := Filter(f.tags, Skipping(isTry));
    PrepareNames(s, f, isTry);
    AttachTagsByNameAllNames(p, id, kept);
    SkippingElems(f.tags, isTry);
    UnionRegroup(AllTagNames(s), if isTry then {TryTag} else {}, Elems(kept), Elems(f.tags));
  }

  lemma UnionRegroup<T>(a: set<T>, t: set<T>, e: set<T>, f: set<T>)
    requires e + t == f + t
    ensures a + t + e == a + f + t
  {
  }

  /** Saving never creates a second Tag record with an existing name. */
  lemma SaveRecipeKeepsNamesUnique(s: Store, f: AddForm, isTry: bool)
    requires Valid(s) && UniqueTagNames(s.tags)
    ensures UniqueTagNames(SaveRecipe(s, f, isTry).0.tags)
  {
    var (p, id) := Prepare(s, f, isTry);
    PrepareNames(s, f, isTry);
    AttachTagsByNameKeepsNamesUnique(p, id, Filter(f.tags, Skipping(isTry)));
  }

  /** The saved recipe lands in the "to try" list iff it was saved in try
      mode or the try tag was typed in by hand. */
  lemma SavedRecipeIsTry(s: Store, f: AddForm, isTry: bool)
    requires Valid(s)
    ensures var (r, id, _) := SaveRecipe(s, f, isTry);
            HasTagNamed(r, r.recipes[id], TryTag) <==> isTry || TryTag in f.tags
  {
    SaveRecipeTagNames(s, f, isTry);
  }
}
