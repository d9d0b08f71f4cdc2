/** The edit-recipe form (`EditRecipeView`): opening it copies the recipe's
    fields, and saving writes them back. As written, the save deletes every
    Tag record the recipe carried, from every recipe, and creates a fresh
    Tag per listed name without looking for an existing one. */
module EditRecipe {
  import opened Seqs
  import opened RecipeStore
  import opened FormLists

  datatype EditForm = EditForm(
    title: string,
    description: string,
    image: Option<Image>,
    tags: seq<string>,
    ingredients: seq<string>,
    tagText: string,
    ingredientText: string)

  /** `order` lists each id of `ids` exactly once: the iteration order of a
      set, which the program leaves open. */
  predicate Enumerates(order: seq<TagId>, ids: set<TagId>)
  {
    Distinct(order) && (forall t :: t in order ==> t in ids) && (forall t :: t in ids ==> t in order)
  }

  /** `init(recipe:)`: the title (empty when missing), description and
      image of the recipe; its tag names in the set's iteration order
      `tagOrder`; its ingredient names in iteration order `ingredientOrder`. */
  function OpenEditForm(s: Store, rid: RecipeId, tagOrder: seq<TagId>, ingredientOrder: seq<string>): (f: EditForm)
    requires Valid(s) && rid in s.recipes
    requires Enumerates(tagOrder, s.recipes[rid].tags)
    requires multiset(ingredientOrder) == multiset(s.recipes[rid].ingredients)
    ensures s.recipes[rid].title.Some? ==> f.title == s.recipes[rid].title.value
    ensures s.recipes[rid].title.None? ==> f.title == []
    ensures f.description == s.recipes[rid].description && f.image == s.recipes[rid].image
    ensures Elems(f.tags) == NamesOf(s.tags, s.recipes[rid].tags)
    ensures multiset(f.ingredients) == multiset(s.recipes[rid].ingredients)
    ensures f.tagText == [] && f.ingredientText == []
  {
    var rec := s.recipes[rid];
    var names := seq(|tagOrder|, i requires 0 <= i < |tagOrder| => s.tags[tagOrder[i]].name);
    assert forall n :: n in names <==> n in NamesOf(s.tags, rec.tags) by {
      forall n | n in NamesOf(s.tags, rec.tags)
        ensures n in names
      {
        var t :| t in rec.tags && t in s.tags && s.tags[t].name == n;
        var i :| 0 <= i < |tagOrder| && tagOrder[i] == t;
        assert names[i] == n;
      }
    }
    EditForm(if rec.title.Some? then rec.title.value else [], rec.description, rec.image,
             names, ingredientOrder, [], [])
  }

  /** The tag "+" button of the edit form: the field is cleared and non-empty text is
      appended to the tags; nothing else changes. */
  function AddTagEntry(f: EditForm): (r: EditForm)
    ensures r == f.(tags := r.tags, tagText := [])
    ensures r.tags == if f.tagText == [] then f.tags else f.tags + [f.tagText]
  {
    var (list, text) := AddEntry(f.tags, f.tagText);
    assert list[..|f.tags|] == f.tags;
    f.(tags := list, tagText := text)
  }

  /** The ingredient "+" button of the edit form, likewise for the ingredients. */
  function AddIngredientEntry(f: EditForm): (r: EditForm)
    ensures r == f.(ingredients := r.ingredients, ingredientText := [])
    ensures r.ingredients == if f.ingredientText == [] then f.ingredients else f.ingredients + [f.ingredientText]
  {
    var (list, text) := AddEntry(f.ingredients, f.ingredientText);
    assert list[..|f.ingredients|] == f.ingredients;
    f.(ingredients := list, ingredientText := text)
  }

  /** Swipe-to-delete in the tag list of the edit form: the rows not swiped away stay,
      in their order; nothing else changes. */
  function RemoveTags(f: EditForm, offsets: set<nat>): (r: EditForm)
    requires forall i :: i in offsets ==> i < |f.tags|
    ensures r == f.(tags := r.tags)
    ensures |r.tags| == |f.tags| - |offsets| == |KeptIndices(|f.tags|, offsets)|
    ensures forall k :: 0 <= k < |r.tags| ==> r.tags[k] == f.tags[KeptIndices(|f.tags|, offsets)[k]]
  {
    f.(tags := RemoveEntries(f.tags, offsets))
  }

  /** Swipe-to-delete in the ingredient list of the edit form, likewise. */
  function RemoveIngredients(f: EditForm, offsets: set<nat>): (r: EditForm)
    requires forall i :: i in offsets ==> i < |f.ingredients|
    ensures r == f.(ingredients := r.ingredients)
    ensures |r.ingredients| == |f.ingredients| - |offsets| == |KeptIndices(|f.ingredients|, offsets)|
    ensures forall k :: 0 <= k < |r.ingredients| ==>
              r.ingredients[k] == f.ingredients[KeptIndices(|f.ingredients|, offsets)[k]]
  {
    f.(ingredients := RemoveEntries(f.ingredients, offsets))
  }

  /** The edit form's lists hold no empty entry. */
  predicate WellFormed(f: EditForm)
  {
    NoEmptyEntries(f.ingredients) && NoEmptyEntries(f.tags)
  }

  /** Every list action of the edit form keeps its lists free of empty
      entries, so the save never creates a Tag or ingredient with an empty
      name from them. */
  lemma EditActionsKeepWellFormed(f: EditForm, offsets: set<nat>)
    requires WellFormed(f)
    ensures WellFormed(AddIngredientEntry(f)) && WellFormed(AddTagEntry(f))
    ensures (forall i :: i in offsets ==> i < |f.ingredients|) ==> WellFormed(RemoveIngredients(f, offsets))
    ensures (forall i :: i in offsets ==> i < |f.tags|) ==> WellFormed(RemoveTags(f, offsets))
  {
    AddEntryKeepsNoEmpty(f.ingredients, f.ingredientText);
    AddEntryKeepsNoEmpty(f.tags, f.tagText);
    if forall i :: i in offsets ==> i < |f.ingredients| {
      RemoveEntriesKeepsNoEmpty(f.ingredients, offsets);
    }
    if forall i :: i in offsets ==> i < |f.tags| {
      RemoveEntriesKeepsNoEmpty(f.tags, offsets);
    }
  }

  /** The record's own fields as the save writes them: the title becomes
      present, the image is replaced only when one is selected, the
      ingredients are replaced by the listed ones. */
  function Edited(rec: Recipe, f: EditForm): (r: Recipe)
    ensures r.title == Some(f.title) && r.description == f.description
    ensures r.ingredients == f.ingredients && r.tags == rec.tags
    ensures f.image.Some? ==> r.image == f.image
    ensures f.image.None? ==> r.image == rec.image
  {
    rec.(title := Some(f.title), description := f.description,
         image := if f.image.Some? then f.image else rec.image,
         ingredients := f.ingredients)
  }

  /** A fresh Tag record per name, each attached to the recipe, with no
      lookup of an existing Tag of that name. */
  function AttachNewTags(s: Store, rid: RecipeId, names: seq<string>): (r: Store)
    requires Valid(s) && rid in s.recipes
    ensures Valid(r) && TagsAddedTo(s, r, rid)
    ensures s.nextTag <= r.nextTag
    ensures forall t :: t in r.tags && t !in s.tags ==> s.nextTag <= t
    decreases |names|
  {
    if names == [] then s
    else
      var s2 := AddNewTag(s, rid, names[0]);
      AddNewTagAdds(s, rid, names[0]);
      var r := AttachNewTags(s2, rid, names[1..]);
      TagsAddedToTransitive(s, s2, r, rid);
      r
  }

  /** Creating one Tag and attaching it adds just that tag, under the next
      tag id, to the store and to the recipe. */
  function AddNewTag(s: Store, rid: RecipeId, name: string): (r: Store)
    requires Valid(s) && rid in s.recipes
    ensures Valid(r) && rid in r.recipes && r.nextTag == s.nextTag + 1
    ensures r.tags == s.tags[s.nextTag := Tag(name)]
    ensures r.recipes[rid].tags == s.recipes[rid].tags + {s.nextTag}
  {
    var (s1, t) := NewTag(s, name);
    AttachTag(s1, rid, t)
  }

  /** ... and changes nothing else. */
  lemma AddNewTagAdds(s: Store, rid: RecipeId, name: string)
    requires Valid(s) && rid in s.recipes
    ensures TagsAddedTo(s, AddNewTag(s, rid, name), rid)
  {
  }

  /** `AttachNewTags` uses the next `|names|` tag ids and no other. */
  lemma {:induction false} AttachNewTagsKeys(s: Store, rid: RecipeId, names: seq<string>)
    requires Valid(s) && rid in s.recipes
    ensures var r := AttachNewTags(s, rid, names);
            && r.nextTag == s.nextTag + |names|
            && (forall t :: t in r.tags <==> t in s.tags || s.nextTag <= t < s.nextTag + |names|)
    decreases |names|
  {
    if names != [] {
      var s2 := AddNewTag(s, rid, names[0]);
      AttachNewTagsKeys(s2, rid, names[1..]);
      var r := AttachNewTags(s2, rid, names[1..]);
      assert AttachNewTags(s, rid, names) == r;
      forall t ensures t in r.tags <==> t in s.tags || s.nextTag <= t < s.nextTag + |names| {
        assert t in s2.tags <==> t in s.tags || t == s.nextTag;
      }
    }
  }

  /** The recipe gains exactly those new ids. */
  lemma {:induction false} AttachNewTagsLinks(s: Store, rid: RecipeId, names: seq<string>)
    requires Valid(s) && rid in s.recipes
    ensures var r := AttachNewTags(s, rid, names);
            forall t :: t in r.recipes[rid].tags <==> t in s.recipes[rid].tags || s.nextTag <= t < s.nextTag + |names|
    decreases |names|
  {
    if names != [] {
      var s2 := AddNewTag(s, rid, names[0]);
      AttachNewTagsLinks(s2, rid, names[1..]);
      var r := AttachNewTags(s2, rid, names[1..]);
      assert AttachNewTags(s, rid, names) == r;
      forall t ensures t in r.recipes[rid].tags <==> t in s.recipes[rid].tags || s.nextTag <= t < s.nextTag + |names| {
        assert t in s2.recipes[rid].tags <==> t in s.recipes[rid].tags || t == s.nextTag;
      }
    }
  }

  /** `tags` holds, under each id `first + i`, a Tag named `names[i]`. */
  predicate RecordsFrom(tags: map<TagId, Tag>, first: nat, names: seq<string>)
  {
    forall t: TagId :: first <= t < first + |names| ==> t in tags && tags[t] == Tag(names[t - first])
  }

  /** The inductive step of `AttachNewTagsRecords`, on the tag maps alone. */
  lemma RecordsStep(before: map<TagId, Tag>, after: map<TagId, Tag>, n: nat, names: seq<string>)
    requires names != [] && n in before && before[n] == Tag(names[0]) && TagsExtend(before, after)
    requires RecordsFrom(after, n + 1, names[1..])
    ensures RecordsFrom(after, n, names)
  {
    forall t: TagId | n <= t < n + |names|
      ensures t in after && after[t] == Tag(names[t - n])
    {
      if t == n {
        assert n in after && after[n] == before[n];
      } else {
        assert names[t - n] == names[1..][t - (n + 1)];
      }
    }
  }

  /** The tag map after inserting one Tag per name under consecutive ids
      from `next`. */
  function InsertTags(tags: map<TagId, Tag>, next: nat, names: seq<string>): map<TagId, Tag>
    decreases |names|
  {
    if names == [] then tags
    else InsertTags(tags[next := Tag(names[0])], next + 1, names[1..])
  }

  /** Inserting leaves each new id holding its listed name, duplicates
      included. */
  lemma {:induction false} InsertTagsRecords(tags: map<TagId, Tag>, next: nat, names: seq<string>)
    requires forall t :: t in tags ==> t < next
    ensures RecordsFrom(InsertTags(tags, next, names), next, names)
    decreases |names|
  {
    if names != [] {
      var tags1 := tags[next := Tag(names[0])];
      InsertTagsRecords(tags1, next + 1, names[1..]);
      InsertTagsExtends(tags1, next + 1, names[1..]);
      RecordsStep(tags1, InsertTags(tags1, next + 1, names[1..]), next, names);
    }
  }

  /** Tags below `next` are kept by the insertion. */
  lemma {:induction false} InsertTagsExtends(tags: map<TagId, Tag>, next: nat, names: seq<string>)
    requires forall t :: t in tags ==> t < next
    ensures TagsExtend(tags, InsertTags(tags, next, names))
    decreases |names|
  {
    if names != [] {
      var tags1 := tags[next := Tag(names[0])];
      InsertTagsExtends(tags1, next + 1, names[1..]);
    }
  }

  /** `AttachNewTags` writes the store's tag map exactly as `InsertTags`
      does. */
  lemma {:induction false} AttachNewTagsInserts(s: Store, rid: RecipeId, names: seq<string>)
    requires Valid(s) && rid in s.recipes
    ensures AttachNewTags(s, rid, names).tags == InsertTags(s.tags, s.nextTag, names)
    decreases |names|
  {
    if names != [] {
      var s2 := AddNewTag(s, rid, names[0]);
      AttachNewTagsInserts(s2, rid, names[1..]);
    }
  }

  /** The `i`-th new id holds a Tag named by the `i`-th listed name. */
  lemma AttachNewTagsRecords(s: Store, rid: RecipeId, names: seq<string>)
    requires Valid(s) && rid in s.recipes
    ensures RecordsFrom(AttachNewTags(s, rid, names).tags, s.nextTag, names)
  {
    AttachNewTagsInserts(s, rid, names);
    InsertTagsRecords(s.tags, s.nextTag, names);
  }

  /** The recipe ends up carrying its old tag names plus the given ones. */
  lemma {:induction false} AttachNewTagsNames(s: Store, rid: RecipeId, names: seq<string>)
    requires Valid(s) && rid in s.recipes
    ensures var r := AttachNewTags(s, rid, names);
            NamesOf(r.tags, r.recipes[rid].tags) == NamesOf(s.tags, s.recipes[rid].tags) + Elems(names)
    decreases |names|
  {
    if names == [] {
      assert Elems(names) == {};
    } else {
      var s2 := AddNewTag(s, rid, names[0]);
      NamesOfExtend(s.tags, s2.tags, s.recipes[rid].tags);
      NamesOfAdd(s2.tags, s.recipes[rid].tags, s.nextTag);
      AttachNewTagsNames(s2, rid, names[1..]);
      ElemsCons(names);
    }
  }

  /** `saveChanges` as written: the fields are written back, every Tag the
      recipe carried is deleted from the store, and a fresh Tag is created
      and attached for every listed name. */
  function SaveChanges(s: Store, rid: RecipeId, f: EditForm): (r: Store)
    requires Valid(s) && rid in s.recipes
    ensures Valid(r) && r.recipes.Keys == s.recipes.Keys
    ensures r.recipes[rid] == Edited(s.recipes[rid], f).(tags := r.recipes[rid].tags)
  {
    var rec := s.recipes[rid];
    var s1 := s.(recipes := s.recipes[rid := Edited(rec, f)]);
    AttachNewTags(DeleteTags(s1, rec.tags), rid, f.tags)
  }

  /** Every other recipe loses each tag the edited recipe carried. */
  lemma SaveChangesStripsOthers(s: Store, rid: RecipeId, f: EditForm)
    requires Valid(s) && rid in s.recipes
    ensures var r := SaveChanges(s, rid, f);
            forall o :: o in s.recipes && o != rid ==>
              r.recipes[o] == s.recipes[o].(tags := s.recipes[o].tags - s.recipes[rid].tags)
  {
  }

  /** A set of ids given by membership is the matching `IdRange`. */
  lemma IdRangeByMembership(x: set<nat>, lo: nat, n: nat)
    requires forall t :: t in x <==> lo <= t < lo + n
    ensures x == IdRange(lo, n)
  {
  }

  /** Ids added on top of `before`, all at or above its counter `lo`, are
      exactly the range `[lo, lo + n)`. */
  lemma AddedKeysAreRange(before: set<nat>, after: set<nat>, lo: nat, n: nat)
    requires forall t :: t in before ==> t < lo
    requires forall t :: t in after && t !in before ==> lo <= t < lo + n
    requires forall t :: lo <= t < lo + n ==> t in after
    ensures after - before == IdRange(lo, n)
    ensures |after - before| == n
  {
  }

  /** Saving gives the recipe one brand-new Tag per listed name, duplicates
      included, under the next tag ids in list order; none of them existed
      before. */
  lemma SaveChangesFreshTags(s: Store, rid: RecipeId, f: EditForm)
    requires Valid(s) && rid in s.recipes
    ensures var r := SaveChanges(s, rid, f);
            && r.recipes[rid].tags == IdRange(s.nextTag, |f.tags|)
            && (forall t :: t in r.recipes[rid].tags ==> t !in s.tags)
            && RecordsFrom(r.tags, s.nextTag, f.tags)
  {
    var rec := s.recipes[rid];
    var s1 := s.(recipes := s.recipes[rid := Edited(rec, f)]);
    var d := DeleteTags(s1, rec.tags);
    assert d.recipes[rid].tags == {};
    AttachNewTagsLinks(d, rid, f.tags);
    AttachNewTagsRecords(d, rid, f.tags);
    var r := AttachNewTags(d, rid, f.tags);
    IdRangeByMembership(r.recipes[rid].tags, s.nextTag, |f.tags|);
  }

  /** Saving deletes every Tag the recipe carried, and the store gains
      exactly one Tag per listed name: no existing Tag is looked up. */
  lemma SaveChangesDropsOldTags(s: Store, rid: RecipeId, f: EditForm)
    requires Valid(s) && rid in s.recipes
    ensures var r := SaveChanges(s, rid, f);
            && (forall t :: t in s.recipes[rid].tags ==> t !in r.tags)
            && |r.tags.Keys - s.tags.Keys| == |f.tags|
  {
    var rec := s.recipes[rid];
    var s1 := s.(recipes := s.recipes[rid := Edited(rec, f)]);
    var d := DeleteTags(s1, rec.tags);
    AttachNewTagsKeys(d, rid, f.tags);
    var r := AttachNewTags(d, rid, f.tags);
    AddedKeysAreRange(s.tags.Keys, r.tags.Keys, s.nextTag, |f.tags|);
  }

  /** Saving deletes only the Tags the recipe carried: every other Tag
      record stays, with its name. */
  lemma SaveChangesKeepsOtherTags(s: Store, rid: RecipeId, f: EditForm)
    requires Valid(s) && rid in s.recipes
    ensures var r := SaveChanges(s, rid, f);
            forall t :: t in s.tags && t !in s.recipes[rid].tags ==> t in r.tags && r.tags[t] == s.tags[t]
  {
  }

  /** The edited recipe carries exactly the listed tag names. */
  lemma SaveChangesTagNames(s: Store, rid: RecipeId, f: EditForm)
    requires Valid(s) && rid in s.recipes
    ensures var r := SaveChanges(s, rid, f);
            NamesOf(r.tags, r.recipes[rid].tags) == Elems(f.tags)
  {
    var rec := s.recipes[rid];
    var s1 := s.(recipes := s.recipes[rid := Edited(rec, f)]);
    var s2 := DeleteTags(s1, rec.tags);
    assert s2.recipes[rid].tags == {};
    assert NamesOf(s2.tags, s2.recipes[rid].tags) == {};
    AttachNewTagsNames(s2, rid, f.tags);
  }

  /** Opening the form and saving it untouched keeps the recipe's
      description, image, ingredients (as a multiset) and tag names; a
      missing title becomes the empty title. */
  lemma OpenThenSave(s: Store, rid: RecipeId, tagOrder: seq<TagId>, ingredientOrder: seq<string>)
    requires Valid(s) && rid in s.recipes
    requires Enumerates(tagOrder, s.recipes[rid].tags)
    requires multiset(ingredientOrder) == multiset(s.recipes[rid].ingredients)
    ensures var rec := s.recipes[rid];
            var r := SaveChanges(s, rid, OpenEditForm(s, rid, tagOrder, ingredientOrder));
            && r.recipes[rid].title == Some(if rec.title.Some? then rec.title.value else [])
            && r.recipes[rid].description == rec.description
            && r.recipes[rid].image == rec.image
            && multiset(r.recipes[rid].ingredients) == multiset(rec.ingredients)
            && NamesOf(r.tags, r.recipes[rid].tags) == NamesOf(s.tags, rec.tags)
  {
    SaveChangesTagNames(s, rid, OpenEditForm(s, rid, tagOrder, ingredientOrder));
  }

  /** Finding, as written: a tag shared with another recipe is deleted, so
      the other recipe loses it even though the edit kept the name. */
  lemma SharedTagIsLost(s: Store, rid: RecipeId, f: EditForm, o: RecipeId, t: TagId)
    requires Valid(s) && rid in s.recipes && o in s.recipes && o != rid
    requires t in s.recipes[rid].tags && t in s.recipes[o].tags
    ensures var r := SaveChanges(s, rid, f);
            t !in r.tags && t !in r.recipes[o].tags
  {
    SaveChangesStripsOthers(s, rid, f);
    assert t < s.nextTag;
  }

  /** Two recipes both tagged "x" (one Tag record); editing the first while
      keeping "x" leaves the second with no tag at all. */
  lemma SharedTagExample()
    ensures var s := Store(map[0 := Recipe(None, "", None, [], {0}), 1 := Recipe(None, "", None, [], {0})],
                           map[0 := Tag("x")], 2, 1);
            var r := SaveChanges(s, 0, EditForm("", "", None, ["x"], [], "", ""));
            && NamesOf(s.tags, s.recipes[1].tags) == {"x"}
            && NamesOf(r.tags, r.recipes[1].tags) == {}
  {
    var s := Store(map[0 := Recipe(None, "", None, [], {0}), 1 := Recipe(None, "", None, [], {0})],
                   map[0 := Tag("x")], 2, 1);
    var f := EditForm("", "", None, ["x"], [], "", "");
    SaveChangesStripsOthers(s, 0, f);
    var r := SaveChanges(s, 0, f);
    assert r.recipes[1].tags == {};
  }

  /** Finding, as written: editing a recipe to carry a name another Tag
      record already has creates a second Tag with that name. */
  lemma EditDuplicatesName()
    ensures var s := Store(map[0 := Recipe(None, "", None, [], {}), 1 := Recipe(None, "", None, [], {0})],
                           map[0 := Tag("x")], 2, 1);
            var r := SaveChanges(s, 0, EditForm("", "", None, ["x"], [], "", ""));
            UniqueTagNames(s.tags) && !UniqueTagNames(r.tags)
  {
    var s := Store(map[0 := Recipe(None, "", None, [], {}), 1 := Recipe(None, "", None, [], {0})],
                   map[0 := Tag("x")], 2, 1);
    var f := EditForm("", "", None, ["x"], [], "", "");
    var r := SaveChanges(s, 0, f);
    assert r.tags[0] == Tag("x") && r.tags[1] == Tag("x");
  }

  /** The save as evidently intended: the recipe's own tag links are
      dropped, and the listed names are found or created, as the add form
      does. Other recipes and existing Tag records are untouched. */
  function SaveChangesFixed(s: Store, rid: RecipeId, f: EditForm): (r: Store)
    requires Valid(s) && rid in s.recipes
    ensures Valid(r) && r.recipes.Keys == s.recipes.Keys
    ensures r.recipes[rid] == Edited(s.recipes[rid], f).(tags := r.recipes[rid].tags)
    ensures forall o :: o in s.recipes && o != rid ==> r.recipes[o] == s.recipes[o]
    ensures TagsExtend(s.tags, r.tags)
  {
    var s1 := s.(recipes := s.recipes[rid := Edited(s.recipes[rid], f).(tags := {})]);
    AttachTagsByName(s1, rid, f.tags)
  }

  /** With the corrected save the recipe carries exactly the listed names
      and tag names stay unique. */
  lemma SaveChangesFixedNames(s: Store, rid: RecipeId, f: EditForm)
    requires Valid(s) && rid in s.recipes
    ensures var r := SaveChangesFixed(s, rid, f);
            && NamesOf(r.tags, r.recipes[rid].tags) == Elems(f.tags)
            && (UniqueTagNames(s.tags) ==> UniqueTagNames(r.tags))
  {
    var s1 := s.(recipes := s.recipes[rid := Edited(s.recipes[rid], f).(tags := {})]);
    assert NamesOf(s1.tags, s1.recipes[rid].tags) == {};
    AttachTagsByNameNames(s1, rid, f.tags);
    if UniqueTagNames(s.tags) {
      AttachTagsByNameKeepsNamesUnique(s1, rid, f.tags);
    }
  }

  /** The shared-tag case again, now with the corrected save: the other
      recipe keeps its tag and its name. */
  lemma SharedTagKeptWhenFixed(s: Store, rid: RecipeId, f: EditForm, o: RecipeId, t: TagId)
    requires Valid(s) && rid in s.recipes && o in s.recipes && o != rid
    requires t in s.recipes[rid].tags && t in s.recipes[o].tags
    ensures var r := SaveChangesFixed(s, rid, f);
            t in r.tags && t in r.recipes[o].tags && r.tags[t] == s.tags[t]
  {
  }
}
