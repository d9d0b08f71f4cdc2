# Lieblingsgerichte recipe data layer in Dafny

Lieblingsgerichte is a recipe catalogue app for iOS. Its logic lives in the
SwiftUI views and works on a small object store with two kinds of records:

- Recipe records hold an optional title, a description, optional image
  data, the names of their ingredients and a set of Tag ids.
- Tag records hold a name.

This project models that logic as pure functions over an immutable `Store`
value. A save becomes one atomic step from one snapshot to the next. The
modules follow the app's screens:

- `RecipeStore` (store.dfy): the records and the store. It has
  find-or-create of tags by exact name, attaching tags, inserting and
  deleting recipes, deleting Tag records, and the sweep of orphaned tags.
- `Bootstrap` (bootstrap.dfy): the start-up sequence. The bundled catalogue
  is imported only into a store without recipes, and the orphan sweep runs
  after it.
- `RecipeQueries` (queries.dfy): the read-only lists. These are the main
  list without the "Ausprobieren" ("to try") recipes with its title search,
  the try list, the recipes carrying a tag name, the tag exclusion filter
  and the ingredient AND-search.
- `TagList` (taglist.dfy): the tag overview. It keeps one tag per name, drops
  the try tag, sorts by folded name and applies the search.
- `ExcludedTags` (excluded_tags.dfy): the excluded-tags preference. The
  names are stored as one string joined with ','. The module also has the
  per-tag toggles and the change detection that runs when the exclusion
  sheet closes. Storage keeps only the ','-separated pieces of the names
  (`EncodeDecodePieces`). So a tag name containing ',' comes back as two
  names and can never be excluded (`CommaNameSplits`), and an empty name
  is lost (`EmptyNameVanishes`).
- `HomeDeck` (deck.dfy): the swipe deck of the home screen. It has the
  displayed recipes, the top index, first-time shuffling, the refilter,
  swiping with a wrap-around, and the three-card window.
- `FormLists`, `AddRecipe`, `EditRecipe` (form_lists.dfy, add_recipe.dfy,
  edit_recipe.dfy): the add and edit forms and their saves.
- `IngredientSearchForm` (ingredient_search.dfy): the ingredient search
  screen.
- `TryDeletion` (try_deletion.dfy): swipe-to-delete in the try list.
- `Seqs`, `Strings`, `Sorting`: the generic pieces. These are
  filtering, sub-sequences, `remove(atOffsets:)`, a Fisher–Yates shuffle
  driven by explicit random rolls, trimming, splitting and joining, and an
  insertion sort.

Some inputs of the app are parameters of the model:

- A fetch's result order is a parameter. `fetch: seq<RecipeId>` lists the
  store's recipes in the order the fetch request yields them. For the
  title-sorted fetches this is the title order.
- The iteration order of a Swift `Set` is a parameter too.
- `shuffled()` takes its randomness from a `rolls: seq<nat>` parameter. Only
  the fact that the result is a permutation is used.
- The locale-aware case- and diacritic-insensitive comparisons use a fold
  function `fold: string -> string`. "Contains" means substring of the
  folded strings, "same" means equal folded strings, and sorting is
  lexicographic on the folded strings.
- `existingTags.first` of an unsorted fetch is made concrete as the Tag
  with the smallest id carrying the name. Fetches see objects inserted
  earlier in the same unsaved context, so one save that lists a name twice
  creates a single Tag record.

## Model

| member | source | states |
|---|---|---|
| RecipeStore.FindTag | Lieblingsgerichte/Persistence.swift:86-90 | a hit is a tag carrying exactly the requested name; a miss means no tag carries it |
| RecipeStore.FindOrCreateTag | Lieblingsgerichte/AddRecipeView.swift:159-165 | the returned tag exists and carries the name; if the name is present the store is unchanged, otherwise exactly one Tag is added under a fresh id; existing tags and all recipes are untouched |
| RecipeStore.FindOrCreateTagNames | Lieblingsgerichte/AddRecipeView.swift:159-165 | the store's tag names grow by exactly the requested name, and unique tag names stay unique |
| RecipeStore.NewTag | Lieblingsgerichte/RecipeListView.swift:473-474 | a Tag is created under an id not used before; recipes are untouched |
| RecipeStore.AttachTag | Lieblingsgerichte/RecipeListView.swift:475 | only the chosen recipe changes, and only by gaining the tag |
| RecipeStore.AttachTagByName | Lieblingsgerichte/Persistence.swift:85-93 | the store stays valid; only the chosen recipe's tag set changes and grows; every new Tag is attached to that recipe |
| RecipeStore.AttachTagByNameNames | Lieblingsgerichte/Persistence.swift:85-93 | the recipe's tag names and the store's tag names each grow by exactly the name; unique names stay unique |
| RecipeStore.AttachTagsByName | Lieblingsgerichte/Persistence.swift:85-93 | after the whole loop only the chosen recipe's tag set has changed; no other recipe and no existing Tag is touched |
| RecipeStore.AttachTagsByNameNames | Lieblingsgerichte/Persistence.swift:85-93 | the recipe ends up with its old tag names plus exactly the listed ones |
| RecipeStore.AttachTagsByNameAllNames | Lieblingsgerichte/Persistence.swift:85-93 | the store's tag names grow by exactly the listed names |
| RecipeStore.AttachTagsByNameKeepsNamesUnique | Lieblingsgerichte/Persistence.swift:86-90 | find-or-create by exact name never produces a second Tag with an existing name |
| RecipeStore.InsertRecipe | Lieblingsgerichte/AddRecipeView.swift:131-133 | the new recipe gets an id not in use; every other record is unchanged |
| RecipeStore.DeleteRecipe | Lieblingsgerichte/RecipeListView.swift:317-318 | exactly the chosen recipe, with its ingredients, is gone; the others and all tags are unchanged |
| RecipeStore.DeleteRecipes | Lieblingsgerichte/RecipeListView.swift:560-564 | exactly the chosen recipes are gone; the others and all tags are unchanged |
| RecipeStore.DeleteTags | Lieblingsgerichte/RecipeListView.swift:468-471 | the Tag records are gone and every recipe loses them from its tag set |
| RecipeStore.SweepOrphanedTags | Lieblingsgerichte/Persistence.swift:103-118 | a tag survives iff some recipe carries it; recipes and surviving tags are unchanged; every survivor is attached |
| RecipeStore.DeleteThenSweep | Lieblingsgerichte/Persistence.swift:107-113 | after deleting a recipe and sweeping, a tag survives iff another recipe still carries it |
| RecipeStore.SweepIdempotent | Lieblingsgerichte/Persistence.swift:107-113 | a second sweep removes nothing |
| Bootstrap.ImageFor | Lieblingsgerichte/Persistence.swift:74-77 | an image is set only when the entry names one and the name resolves, and then it is set |
| Bootstrap.ImportEntry | Lieblingsgerichte/Persistence.swift:69-93 | importing one entry keeps the store valid |
| Bootstrap.ImportEntryExtends | Lieblingsgerichte/Persistence.swift:69-93 | importing an entry keeps every existing recipe and tag unchanged |
| Bootstrap.ImportEntryKeys | Lieblingsgerichte/Persistence.swift:70 | importing an entry adds exactly one recipe, under a fresh id |
| Bootstrap.ImportEntryMadeFrom | Lieblingsgerichte/Persistence.swift:69-93 | the new recipe has the entry's title, description, resolved image, one ingredient per listed name in order, and exactly the entry's tag names |
| Bootstrap.ImportEntryKeepsNamesUnique | Lieblingsgerichte/Persistence.swift:85-93 | find-or-create by exact name adds no second Tag with an existing name |
| Bootstrap.MadeFromKept | Lieblingsgerichte/Persistence.swift:69-94 | a recipe imported from an entry still carries that entry's data, tag names included, after later entries are imported |
| Bootstrap.ImportStep | Lieblingsgerichte/Persistence.swift:69-94 | after one more entry, the recipes of all earlier entries are intact, the new one is made from its entry, and the new recipe takes the next consecutive id |
| Bootstrap.ImportEntries | Lieblingsgerichte/Persistence.swift:69-94 | n entries add exactly n recipes under consecutive fresh ids; the i-th carries the i-th entry's data; nothing earlier changes; tag names stay unique; no entries change nothing |
| Bootstrap.ImportRecipes | Lieblingsgerichte/Persistence.swift:50-100 | the store is unchanged when the file is missing, a recipe exists or the file cannot be decoded; on an empty store there is exactly one recipe per entry, each with that entry's data |
| Bootstrap.ImportTwice | Lieblingsgerichte/Persistence.swift:57-63 | a second import leaves the store exactly as the first one left it |
| Bootstrap.SharedNameSharedTag | Lieblingsgerichte/Persistence.swift:85-93 | with unique tag names, two imported recipes whose entries list the same name point at the same Tag record |
| Bootstrap.SweepKeepsEntry | Lieblingsgerichte/Persistence.swift:103-118 | the orphan sweep keeps an imported recipe with its entry's data and tag names |
| Bootstrap.SweepKeepsEntries | Lieblingsgerichte/Persistence.swift:103-118 | the orphan sweep keeps every imported recipe with its entry's data |
| Bootstrap.Startup | Lieblingsgerichte/Persistence.swift:46-47 | start-up imports, then sweeps; afterwards every tag is attached to some recipe; without an import the result is the swept store; on an empty store the recipes are exactly those made from the entries |
| Seqs.SafeGet | Lieblingsgerichte/HomeView.swift:263-266 | yields the element iff the index is valid, otherwise nothing |
| Seqs.KeptIndices | Lieblingsgerichte/AddRecipeView.swift:122-128 | the positions `remove(atOffsets:)` keeps, ascending: exactly the indices below the length that are not offsets |
| Seqs.RemoveAtOffsets | Lieblingsgerichte/AddRecipeView.swift:122-128 | an order-preserving sub-list; an element survives iff it sits at some offset not chosen; the length drops by the number of offsets |
| Seqs.RemoveAtOffsetsPositions | Lieblingsgerichte/AddRecipeView.swift:122-128 | the k-th survivor is the element at the k-th kept position, so the result is fixed element by element |
| Seqs.FilterCounts | Lieblingsgerichte/HomeView.swift:205 | filtering keeps each passing element exactly as often as it occurs, and no other |
| Seqs.Shuffle | Lieblingsgerichte/HomeView.swift:127 | a permutation of its input |
| Strings.Trim | Lieblingsgerichte/IngredientSearchView.swift:122 | the result is an inner slice with only whitespace cut from both ends, and it neither starts nor ends with whitespace |
| Strings.TrimIdempotent | Lieblingsgerichte/IngredientSearchView.swift:122 | trimming a trimmed string changes nothing |
| Strings.Split | Lieblingsgerichte/HomeView.swift:22 | the pieces are non-empty and free of the separator |
| Strings.SplitPiece | Lieblingsgerichte/HomeView.swift:22 | a string without the separator splits into itself, or into nothing when it is empty |
| Strings.SplitAtSeparator | Lieblingsgerichte/HomeView.swift:22 | splitting around one separator splits the two sides separately and concatenates the pieces; with SplitPiece this fixes `Split` on every input |
| Strings.SplitJoinPieces | Lieblingsgerichte/HomeView.swift:20-26 | splitting the join of any list gives the pieces of each element in turn |
| Strings.SplitJoin | Lieblingsgerichte/HomeView.swift:20-26 | splitting a join of non-empty, separator-free names gives the names back |
| Sorting.SortBy | Lieblingsgerichte/TagListView.swift:96 | the result is sorted by the key and is a permutation of the input |
| Sorting.SortedEqualIffSameElements | Lieblingsgerichte/HomeView.swift:228 | two lists sort to the same list iff they hold the same elements with the same counts |
| RecipeQueries.MainList | Lieblingsgerichte/RecipeListView.swift:105-116 | a recipe is listed iff it has no tag named "Ausprobieren" and, for a non-empty search, its title exists and contains the search text; the result keeps fetch order |
| RecipeQueries.RecipesWithTagName | Lieblingsgerichte/RecipeListView.swift:162 | a recipe is listed iff one of its tags carries exactly the name; the result keeps fetch order |
| RecipeQueries.TryList | Lieblingsgerichte/RecipeListView.swift:506 | a recipe is listed iff it has a tag named exactly "Ausprobieren" |
| RecipeQueries.MainAndTryPartition | Lieblingsgerichte/RecipeListView.swift:106-109 | with an empty search every fetched recipe is in exactly one of the main list and the try list |
| RecipeQueries.SearchNarrowsMainList | Lieblingsgerichte/RecipeListView.swift:110-115 | the searched main list is a sub-list of the unsearched one |
| RecipeQueries.TagRecipesAreTagged | Lieblingsgerichte/TagListView.swift:147-149 | with unique names, the per-tag list holds exactly the recipes carrying the selected tag |
| RecipeQueries.ExcludingTags | Lieblingsgerichte/HomeView.swift:120-123 | a recipe passes iff none of its tag names is excluded; fetch order is kept |
| RecipeQueries.ExcludingNothing | Lieblingsgerichte/HomeView.swift:120-123 | with no excluded names every fetched recipe passes, in order |
| RecipeQueries.ExcludingMoreNarrows | Lieblingsgerichte/HomeView.swift:120-123 | excluding more names never lets a recipe back in |
| RecipeQueries.IngredientSearch | Lieblingsgerichte/IngredientSearchView.swift:133-147 | a recipe matches iff for every term some ingredient name contains it after folding |
| RecipeQueries.MatchesFewerTerms | Lieblingsgerichte/IngredientSearchView.swift:134-137 | dropping the last term keeps the match |
| RecipeQueries.MatchesPrefixTerms | Lieblingsgerichte/IngredientSearchView.swift:134-137 | a recipe matching all terms matches every prefix of them |
| RecipeQueries.MoreTermsNarrow | Lieblingsgerichte/IngredientSearchView.swift:134-137 | adding a term yields a sub-list of the previous results |
| TagList.FirstPerName | Lieblingsgerichte/TagListView.swift:94 | an order-preserving selection whose names are exactly the fetched names not yet seen, no two sharing a name |
| TagList.FirstPerNameKeepsFirst | Lieblingsgerichte/TagListView.swift:94 | no tag is kept when an earlier tag in the fetch has its name: each kept tag is the first of its name |
| TagList.UniqueByName | Lieblingsgerichte/TagListView.swift:94 | one tag per name, drawn from the fetch, each the first of its name there, and the set of names is unchanged |
| TagList.KeptTags | Lieblingsgerichte/TagListView.swift:94-95 | one tag per name; a name stays iff it does not fold to the try tag's name |
| TagList.SortedTags | Lieblingsgerichte/TagListView.swift:94-96 | the same names as KeptTags, sorted by folded name |
| TagList.SearchTags | Lieblingsgerichte/TagListView.swift:97-101 | an order-preserving selection of the sorted overview; a name stays iff it contains the search text after folding |
| TagList.FilteredTags | Lieblingsgerichte/TagListView.swift:93-102 | sorted by folded name, names pairwise different, each a store tag; a name is listed iff it occurs, is not the try tag under folding, and contains the search text when there is one |
| TagList.TagSearchNarrows | Lieblingsgerichte/TagListView.swift:97-101 | the searched overview is an order-preserving sub-list of the unsearched one |
| ExcludedTags.Decode | Lieblingsgerichte/HomeView.swift:20-23 | every stored name read back is non-empty and free of ',' |
| ExcludedTags.DecodeEncode | Lieblingsgerichte/HomeView.swift:20-26 | writing non-empty, comma-free names and reading them back gives the same list |
| ExcludedTags.DecodeStable | Lieblingsgerichte/HomeView.swift:20-26 | a list read from storage survives a write and a read unchanged |
| ExcludedTags.EncodeDecodePieces | Lieblingsgerichte/HomeView.swift:20-26 | any list written and read back becomes the ','-pieces of its names, in order |
| ExcludedTags.EmptyNameVanishes | Lieblingsgerichte/HomeView.swift:20-26 | an empty name does not survive storage: `["", "a"]` reads back as `["a"]` |
| ExcludedTags.CommaNameSplits | Lieblingsgerichte/HomeView.swift:22-25 | the name "a,b" comes back from storage as the two names "a" and "b" |
| ExcludedTags.Toggle | Lieblingsgerichte/HomeView.swift:199-209 | on appends the name; off removes every occurrence and keeps the rest in order, each other name as often as before |
| ExcludedTags.ToggleOnOff | Lieblingsgerichte/HomeView.swift:199-209 | switching an absent name on and then off restores the list |
| ExcludedTags.ToggleOnKeepsDistinct | Lieblingsgerichte/HomeView.swift:203-204 | switching on a name that is off creates no repeat |
| ExcludedTags.Changed | Lieblingsgerichte/HomeView.swift:228 | comparing sorted copies detects exactly a difference in elements or their counts |
| ExcludedTags.CloseSheet | Lieblingsgerichte/HomeView.swift:226-231 | the setting is rewritten with the joined list iff the edited list differs from the initial one as a multiset |
| ExcludedTags.ReorderIsNoChange | Lieblingsgerichte/HomeView.swift:228-230 | a reordering alone never writes the setting |
| HomeDeck.Passing | Lieblingsgerichte/HomeView.swift:120-123 | the recipes none of whose tag names is in the stored exclusion, in fetch order |
| HomeDeck.FilterRecipes | Lieblingsgerichte/HomeView.swift:119-136 | the first filtering shows a permutation of the passing recipes with index 0; later ones show them unshuffled and keep the index |
| HomeDeck.OnAppear | Lieblingsgerichte/HomeView.swift:109-114 | only the first appearance filters, and it marks the deck as set up |
| HomeDeck.Swipe | Lieblingsgerichte/HomeView.swift:139-151 | before the last card the index advances by one with the deck unchanged; otherwise the deck becomes a permutation of all recipes with index 0 |
| HomeDeck.ResetDeck | Lieblingsgerichte/HomeView.swift:153-156 | a permutation of all recipes, from the first card |
| HomeDeck.Window | Lieblingsgerichte/HomeView.swift:39-40 | exactly the cards at indices from the top up to three beyond it; nothing is rendered iff the index is past the end |
| HomeDeck.Current | Lieblingsgerichte/HomeView.swift:97 | the detail sheet has a recipe iff the index is valid, and it is the first rendered card |
| HomeDeck.AppearAndSwipeKeepTopCard | Lieblingsgerichte/HomeView.swift:109-156 | the first appearance and every swipe leave a valid top card whenever the deck has cards |
| HomeDeck.SwipeThrough | Lieblingsgerichte/HomeView.swift:145-149 | k swipes from the top advance k cards; the swipe after the last card starts a reshuffled deck |
| HomeDeck.RefilterCanBlankDeck | Lieblingsgerichte/HomeView.swift:132-135 | a refilter leaving no more cards than the top index renders nothing and allows no swipe |
| HomeDeck.RefilterBlankExample | Lieblingsgerichte/HomeView.swift:132-135 | a concrete two-recipe store where excluding one tag blanks the deck |
| HomeDeck.FilterRecipesClamped | Lieblingsgerichte/HomeView.swift:119-136 | the filtered deck, with the index reset to 0 when it falls off the end |
| HomeDeck.ClampedKeepsTopCard | Lieblingsgerichte/HomeView.swift:119-136 | with the reset, a refiltered deck always shows its top card |
| HomeDeck.WrapBringsBackExcluded | Lieblingsgerichte/HomeView.swift:153-156 | after the wrap every fetched recipe is on the deck |
| HomeDeck.WrapBreaksExclusion | Lieblingsgerichte/HomeView.swift:154 | an excluded recipe is on the deck after the wrap |
| HomeDeck.SwipeFiltered | Lieblingsgerichte/HomeView.swift:139-156 | a swipe whose wrap reshuffles only the passing recipes |
| HomeDeck.FilteredDeckStaysFiltered | Lieblingsgerichte/HomeView.swift:119-156 | with the corrected wrap, every displayed card passes the exclusion after any appearance, refilter or swipe |
| FormLists.AddEntry | Lieblingsgerichte/AddRecipeView.swift:34-38 | the text field is empty afterwards; non-empty text is appended at the end and empty text changes nothing |
| FormLists.RemoveEntries | Lieblingsgerichte/AddRecipeView.swift:122-128 | an order-preserving sub-list that is shorter by the number of offsets; the k-th remaining row is the k-th row not swiped away |
| FormLists.AddEntryKeepsNoEmpty | Lieblingsgerichte/RecipeListView.swift:378-381 | the "+" button never puts an empty entry in a list |
| FormLists.RemoveEntriesKeepsNoEmpty | Lieblingsgerichte/AddRecipeView.swift:122-128 | removing never introduces an empty entry |
| FormLists.AddThenRemoveLast | Lieblingsgerichte/AddRecipeView.swift:34-38 | removing the row just added restores the list |
| AddRecipe.AddIngredientEntry | Lieblingsgerichte/AddRecipeView.swift:34-38 | the field is cleared and non-empty text is appended to the ingredients; nothing else changes |
| AddRecipe.AddTagEntry | Lieblingsgerichte/AddRecipeView.swift:54-58 | the field is cleared and non-empty text is appended to the tags; nothing else changes |
| AddRecipe.RemoveIngredients | Lieblingsgerichte/AddRecipeView.swift:122-124 | the k-th remaining ingredient is the k-th one not swiped away; nothing else changes |
| AddRecipe.RemoveTags | Lieblingsgerichte/AddRecipeView.swift:126-128 | the k-th remaining tag is the k-th one not swiped away; nothing else changes |
| AddRecipe.OnAppear | Lieblingsgerichte/AddRecipeView.swift:110-117 | in try mode the try tag is present afterwards and occurs once if it was absent; other tags and fields are untouched |
| AddRecipe.OnAppearIdempotent | Lieblingsgerichte/AddRecipeView.swift:111-115 | showing the form again never adds the try tag a second time |
| AddRecipe.FormActionsKeepWellFormed | Lieblingsgerichte/AddRecipeView.swift:31-60 | no form action puts an empty ingredient or tag in the form |
| AddRecipe.Prepare | Lieblingsgerichte/AddRecipeView.swift:131-155 | the new recipe exists under a fresh id with the form's fields; other recipes and existing tags are untouched |
| AddRecipe.PrepareNames | Lieblingsgerichte/AddRecipeView.swift:143-155 | before the manual loop the recipe carries only the try tag in try mode, and no tag otherwise |
| AddRecipe.SaveRecipe | Lieblingsgerichte/AddRecipeView.swift:130-190 | exactly one new recipe, with the form's title, description, ingredients and image; other recipes and existing tags are untouched; the form is cleared |
| AddRecipe.SkippingElems | Lieblingsgerichte/AddRecipeView.swift:158 | skipping the try tag in try mode loses no name once the try tag is attached |
| AddRecipe.SaveRecipeTagNames | Lieblingsgerichte/AddRecipeView.swift:143-170 | the new recipe carries exactly the listed names, plus the try tag in try mode |
| AddRecipe.SaveRecipeAllNames | Lieblingsgerichte/AddRecipeView.swift:143-170 | the store's tag names grow by exactly those names |
| AddRecipe.SaveRecipeKeepsNamesUnique | Lieblingsgerichte/AddRecipeView.swift:158-166 | the save creates no duplicate tag names |
| AddRecipe.SavedRecipeIsTry | Lieblingsgerichte/AddRecipeView.swift:143-158 | the new recipe is in the try list iff it was saved in try mode or the try tag was typed in |
| EditRecipe.OpenEditForm | Lieblingsgerichte/RecipeListView.swift:341-354 | the form shows the title (empty when missing), the description and the image; its tag names are the recipe's, and its ingredients the recipe's up to order |
| EditRecipe.AddTagEntry | Lieblingsgerichte/RecipeListView.swift:377-382 | the field is cleared and non-empty text is appended to the tags; nothing else changes |
| EditRecipe.AddIngredientEntry | Lieblingsgerichte/RecipeListView.swift:401-406 | the field is cleared and non-empty text is appended to the ingredients; nothing else changes |
| EditRecipe.RemoveTags | Lieblingsgerichte/RecipeListView.swift:391-393 | the k-th remaining tag is the k-th one not swiped away; nothing else changes |
| EditRecipe.RemoveIngredients | Lieblingsgerichte/RecipeListView.swift:415-417 | the k-th remaining ingredient is the k-th one not swiped away; nothing else changes |
| EditRecipe.EditActionsKeepWellFormed | Lieblingsgerichte/RecipeListView.swift:377-417 | no list action of the edit form puts an empty ingredient or tag in the form |
| EditRecipe.Edited | Lieblingsgerichte/RecipeListView.swift:461-465 | title and description are overwritten; the image is replaced only when one is selected; the ingredients are replaced |
| EditRecipe.AttachNewTags | Lieblingsgerichte/RecipeListView.swift:472-476 | only the edited recipe gains tags; the new Tag records have ids never used before |
| EditRecipe.AttachNewTagsKeys | Lieblingsgerichte/RecipeListView.swift:472-476 | the store gains exactly the next tag ids, one per listed name, duplicates included, and the counter moves past them |
| EditRecipe.AttachNewTagsLinks | Lieblingsgerichte/RecipeListView.swift:472-476 | the recipe gains exactly those new ids |
| EditRecipe.AttachNewTagsRecords | Lieblingsgerichte/RecipeListView.swift:472-474 | the i-th new id holds a Tag named by the i-th listed name |
| EditRecipe.AttachNewTagsNames | Lieblingsgerichte/RecipeListView.swift:472-476 | the recipe gains exactly the listed names |
| EditRecipe.SaveChanges | Lieblingsgerichte/RecipeListView.swift:460-495 | the edited fields are written back and no recipe is added or lost |
| EditRecipe.SaveChangesStripsOthers | Lieblingsgerichte/RecipeListView.swift:468-471 | every other recipe loses each tag the edited recipe carried |
| EditRecipe.SaveChangesFreshTags | Lieblingsgerichte/RecipeListView.swift:466-476 | afterwards the recipe carries exactly as many Tags as names were listed, all brand-new, under the next ids in list order, each named by its listed name |
| EditRecipe.SaveChangesDropsOldTags | Lieblingsgerichte/RecipeListView.swift:466-476 | no Tag the recipe carried is left in the store, and the store gains exactly one Tag per listed name, since no existing Tag is looked up |
| EditRecipe.SaveChangesKeepsOtherTags | Lieblingsgerichte/RecipeListView.swift:466-471 | every Tag the recipe did not carry survives the save, with its name |
| EditRecipe.SaveChangesTagNames | Lieblingsgerichte/RecipeListView.swift:468-476 | the edited recipe ends with exactly the listed tag names |
| EditRecipe.OpenThenSave | Lieblingsgerichte/RecipeListView.swift:341-354 | opening and saving untouched keeps description, image, ingredients and tag names; a missing title becomes empty |
| EditRecipe.SharedTagIsLost | Lieblingsgerichte/RecipeListView.swift:468-471 | a tag shared with another recipe is deleted from the store and from that recipe |
| EditRecipe.SharedTagExample | Lieblingsgerichte/RecipeListView.swift:468-476 | two recipes tagged "x"; editing one while keeping "x" leaves the other untagged |
| EditRecipe.EditDuplicatesName | Lieblingsgerichte/RecipeListView.swift:472-476 | giving a recipe a name another Tag already has creates a second Tag with that name |
| EditRecipe.SaveChangesFixed | Lieblingsgerichte/RecipeListView.swift:460-495 | the corrected save leaves every other recipe and every existing Tag untouched |
| EditRecipe.SaveChangesFixedNames | Lieblingsgerichte/RecipeListView.swift:468-476 | with the corrected save the recipe has exactly the listed names, and unique names stay unique |
| EditRecipe.SharedTagKeptWhenFixed | Lieblingsgerichte/RecipeListView.swift:468-471 | with the corrected save a shared tag survives on the other recipe |
| IngredientSearchForm.AddIngredient | Lieblingsgerichte/IngredientSearchView.swift:121-131 | the field is cleared; a new, non-empty trimmed term is appended and the results become exactly the matches of all terms; otherwise terms and results stay |
| IngredientSearchForm.ResetSearch | Lieblingsgerichte/IngredientSearchView.swift:149-153 | terms, results and field are all empty |
| IngredientSearchForm.AddIngredientConsistent | Lieblingsgerichte/IngredientSearchView.swift:121-131 | terms stay trimmed, non-empty and pairwise different, and the results stay those of the terms |
| IngredientSearchForm.AppendTerm | Lieblingsgerichte/IngredientSearchView.swift:122-125 | a trimmed, non-empty term not yet listed keeps the terms trimmed, non-empty and pairwise different |
| IngredientSearchForm.ResetConsistent | Lieblingsgerichte/IngredientSearchView.swift:149-153 | after a reset the screen is consistent again |
| IngredientSearchForm.AddIngredientNarrows | Lieblingsgerichte/IngredientSearchView.swift:121-125 | once a term exists, adding one only narrows the results |
| TryDeletion.AtOffsets | Lieblingsgerichte/RecipeListView.swift:561-563 | exactly the recipes shown at the chosen rows |
| TryDeletion.DeleteTryRecipesAt | Lieblingsgerichte/RecipeListView.swift:560-571 | exactly the recipes at the chosen rows are deleted; the others and all tags stay |
| TryDeletion.TryListAfterDelete | Lieblingsgerichte/RecipeListView.swift:560-571 | afterwards the try list holds exactly the rows not swiped away |
| TryDeletion.DeleteNoRows | Lieblingsgerichte/RecipeListView.swift:560-564 | deleting no rows changes nothing |

## Left out

- User interface: layout, sheets, navigation, gestures, animation offsets and `DispatchQueue` timing are presentation only.
- The object-store framework: container loading, the in-memory store and the save-failure paths are left out. Their errors are only printed. A save is one atomic step, and a fetch that fails is not modelled.
- The data-model file is not part of this model. Its delete rules are taken as a cascade from Recipe to Ingredient and a nullify between Recipe and Tag.
- Ingredients are modelled as a list of names inside the recipe. Deleting and recreating Ingredient records becomes replacing that list.
- JSON decoding and the bundle lookup are left out. The catalogue is an already-decoded list of entries (or missing or undecodable).
- `UIImage` and `pngData` are left out. Image data is opaque, and image-name resolution is a lookup parameter. In the edit form the image is not re-encoded: the selected image is the stored data.
- Nil names are left out. Every Tag name and ingredient name is present. The write paths always set them, so `?? ""` and `compactMap` never matter.
- The randomness of `shuffled()` is left out. Only the fact that the result is a permutation is stated, not a distribution.
- Strings are sequences of Unicode scalars. Canonical equivalence and grapheme clustering are not modelled, although Swift's `==`, `contains`, `removeAll`, `sorted()` and `split(separator:)` on `String` compare and split by `Character`.
- Locale folding is left out. `localizedCaseInsensitiveContains`, `localizedCaseInsensitiveCompare` and `CONTAINS[cd]` use an abstract fold function.
- Ties in the tag overview's sort are left open. The order of names that fold to the same string is unspecified in the program, and the model keeps one particular order.
- Fetch and set iteration orders are inputs, not computed. For the Tag fetch this is also why `FindTag` takes the smallest id.
- A Tag fetch that fails in the middle of the import loop is left out, like every failing fetch. In the program the objects inserted before the error stay in the context. The orphan sweep's save then commits that partial catalogue, and the non-empty guard stops every later import.
- Offsets into the try list are required to be in range. The program traps on an out-of-range index.
- `ContentView`, the app entry point, and the help, imprint, row, card and detail views are left out. They are wiring and static text.

## Findings

| source | as written | input that shows it | evidently intended | confidence | as-written member | corrected member |
|---|---|---|---|---|---|---|
| Lieblingsgerichte/HomeView.swift:132-135 | a refilter keeps `topRecipeIndex` even when fewer cards remain | two recipes on the deck with the second on top; excluding the first one's tag leaves one card and index 1, so nothing renders and no swipe is possible | reset the index when it falls off the refiltered deck | not executed | HomeDeck.RefilterBlankExample | HomeDeck.ClampedKeepsTopCard |
| Lieblingsgerichte/HomeView.swift:154 | the wrap reshuffles all recipes | an excluded recipe in the fetch; swiping past the last card puts it back on the deck | reshuffle only the recipes passing the exclusion | not executed | HomeDeck.WrapBreaksExclusion | HomeDeck.FilteredDeckStaysFiltered |
| Lieblingsgerichte/RecipeListView.swift:468-476 | the edit save deletes every Tag record the recipe carried and creates a fresh Tag per name without lookup | recipes 0 and 1 share tag "x"; saving recipe 0 with tags ["x"] leaves recipe 1 untagged; a name another Tag already has gets a second Tag record | detach the tags from this recipe only and find-or-create the names, as the add form does | not executed | EditRecipe.SharedTagExample | EditRecipe.SharedTagKeptWhenFixed |
