/** Start-up of the store: the one-time import of the bundled recipe
    catalogue (only into a store without recipes) followed by the sweep of
    orphaned tags. */
module Bootstrap {
  import opened Seqs
  import opened RecipeStore

  /** One decoded catalogue entry. */
  datatype Entry = Entry(
    title: string,
    description: string,
    imageName: Option<string>,
    ingredients: seq<string>,
    tags: seq<string>)

  /** The bundled catalogue as the importer finds it: not in the bundle,
      present but unreadable or not decodable, or decoded. */
  datatype CatalogueFile = Missing | Undecodable | Decoded(entries: seq<Entry>)

  /** `UIImage(named:)?.pngData()`: the image data an asset name resolves
      to, if any. */
  type ImageLookup = string -> Option<Image>

  function ImageFor(e: Entry, lookup: ImageLookup): (r: Option<Image>)
    ensures r.Some? ==> e.imageName.Some? && r == lookup(e.imageName.value)
    ensures e.imageName.Some? && lookup(e.imageName.value).Some? ==> r.Some?
  {
    match e.imageName
    case Some(n) => lookup(n)
    case None => None
  }

  /** The recipe record `rec` in store `s` was made from `e`: it carries
      the entry's title, description, resolved image, ingredient names in
      order, and exactly the entry's tag names. */
  predicate MadeFrom(s: Store, rec: Recipe, e: Entry, lookup: ImageLookup)
  {
    && rec.title == Some(e.title)
    && rec.description == e.description
    && rec.image == ImageFor(e, lookup)
    && rec.ingredients == e.ingredients
    && NamesOf(s.tags, rec.tags) == Elems(e.tags)
  }

  /** Store `r` holds, under `id`, the recipe made from `e`. */
  predicate HoldsEntry(r: Store, id: RecipeId, e: Entry, lookup: ImageLookup)
  {
    id in r.recipes && MadeFrom(r, r.recipes[id], e, lookup)
  }

  /** Store `r` holds, under `base + i`, the recipe made from entry `i` of
      `es`, for each of the first `n` entries. */
  predicate HoldsFirst(r: Store, base: nat, es: seq<Entry>, n: nat, lookup: ImageLookup)
    requires n <= |es|
  {
    forall i :: 0 <= i < n ==> HoldsEntry(r, base + i, es[i], lookup)
  }

  /** `after` keeps every recipe and every tag of `before` unchanged. */
  predicate Extends(before: Store, after: Store)
  {
    && (forall o :: o in before.recipes ==> o in after.recipes && after.recipes[o] == before.recipes[o])
    && TagsExtend(before.tags, after.tags)
  }

  lemma ExtendsTransitive(a: Store, b: Store, c: Store)
    requires Extends(a, b) && Extends(b, c)
    ensures Extends(a, c)
  {
  }

  /** One entry: a new recipe with the entry's title, description,
      ingredients and (when it resolves) image, then find-or-create and
      attach of each tag name. */
  function ImportEntry(s: Store, e: Entry, lookup: ImageLookup): (r: Store)
    requires Valid(s)
    ensures Valid(r)
  {
    var rec := Recipe(Some(e.title), e.description, ImageFor(e, lookup), e.ingredients, {});
    var (s1, id) := InsertRecipe(s, rec);
    AttachTagsByName(s1, id, e.tags)
  }

  /** One entry changes no recipe or tag already present. */
  lemma ImportEntryExtends(s: Store, e: Entry, lookup: ImageLookup)
    requires Valid(s)
    ensures Extends(s, ImportEntry(s, e, lookup))
  {
  }

  /** One entry adds exactly one recipe, under the next fresh id. */
  lemma ImportEntryKeys(s: Store, e: Entry, lookup: ImageLookup)
    requires Valid(s)
    ensures var r := ImportEntry(s, e, lookup);
            && s.nextRecipe !in s.recipes
            && (forall id: RecipeId :: id in r.recipes <==> id in s.recipes || id == s.nextRecipe)
            && r.nextRecipe == s.nextRecipe + 1
  {
  }

  /** The recipe an entry yields carries the entry's data and tag names. */
  lemma ImportEntryMadeFrom(s: Store, e: Entry, lookup: ImageLookup, id: RecipeId)
    requires Valid(s) && id == s.nextRecipe
    ensures HoldsEntry(ImportEntry(s, e, lookup), id, e, lookup)
  {
    var rec := Recipe(Some(e.title), e.description, ImageFor(e, lookup), e.ingredients, {});
    var (s1, id) := InsertRecipe(s, rec);
    AttachTagsByNameNames(s1, id, e.tags);
    assert NamesOf(s1.tags, {}) == {};
  }

  /** Import through find-or-create keeps tag names unique. */
  lemma ImportEntryKeepsNamesUnique(s: Store, e: Entry, lookup: ImageLookup)
    requires Valid(s) && UniqueTagNames(s.tags)
    ensures UniqueTagNames(ImportEntry(s, e, lookup).tags)
  {
    var rec := Recipe(Some(e.title), e.description, ImageFor(e, lookup), e.ingredients, {});
    var (s1, id) := InsertRecipe(s, rec);
    AttachTagsByNameKeepsNamesUnique(s1, id, e.tags);
  }

  /** A recipe made from an entry stays so in any store extending this one. */
  lemma MadeFromKept(s: Store, r: Store, id: RecipeId, e: Entry, lookup: ImageLookup)
    requires Valid(s) && Extends(s, r) && HoldsEntry(s, id, e, lookup)
    ensures HoldsEntry(r, id, e, lookup)
  {
    NamesOfExtend(s.tags, r.tags, s.recipes[id].tags);
  }

  /** What holds after the first `j` entries of `es` have been imported
      into `s`, giving `cur`. */
  ghost predicate Progress(s: Store, cur: Store, es: seq<Entry>, j: nat, lookup: ImageLookup)
    requires j <= |es|
  {
    && Extends(s, cur)
    && (forall id: RecipeId :: id in cur.recipes <==> id in s.recipes || s.nextRecipe <= id < s.nextRecipe + j)
    && cur.nextRecipe == s.nextRecipe + j
    && HoldsFirst(cur, s.nextRecipe, es, j, lookup)
    && (UniqueTagNames(s.tags) ==> UniqueTagNames(cur.tags))
  }

  /** Importing entry `j` extends the progress by one entry. */
  lemma ImportStep(s: Store, cur: Store, es: seq<Entry>, j: nat, lookup: ImageLookup)
    requires j < |es| && Valid(cur) && Progress(s, cur, es, j, lookup)
    ensures Progress(s, ImportEntry(cur, es[j], lookup), es, j + 1, lookup)
  {
    ImportEntryExtends(cur, es[j], lookup);
    ImportEntryKeys(cur, es[j], lookup);
    ImportEntryMadeFrom(cur, es[j], lookup, s.nextRecipe + j);
    if UniqueTagNames(cur.tags) {
      ImportEntryKeepsNamesUnique(cur, es[j], lookup);
    }
    ProgressStep(s, cur, ImportEntry(cur, es[j], lookup), es, j, lookup);
  }

  /** Any store that extends `cur` by exactly the recipe made from entry
      `j`, under the next id, extends the progress by one entry. */
  lemma ProgressStep(s: Store, cur: Store, next: Store, es: seq<Entry>, j: nat, lookup: ImageLookup)
    requires j < |es| && Valid(cur) && Progress(s, cur, es, j, lookup)
    requires Extends(cur, next)
    requires forall id: RecipeId :: id in next.recipes <==> id in cur.recipes || id == cur.nextRecipe
    requires next.nextRecipe == cur.nextRecipe + 1
    requires HoldsEntry(next, s.nextRecipe + j, es[j], lookup)
    requires UniqueTagNames(cur.tags) ==> UniqueTagNames(next.tags)
    ensures Progress(s, next, es, j + 1, lookup)
  {
    ExtendsTransitive(s, cur, next);
    AllStep(cur, next, s.nextRecipe, es, j, lookup);
  }

  /** The recipes made from the first `j` entries stay so in a store
      extending this one, which adds the recipe made from entry `j`. */
  lemma AllStep(cur: Store, next: Store, base: nat, es: seq<Entry>, j: nat, lookup: ImageLookup)
    requires j < |es| && Valid(cur) && Extends(cur, next)
    requires HoldsFirst(cur, base, es, j, lookup)
    requires HoldsEntry(next, base + j, es[j], lookup)
    ensures HoldsFirst(next, base, es, j + 1, lookup)
  {
    forall k | 0 <= k < j
      ensures HoldsEntry(next, base + k, es[k], lookup)
    {
      MadeFromKept(cur, next, base + k, es[k], lookup);
    }
  }

  /** The catalogue loop: entry `i` becomes recipe `s.nextRecipe + i`,
      carrying that entry's data; nothing already in the store changes;
      tag names stay unique when they were. */
  method ImportEntries(s: Store, es: seq<Entry>, lookup: ImageLookup) returns (r: Store)
    requires Valid(s)
    ensures Valid(r) && Extends(s, r)
    ensures r.recipes.Keys == s.recipes.Keys + IdRange(s.nextRecipe, |es|)
    ensures r.nextRecipe == s.nextRecipe + |es|
    ensures HoldsFirst(r, s.nextRecipe, es, |es|, lookup)
    ensures UniqueTagNames(s.tags) ==> UniqueTagNames(r.tags)
    ensures es == [] ==> r == s
  {
    r := s;
    var j := 0;
    while j < |es|
      invariant j <= |es| && Valid(r)
      invariant Progress(s, r, es, j, lookup)
      invariant j == 0 ==> r == s
    {
      ImportStep(s, r, es, j, lookup);
      r := ImportEntry(r, es[j], lookup);
      j := j + 1;
    }
    KeysOfRange(s.recipes, r.recipes, s.nextRecipe, |es|);
  }

  /** A key set described by membership is the old keys plus the range. */
  lemma KeysOfRange(before: map<RecipeId, Recipe>, after: map<RecipeId, Recipe>, lo: nat, n: nat)
    requires forall id: RecipeId :: id in after <==> id in before || lo <= id < lo + n
    ensures after.Keys == before.Keys + IdRange(lo, n)
  {
  }

  /** `importRecipesFromJSON`: nothing happens when the catalogue is not in
      the bundle, when the store already holds a recipe, or when the file
      cannot be read or decoded; otherwise every entry is imported and the
      whole batch is committed at once. */
  method ImportRecipes(s: Store, file: CatalogueFile, lookup: ImageLookup) returns (r: Store)
    requires Valid(s)
    ensures Valid(r)
    ensures file.Missing? || file.Undecodable? || |s.recipes| > 0 ==> r == s
    ensures file.Decoded? && file.entries == [] ==> r == s
    ensures file.Decoded? && |s.recipes| == 0 ==>
              && |r.recipes| == |file.entries|
              && r.recipes.Keys == IdRange(s.nextRecipe, |file.entries|)
              && HoldsFirst(r, s.nextRecipe, file.entries, |file.entries|, lookup)
    ensures UniqueTagNames(s.tags) ==> UniqueTagNames(r.tags)
  {
    if file.Missing? || |s.recipes| > 0 || file.Undecodable? {
      return s;
    }
    r := ImportEntries(s, file.entries, lookup);
    assert s.recipes.Keys == {};
    assert |r.recipes| == |r.recipes.Keys|;
  }

  /** Running the import a second time changes nothing: either the first run
      left a recipe in the store, or it changed nothing at all. */
  method ImportTwice(s: Store, file: CatalogueFile, lookup: ImageLookup) returns (once: Store, twice: Store)
    requires Valid(s)
    ensures twice == once
  {
    once := ImportRecipes(s, file, lookup);
    twice := ImportRecipes(once, file, lookup);
    if file.Decoded? && |s.recipes| == 0 && |once.recipes| == 0 {
      assert file.entries == [];
    }
  }

  /** Entries that share a tag name share one Tag record: when tag names are
      unique, the recipes made from two entries listing the same name point
      at the same tag. */
  lemma SharedNameSharedTag(r: Store, a: RecipeId, b: RecipeId, ea: Entry, eb: Entry, lookup: ImageLookup, name: string)
    requires UniqueTagNames(r.tags) && HoldsEntry(r, a, ea, lookup) && HoldsEntry(r, b, eb, lookup)
    requires name in ea.tags && name in eb.tags
    ensures exists t :: t in r.recipes[a].tags && t in r.recipes[b].tags && t in r.tags && r.tags[t].name == name
  {
    var ra, rb := r.recipes[a], r.recipes[b];
    assert name in NamesOf(r.tags, ra.tags) && name in NamesOf(r.tags, rb.tags);
    var ta :| ta in ra.tags && ta in r.tags && r.tags[ta].name == name;
    var tb :| tb in rb.tags && tb in r.tags && r.tags[tb].name == name;
    assert ta == tb;
  }

  /** The orphan sweep keeps every recipe with its tag names. */
  lemma SweepKeepsEntry(s: Store, id: RecipeId, e: Entry, lookup: ImageLookup)
    requires Valid(s) && HoldsEntry(s, id, e, lookup)
    ensures HoldsEntry(SweepOrphanedTags(s), id, e, lookup)
  {
    var r := SweepOrphanedTags(s);
    var rec := s.recipes[id];
    forall t | t in rec.tags
      ensures t in r.tags && r.tags[t] == s.tags[t]
    {
      assert IsAttached(s, t);
    }
  }

  /** The orphan sweep keeps every recipe made from a catalogue entry. */
  lemma SweepKeepsEntries(s: Store, base: nat, es: seq<Entry>, lookup: ImageLookup)
    requires Valid(s)
    requires HoldsFirst(s, base, es, |es|, lookup)
    ensures HoldsFirst(SweepOrphanedTags(s), base, es, |es|, lookup)
  {
    forall i | 0 <= i < |es|
      ensures HoldsEntry(SweepOrphanedTags(s), base + i, es[i], lookup)
    {
      SweepKeepsEntry(s, base + i, es[i], lookup);
    }
  }

  /** `PersistenceController.init`: the import, then the orphan sweep.
      Afterwards every tag is attached to some recipe; on a store without
      recipes and a decodable catalogue the recipes are exactly the
      imported ones, each carrying its entry's data. */
  method Startup(s: Store, file: CatalogueFile, lookup: ImageLookup) returns (r: Store)
    requires Valid(s)
    ensures Valid(r)
    ensures forall t :: t in r.tags ==> IsAttached(r, t)
    ensures file.Missing? || file.Undecodable? || |s.recipes| > 0 ==> r == SweepOrphanedTags(s)
    ensures file.Decoded? && |s.recipes| == 0 ==>
              && r.recipes.Keys == IdRange(s.nextRecipe, |file.entries|)
              && HoldsFirst(r, s.nextRecipe, file.entries, |file.entries|, lookup)
  {
    var imported := ImportRecipes(s, file, lookup);
    if file.Decoded? && |s.recipes| == 0 {
      SweepKeepsEntries(imported, s.nextRecipe, file.entries, lookup);
    }
    r := SweepOrphanedTags(imported);
  }
}
