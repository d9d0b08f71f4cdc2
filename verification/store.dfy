/** The object store behind the app: Recipe records (title, description,
    image, owned ingredient names, associated Tag ids) and Tag records
    (a name). A store value is one committed snapshot; every mutation is a
    function from snapshot to snapshot, so a save is atomic by construction.
    Deleting a Recipe deletes its ingredients with it; deleting a Tag
    removes it from every Recipe's tag set. */
module RecipeStore {
  import opened Seqs

  type RecipeId = nat
  type TagId = nat

  /** PNG data of a recipe photo; its contents are never inspected. */
  type Image = seq<bv8>

  /** The tag name that marks a recipe as "to try". */
  const TryTag: string := "Ausprobieren"

  datatype Recipe = Recipe(
    title: Option<string>,
    description: string,
    image: Option<Image>,
    ingredients: seq<string>,
    tags: set<TagId>)

  datatype Tag = Tag(name: string)

  datatype Store = Store(
    recipes: map<RecipeId, Recipe>,
    tags: map<TagId, Tag>,
    nextRecipe: RecipeId,
    nextTag: TagId)

  /** Ids in use are below the counters, and every tag a recipe refers to
      exists. */
  predicate Valid(s: Store)
  {
    && (forall r :: r in s.recipes ==> r < s.nextRecipe)
    && (forall t :: t in s.tags ==> t < s.nextTag)
    && (forall r :: r in s.recipes ==> s.recipes[r].tags <= s.tags.Keys)
  }

  /** The `n` consecutive ids starting at `lo`. */
  function IdRange(lo: nat, n: nat): (r: set<nat>)
    ensures |r| == n
    ensures forall x :: x in r <==> lo <= x < lo + n
    decreases n
  {
    if n == 0 then {}
    else
      var rest := IdRange(lo + 1, n - 1);
      assert lo !in rest;
      {lo} + rest
  }

  const Empty: Store := Store(map[], map[], 0, 0)

  /** The names of the tags in `ids`. */
  function NamesOf(tags: map<TagId, Tag>, ids: set<TagId>): set<string>
  {
    set t | t in ids && t in tags :: tags[t].name
  }

  /** `ANY tags.name == name` on a recipe. */
  predicate HasTagNamed(s: Store, r: Recipe, name: string)
  {
    name in NamesOf(s.tags, r.tags)
  }

  /** Every tag name occurring in the store. */
  function AllTagNames(s: Store): set<string>
  {
    NamesOf(s.tags, s.tags.Keys)
  }

  /** No two Tag records carry the same name. */
  predicate UniqueTagNames(tags: map<TagId, Tag>)
  {
    forall a, b :: a in tags && b in tags && tags[a].name == tags[b].name ==> a == b
  }

  /** `tag.recipes`: the recipes a tag is attached to (the inverse side of
      the many-to-many relationship). */
  predicate IsAttached(s: Store, t: TagId)
  {
    exists r | r in s.recipes :: t in s.recipes[r].tags
  }

  /** `after` keeps every tag of `before` with its name. */
  predicate TagsExtend(before: map<TagId, Tag>, after: map<TagId, Tag>)
  {
    forall t :: t in before ==> t in after && after[t] == before[t]
  }

  lemma NamesOfExtend(before: map<TagId, Tag>, after: map<TagId, Tag>, ids: set<TagId>)
    requires TagsExtend(before, after) && ids <= before.Keys
    ensures NamesOf(after, ids) == NamesOf(before, ids)
  {
  }

  /** A fetch `name == %@` whose first hit is taken: the lowest-numbered tag
      below `below` carrying `name`. */
  function FindTag(tags: map<TagId, Tag>, name: string, below: nat): (r: Option<TagId>)
    ensures r.Some? ==> r.value in tags && tags[r.value].name == name && r.value < below
    ensures r.None? ==> forall t :: t in tags && t < below ==> tags[t].name != name
    decreases below
  {
    if below == 0 then None
    else
      match FindTag(tags, name, below - 1)
      case Some(t) => Some(t)
      case None =>
        if below - 1 in tags && tags[below - 1].name == name then Some(below - 1) else None
  }

  /** A new Tag record with the given name and a fresh id. */
  function NewTag(s: Store, name: string): (r: (Store, TagId))
    requires Valid(s)
    ensures Valid(r.0) && r.1 !in s.tags && r.0.tags == s.tags[r.1 := Tag(name)]
    ensures r.0.recipes == s.recipes && r.0.nextRecipe == s.nextRecipe
    ensures r.0.nextTag == s.nextTag + 1 && r.1 == s.nextTag
  {
    (s.(tags := s.tags[s.nextTag := Tag(name)], nextTag := s.nextTag + 1), s.nextTag)
  }

  /** Find-or-create: reuse a Tag with exactly this name, otherwise create
      one under a fresh id. */
  function FindOrCreateTag(s: Store, name: string): (r: (Store, TagId))
    requires Valid(s)
    ensures Valid(r.0) && r.0.recipes == s.recipes && r.0.nextRecipe == s.nextRecipe
    ensures r.1 in r.0.tags && r.0.tags[r.1].name == name
    ensures TagsExtend(s.tags, r.0.tags)
    ensures name in AllTagNames(s) ==> r.0 == s
    ensures name !in AllTagNames(s) ==> r.0.tags == s.tags[r.1 := Tag(name)] && r.1 !in s.tags
  {
    match FindTag(s.tags, name, s.nextTag)
    case Some(t) =>
      assert name in AllTagNames(s);
      (s, t)
    case None =>
      assert name !in AllTagNames(s);
      NewTag(s, name)
  }

  /** Find-or-create adds exactly the requested name to the store's names
      and never produces a second Tag with a name already present. */
  lemma FindOrCreateTagNames(s: Store, name: string)
    requires Valid(s)
    ensures var r := FindOrCreateTag(s, name);
            && AllTagNames(r.0) == AllTagNames(s) + {name}
            && (UniqueTagNames(s.tags) ==> UniqueTagNames(r.0.tags))
  {
    var r := FindOrCreateTag(s, name);
    if name !in AllTagNames(s) {
      assert r.0.tags.Keys == s.tags.Keys + {r.1};
      NamesOfInsert(s.tags, r.1, name, s.tags.Keys);
    }
  }

  lemma NamesOfInsert(tags: map<TagId, Tag>, t: TagId, name: string, ids: set<TagId>)
    requires t !in tags && ids <= tags.Keys
    ensures NamesOf(tags[t := Tag(name)], ids + {t}) == NamesOf(tags, ids) + {name}
  {
    var after := tags[t := Tag(name)];
    forall n | n in NamesOf(after, ids + {t})
      ensures n in NamesOf(tags, ids) + {name}
    {
      var u :| u in ids + {t} && u in after && after[u].name == n;
      if u != t {
        assert u in ids && u in tags && tags[u].name == n;
      }
    }
    forall n | n in NamesOf(tags, ids) + {name}
      ensures n in NamesOf(after, ids + {t})
    {
      if n == name {
        assert t in ids + {t} && t in after && after[t].name == n;
      } else {
        var u :| u in ids && u in tags && tags[u].name == n;
        assert u in ids + {t} && u in after && after[u].name == n;
      }
    }
  }

  /** `recipe.addToTags(tag)`. */
  function AttachTag(s: Store, rid: RecipeId, t: TagId): (r: Store)
    requires Valid(s) && rid in s.recipes && t in s.tags
    ensures Valid(r) && r.tags == s.tags && r.recipes.Keys == s.recipes.Keys
    ensures r.recipes[rid] == s.recipes[rid].(tags := s.recipes[rid].tags + {t})
    ensures forall o :: o in s.recipes && o != rid ==> r.recipes[o] == s.recipes[o]
  {
    var rec := s.recipes[rid];
    s.(recipes := s.recipes[rid := rec.(tags := rec.tags + {t})])
  }

  /** `after` differs from `before` only in the tag set of recipe `rid`,
      which grows, and in new Tag records, each attached to `rid`. */
  predicate TagsAddedTo(before: Store, after: Store, rid: RecipeId)
    requires rid in before.recipes
  {
    && after.recipes.Keys == before.recipes.Keys
    && after.nextRecipe == before.nextRecipe
    && after.recipes[rid] == before.recipes[rid].(tags := after.recipes[rid].tags)
    && before.recipes[rid].tags <= after.recipes[rid].tags
    && (forall o :: o in before.recipes && o != rid ==> after.recipes[o] == before.recipes[o])
    && TagsExtend(before.tags, after.tags)
    && (forall t :: t in after.tags && t !in before.tags ==> t in after.recipes[rid].tags)
  }

  lemma TagsAddedToTransitive(a: Store, b: Store, c: Store, rid: RecipeId)
    requires rid in a.recipes && TagsAddedTo(a, b, rid) && TagsAddedTo(b, c, rid)
    ensures TagsAddedTo(a, c, rid)
  {
  }

  /** Find-or-create one tag by name and attach it to the recipe. */
  function AttachTagByName(s: Store, rid: RecipeId, name: string): (r: Store)
    requires Valid(s) && rid in s.recipes
    ensures Valid(r) && TagsAddedTo(s, r, rid)
  {
    var (s1, t) := FindOrCreateTag(s, name);
    AttachTag(s1, rid, t)
  }

  /** Attaching one name adds exactly that name, both to the recipe's tag
      names and to the store's, and keeps names unique. */
  lemma AttachTagByNameNames(s: Store, rid: RecipeId, name: string)
    requires Valid(s) && rid in s.recipes
    ensures var r := AttachTagByName(s, rid, name);
            && NamesOf(r.tags, r.recipes[rid].tags) == NamesOf(s.tags, s.recipes[rid].tags) + {name}
            && AllTagNames(r) == AllTagNames(s) + {name}
            && (UniqueTagNames(s.tags) ==> UniqueTagNames(r.tags))
  {
    var (s1, t) := FindOrCreateTag(s, name);
    FindOrCreateTagNames(s, name);
    var r := AttachTag(s1, rid, t);
    NamesOfExtend(s.tags, r.tags, s.recipes[rid].tags);
    NamesOfAdd(r.tags, s.recipes[rid].tags, t);
  }

  lemma NamesOfAdd(tags: map<TagId, Tag>, ids: set<TagId>, t: TagId)
    requires t in tags
    ensures NamesOf(tags, ids + {t}) == NamesOf(tags, ids) + {tags[t].name}
  {
  }

  /** Find-or-create and attach each name in turn, as the import and the
      add-recipe form do. */
  function AttachTagsByName(s: Store, rid: RecipeId, names: seq<string>): (r: Store)
    requires Valid(s) && rid in s.recipes
    ensures Valid(r) && TagsAddedTo(s, r, rid)
    decreases |names|
  {
    if names == [] then s
    else
      var s2 := AttachTagByName(s, rid, names[0]);
      var r := AttachTagsByName(s2, rid, names[1..]);
      TagsAddedToTransitive(s, s2, r, rid);
      r
  }

  /** After attaching by name, the recipe carries exactly its old tag names
      plus the given ones. */
  lemma {:induction false} AttachTagsByNameNames(s: Store, rid: RecipeId, names: seq<string>)
    requires Valid(s) && rid in s.recipes
    ensures var r := AttachTagsByName(s, rid, names);
            NamesOf(r.tags, r.recipes[rid].tags) == NamesOf(s.tags, s.recipes[rid].tags) + Elems(names)
    decreases |names|
  {
    if names == [] {
      assert Elems(names) == {};
    } else {
      var s2 := AttachTagByName(s, rid, names[0]);
      AttachTagByNameNames(s, rid, names[0]);
      AttachTagsByNameNames(s2, rid, names[1..]);
      ElemsCons(names);
      var a, b := NamesOf(s.tags, s.recipes[rid].tags), NamesOf(s2.tags, s2.recipes[rid].tags);
      assert b == a + {names[0]};
    }
  }

  /** Attaching by name adds exactly the given names to the store's names. */
  lemma {:induction false} AttachTagsByNameAllNames(s: Store, rid: RecipeId, names: seq<string>)
    requires Valid(s) && rid in s.recipes
    ensures AllTagNames(AttachTagsByName(s, rid, names)) == AllTagNames(s) + Elems(names)
    decreases |names|
  {
    if names == [] {
      assert Elems(names) == {};
    } else {
      var s2 := AttachTagByName(s, rid, names[0]);
      AttachTagByNameNames(s, rid, names[0]);
      AttachTagsByNameAllNames(s2, rid, names[1..]);
      ElemsCons(names);
    }
  }

  /** Attaching tags by name through find-or-create never introduces a
      second Tag record with an existing name. */
  lemma {:induction false} AttachTagsByNameKeepsNamesUnique(s: Store, rid: RecipeId, names: seq<string>)
    requires Valid(s) && rid in s.recipes && UniqueTagNames(s.tags)
    ensures UniqueTagNames(AttachTagsByName(s, rid, names).tags)
    decreases |names|
  {
    if names != [] {
      AttachTagByNameNames(s, rid, names[0]);
      AttachTagsByNameKeepsNamesUnique(AttachTagByName(s, rid, names[0]), rid, names[1..]);
    }
  }

  /** The set of elements of a sequence. */
  function Elems<T>(xs: seq<T>): set<T>
  {
    set x | x in xs
  }

  lemma ElemsCons<T>(xs: seq<T>)
    requires xs != []
    ensures Elems(xs) == {xs[0]} + Elems(xs[1..])
  {
    assert forall x :: x in xs <==> x == xs[0] || x in xs[1..];
  }

  /** Insert a Recipe record under a fresh id. */
  function InsertRecipe(s: Store, rec: Recipe): (r: (Store, RecipeId))
    requires Valid(s) && rec.tags <= s.tags.Keys
    ensures Valid(r.0) && r.1 !in s.recipes && r.0.recipes == s.recipes[r.1 := rec]
    ensures r.0.tags == s.tags && r.0.nextTag == s.nextTag
    ensures r.1 == s.nextRecipe && r.0.nextRecipe == s.nextRecipe + 1
  {
    (s.(recipes := s.recipes[s.nextRecipe := rec], nextRecipe := s.nextRecipe + 1), s.nextRecipe)
  }

  /** `viewContext.delete(recipe)`: the recipe and its ingredients go; its
      tags stay (possibly orphaned). A missing id changes nothing. */
  function DeleteRecipe(s: Store, rid: RecipeId): (r: Store)
    requires Valid(s)
    ensures Valid(r)
    ensures r.recipes.Keys == s.recipes.Keys - {rid}
    ensures forall o :: o in r.recipes ==> r.recipes[o] == s.recipes[o]
    ensures r.tags == s.tags
  {
    s.(recipes := s.recipes - {rid})
  }

  /** Delete several recipes and commit once. */
  function DeleteRecipes(s: Store, ids: set<RecipeId>): (r: Store)
    requires Valid(s)
    ensures Valid(r)
    ensures r.recipes.Keys == s.recipes.Keys - ids
    ensures forall o :: o in r.recipes ==> r.recipes[o] == s.recipes[o]
    ensures r.tags == s.tags
  {
    s.(recipes := s.recipes - ids)
  }

  /** `viewContext.delete(tag)` for each tag in `ids`: the records go and
      every recipe loses them from its tag set. */
  function DeleteTags(s: Store, ids: set<TagId>): (r: Store)
    requires Valid(s)
    ensures Valid(r)
    ensures r.tags.Keys == s.tags.Keys - ids
    ensures forall t :: t in r.tags ==> r.tags[t] == s.tags[t]
    ensures r.recipes.Keys == s.recipes.Keys
    ensures forall o :: o in s.recipes ==>
              r.recipes[o] == s.recipes[o].(tags := s.recipes[o].tags - ids)
    ensures r.nextRecipe == s.nextRecipe && r.nextTag == s.nextTag
  {
    s.(tags := s.tags - ids,
       recipes := map o | o in s.recipes :: s.recipes[o].(tags := s.recipes[o].tags - ids))
  }

  /** `removeOrphanedTags`: delete every Tag that no recipe refers to. */
  function SweepOrphanedTags(s: Store): (r: Store)
    requires Valid(s)
    ensures Valid(r)
    ensures r.recipes == s.recipes
    ensures forall t :: t in r.tags <==> t in s.tags && IsAttached(s, t)
    ensures forall t :: t in r.tags ==> r.tags[t] == s.tags[t]
    ensures forall t :: t in r.tags ==> IsAttached(r, t)
  {
    s.(tags := map t | t in s.tags && IsAttached(s, t) :: s.tags[t])
  }

  /** The orphan scenario: a tag attached only to a recipe that is then
      deleted is swept away, while a tag that another recipe still carries
      survives. */
  lemma DeleteThenSweep(s: Store, rid: RecipeId, t: TagId)
    requires Valid(s) && t in s.tags
    ensures var r := SweepOrphanedTags(DeleteRecipe(s, rid));
            t in r.tags <==> exists o :: o in s.recipes && o != rid && t in s.recipes[o].tags
  {
    var d := DeleteRecipe(s, rid);
    if exists o :: o in s.recipes && o != rid && t in s.recipes[o].tags {
      var o :| o in s.recipes && o != rid && t in s.recipes[o].tags;
      assert o in d.recipes && t in d.recipes[o].tags;
    }
  }

  /** Sweeping twice is the same as sweeping once. */
  lemma SweepIdempotent(s: Store)
    requires Valid(s)
    ensures SweepOrphanedTags(SweepOrphanedTags(s)) == SweepOrphanedTags(s)
  {
  }
}
