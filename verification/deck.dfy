/** The swipe deck of the home screen: the displayed recipes, the index of
    the top card and whether the deck has been set up. The first filtering
    shuffles the recipes that pass the tag exclusion; a later one (after the
    exclusion sheet changed the setting) shows them unshuffled and keeps the
    top index; swiping advances the index or, past the last card, reshuffles
    all recipes and starts over. At most three cards are rendered. */
module HomeDeck {
  import opened Seqs
  import opened RecipeStore
  import opened RecipeQueries
  import opened Strings
  import opened ExcludedTags

  datatype Deck = Deck(displayed: seq<RecipeId>, top: nat, initialized: bool)

  /** The state before the home screen first appears. */
  const Fresh: Deck := Deck([], 0, false)

  /** The recipes passing the exclusion stored in `storage`, in fetch
      order. */
  function Passing(s: Store, fetch: seq<RecipeId>, storage: string): (r: seq<RecipeId>)
    ensures IsSubsequence(r, fetch)
    ensures forall id :: id in r <==>
              id in fetch && id in s.recipes && NamesOf(s.tags, s.recipes[id].tags) !! Elems(Decode(storage))
  {
    ExcludingTags(s, fetch, Decode(storage))
  }

  /** `filterRecipes`, with `rolls` the randomness of `shuffled()`. */
  function FilterRecipes(d: Deck, s: Store, fetch: seq<RecipeId>, storage: string, rolls: seq<nat>): (r: Deck)
    ensures r.initialized == d.initialized
    ensures !d.initialized ==> r.top == 0 && multiset(r.displayed) == multiset(Passing(s, fetch, storage))
    ensures d.initialized ==> r.top == d.top && r.displayed == Passing(s, fetch, storage)
  {
    var filtered := Passing(s, fetch, storage);
    if !d.initialized then Deck(Shuffle(filtered, rolls), 0, false)
    else d.(displayed := filtered)
  }

  /** `onAppear`: the first appearance filters (shuffling) and marks the
      deck set up; later appearances change nothing. */
  function OnAppear(d: Deck, s: Store, fetch: seq<RecipeId>, storage: string, rolls: seq<nat>): (r: Deck)
    ensures r.initialized
    ensures d.initialized ==> r == d
    ensures !d.initialized ==> r.top == 0 && multiset(r.displayed) == multiset(Passing(s, fetch, storage))
  {
    if d.initialized then d
    else FilterRecipes(d, s, fetch, storage, rolls).(initialized := true)
  }

  /** `swipeCard` after its animation delay; `fetch` is the whole recipe
      fetch and `rolls` the randomness of `resetDeck`'s shuffle. */
  function Swipe(d: Deck, fetch: seq<RecipeId>, rolls: seq<nat>): (r: Deck)
    ensures r.initialized == d.initialized
    ensures d.top < |d.displayed| - 1 ==> r.displayed == d.displayed && r.top == d.top + 1
    ensures d.top >= |d.displayed| - 1 ==> r.top == 0 && multiset(r.displayed) == multiset(fetch)
  {
    if d.top < |d.displayed| - 1 then d.(top := d.top + 1)
    else ResetDeck(d, fetch, rolls)
  }

  /** `resetDeck`: all recipes, shuffled, from the first card. */
  function ResetDeck(d: Deck, fetch: seq<RecipeId>, rolls: seq<nat>): (r: Deck)
    ensures r.top == 0 && r.initialized == d.initialized
    ensures multiset(r.displayed) == multiset(fetch) && |r.displayed| == |fetch|
  {
    d.(displayed := Shuffle(fetch, rolls), top := 0)
  }

  function Min(a: int, b: int): int
  {
    if a <= b then a else b
  }

  /** The rendered cards: those at indices `top <= i < top + 3`. */
  function Window(d: Deck): (r: seq<RecipeId>)
    ensures |r| <= 3
    ensures forall k :: 0 <= k < |r| ==> d.top + k < |d.displayed| && r[k] == d.displayed[d.top + k]
    ensures forall i :: d.top <= i < d.top + 3 && i < |d.displayed| ==> d.displayed[i] in r
    ensures d.top >= |d.displayed| <==> r == []
  {
    var lo := Min(d.top, |d.displayed|);
    var r := d.displayed[lo..Min(d.top + 3, |d.displayed|)];
    assert forall i :: d.top <= i < d.top + 3 && i < |d.displayed| ==> d.displayed[i] == r[i - d.top];
    r
  }

  /** `displayedRecipes[safe: topRecipeIndex]`: the recipe the detail sheet
      shows. */
  function Current(d: Deck): (r: Option<RecipeId>)
    ensures r.Some? <==> d.top < |d.displayed|
    ensures r.Some? ==> r.value == d.displayed[d.top] && Window(d) != [] && Window(d)[0] == r.value
  {
    SafeGet(d.displayed, d.top)
  }

  /** A swipe needs a rendered card to drag. */
  predicate CanSwipe(d: Deck)
  {
    Window(d) != []
  }

  /** The deck shows its top card whenever it has cards at all. */
  predicate TopCardShown(d: Deck)
  {
    d.displayed == [] || d.top < |d.displayed|
  }

  /** The first appearance and every swipe keep the top card in place. */
  lemma AppearAndSwipeKeepTopCard(d: Deck, s: Store, fetch: seq<RecipeId>, storage: string, rolls: seq<nat>)
    requires TopCardShown(d)
    ensures TopCardShown(OnAppear(Fresh, s, fetch, storage, rolls))
    ensures TopCardShown(Swipe(d, fetch, rolls))
  {
  }

  /** Swiping through a deck of `n` cards from the first card reaches the
      last card after `n - 1` swipes without reshuffling, and the next
      swipe starts over on a reshuffled deck of all recipes. */
  lemma SwipeThrough(d: Deck, fetch: seq<RecipeId>, rolls: seq<nat>, k: nat)
    requires d.top + k < |d.displayed|
    ensures var e := Swipes(d, fetch, rolls, k);
            e.displayed == d.displayed && e.top == d.top + k
    ensures d.top + k == |d.displayed| - 1 ==>
              var w := Swipe(Swipes(d, fetch, rolls, k), fetch, rolls);
              w.top == 0 && multiset(w.displayed) == multiset(fetch)
    decreases k
  {
    if k > 0 {
      SwipeThrough(d, fetch, rolls, k - 1);
    }
  }

  /** `k` swipes in a row, each with the same randomness. */
  function Swipes(d: Deck, fetch: seq<RecipeId>, rolls: seq<nat>, k: nat): Deck
    decreases k
  {
    if k == 0 then d else Swipe(Swipes(d, fetch, rolls, k - 1), fetch, rolls)
  }

  // ---------------------------------------------------------------------
  // Refiltering never clamps the top index.

  /** As written, a refilter that leaves fewer cards than the top index
      leaves no card rendered and no current recipe, so no swipe is
      possible either. */
  lemma RefilterCanBlankDeck(d: Deck, s: Store, fetch: seq<RecipeId>, storage: string, rolls: seq<nat>)
    requires d.initialized && |Passing(s, fetch, storage)| <= d.top
    ensures var r := FilterRecipes(d, s, fetch, storage, rolls);
            Window(r) == [] && Current(r).None? && !CanSwipe(r)
  {
  }

  /** A concrete case: two recipes, the first tagged "x", both on the deck
      with the second on top; then "x" is excluded. The refiltered deck
      holds one recipe but renders none. */
  lemma RefilterBlankExample()
    ensures var s := Store(map[0 := Recipe(Some("A"), "", None, [], {0}),
                               1 := Recipe(Some("B"), "", None, [], {})],
                           map[0 := Tag("x")], 2, 1);
            var r := FilterRecipes(Deck([0, 1], 1, true), s, [0, 1], "x", []);
            r.displayed == [1] && Window(r) == [] && Current(r).None?
  {
    var s := Store(map[0 := Recipe(Some("A"), "", None, [], {0}),
                       1 := Recipe(Some("B"), "", None, [], {})],
                   map[0 := Tag("x")], 2, 1);
    assert Decode("x") == ["x"] by {
      assert PieceLength("x", Separator) == 1;
      assert "x"[..1] == "x" && "x"[1..] == [];
    }
    var p := NoExcludedTag(s, ["x"]);
    assert !p(0) by {
      assert 0 in s.recipes[0].tags && 0 in s.tags && s.tags[0].name in ["x"];
    }
    assert p(1);
    assert [0, 1][1..] == [1] && [1][1..] == [];
    assert Filter([0, 1], p) == [1];
  }

  /** `filterRecipes` with the top index reset when it falls off the
      refiltered deck. */
  function FilterRecipesClamped(d: Deck, s: Store, fetch: seq<RecipeId>, storage: string, rolls: seq<nat>): (r: Deck)
    ensures r.initialized == d.initialized
    ensures multiset(r.displayed) == multiset(Passing(s, fetch, storage))
    ensures d.initialized && d.top < |r.displayed| ==> r == FilterRecipes(d, s, fetch, storage, rolls)
  {
    var r := FilterRecipes(d, s, fetch, storage, rolls);
    if r.top < |r.displayed| then r else r.(top := 0)
  }

  /** With the clamp, every filtering leaves the top card shown. */
  lemma ClampedKeepsTopCard(d: Deck, s: Store, fetch: seq<RecipeId>, storage: string, rolls: seq<nat>)
    ensures TopCardShown(FilterRecipesClamped(d, s, fetch, storage, rolls))
    ensures Passing(s, fetch, storage) != [] ==> CanSwipe(FilterRecipesClamped(d, s, fetch, storage, rolls))
  {
    var r := FilterRecipesClamped(d, s, fetch, storage, rolls);
    if Passing(s, fetch, storage) != [] {
      assert |multiset(r.displayed)| == |multiset(Passing(s, fetch, storage))|;
    }
  }

  // ---------------------------------------------------------------------
  // The wrap-around reshuffles all recipes, ignoring the exclusion.

  /** Every displayed card passes the exclusion. */
  predicate AllPass(d: Deck, s: Store, fetch: seq<RecipeId>, storage: string)
  {
    forall id :: id in d.displayed ==> id in Passing(s, fetch, storage)
  }

  /** As written, swiping past the last card brings back every recipe of
      the fetch, the excluded ones included. */
  lemma WrapBringsBackExcluded(d: Deck, fetch: seq<RecipeId>, rolls: seq<nat>, id: RecipeId)
    requires d.top >= |d.displayed| - 1 && id in fetch
    ensures id in Swipe(d, fetch, rolls).displayed
  {
    var r := Swipe(d, fetch, rolls);
    assert id in multiset(fetch);
  }

  /** Consequently an excluded recipe can reappear: an excluded fetched
      recipe is on the deck after the wrap although the deck passed the
      exclusion before it. */
  lemma WrapBreaksExclusion(d: Deck, s: Store, fetch: seq<RecipeId>, storage: string, rolls: seq<nat>, id: RecipeId)
    requires d.top >= |d.displayed| - 1 && id in fetch && id in s.recipes
    requires !(NamesOf(s.tags, s.recipes[id].tags) !! Elems(Decode(storage)))
    ensures !AllPass(Swipe(d, fetch, rolls), s, fetch, storage)
  {
    WrapBringsBackExcluded(d, fetch, rolls, id);
  }

  /** `swipeCard` with the wrap reshuffling the recipes that pass the
      exclusion. */
  function SwipeFiltered(d: Deck, s: Store, fetch: seq<RecipeId>, storage: string, rolls: seq<nat>): (r: Deck)
    ensures r.initialized == d.initialized
    ensures d.top < |d.displayed| - 1 ==> r == Swipe(d, fetch, rolls)
    ensures d.top >= |d.displayed| - 1 ==> r.top == 0 && multiset(r.displayed) == multiset(Passing(s, fetch, storage))
  {
    if d.top < |d.displayed| - 1 then d.(top := d.top + 1)
    else ResetDeck(d, Passing(s, fetch, storage), rolls)
  }

  /** With the corrected wrap, the first appearance, a refilter and every
      swipe keep all displayed cards passing the exclusion. */
  lemma FilteredDeckStaysFiltered(d: Deck, s: Store, fetch: seq<RecipeId>, storage: string, rolls: seq<nat>)
    requires AllPass(d, s, fetch, storage)
    ensures AllPass(OnAppear(Fresh, s, fetch, storage, rolls), s, fetch, storage)
    ensures AllPass(FilterRecipes(d, s, fetch, storage, rolls), s, fetch, storage)
    ensures AllPass(SwipeFiltered(d, s, fetch, storage, rolls), s, fetch, storage)
  {
    var p := Passing(s, fetch, storage);
    var a := OnAppear(Fresh, s, fetch, storage, rolls);
    PermutationMembers(a.displayed, p);
    var f := FilterRecipes(d, s, fetch, storage, rolls);
    PermutationMembers(f.displayed, p);
    var w := SwipeFiltered(d, s, fetch, storage, rolls);
    if d.top >= |d.displayed| - 1 {
      PermutationMembers(w.displayed, p);
    }
  }
}
