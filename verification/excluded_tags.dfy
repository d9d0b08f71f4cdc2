/** The excluded-tags preference of the home deck: a list of tag names kept
    in one string setting, joined with ','; the per-tag toggles of the
    exclusion sheet; and the change detection that decides whether closing
    the sheet writes the setting back. */
module ExcludedTags {
  import opened Seqs
  import opened Strings
  import opened Sorting

  const Separator: char := ','

  /** The `excludedTags` getter: the stored string split on ',', empty
      pieces dropped. */
  function Decode(storage: string): (r: seq<string>)
    ensures forall i :: 0 <= i < |r| ==> r[i] != [] && Separator !in r[i]
  {
    Split(storage, Separator)
  }

  /** The `excludedTags` setter and the sheet callback: the names joined
      with ','. */
  function Encode(names: seq<string>): string
  {
    Join(names, Separator)
  }

  /** Names that survive storage unchanged: non-empty and free of ','. */
  predicate Storable(names: seq<string>)
  {
    forall i :: 0 <= i < |names| ==> names[i] != [] && Separator !in names[i]
  }

  /** Storing and reading back gives the same list for storable names. */
  lemma DecodeEncode(names: seq<string>)
    requires Storable(names)
    ensures Decode(Encode(names)) == names
  {
    SplitJoin(names, Separator);
  }

  /** A list read from storage is storable, so writing it back and reading
      again changes nothing. */
  lemma DecodeStable(storage: string)
    ensures Decode(Encode(Decode(storage))) == Decode(storage)
  {
    DecodeEncode(Decode(storage));
  }

  /** What any list of names becomes after a write and a read: each name
      is cut at its commas, and the empty pieces disappear. */
  lemma EncodeDecodePieces(names: seq<string>)
    ensures Decode(Encode(names)) == SplitEach(names, Separator)
  {
    SplitJoinPieces(names, Separator);
  }

  /** An empty name vanishes in storage: ["", "a"] comes back as ["a"]. */
  lemma EmptyNameVanishes()
    ensures Decode(Encode(["", "a"])) == ["a"]
  {
    EncodeDecodePieces(["", "a"]);
    SplitPiece("", Separator);
    SplitPiece("a", Separator);
    assert ["", "a"][1..] == ["a"] && ["a"][1..] == [];
  }

  /** A name containing ',' does not survive storage: "a,b" comes back as
      the two names "a" and "b", so a tag with that name is never
      excluded. */
  lemma CommaNameSplits()
    ensures Decode(Encode(["a,b"])) == ["a", "b"]
  {
    var s := "a,b";
    assert Encode(["a,b"]) == s;
    var b := s[2..];
    assert b == "b" && b[1..] == [];
    assert PieceLength(b[1..], Separator) == 0;
    assert PieceLength(b, Separator) == 1;
    assert Split(b, Separator) == [b[..1]] + Split(b[1..], Separator);
    assert b[..1] == "b" && Split(b[1..], Separator) == [];
    assert s[1..] == ",b" && s[1..][1..] == b;
    assert Split(s[1..], Separator) == ["b"];
    assert PieceLength(s[1..], Separator) == 0;
    assert PieceLength(s, Separator) == 1;
    assert s[..1] == "a";
    assert Split(s, Separator) == [s[..1]] + Split(s[1..], Separator);
  }

  function IsNot(name: string): string -> bool
  {
    (x: string) => x != name
  }

  /** The setter of a tag's toggle: on appends the name, off removes every
      occurrence of it. */
  function Toggle(names: seq<string>, name: string, on: bool): (r: seq<string>)
    ensures on ==> r == names + [name]
    ensures !on ==> name !in r && IsSubsequence(r, names)
    ensures !on ==> forall x :: x in r <==> x in names && x != name
    ensures !on ==> multiset(r) == multiset(names)[name := 0]
  {
    if on then names + [name]
    else
      FilterCounts(names, IsNot(name));
      var r := Filter(names, IsNot(name));
      assert forall x :: multiset(r)[x] == multiset(names)[name := 0][x];
      r
  }

  /** A toggle shows on iff its name is in the list. */
  predicate IsOn(names: seq<string>, name: string)
  {
    name in names
  }

  /** Switching a tag on and then off again restores the list, since the
      switch only turns on when the name was absent. */
  lemma ToggleOnOff(names: seq<string>, name: string)
    requires !IsOn(names, name)
    ensures IsOn(Toggle(names, name, true), name)
    ensures Toggle(Toggle(names, name, true), name, false) == names
  {
    FilterSnoc(names, name, IsNot(name));
    FilterAll(names, IsNot(name));
  }

  /** Switching a tag on while it is off keeps the list free of repeats. */
  lemma ToggleOnKeepsDistinct(names: seq<string>, name: string)
    requires Distinct(names) && !IsOn(names, name)
    ensures Distinct(Toggle(names, name, true))
  {
  }

  /** `initialTags.sorted() != localExcludedTags.sorted()`. */
  function Changed(initial: seq<string>, edited: seq<string>): (r: bool)
    ensures r <==> multiset(initial) != multiset(edited)
  {
    SortedEqualIffSameElements(initial, edited);
    SortBy(initial, Id) != SortBy(edited, Id)
  }

  /** Closing the sheet: when the edited list differs from the initial one
      as a multiset, the setting is rewritten and the deck refiltered
      (second component true); otherwise nothing happens. */
  function CloseSheet(storage: string, initial: seq<string>, edited: seq<string>): (r: (string, bool))
    ensures r.1 <==> multiset(initial) != multiset(edited)
    ensures r.1 ==> r.0 == Encode(edited)
    ensures !r.1 ==> r.0 == storage
  {
    if Changed(initial, edited) then (Encode(edited), true) else (storage, false)
  }

  /** Reordering the names alone never writes the setting. */
  lemma ReorderIsNoChange(storage: string, initial: seq<string>, edited: seq<string>)
    requires multiset(initial) == multiset(edited)
    ensures CloseSheet(storage, initial, edited) == (storage, false)
  {
  }
}
