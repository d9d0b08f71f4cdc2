/** The editable string lists of the recipe forms (ingredients and tags):
    a text field with a "+" button that appends its text, and swipe-to-
    delete by offsets. */
module FormLists {
  import opened Seqs

  /** No entry of the list is the empty string. */
  predicate NoEmptyEntries(list: seq<string>)
  {
    forall i :: 0 <= i < |list| ==> list[i] != []
  }

  /** The "+" button: non-empty text goes to the end of the list and the
      field is cleared; empty text changes nothing. Yields the new list and
      the new field text. */
  function AddEntry(list: seq<string>, text: string): (r: (seq<string>, string))
    ensures r.1 == []
    ensures |r.0| == |list| + (if text == [] then 0 else 1)
    ensures r.0[..|list|] == list
    ensures text != [] ==> r.0[|list|] == text
  {
    if text != [] then (list + [text], []) else (list, text)
  }

  /** `remove(atOffsets:)` on a form list: the rows not swiped away, in
      their order. */
  function RemoveEntries(list: seq<string>, offsets: set<nat>): (r: seq<string>)
    requires forall i :: i in offsets ==> i < |list|
    ensures |r| == |list| - |offsets|
    ensures IsSubsequence(r, list)
    ensures |r| == |KeptIndices(|list|, offsets)|
    ensures forall k :: 0 <= k < |r| ==> r[k] == list[KeptIndices(|list|, offsets)[k]]
  {
    RemoveAtOffsetsPositions(list, offsets);
    RemoveAtOffsets(list, offsets)
  }

  /** Neither adding nor removing ever puts an empty entry in a list. */
  lemma AddEntryKeepsNoEmpty(list: seq<string>, text: string)
    requires NoEmptyEntries(list)
    ensures NoEmptyEntries(AddEntry(list, text).0)
  {
    var r := AddEntry(list, text).0;
    forall i | 0 <= i < |r|
      ensures r[i] != []
    {
      if i < |list| {
        assert r[i] == r[..|list|][i];
      }
    }
  }

  lemma RemoveEntriesKeepsNoEmpty(list: seq<string>, offsets: set<nat>)
    requires NoEmptyEntries(list) && forall i :: i in offsets ==> i < |list|
    ensures NoEmptyEntries(RemoveEntries(list, offsets))
  {
    var r := RemoveEntries(list, offsets);
    forall i | 0 <= i < |r|
      ensures r[i] != []
    {
      assert r[i] in r;
    }
  }

  /** Removing the entry just added restores the list. */
  lemma AddThenRemoveLast(list: seq<string>, text: string)
    requires text != []
    ensures RemoveEntries(AddEntry(list, text).0, {|list|}) == list
  {
    var a := list + [text];
    assert a[..|list|] == list;
    RemoveNothing(list);
  }

  lemma {:induction false} RemoveNothing(list: seq<string>)
    ensures RemoveAtOffsets(list, {}) == list
    decreases |list|
  {
    if list != [] {
      var n := |list| - 1;
      RemoveNothing(list[..n]);
      assert list[..n] + [list[n]] == list;
    }
  }
}
