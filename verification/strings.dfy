/** String helpers: substring search with a folding function in place of
    Foundation's locale-dependent case (and diacritic) folding, whitespace
    trimming, splitting and joining on a separator, and the lexicographic
    order used for sorting. */
module Strings {

  /** A locale's folding of a string before comparison (case folding for
      `localizedCaseInsensitive*`, case and diacritic folding for `[cd]`). */
  type Fold = string -> string

  /** `needle` occurs in `hay` starting at index `i`. */
  predicate OccursAt(needle: string, hay: string, i: nat)
  {
    i + |needle| <= |hay| && hay[i..i + |needle|] == needle
  }

  predicate IsSubstring(needle: string, hay: string)
  {
    exists i: nat | i <= |hay| :: OccursAt(needle, hay, i)
  }

  /** `hay.localizedCaseInsensitiveContains(needle)` and
      `hay CONTAINS[cd] needle`: a non-empty needle occurring in `hay` once
      both are folded. Foundation reports no match for an empty needle. */
  predicate FoldedContains(fold: Fold, hay: string, needle: string)
  {
    needle != [] && IsSubstring(fold(needle), fold(hay))
  }

  /** The characters of `CharacterSet.whitespacesAndNewlines` as far as this
      model distinguishes them. */
  predicate IsWhitespace(c: char)
  {
    ('\U{0009}' <= c <= '\U{000D}') || c == ' ' || c == '\U{0085}' || c == '\U{00A0}'
    || c == '\U{1680}' || ('\U{2000}' <= c <= '\U{200A}') || c == '\U{2028}'
    || c == '\U{2029}' || c == '\U{202F}' || c == '\U{205F}' || c == '\U{3000}'
  }

  function TrimStart(s: string): (r: string)
    ensures |r| <= |s| && r == s[|s| - |r|..]
    ensures r == [] || !IsWhitespace(r[0])
    ensures forall i :: 0 <= i < |s| - |r| ==> IsWhitespace(s[i])
    decreases |s|
  {
    if s != [] && IsWhitespace(s[0]) then TrimStart(s[1..]) else s
  }

  function TrimEnd(s: string): (r: string)
    ensures |r| <= |s| && r == s[..|r|]
    ensures r == [] || !IsWhitespace(r[|r| - 1])
    ensures forall i :: |r| <= i < |s| ==> IsWhitespace(s[i])
    decreases |s|
  {
    if s != [] && IsWhitespace(s[|s| - 1]) then TrimEnd(s[..|s| - 1]) else s
  }

  /** `trimmingCharacters(in: .whitespacesAndNewlines)`. */
  function Trim(s: string): (r: string)
    ensures exists i, j ::
              && 0 <= i <= j <= |s| && r == s[i..j]
              && (forall k :: 0 <= k < i ==> IsWhitespace(s[k]))
              && (forall k :: j <= k < |s| ==> IsWhitespace(s[k]))
    ensures r == [] || (!IsWhitespace(r[0]) && !IsWhitespace(r[|r| - 1]))
  {
    var t := TrimStart(s);
    var r := TrimEnd(t);
    var i := |s| - |t|;
    assert r == s[i..i + |r|];
    r
  }

  /** Trimming an already trimmed string changes nothing. */
  lemma TrimIdempotent(s: string)
    ensures Trim(Trim(s)) == Trim(s)
  {
    var r := Trim(s);
    if r != [] {
      assert TrimStart(r) == r;
      assert TrimEnd(r) == r;
    }
  }

  /** Length of the leading run of characters different from `sep`. */
  function PieceLength(s: string, sep: char): (k: nat)
    ensures k <= |s|
    ensures forall i :: 0 <= i < k ==> s[i] != sep
    ensures k < |s| ==> s[k] == sep
    decreases |s|
  {
    if s == [] || s[0] == sep then 0 else 1 + PieceLength(s[1..], sep)
  }

  /** `s.split(separator: sep)`: the maximal runs of non-separator
      characters, empty pieces omitted (Swift's default). */
  function Split(s: string, sep: char): (r: seq<string>)
    ensures forall i :: 0 <= i < |r| ==> r[i] != [] && sep !in r[i]
    decreases |s|
  {
    if s == [] then []
    else if s[0] == sep then Split(s[1..], sep)
    else
      var k := PieceLength(s, sep);
      [s[..k]] + Split(s[k..], sep)
  }

  /** `xs.joined(separator: String(sep))`. */
  function Join(xs: seq<string>, sep: char): string
    decreases |xs|
  {
    if xs == [] then []
    else if |xs| == 1 then xs[0]
    else xs[0] + [sep] + Join(xs[1..], sep)
  }

  lemma PieceLengthOfJoined(x: string, t: string, sep: char)
    requires sep !in x
    requires t == [] || t[0] == sep
    ensures PieceLength(x + t, sep) == |x|
    decreases |x|
  {
    if x != [] {
      assert (x + t)[1..] == x[1..] + t;
      PieceLengthOfJoined(x[1..], t, sep);
    }
  }

  /** The leading piece of `x` is also the leading piece of `x + t` when it
      ends inside `x`, or when `t` starts with the separator. */
  lemma {:induction false} PieceLengthExtend(x: string, t: string, sep: char)
    requires PieceLength(x, sep) < |x| || t == [] || t[0] == sep
    ensures PieceLength(x + t, sep) == PieceLength(x, sep)
    decreases |x|
  {
    if x != [] && x[0] != sep {
      assert (x + t)[1..] == x[1..] + t;
      PieceLengthExtend(x[1..], t, sep);
    }
  }

  /** A non-empty, separator-free string is a single piece; the empty
      string has none. */
  lemma SplitPiece(x: string, sep: char)
    requires sep !in x
    ensures Split(x, sep) == if x == [] then [] else [x]
  {
    if x != [] {
      PieceLengthExtend(x, [], sep);
      assert x + [] == x;
      assert x[..|x|] == x && x[|x|..] == [];
    }
  }

  /** A separator cuts: the pieces of `x + sep + y` are those of `x`
      followed by those of `y`. With `SplitPiece` this determines `Split`
      on every string. */
  lemma {:induction false} SplitAtSeparator(x: string, y: string, sep: char)
    ensures Split(x + [sep] + y, sep) == Split(x, sep) + Split(y, sep)
    decreases |x|
  {
    var s := x + [sep] + y;
    if x == [] {
      assert s == [sep] + y && s[1..] == y;
    } else if x[0] == sep {
      assert s[1..] == x[1..] + [sep] + y;
      SplitAtSeparator(x[1..], y, sep);
    } else {
      var k := PieceLength(x, sep);
      assert s == x + ([sep] + y);
      PieceLengthExtend(x, [sep] + y, sep);
      assert s[..k] == x[..k];
      if k < |x| {
        assert s[k..] == x[k..] + [sep] + y;
        SplitAtSeparator(x[k..], y, sep);
      } else {
        assert x[..k] == x && x[k..] == [];
        assert s[k..] == [sep] + y && s[k..][1..] == y;
      }
    }
  }

  /** The pieces of each string of `xs`, one after the other. */
  function SplitEach(xs: seq<string>, sep: char): seq<string>
    decreases |xs|
  {
    if xs == [] then [] else Split(xs[0], sep) + SplitEach(xs[1..], sep)
  }

  /** Splitting any joined list gives the pieces of its elements, one after
      the other: an element containing the separator falls apart, an empty
      element vanishes. */
  lemma {:induction false} SplitJoinPieces(xs: seq<string>, sep: char)
    ensures Split(Join(xs, sep), sep) == SplitEach(xs, sep)
    decreases |xs|
  {
    if xs == [] {
    } else if |xs| == 1 {
      assert xs[1..] == [];
      assert SplitEach(xs, sep) == Split(xs[0], sep) + [];
    } else {
      SplitAtSeparator(xs[0], Join(xs[1..], sep), sep);
      SplitJoinPieces(xs[1..], sep);
    }
  }

  /** Splitting a joined list gives the list back, provided every element is
      non-empty and free of the separator. */
  lemma {:induction false} SplitJoin(xs: seq<string>, sep: char)
    requires forall i :: 0 <= i < |xs| ==> xs[i] != [] && sep !in xs[i]
    ensures Split(Join(xs, sep), sep) == xs
    decreases |xs|
  {
    if xs == [] {
    } else if |xs| == 1 {
      var x := xs[0];
      assert x + [] == x;
      PieceLengthOfJoined(x, [], sep);
      assert x[|x|..] == [];
      assert Split(x, sep) == [x[..|x|]] + Split([], sep);
    } else {
      var x, rest := xs[0], Join(xs[1..], sep);
      var s := x + [sep] + rest;
      PieceLengthOfJoined(x, [sep] + rest, sep);
      assert s == x + ([sep] + rest);
      assert s[0] == x[0] && x[0] != sep;
      assert s[..|x|] == x;
      assert s[|x|..] == [sep] + rest;
      assert ([sep] + rest)[1..] == rest;
      SplitJoin(xs[1..], sep);
      assert Split(s, sep) == [x] + Split([sep] + rest, sep);
      assert [x] + xs[1..] == xs;
    }
  }

  /** Lexicographic order on strings by character code. */
  predicate LexLe(a: string, b: string)
    decreases |a|
  {
    a == [] || (b != [] && (a[0] < b[0] || (a[0] == b[0] && LexLe(a[1..], b[1..]))))
  }

  lemma LexLeTotal(a: string, b: string)
    ensures LexLe(a, b) || LexLe(b, a)
    decreases |a|
  {
    if a != [] && b != [] && a[0] == b[0] {
      LexLeTotal(a[1..], b[1..]);
    }
  }

  lemma LexLeTransitive(a: string, b: string, c: string)
    requires LexLe(a, b) && LexLe(b, c)
    ensures LexLe(a, c)
    decreases |a|
  {
    if a != [] && b != [] && c != [] && a[0] == b[0] && b[0] == c[0] {
      LexLeTransitive(a[1..], b[1..], c[1..]);
    }
  }

  lemma LexLeAntisymmetric(a: string, b: string)
    requires LexLe(a, b) && LexLe(b, a)
    ensures a == b
    decreases |a|
  {
    if a != [] && b != [] {
      LexLeAntisymmetric(a[1..], b[1..]);
      assert a == [a[0]] + a[1..] && b == [b[0]] + b[1..];
    }
  }
}
