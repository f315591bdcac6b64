/** `Utils::String::split`: cuts a string at every character of a delimiter set. */
module Split {
  import opened Text

  /** The vector that the pieces are appended to. */
  class StringList {
    var items: seq<string>

    constructor ()
      ensures items == []
    {
      items := [];
    }

    method PushBack(s: string)
      modifies this
      ensures items == old(items) + [s]
    {
      items := items + [s];
    }
  }

  // ---------------------------------------------------------------- specification

  /** The end of the first piece of `s`: the position of the first delimiter, or the length of `s`. */
  function FirstPiece(s: string, delimiters: string): (n: nat)
    ensures n <= |s|
    ensures n < |s| ==> s[n] in delimiters
  {
    if s == [] || s[0] in delimiters then 0 else 1 + FirstPiece(s[1..], delimiters)
  }

  /** The pieces between the delimiters; there is always at least one. */
  function Pieces(s: string, delimiters: string): (r: seq<string>)
    ensures |r| > 0
    decreases |s|
  {
    var n := FirstPiece(s, delimiters);
    if n == |s| then [s] else [s[..n]] + Pieces(s[n + 1..], delimiters)
  }

  /** The delimiter characters of `s`, in order. */
  function Found(s: string, delimiters: string): string {
    if s == [] then []
    else (if s[0] in delimiters then [s[0]] else []) + Found(s[1..], delimiters)
  }

  // ---------------------------------------------------------------- the loop

  /** `find_first_of`: the first position at or after `from` that holds a delimiter, or `npos`. */
  function FindFirstOf(s: string, delimiters: string, from: nat): (r: nat)
    requires |s| < NPOS
    ensures r == NPOS || from <= r < |s|
  {
    if from >= |s| then NPOS
    else
      var n := FirstPiece(s[from..], delimiters);
      if from + n == |s| then NPOS else from + n
  }

  /** `substr(from, count)`: `count` characters from `from` on, or as many as there are. */
  function Substr(s: string, from: nat, count: nat): string
    requires from <= |s|
  {
    if count <= |s| - from then s[from..from + count] else s[from..]
  }

  /** Where `size_t` arithmetic is needed: -1 is `npos`, `npos + 1` is zero, and small values are themselves. */
  lemma Wraps(x: nat)
    ensures SizeT(-1) == NPOS && SizeT(NPOS + 1) == 0
    ensures x <= NPOS ==> SizeT(x) == x
  {
  }

  lemma SubSlices(s: string, current: nat, n: nat)
    requires current + n < |s|
    ensures s[current..][..n] == s[current..current + n]
    ensures s[current..][n + 1..] == s[current + n + 1..]
  {
  }

  /** A round that finds a delimiter at `next`. */
  lemma CutMiddle(s: string, delimiters: string, current: nat, next: nat)
    requires current <= |s| < NPOS && next == FindFirstOf(s, delimiters, current) != NPOS
    ensures Pieces(s[current..], delimiters) == [s[current..next]] + Pieces(s[next + 1..], delimiters)
  {
    SubSlices(s, current, next - current);
    FirstOfPieces(s[current..], delimiters);
  }

  lemma FirstOfPieces(s: string, delimiters: string)
    requires FirstPiece(s, delimiters) < |s|
    ensures var n := FirstPiece(s, delimiters);
            Pieces(s, delimiters) == [s[..n]] + Pieces(s[n + 1..], delimiters)
  {
  }

  /** The round that finds none. */
  lemma CutLast(s: string, delimiters: string, current: nat)
    requires current <= |s| < NPOS && FindFirstOf(s, delimiters, current) == NPOS
    ensures Pieces(s[current..], delimiters) == [s[current..]]
  {
    if current == |s| {
      assert s[current..] == [];
    }
  }

  /** The substring that a round takes; a `next` of `npos` makes the count larger than what is there. */
  lemma SubstrIs(s: string, current: nat, next: nat)
    requires current <= |s| < NPOS && (next == NPOS || current <= next < |s|)
    ensures Substr(s, current, SizeT(next - current)) == if next == NPOS then s[current..] else s[current..next]
    ensures next != NPOS ==> SizeT(next + 1) == next + 1
  {
    Wraps(next - current);
    Wraps(next + 1);
  }

  /** One round: the piece that is cut off, and the pieces that are left. */
  lemma CutOff(s: string, delimiters: string, current: nat, next: nat)
    requires current <= |s| < NPOS && next == FindFirstOf(s, delimiters, current)
    ensures next != NPOS ==> current < SizeT(next + 1) <= |s|
    ensures Pieces(s[current..], delimiters)
         == [Substr(s, current, SizeT(next - current))] + Left(s, delimiters, next, next != NPOS)
  {
    SubstrIs(s, current, next);
    if next == NPOS {
      CutLast(s, delimiters, current);
      assert Left(s, delimiters, next, false) == [];
    } else {
      CutMiddle(s, delimiters, current, next);
      assert Left(s, delimiters, next, true) == Pieces(s[next + 1..], delimiters);
    }
  }

  /** The pieces that are still to be cut off. */
  function Left(s: string, delimiters: string, next: nat, again: bool): seq<string>
    requires again ==> SizeT(next + 1) <= |s|
  {
    if again then Pieces(s[SizeT(next + 1)..], delimiters) else []
  }

  /** The `do ... while` loop; `next` starts at -1, which is `npos`, and adding one wraps it around to zero. */
  method SplitInto(list: StringList, s: string, delimiters: string)
    requires |s| < NPOS
    modifies list
    ensures list.items == old(list.items) + Pieces(s, delimiters)
  {
    var current;
    var next := SizeT(-1);
    var again := true;
    ghost var goal := list.items + Pieces(s, delimiters);
    assert s[0..] == s;
    Wraps(0);
    while again
      invariant again ==> SizeT(next + 1) <= |s|
      invariant goal == list.items + Left(s, delimiters, next, again)
      decreases if again then |s| - SizeT(next + 1) + 1 else 0
    {
      current := SizeT(next + 1);
      next := FindFirstOf(s, delimiters, current);
      CutOff(s, delimiters, current, next);
      again := next != NPOS;
      var piece := Substr(s, current, SizeT(next - current));
      Associate(list.items, [piece], Left(s, delimiters, next, again));
      list.PushBack(piece);
    }
  }

  // ---------------------------------------------------------------- what the pieces are

  /** Pieces and delimiters put back in turn. */
  function Interleave(pieces: seq<string>, separators: string): string
    requires |pieces| == |separators| + 1
  {
    if separators == [] then pieces[0]
    else pieces[0] + [separators[0]] + Interleave(pieces[1..], separators[1..])
  }

  predicate Free(piece: string, delimiters: string) {
    forall i :: 0 <= i < |piece| ==> piece[i] !in delimiters
  }

  predicate AllFree(pieces: seq<string>, delimiters: string) {
    forall i :: 0 <= i < |pieces| ==> Free(pieces[i], delimiters)
  }

  predicate AllIn(separators: string, delimiters: string) {
    forall i :: 0 <= i < |separators| ==> separators[i] in delimiters
  }

  lemma {:induction false} FirstPieceIs(piece: string, rest: string, delimiters: string)
    requires Free(piece, delimiters)
    requires rest == [] || rest[0] in delimiters
    ensures FirstPiece(piece + rest, delimiters) == |piece|
    ensures Found(piece + rest, delimiters) == Found(rest, delimiters)
  {
    if piece == [] {
      assert piece + rest == rest;
    } else {
      assert (piece + rest)[1..] == piece[1..] + rest;
      FirstPieceIs(piece[1..], rest, delimiters);
    }
  }

  lemma {:induction false} FirstPieceIsFree(s: string, delimiters: string)
    ensures Free(s[..FirstPiece(s, delimiters)], delimiters)
  {
    var n := FirstPiece(s, delimiters);
    if n > 0 {
      FirstPieceIsFree(s[1..], delimiters);
      assert s[..n] == [s[0]] + s[1..][..n - 1];
    }
  }

  lemma SplitFirst(piece: string, separator: char, tail: string, delimiters: string)
    requires Free(piece, delimiters) && separator in delimiters
    ensures Pieces(piece + [separator] + tail, delimiters) == [piece] + Pieces(tail, delimiters)
    ensures Found(piece + [separator] + tail, delimiters) == [separator] + Found(tail, delimiters)
  {
    var rest := [separator] + tail;
    var s := piece + rest;
    FirstPieceIs(piece, rest, delimiters);
    assert piece + [separator] + tail == s;
    assert s[..|piece|] == piece && s[|piece| + 1..] == tail && rest[1..] == tail;
  }

  lemma HeadAndTail<T>(s: seq<T>)
    requires s != []
    ensures s == [s[0]] + s[1..]
  {
  }

  lemma SplitOnly(piece: string, delimiters: string)
    requires Free(piece, delimiters)
    ensures Pieces(piece, delimiters) == [piece] && Found(piece, delimiters) == []
  {
    FirstPieceIs(piece, [], delimiters);
    assert piece + [] == piece;
  }

  /** Delimiter-free pieces with delimiters between them split into just these pieces. */
  lemma {:induction false} SplitInterleaved(pieces: seq<string>, separators: string, delimiters: string)
    requires |pieces| == |separators| + 1
    requires AllFree(pieces, delimiters) && AllIn(separators, delimiters)
    ensures Pieces(Interleave(pieces, separators), delimiters) == pieces
    ensures Found(Interleave(pieces, separators), delimiters) == separators
    decreases |pieces|
  {
    if separators == [] {
      SplitOnly(pieces[0], delimiters);
    } else {
      var tail := Interleave(pieces[1..], separators[1..]);
      SplitInterleaved(pieces[1..], separators[1..], delimiters);
      SplitFirst(pieces[0], separators[0], tail, delimiters);
      assert Interleave(pieces, separators) == pieces[0] + [separators[0]] + tail;
      HeadAndTail(pieces);
      HeadAndTail(separators);
    }
  }

  lemma FoundAt(s: string, n: nat, delimiters: string)
    requires n < |s| && s[n] in delimiters
    ensures Found(s[n..], delimiters) == [s[n]] + Found(s[n + 1..], delimiters)
  {
    assert s[n..][1..] == s[n + 1..];
  }

  /** A string whose first piece ends at a delimiter. */
  lemma FirstCut(s: string, delimiters: string)
    requires FirstPiece(s, delimiters) < |s|
    ensures var n := FirstPiece(s, delimiters);
            && s == s[..n] + [s[n]] + s[n + 1..] && Free(s[..n], delimiters)
            && Found(s, delimiters) == [s[n]] + Found(s[n + 1..], delimiters)
  {
    var n := FirstPiece(s, delimiters);
    FirstPieceIsFree(s, delimiters);
    FirstPieceIs(s[..n], s[n..], delimiters);
    FoundAt(s, n, delimiters);
    Cut(s, n);
  }

  lemma Cut(s: string, n: nat)
    requires n < |s|
    ensures s == s[..n] + s[n..] && s == s[..n] + [s[n]] + s[n + 1..]
  {
  }

  lemma LastPiece(s: string, delimiters: string)
    requires FirstPiece(s, delimiters) == |s|
    ensures Free(s, delimiters) && Found(s, delimiters) == []
  {
    FirstPieceIsFree(s, delimiters);
    assert s[..|s|] == s;
    FirstPieceIs(s, [], delimiters);
    assert s + [] == s;
  }

  lemma InterleaveCons(piece: string, separator: char, pieces: seq<string>, separators: string)
    requires |pieces| == |separators| + 1
    ensures Interleave([piece] + pieces, [separator] + separators) == piece + [separator] + Interleave(pieces, separators)
  {
    assert ([piece] + pieces)[1..] == pieces && ([separator] + separators)[1..] == separators;
  }

  /** Every string is its pieces with its delimiters between them, and no piece holds a delimiter. */
  lemma {:induction false} PiecesRebuild(s: string, delimiters: string)
    ensures |Pieces(s, delimiters)| == |Found(s, delimiters)| + 1
    ensures AllFree(Pieces(s, delimiters), delimiters) && AllIn(Found(s, delimiters), delimiters)
    ensures Interleave(Pieces(s, delimiters), Found(s, delimiters)) == s
    decreases |s|
  {
    var n := FirstPiece(s, delimiters);
    if n == |s| {
      LastPiece(s, delimiters);
    } else {
      PiecesRebuild(s[n + 1..], delimiters);
      FirstCut(s, delimiters);
      InterleaveCons(s[..n], s[n], Pieces(s[n + 1..], delimiters), Found(s[n + 1..], delimiters));
    }
  }

  /** Splitting and interleaving are inverse to each other, so a split is the only way to cut a string up. */
  lemma SplitIsUnique(s: string, pieces: seq<string>, separators: string, delimiters: string)
    requires |pieces| == |separators| + 1
    requires AllFree(pieces, delimiters) && AllIn(separators, delimiters)
    ensures Interleave(pieces, separators) == s <==> pieces == Pieces(s, delimiters) && separators == Found(s, delimiters)
  {
    SplitInterleaved(pieces, separators, delimiters);
    PiecesRebuild(s, delimiters);
  }

  /** The pieces joined by one delimiter. */
  function Join(pieces: seq<string>, d: char): string
    requires |pieces| > 0
  {
    if |pieces| == 1 then pieces[0] else pieces[0] + [d] + Join(pieces[1..], d)
  }

  function Copies(d: char, n: nat): (r: string)
    ensures |r| == n && forall i :: 0 <= i < n ==> r[i] == d
  {
    seq(n, _ => d)
  }

  lemma {:induction false} JoinInterleaves(pieces: seq<string>, d: char)
    requires |pieces| > 0
    ensures Join(pieces, d) == Interleave(pieces, Copies(d, |pieces| - 1))
  {
    if |pieces| > 1 {
      JoinInterleaves(pieces[1..], d);
      assert Copies(d, |pieces| - 1)[1..] == Copies(d, |pieces| - 2);
    }
  }

  /** For one delimiter, splitting undoes joining. */
  lemma SplitJoin(pieces: seq<string>, d: char)
    requires |pieces| > 0 && AllFree(pieces, [d])
    ensures Pieces(Join(pieces, d), [d]) == pieces
  {
    JoinInterleaves(pieces, d);
    SplitInterleaved(pieces, Copies(d, |pieces| - 1), [d]);
  }
}
