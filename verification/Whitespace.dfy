/** `Utils::String::removeExtraWhitespaces`: every run of spaces becomes a single one. */
module Whitespace {
  import opened Text
  import Split

  const SPACE: char := ' '
  const NUL: char := '\0'

  // ---------------------------------------------------------------- specification

  /** The part of `s` in front of the first NUL character, where the loop stops. */
  function UpToNul(s: string): (r: string)
    ensures NUL !in r
  {
    if s == [] || s[0] == NUL then [] else [s[0]] + UpToNul(s[1..])
  }

  function SkipSpaces(s: string): (r: string)
    ensures |r| <= |s|
    ensures r == [] || r[0] != SPACE
  {
    if s == [] || s[0] != SPACE then s else SkipSpaces(s[1..])
  }

  /** `s` with every run of spaces cut down to its first. */
  function Collapse(s: string): string
    decreases |s|
  {
    if s == [] then []
    else [s[0]] + Collapse(if s[0] == SPACE then SkipSpaces(s[1..]) else s[1..])
  }

  // ---------------------------------------------------------------- the loops

  /** `s[i]`, where the position behind the last character reads as NUL; nothing is read beyond it. */
  function At(s: string, i: nat): char
    requires i <= |s|
  {
    if i == |s| then NUL else s[i]
  }

  lemma NulEnds(s: string, i: nat)
    requires i <= |s| && At(s, i) == NUL
    ensures UpToNul(s[i..]) == []
  {
  }

  lemma UpToNulStep(s: string, i: nat)
    requires i < |s| && s[i] != NUL
    ensures UpToNul(s[i..]) == [s[i]] + UpToNul(s[i + 1..])
  {
    assert s[i..][1..] == s[i + 1..];
  }

  lemma CollapseCons(c: char, rest: string)
    ensures Collapse([c] + rest) == [c] + Collapse(if c == SPACE then SkipSpaces(rest) else rest)
  {
    assert ([c] + rest)[1..] == rest;
  }

  lemma SkipCons(rest: string)
    ensures SkipSpaces([SPACE] + rest) == SkipSpaces(rest)
  {
    assert ([SPACE] + rest)[1..] == rest;
  }

  /** The inner loop: the index is moved to the last space of a run. */
  method SkipRun(s: string, at: nat) returns (idx: nat)
    requires at < |s| && s[at] == SPACE
    ensures at <= idx < |s|
    ensures SkipSpaces(UpToNul(s[idx + 1..])) == UpToNul(s[idx + 1..]) == SkipSpaces(UpToNul(s[at + 1..]))
  {
    idx := at;
    while At(s, idx + 1) == SPACE
      invariant at <= idx < |s|
      invariant SkipSpaces(UpToNul(s[idx + 1..])) == SkipSpaces(UpToNul(s[at + 1..]))
      decreases |s| - idx
    {
      UpToNulStep(s, idx + 1);
      SkipCons(UpToNul(s[idx + 2..]));
      idx := idx + 1;
    }
    if idx + 1 < |s| && s[idx + 1] != NUL {
      UpToNulStep(s, idx + 1);
    } else {
      NulEnds(s, idx + 1);
    }
  }

  /** What has been written, followed by what the rest of the input will add. */
  function Outcome(written: string, s: string, idx: nat): string
    requires idx <= |s|
  {
    written + Collapse(UpToNul(s[idx..]))
  }

  /** One turn of the outer loop: one character is copied, and the other spaces of a run are passed over. */
  method CopyOne(s: string, at: nat, out: StringBuffer) returns (idx: nat)
    requires at < |s| && s[at] != NUL
    modifies out
    ensures at < idx <= |s| && Outcome(out.str, s, idx) == Outcome(old(out.str), s, at)
  {
    UpToNulStep(s, at);
    CollapseCons(s[at], UpToNul(s[at + 1..]));
    ghost var before := out.str;
    out.Append([s[at]]);
    idx := at;
    if s[idx] == SPACE {
      idx := SkipRun(s, idx);
    }
    idx := idx + 1;
    Associate(before, [s[at]], Collapse(UpToNul(s[idx..])));
  }

  method RemoveExtraWhitespaces(s: string, out: StringBuffer) returns (ret_status: bool)
    modifies out
    ensures ret_status <==> s != []
    ensures out.str == old(out.str) + Collapse(UpToNul(s))
  {
    ret_status := false;
    var idx := 0;
    assert s[0..] == s;
    if s != [] {
      while At(s, idx) != NUL
        invariant 0 <= idx <= |s| && Outcome(out.str, s, idx) == Outcome(old(out.str), s, 0)
        decreases |s| - idx
      {
        idx := CopyOne(s, idx, out);
      }
      NulEnds(s, idx);
      ret_status := true;
    }
    assert out.str + [] == out.str;
  }

  // ---------------------------------------------------------------- properties

  /** The input is read up to its first NUL character, or to its end. */
  lemma {:induction false} ReadsUpToNul(s: string)
    ensures var n := |UpToNul(s)|;
            n <= |s| && UpToNul(s) == s[..n] && '\0' !in s[..n] && (n < |s| ==> s[n] == '\0')
  {
    if s != [] && s[0] != '\0' {
      ReadsUpToNul(s[1..]);
      var n := |UpToNul(s[1..])|;
      assert s[..n + 1] == [s[0]] + s[1..][..n];
    }
  }

  predicate NoDoubleSpace(s: string) {
    forall i :: 0 <= i < |s| - 1 ==> !(s[i] == ' ' && s[i + 1] == ' ')
  }

  lemma {:induction false} CollapsedIsSingle(s: string)
    ensures NoDoubleSpace(Collapse(s))
    ensures s != [] ==> Collapse(s) != [] && Collapse(s)[0] == s[0]
    ensures s == [] ==> Collapse(s) == []
    decreases |s|
  {
    if s != [] {
      var rest := if s[0] == SPACE then SkipSpaces(s[1..]) else s[1..];
      CollapsedIsSingle(rest);
      assert Collapse(s) == [s[0]] + Collapse(rest);
    }
  }

  lemma {:induction false} SingleIsFixed(s: string)
    requires NoDoubleSpace(s)
    ensures Collapse(s) == s
    decreases |s|
  {
    if s != [] {
      var rest := s[1..];
      TailIsSingle(s);
      SingleIsFixed(rest);
      assert s[0] == SPACE ==> SkipSpaces(rest) == rest by {
        if rest != [] {
          assert rest[0] == s[1];
        }
      }
      assert s == [s[0]] + rest;
    }
  }

  lemma TailIsSingle(s: string)
    requires NoDoubleSpace(s) && s != []
    ensures NoDoubleSpace(s[1..])
  {
    var rest := s[1..];
    forall i | 0 <= i < |rest| - 1 ensures !(rest[i] == SPACE && rest[i + 1] == SPACE) {
      assert rest[i] == s[i + 1] && rest[i + 1] == s[(i + 1) + 1];
    }
  }

  /** The function changes a string exactly when it holds two spaces in a row; doing it twice changes nothing more. */
  lemma FixedPoints(s: string)
    ensures Collapse(s) == s <==> NoDoubleSpace(s)
    ensures Collapse(Collapse(s)) == Collapse(s)
  {
    CollapsedIsSingle(s);
    SingleIsFixed(Collapse(s));
    if NoDoubleSpace(s) {
      SingleIsFixed(s);
    }
  }

  /** The words of `s`: its pieces between spaces, without the empty ones. */
  function Words(s: string): seq<string> {
    NonEmpty(Split.Pieces(s, [SPACE]))
  }

  function NonEmpty(pieces: seq<string>): seq<string> {
    if pieces == [] then [] else (if pieces[0] == [] then [] else [pieces[0]]) + NonEmpty(pieces[1..])
  }

  lemma NonEmptyCons(piece: string, tail: seq<string>)
    ensures NonEmpty([piece] + tail) == (if piece == [] then [] else [piece]) + NonEmpty(tail)
  {
    assert ([piece] + tail)[1..] == tail;
  }

  lemma SpaceFree(piece: string)
    requires SPACE !in piece
    ensures Split.Free(piece, [SPACE])
  {
  }

  /** A string without spaces is one word, if it is not empty. */
  lemma WordsOne(piece: string)
    requires SPACE !in piece
    ensures Words(piece) == if piece == [] then [] else [piece]
  {
    SpaceFree(piece);
    Split.FirstPieceIs(piece, [], [SPACE]);
    assert piece + [] == piece;
    NonEmptyCons(piece, []);
    assert [piece] + [] == [piece];
    assert NonEmpty([]) == [];
  }

  /** The characters in front of a space are a word, and the rest behind it are others. */
  lemma WordsCut(piece: string, rest: string)
    requires SPACE !in piece
    ensures Words(piece + [SPACE] + rest) == (if piece == [] then [] else [piece]) + Words(rest)
  {
    var s := piece + [SPACE] + rest;
    SpaceFree(piece);
    Split.FirstPieceIs(piece, [SPACE] + rest, [SPACE]);
    assert piece + ([SPACE] + rest) == s;
    assert s[..|piece|] == piece && s[|piece| + 1..] == rest;
    NonEmptyCons(piece, Split.Pieces(rest, [SPACE]));
  }

  lemma {:induction false} WordsSkip(s: string)
    ensures Words(SkipSpaces(s)) == Words(s)
  {
    if s != [] && s[0] == SPACE {
      WordsSkip(s[1..]);
      WordsCut([], s[1..]);
      assert s == [] + [SPACE] + s[1..];
    }
  }

  /** A string is a word without spaces, or such a word, a space, and more. */
  function WordLength(s: string): (n: nat)
    ensures n <= |s|
    ensures SPACE !in s[..n]
    ensures n < |s| ==> s[n] == SPACE
  {
    if s == [] || s[0] == SPACE then 0
    else
      var n := 1 + WordLength(s[1..]);
      assert s[..n] == [s[0]] + s[1..][..n - 1];
      n
  }

  lemma {:induction false} CollapseWord(word: string, rest: string)
    requires SPACE !in word
    ensures Collapse(word + rest) == word + Collapse(rest)
  {
    if word == [] {
      assert word + rest == rest;
    } else {
      assert word == [word[0]] + word[1..];
      CollapseWord(word[1..], rest);
      assert word + rest == [word[0]] + (word[1..] + rest);
      CollapseCons(word[0], word[1..] + rest);
    }
  }

  /** The words stay the same, in the same order. */
  lemma {:induction false} WordsAreKept(s: string)
    ensures Words(Collapse(s)) == Words(s)
    decreases |s|
  {
    var n := WordLength(s);
    var word := s[..n];
    if n == |s| {
      CollapseWord(word, []);
      assert s == word == word + [];
      WordsOne(word);
    } else {
      var rest := s[n + 1..];
      assert s == word + [SPACE] + rest == word + ([SPACE] + rest);
      CollapseWord(word, [SPACE] + rest);
      CollapseCons(SPACE, rest);
      var kept := Collapse(SkipSpaces(rest));
      assert Collapse(s) == word + [SPACE] + kept;
      WordsCut(word, kept);
      WordsCut(word, rest);
      WordsAreKept(SkipSpaces(rest));
      WordsSkip(rest);
    }
  }
}
