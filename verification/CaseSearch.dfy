/**
  * The case-insensitive searches of `Utils::String`. Folding a character to upper case depends on the locale, so it is a
  * parameter here.
  */
module CaseSearch {

  type Fold = char -> char

  /** Whether `t` occurs in `s` at position `i`, letter case aside. */
  predicate MatchesAt(s: string, t: string, i: nat, up: Fold) {
    i + |t| <= |s| && forall k :: 0 <= k < |t| ==> up(s[i + k]) == up(t[k])
  }

  /** `std::search`: the first occurrence at or after `from`; the length of `s` stands for `end()`. */
  function Search(s: string, t: string, from: nat, up: Fold): (r: nat)
    requires from <= |s|
    ensures from <= r <= |s|
    decreases |s| - from
  {
    if from == |s| || MatchesAt(s, t, from, up) then from else Search(s, t, from + 1, up)
  }

  /** `find_substr_ci`: -1 when the search ends at `end()`. */
  function FindSubstrCi(s: string, t: string, up: Fold): int {
    if Search(s, t, 0, up) != |s| then Search(s, t, 0, up) else -1
  }

  predicate Contains(s: string, t: string, up: Fold) {
    FindSubstrCi(s, t, up) != -1
  }

  predicate Equal(s: string, t: string, up: Fold) {
    FindSubstrCi(s, t, up) == 0 && |s| == |t|
  }

  predicate StringContains(s: string, t: string, up: Fold) {
    Search(s, t, 0, up) != |s|
  }

  lemma {:induction false} SearchIsLeast(s: string, t: string, from: nat, up: Fold)
    requires from <= |s|
    ensures Search(s, t, from, up) < |s| ==> MatchesAt(s, t, Search(s, t, from, up), up)
    ensures forall i :: from <= i < Search(s, t, from, up) ==> !MatchesAt(s, t, i, up)
    decreases |s| - from
  {
    if from < |s| && !MatchesAt(s, t, from, up) {
      SearchIsLeast(s, t, from + 1, up);
    }
  }

  /** An occurrence is a slice with the same letters. */
  lemma MatchIsSlice(s: string, t: string, i: nat, up: Fold)
    ensures MatchesAt(s, t, i, up) <==> i + |t| <= |s| && SameLetters(s[i..i + |t|], t, up)
  {
    if i + |t| <= |s| {
      var u := s[i..i + |t|];
      assert forall k :: 0 <= k < |u| ==> u[k] == s[i + k];
    }
  }

  /** The result is the least position of an occurrence inside `s`, or -1 if there is none. */
  lemma FindSubstrCiIsLeast(s: string, t: string, up: Fold)
    ensures var r := FindSubstrCi(s, t, up);
            if exists i :: 0 <= i < |s| && MatchesAt(s, t, i, up) then
              0 <= r < |s| && MatchesAt(s, t, r, up) && forall i :: 0 <= i < r ==> !MatchesAt(s, t, i, up)
            else r == -1
  {
    SearchIsLeast(s, t, 0, up);
  }

  /** Whether the two strings are the same, letter case aside. */
  predicate SameLetters(s: string, t: string, up: Fold) {
    |s| == |t| && forall k :: 0 <= k < |s| ==> up(s[k]) == up(t[k])
  }

  /** `equal` tells whether two strings are the same, letter case aside, except that empty strings are never equal. */
  lemma EqualMeans(s: string, t: string, up: Fold)
    ensures Equal(s, t, up) <==> SameLetters(s, t, up) && s != []
  {
    SearchIsLeast(s, t, 0, up);
    if SameLetters(s, t, up) && s != [] {
      assert MatchesAt(s, t, 0, up);
    }
  }

  /** Apart from the empty string, which is not even equal to itself, `equal` is an equivalence relation. */
  lemma EqualIsEquivalence(r: string, s: string, t: string, up: Fold)
    ensures Equal(s, s, up) <==> s != []
    ensures Equal(s, t, up) <==> Equal(t, s, up)
    ensures Equal(r, s, up) && Equal(s, t, up) ==> Equal(r, t, up)
  {
    EqualMeans(s, s, up);
    EqualMeans(s, t, up);
    EqualMeans(t, s, up);
    EqualMeans(r, s, up);
    EqualMeans(r, t, up);
  }

  /** The case that the comment on `equal` does not foresee. */
  lemma EmptyIsNotEqualToItself(up: Fold)
    ensures !Equal("", "", up) && SameLetters("", "", up)
  {
  }

  /** A search that does not end at `end()` is containment, except that the empty string contains nothing, not even itself. */
  lemma SearchMeans(s: string, t: string, up: Fold)
    ensures Search(s, t, 0, up) != |s| <==> s != [] && exists i :: 0 <= i <= |s| && MatchesAt(s, t, i, up)
  {
    SearchIsLeast(s, t, 0, up);
    if s != [] && exists i :: 0 <= i <= |s| && MatchesAt(s, t, i, up) {
      var i :| 0 <= i <= |s| && MatchesAt(s, t, i, up);
      if i == |s| {
        assert t == [] && MatchesAt(s, t, 0, up);
      }
    }
  }

  /** Whether two foldings identify the same characters. */
  ghost predicate SameFolding(up: Fold, toupper: Fold) {
    forall c, d :: up(c) == up(d) <==> toupper(c) == toupper(d)
  }

  /** `contains` folds by a locale and `stringContains` by the C library; each is containment under its own folding. */
  lemma ContainsMeans(s: string, t: string, up: Fold, toupper: Fold)
    ensures Contains(s, t, up) <==> s != [] && exists i :: 0 <= i <= |s| && MatchesAt(s, t, i, up)
    ensures StringContains(s, t, toupper) <==> s != [] && exists i :: 0 <= i <= |s| && MatchesAt(s, t, i, toupper)
  {
    SearchMeans(s, t, up);
    SearchMeans(s, t, toupper);
  }

  ghost predicate AgreeOnAll(up: Fold, toupper: Fold) {
    forall s, t :: Contains(s, t, up) <==> StringContains(s, t, toupper)
  }

  lemma {:induction false} SameSearch(s: string, t: string, from: nat, up: Fold, toupper: Fold)
    requires from <= |s| && SameFolding(up, toupper)
    ensures Search(s, t, from, up) == Search(s, t, from, toupper)
    decreases |s| - from
  {
    assert MatchesAt(s, t, from, up) <==> MatchesAt(s, t, from, toupper);
    if from < |s| && !MatchesAt(s, t, from, up) {
      SameSearch(s, t, from + 1, up, toupper);
    }
  }

  lemma OneCharacter(c: char, d: char, up: Fold)
    ensures Search([c], [d], 0, up) != 1 <==> up(c) == up(d)
  {
    assert MatchesAt([c], [d], 0, up) <==> up([c][0]) == up([d][0]);
    assert Search([c], [d], 1, up) == 1;
  }

  /** The two agree on all strings exactly when the two foldings identify the same characters. */
  lemma ContainsAgree(up: Fold, toupper: Fold)
    ensures AgreeOnAll(up, toupper) <==> SameFolding(up, toupper)
  {
    if SameFolding(up, toupper) {
      forall s, t ensures Contains(s, t, up) <==> StringContains(s, t, toupper) {
        SameSearch(s, t, 0, up, toupper);
      }
    }
    if AgreeOnAll(up, toupper) {
      forall c, d ensures up(c) == up(d) <==> toupper(c) == toupper(d) {
        OneCharacter(c, d, up);
        OneCharacter(c, d, toupper);
        assert Contains([c], [d], up) <==> StringContains([c], [d], toupper);
      }
    }
  }
}
