/** The blocks of lines that `formatColumns` finds behind an opening brace: where they begin and end, and their lines. */
module Blocks {
  import opened Text
  import opened TableLayout

  /** How many line breaks there are from `from` up to the next closing brace, or to the end. */
  function CountLines(s: string, from: nat): nat
    requires from <= |s|
    decreases |s| - from
  {
    if from == |s| || s[from] == '}' then 0
    else (if s[from] == '\n' then 1 else 0) + CountLines(s, from + 1)
  }

  /** The position behind the `k`-th line break from `from` on. */
  function AfterLines(s: string, from: nat, k: nat): (r: nat)
    requires from <= |s|
    ensures from <= r <= |s|
    decreases k
  {
    if k == 0 then from
    else
      var e := FindFrom(s, '\n', from);
      if e == |s| then e else AfterLines(s, e + 1, k - 1)
  }

  /** The `k` lines from `from` on, without their line breaks. */
  function LinesFrom(s: string, from: nat, k: nat): (r: seq<string>)
    requires from <= |s|
    ensures |r| <= k
    decreases k
  {
    if k == 0 then []
    else
      var e := FindFrom(s, '\n', from);
      if e == |s| then [] else [s[from..e]] + LinesFrom(s, e + 1, k - 1)
  }

  /** Where the block of the opening brace at `at` begins: on the next line. */
  function BlockStart(s: string, at: nat): (start: nat)
    requires at < |s| && FindFrom(s, '\n', at) < |s|
    ensures at < start <= |s|
  {
    FindFrom(s, '\n', at) + 1
  }

  /** The lines of that block: all that end before the next closing brace. */
  function BlockAt(s: string, at: nat): seq<string>
    requires at < |s| && FindFrom(s, '\n', at) < |s|
  {
    LinesFrom(s, BlockStart(s, at), CountLines(s, BlockStart(s, at)))
  }

  /** The position behind that block. */
  function BlockEnd(s: string, at: nat): (end: nat)
    requires at < |s| && FindFrom(s, '\n', at) < |s|
    ensures at < end <= |s|
  {
    AfterLines(s, BlockStart(s, at), CountLines(s, BlockStart(s, at)))
  }

  // ---------------------------------------------------------------- lines of a block

  /** A line break that is counted comes before the closing brace. */
  lemma {:induction false} CountedBreak(s: string, from: nat)
    requires from <= |s| && CountLines(s, from) > 0
    ensures var e := FindFrom(s, '\n', from);
            && e < |s|
            && CountLines(s, e + 1) == CountLines(s, from) - 1
            && '}' !in s[from..e]
    decreases |s| - from
  {
    if s[from] != '\n' {
      CountedBreak(s, from + 1);
      var e := FindFrom(s, '\n', from);
      assert s[from..e] == [s[from]] + s[from + 1..e];
    }
  }

  /** The first of several counted lines. */
  lemma FirstLine(s: string, from: nat, k: nat)
    requires from <= |s| && 0 < k <= CountLines(s, from)
    ensures var e := FindFrom(s, '\n', from);
            && e < |s|
            && LinesFrom(s, from, k) == [s[from..e]] + LinesFrom(s, e + 1, k - 1)
            && AfterLines(s, from, k) == AfterLines(s, e + 1, k - 1)
            && CountLines(s, e + 1) == CountLines(s, from) - 1
            && '\n' !in s[from..e] && '}' !in s[from..e]
  {
    CountedBreak(s, from);
    FindFromIsFirst(s, '\n', from);
  }

  /** The part of it that the recursions below need. */
  lemma NextLine(s: string, from: nat, k: nat)
    requires from <= |s| && 0 < k <= CountLines(s, from)
    ensures var e := FindFrom(s, '\n', from);
            && e < |s|
            && LinesFrom(s, from, k) == [s[from..e]] + LinesFrom(s, e + 1, k - 1)
            && AfterLines(s, from, k) == AfterLines(s, e + 1, k - 1)
            && CountLines(s, e + 1) == CountLines(s, from) - 1
  {
    CountedBreak(s, from);
  }

  lemma UnlinesCons(line: string, rest: seq<string>)
    ensures Unlines([line] + rest) == line + ['\n'] + Unlines(rest)
  {
    assert ([line] + rest)[1..] == rest;
  }

  lemma SplitAt(s: string, from: nat, e: nat, after: nat)
    requires from <= e < after <= |s|
    ensures s[from..after] == s[from..e] + [s[e]] + s[e + 1..after]
  {
  }

  lemma {:induction false} LinesCount(s: string, from: nat, k: nat)
    requires from <= |s| && k <= CountLines(s, from)
    ensures |LinesFrom(s, from, k)| == k
    ensures CountLines(s, AfterLines(s, from, k)) == CountLines(s, from) - k
    decreases k
  {
    if k > 0 {
      FirstLine(s, from, k);
      LinesCount(s, FindFrom(s, '\n', from) + 1, k - 1);
    }
  }

  /** Reading `k` counted lines and closing each again gives the text they were read from. */
  lemma {:induction false} LinesText(s: string, from: nat, k: nat)
    requires from <= |s| && k <= CountLines(s, from)
    ensures Unlines(LinesFrom(s, from, k)) == s[from..AfterLines(s, from, k)]
    decreases k
  {
    if k > 0 {
      NextLine(s, from, k);
      var e := FindFrom(s, '\n', from);
      LinesText(s, e + 1, k - 1);
      UnlinesCons(s[from..e], LinesFrom(s, e + 1, k - 1));
      SplitAt(s, from, e, AfterLines(s, from, k));
    }
  }

  /** Lines hold neither line breaks nor closing braces. */
  predicate BlockLines(lines: seq<string>) {
    OneLiners(lines) && forall p :: 0 <= p < |lines| ==> '}' !in lines[p]
  }

  lemma {:induction false} LinesAreBlockLines(s: string, from: nat, k: nat)
    requires from <= |s| && k <= CountLines(s, from)
    ensures BlockLines(LinesFrom(s, from, k))
    decreases k
  {
    if k > 0 {
      FirstLine(s, from, k);
      LinesAreBlockLines(s, FindFrom(s, '\n', from) + 1, k - 1);
    }
  }

  lemma {:induction false} LinesAreShort(s: string, from: nat, k: nat)
    requires from <= |s|
    ensures forall p :: 0 <= p < |LinesFrom(s, from, k)| ==> |LinesFrom(s, from, k)[p]| <= |s|
    decreases k
  {
    if k > 0 && FindFrom(s, '\n', from) < |s| {
      LinesAreShort(s, FindFrom(s, '\n', from) + 1, k - 1);
    }
  }

  lemma {:induction false} AfterLinesAdd(s: string, from: nat, j: nat, k: nat)
    requires from <= |s| && j + k <= CountLines(s, from)
    ensures AfterLines(s, from, j + k) == AfterLines(s, AfterLines(s, from, j), k)
    decreases j
  {
    if j > 0 {
      NextLine(s, from, j);
      NextLine(s, from, j + k);
      AfterLinesAdd(s, FindFrom(s, '\n', from) + 1, j - 1, k);
    }
  }

  /** `j` lines followed by `k` lines are `j + k` lines. */
  ghost predicate LinesAdd(s: string, from: nat, j: nat, k: nat)
    requires from <= |s|
  {
    LinesFrom(s, from, j + k) == LinesFrom(s, from, j) + LinesFrom(s, AfterLines(s, from, j), k)
  }

  lemma LinesAddStep(s: string, from: nat, j: nat, k: nat)
    requires from <= |s| && j > 0 && FindFrom(s, '\n', from) < |s|
    requires LinesAdd(s, FindFrom(s, '\n', from) + 1, j - 1, k)
    ensures LinesAdd(s, from, j, k)
  {
    var e := FindFrom(s, '\n', from);
    Associate([s[from..e]], LinesFrom(s, e + 1, j - 1), LinesFrom(s, AfterLines(s, e + 1, j - 1), k));
  }

  lemma {:induction false} LinesFromAdd(s: string, from: nat, j: nat, k: nat)
    requires from <= |s| && j + k <= CountLines(s, from)
    ensures LinesAdd(s, from, j, k)
    decreases j
  {
    if j > 0 {
      CountedBreak(s, from);
      LinesFromAdd(s, FindFrom(s, '\n', from) + 1, j - 1, k);
      LinesAddStep(s, from, j, k);
    }
  }

  /** The text of the lines from `j` up to `j + k`. */
  lemma MiddleLines(s: string, from: nat, j: nat, k: nat)
    requires from <= |s| && j + k <= CountLines(s, from)
    ensures var t := CountLines(s, from);
            var mid := AfterLines(s, from, j);
            && |LinesFrom(s, from, t)| == t
            && s[mid..AfterLines(s, mid, k)] == Unlines(LinesFrom(s, from, t)[j..j + k])
  {
    LinesCount(s, from, j);
    LinesText(s, AfterLines(s, from, j), k);
    LinesSlice(s, from, j, k);
  }

  lemma LinesSlice(s: string, from: nat, j: nat, k: nat)
    requires from <= |s| && j + k <= CountLines(s, from)
    ensures |LinesFrom(s, from, CountLines(s, from))| == CountLines(s, from)
    ensures LinesFrom(s, from, CountLines(s, from))[j..j + k] == LinesFrom(s, AfterLines(s, from, j), k)
  {
    var rest: nat := CountLines(s, from) - (j + k);
    LinesCount(s, from, j);
    LinesCount(s, AfterLines(s, from, j), k);
    LinesCount(s, from, CountLines(s, from));
    LinesFromAdd(s, from, j + k, rest);
    LinesFromAdd(s, from, j, k);
    SliceOfSum(LinesFrom(s, from, j), LinesFrom(s, AfterLines(s, from, j), k),
               LinesFrom(s, AfterLines(s, from, j + k), rest));
  }

  lemma SliceOfSum<T>(a: seq<T>, b: seq<T>, c: seq<T>)
    ensures (a + b + c)[|a|..|a| + |b|] == b
  {
  }

  /** A block is complete: behind it no line break comes before the next closing brace. */
  lemma BlockIsComplete(s: string, at: nat)
    requires at < |s| && FindFrom(s, '\n', at) < |s|
    ensures CountLines(s, BlockEnd(s, at)) == 0
    ensures BlockLines(BlockAt(s, at))
    ensures Unlines(BlockAt(s, at)) == s[BlockStart(s, at)..BlockEnd(s, at)]
  {
    var start := BlockStart(s, at);
    LinesCount(s, start, CountLines(s, start));
    LinesAreBlockLines(s, start, CountLines(s, start));
    LinesText(s, start, CountLines(s, start));
  }
}
