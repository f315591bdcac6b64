/** The display formatter of the test client: `formatForDisplay` rewrites a string in place while scanning it. */
module DisplayFormat {
  import opened Text

  /** How far nesting level `level` is indented (`level * indent` in the source). */
  function Indent(level: nat): nat {
    4 * level
  }

  // ---------------------------------------------------------------- specification

  /** The nesting level after reading `c` at nesting level `level`; it never goes below zero. */
  function NextLevel(level: nat, c: char): nat {
    if c == '{' then level + 1
    else if c == '}' && level > 0 then level - 1
    else level
  }

  /** The nesting level after reading all of `s`, starting at `level`. */
  function LevelAfter(s: string, level: nat): nat {
    if s == [] then level else LevelAfter(s[1..], NextLevel(level, s[0]))
  }

  /** A line break followed by the indentation of nesting level `level`. */
  function Break(level: nat): (r: string)
    ensures |r| == 1 + Indent(level)
    ensures r[0] == '\n' && forall i :: 1 <= i < |r| ==> r[i] == ' '
  {
    ['\n'] + Repeat(' ', Indent(level))
  }

  /** What a single character becomes when it is read at nesting level `level`. */
  function Emit(level: nat, c: char): string {
    var next := NextLevel(level, c);
    if c == ',' || c == '{' then [c] + Break(next)
    else if c == '}' then Break(next) + [c]
    else [c]
  }

  /** The formatted form of `s`, read from nesting level `level`, in one pass. */
  function Format(s: string, level: nat): string {
    if s == [] then [] else Emit(level, s[0]) + Format(s[1..], NextLevel(level, s[0]))
  }

  lemma {:induction false} LevelAfterConcat(a: string, b: string, level: nat)
    ensures LevelAfter(a + b, level) == LevelAfter(b, LevelAfter(a, level))
  {
    if a == [] {
      assert a + b == b;
    } else {
      assert (a + b)[1..] == a[1..] + b;
      LevelAfterConcat(a[1..], b, NextLevel(level, a[0]));
    }
  }

  /** Formatting is compositional: the second part is formatted at the level the first part leaves. */
  lemma {:induction false} FormatConcat(a: string, b: string, level: nat)
    ensures Format(a + b, level) == Format(a, level) + Format(b, LevelAfter(a, level))
  {
    if a == [] {
      assert a + b == b;
    } else {
      assert (a + b)[1..] == a[1..] + b;
      FormatConcat(a[1..], b, NextLevel(level, a[0]));
    }
  }

  lemma FormatOne(c: char, level: nat)
    ensures Format([c], level) == Emit(level, c)
    ensures LevelAfter([c], level) == NextLevel(level, c)
  {
    assert [c][1..] == [];
    assert Format([], NextLevel(level, c)) == [];
  }

  // ---------------------------------------------------------------- the in-place loop

  predicate IsBlank(c: char) {
    c == ' ' || c == '\n'
  }

  predicate AllBlank(s: string) {
    forall p :: 0 <= p < |s| ==> IsBlank(s[p])
  }

  /** Extending the consumed prefix of `orig` by one character. */
  lemma TakeOneMore(orig: string, k: nat)
    requires k < |orig|
    ensures Format(orig[..k + 1], 0) == Format(orig[..k], 0) + Emit(LevelAfter(orig[..k], 0), orig[k])
    ensures LevelAfter(orig[..k + 1], 0) == NextLevel(LevelAfter(orig[..k], 0), orig[k])
  {
    assert orig[..k + 1] == orig[..k] + [orig[k]];
    FormatConcat(orig[..k], [orig[k]], 0);
    LevelAfterConcat(orig[..k], [orig[k]], 0);
    FormatOne(orig[k], LevelAfter(orig[..k], 0));
  }

  /** The insertion that each of the three branches of the loop makes: a line break, then the indentation if any. */
  method InsertBreak(buf: StringBuffer, pos: nat, level: nat)
    requires pos <= |buf.str|
    modifies buf
    ensures buf.str == old(buf.str[..pos]) + Break(level) + old(buf.str[pos..])
  {
    buf.Insert(pos, 1, '\n');
    assert buf.str[..pos + 1] == old(buf.str[..pos]) + ['\n'];
    assert buf.str[pos + 1..] == old(buf.str[pos..]);
    if level > 0 {
      buf.Insert(pos + 1, Indent(level), ' ');
    }
  }

  /** Where a character is found after the break belonging to it has been inserted. */
  function CursorShift(level: nat, c: char): nat {
    if c == '}' then |Break(NextLevel(level, c))| else 0
  }

  /** Only blanks follow a character in its emitted form. */
  lemma BehindEmitted(done: string, level: nat, c: char)
    ensures var e := Emit(level, c);
            |done| + CursorShift(level, c) < |done + e| && AllBlank((done + e)[|done| + CursorShift(level, c) + 1..])
  {
    var e := Emit(level, c);
    assert (done + e)[|done| + CursorShift(level, c) + 1..] == e[CursorShift(level, c) + 1..];
  }

  /** The body of the loop: the character under the cursor is replaced by its emitted form. */
  method Visit(buf: StringBuffer, at: nat, before: nat) returns (i: nat, level: nat)
    requires at < |buf.str|
    modifies buf
    ensures level == NextLevel(before, old(buf.str[at]))
    ensures buf.str == old(buf.str[..at]) + Emit(before, old(buf.str[at])) + old(buf.str[at + 1..])
    ensures i == at + CursorShift(before, old(buf.str[at]))
  {
    ghost var head, c, tail := buf.str[..at], buf.str[at], buf.str[at + 1..];
    ghost var gap := Break(NextLevel(before, c));
    assert buf.str[..at + 1] == head + [c] && buf.str[at..] == [c] + tail;
    i := at;
    var depth: int := before;
    if buf.str[i] == ',' {
      InsertBreak(buf, i + 1, depth);
      assert buf.str == head + ([c] + gap) + tail;
    } else if buf.str[i] == '}' {
      depth := depth - 1;
      if depth < 0 {
        depth := 0;
      }
      InsertBreak(buf, i, depth);
      assert buf.str == head + (gap + [c]) + tail;
      i := i + Indent(depth) + 1;
    } else if buf.str[i] == '{' {
      depth := depth + 1;
      InsertBreak(buf, i + 1, depth);
      assert buf.str == head + ([c] + gap) + tail;
    }
    level := depth;
  }

  /**
    * The loop invariant: the first `k` characters of `orig` have been replaced by their formatted form, and the cursor
    * `i` is at the end of that form or still inside the blanks with which it ends.
    */
  ghost predicate InSync(orig: string, k: nat, str: string, i: nat, level: nat) {
    && k <= |orig|
    && var done := Format(orig[..k], 0);
    && str == done + orig[k..]
    && i <= |done| && AllBlank(done[i..])
    && level == LevelAfter(orig[..k], 0)
  }

  /** At the end of the finished part, the body of the loop finishes one more character. */
  lemma Consume(orig: string, k: nat, str: string, level: nat)
    requires k < |orig| && InSync(orig, k, str, |Format(orig[..k], 0)|, level)
    ensures var at := |Format(orig[..k], 0)|;
            && at < |str| && str[at] == orig[k]
            && InSync(orig, k + 1, str[..at] + Emit(level, str[at]) + str[at + 1..],
                      at + CursorShift(level, str[at]) + 1, NextLevel(level, str[at]))
  {
    var done, c := Format(orig[..k], 0), orig[k];
    assert str[..|done|] == done && str[|done|] == c && str[|done| + 1..] == orig[k + 1..];
    TakeOneMore(orig, k);
    BehindEmitted(done, level, c);
  }

  /** Inside the finished part, the body of the loop steps over a blank. */
  lemma StepOver(orig: string, k: nat, str: string, i: nat, level: nat)
    requires InSync(orig, k, str, i, level) && i < |Format(orig[..k], 0)|
    ensures Emit(level, str[i]) == [str[i]] && CursorShift(level, str[i]) == 0
    ensures InSync(orig, k, str[..i] + Emit(level, str[i]) + str[i + 1..],
                   i + CursorShift(level, str[i]) + 1, NextLevel(level, str[i]))
  {
    BlankAhead(Format(orig[..k], 0), orig[k..], i);
  }

  lemma BlankAhead(done: string, rest: string, i: nat)
    requires i < |done| && AllBlank(done[i..])
    ensures var str := done + rest; IsBlank(str[i]) && str[..i] + [str[i]] + str[i + 1..] == str
    ensures AllBlank(done[i + 1..])
  {
    assert (done + rest)[i] == done[i..][0];
    assert done[i + 1..] == done[i..][1..];
  }

  lemma Started(orig: string)
    ensures InSync(orig, 0, orig, 0, 0)
  {
    assert Format(orig[..0], 0) == [];
  }

  lemma Finished(orig: string, k: nat, str: string, i: nat, level: nat)
    requires InSync(orig, k, str, i, level) && i >= |str|
    ensures str == Format(orig, 0)
  {
    assert orig[..k] == orig;
  }

  /** One turn of the loop; either a character of the original is consumed or the cursor passes an inserted blank. */
  method Turn(buf: StringBuffer, at: nat, before: nat, ghost orig: string, ghost k: nat)
    returns (i: nat, level: nat, ghost m: nat)
    requires at < |buf.str| && InSync(orig, k, buf.str, at, before)
    modifies buf
    ensures InSync(orig, m, buf.str, i, level)
    ensures m == k + 1 || (m == k && i == at + 1 && |buf.str| == old(|buf.str|))
  {
    ghost var next := buf.str[..at] + Emit(before, buf.str[at]) + buf.str[at + 1..];
    if at == |Format(orig[..k], 0)| {
      Consume(orig, k, buf.str, before);
      m := k + 1;
    } else {
      StepOver(orig, k, buf.str, at, before);
      m := k;
    }
    i, level := Visit(buf, at, before);
    assert buf.str == next;
    i := i + 1;
  }

  /** The loop of the source; the string grows under it, but never without consuming a character of the original. */
  method FormatForDisplay(buf: StringBuffer)
    modifies buf
    ensures buf.str == Format(old(buf.str), 0)
  {
    ghost var orig := buf.str;
    ghost var k := 0;
    var level: nat := 0;
    var i: nat := 0;
    Started(orig);
    while i < |buf.str|
      invariant InSync(orig, k, buf.str, i, level)
      decreases |orig| - k, |buf.str| - i
    {
      i, level, k := Turn(buf, i, level, orig, k);
    }
    Finished(orig, k, buf.str, i, level);
  }

  // ---------------------------------------------------------------- what the level is

  /** Opening minus closing braces. */
  function Net(s: string): int {
    if s == [] then 0
    else Net(s[..|s| - 1]) + (if s[|s| - 1] == '{' then 1 else if s[|s| - 1] == '}' then -1 else 0)
  }

  /** The least brace balance over all prefixes of `s`, the empty one included. */
  function Lowest(s: string): int {
    if s == [] then 0
    else var m := Lowest(s[..|s| - 1]); if Net(s) < m then Net(s) else m
  }

  /** The saturating level is the brace balance measured from its lowest point so far. */
  lemma {:induction false} LevelIsBalanceAboveLowest(s: string)
    ensures LevelAfter(s, 0) == Net(s) - Lowest(s)
  {
    if s != [] {
      var a, c := s[..|s| - 1], s[|s| - 1];
      assert s == a + [c];
      LevelAfterConcat(a, [c], 0);
      FormatOne(c, LevelAfter(a, 0));
      LevelIsBalanceAboveLowest(a);
    }
  }

  /** How deep the nesting is behind `s`, told by its brace balances. */
  function Depth(s: string): nat {
    LevelIsBalanceAboveLowest(s);
    Net(s) - Lowest(s)
  }

  // ---------------------------------------------------------------- what surrounds each character

  lemma FormatAround(p: string, c: char, q: string)
    ensures Format(p + [c] + q, 0) == Format(p, 0) + Emit(LevelAfter(p, 0), c) + Format(q, Depth(p + [c]))
    ensures Depth(p + [c]) == NextLevel(LevelAfter(p, 0), c)
  {
    LevelIsBalanceAboveLowest(p + [c]);
    LevelAfterConcat(p, [c], 0);
    FormatOne(c, LevelAfter(p, 0));
    FormatConcat(p + [c], q, 0);
    FormatConcat(p, [c], 0);
  }

  lemma BreakIs(level: nat)
    ensures Break(level) == "\n" + Repeat(' ', 4 * level)
  {
  }

  /** Behind a comma or an opening brace come a line break and four spaces for each level of nesting. */
  lemma FormattedOpening(p: string, c: char, q: string)
    requires c == ',' || c == '{'
    ensures Format(p + [c] + q, 0)
         == Format(p, 0) + [c] + "\n" + Repeat(' ', 4 * Depth(p + [c])) + Format(q, Depth(p + [c]))
  {
    FormatAround(p, c, q);
    var d := Depth(p + [c]);
    BreakIs(d);
    assert Format(p, 0) + ([c] + ("\n" + Repeat(' ', 4 * d))) == Format(p, 0) + [c] + "\n" + Repeat(' ', 4 * d);
  }

  /** A closing brace comes behind a line break and four spaces for each level that is left. */
  lemma FormattedClosing(p: string, q: string)
    ensures Format(p + ['}'] + q, 0)
         == Format(p, 0) + "\n" + Repeat(' ', 4 * Depth(p + ['}'])) + ['}'] + Format(q, Depth(p + ['}']))
  {
    FormatAround(p, '}', q);
    var d := Depth(p + ['}']);
    BreakIs(d);
    assert Format(p, 0) + (("\n" + Repeat(' ', 4 * d)) + ['}']) == Format(p, 0) + "\n" + Repeat(' ', 4 * d) + ['}'];
  }

  /** Any other character is shown as it is. */
  lemma FormattedOther(p: string, c: char, q: string)
    requires c != ',' && c != '{' && c != '}'
    ensures Format(p + [c] + q, 0) == Format(p, 0) + [c] + Format(q, Depth(p + [c]))
  {
    FormatAround(p, c, q);
  }

  // ---------------------------------------------------------------- nothing is lost

  /** The longest prefix test used by the reader below. */
  predicate StartsWith(t: string, p: string) {
    |p| <= |t| && t[..|p|] == p
  }

  /**
    * Reads a formatted text back. It tracks the same saturating level; after ',' and '{' it skips the break that must
    * follow, and it takes a break for an inserted one exactly when the closing brace comes right behind it.
    */
  function Unformat(t: string, level: nat): string
    decreases |t|
  {
    if t == [] then []
    else if t[0] == ',' || t[0] == '{' then
      var next := NextLevel(level, t[0]);
      var skip := 1 + |Break(next)|;
      if skip <= |t| then [t[0]] + Unformat(t[skip..], next) else t
    else
      var next := NextLevel(level, '}');
      var close := Break(next) + ['}'];
      if StartsWith(t, close) then ['}'] + Unformat(t[|close|..], next)
      else [t[0]] + Unformat(t[1..], level)
  }

  /** In a formatted text no closing brace is reached through spaces alone: a line break always comes first. */
  lemma {:induction false} NoBareBrace(s: string, level: nat, m: nat)
    requires m < |Format(s, level)|
    requires forall i :: 0 <= i < m ==> Format(s, level)[i] == ' '
    ensures Format(s, level)[m] != '}'
  {
    var next := NextLevel(level, s[0]);
    var rest := Format(s[1..], next);
    assert Format(s, level) == Emit(level, s[0]) + rest;
    assert Format(s, level)[0] == Emit(level, s[0])[0];
    if m > 0 {
      assert Emit(level, s[0]) == [s[0]];
      forall i | 0 <= i < m - 1 ensures rest[i] == ' ' {
        assert rest[i] == Format(s, level)[i + 1];
      }
      NoBareBrace(s[1..], next, m - 1);
      assert Format(s, level)[m] == rest[m - 1];
    }
  }

  lemma UnformatBroken(c: char, rest: string, level: nat)
    requires c == ',' || c == '{'
    ensures Unformat(Emit(level, c) + rest, level) == [c] + Unformat(rest, NextLevel(level, c))
  {
    var t := Emit(level, c) + rest;
    assert t[0] == c && t[1 + |Break(NextLevel(level, c))|..] == rest;
  }

  lemma UnformatClosing(rest: string, level: nat)
    ensures Unformat(Emit(level, '}') + rest, level) == ['}'] + Unformat(rest, NextLevel(level, '}'))
  {
    var close := Break(NextLevel(level, '}')) + ['}'];
    var t := close + rest;
    assert t[0] == '\n' && t[..|close|] == close && t[|close|..] == rest;
  }

  /** An original line break is never taken for an inserted one. */
  lemma UnformatPlain(c: char, s: string, level: nat)
    requires c != ',' && c != '{' && c != '}'
    ensures Unformat([c] + Format(s, level), level) == [c] + Unformat(Format(s, level), level)
  {
    var rest := Format(s, level);
    var t := [c] + rest;
    var close := Break(NextLevel(level, '}')) + ['}'];
    assert t[1..] == rest;
    if StartsWith(t, close) {
      var m := |close| - 2;
      forall i | 0 <= i <= m ensures rest[i] == close[i + 1] {
        assert rest[i] == t[i + 1] == t[..|close|][i + 1];
      }
      NoBareBrace(s, level, m);
    }
  }

  /** One more character in front is read back, if all that follows it is. */
  lemma UnformatOne(c: char, s: string, level: nat)
    ensures Unformat(Emit(level, c) + Format(s, NextLevel(level, c)), level)
         == [c] + Unformat(Format(s, NextLevel(level, c)), NextLevel(level, c))
  {
    var rest := Format(s, NextLevel(level, c));
    if c == ',' || c == '{' {
      UnformatBroken(c, rest, level);
    } else if c == '}' {
      UnformatClosing(rest, level);
    } else {
      UnformatPlain(c, s, level);
    }
  }

  /** Formatting loses nothing, whatever blanks, commas and unbalanced braces the original holds. */
  lemma {:induction false} UnformatFormat(s: string, level: nat)
    ensures Unformat(Format(s, level), level) == s
  {
    if s != [] {
      UnformatOne(s[0], s[1..], level);
      UnformatFormat(s[1..], NextLevel(level, s[0]));
    }
  }

  /** Two different strings are never displayed alike. */
  lemma FormatInjective(s: string, t: string)
    requires Format(s, 0) == Format(t, 0)
    ensures s == t
  {
    UnformatFormat(s, 0);
    UnformatFormat(t, 0);
  }

  // ---------------------------------------------------------------- what is added

  /** The characters of `s` that are neither spaces nor line breaks, in order. */
  function Ink(s: string): string {
    if s == [] then [] else (if IsBlank(s[0]) then [] else [s[0]]) + Ink(s[1..])
  }

  lemma {:induction false} InkConcat(a: string, b: string)
    ensures Ink(a + b) == Ink(a) + Ink(b)
  {
    if a == [] {
      assert a + b == b;
    } else {
      assert (a + b)[1..] == a[1..] + b;
      InkConcat(a[1..], b);
    }
  }

  lemma {:induction false} InkOfBlanks(s: string)
    requires forall i :: 0 <= i < |s| ==> IsBlank(s[i])
    ensures Ink(s) == []
  {
    if s != [] {
      InkOfBlanks(s[1..]);
    }
  }

  lemma InkOfEmit(level: nat, c: char)
    ensures Ink(Emit(level, c)) == Ink([c])
  {
    var gap := Break(NextLevel(level, c));
    InkOfBlanks(gap);
    InkConcat([c], gap);
    InkConcat(gap, [c]);
  }

  /** Formatting inserts blanks only: every other character keeps its place in the order. */
  lemma {:induction false} FormatKeepsInk(s: string, level: nat)
    ensures Ink(Format(s, level)) == Ink(s)
  {
    if s != [] {
      var rest := Format(s[1..], NextLevel(level, s[0]));
      FormatKeepsInk(s[1..], NextLevel(level, s[0]));
      InkConcat(Emit(level, s[0]), rest);
      InkOfEmit(level, s[0]);
      InkConcat([s[0]], s[1..]);
      assert s == [s[0]] + s[1..];
    }
  }

  /** In a formatted text every opening brace is directly followed by a line break. */
  lemma {:induction false} BreakAfterEveryOpening(s: string, level: nat)
    ensures forall i :: 0 <= i < |Format(s, level)| && Format(s, level)[i] == '{' ==>
              i + 1 < |Format(s, level)| && Format(s, level)[i + 1] == '\n'
  {
    if s != [] {
      var e := Emit(level, s[0]);
      var rest := Format(s[1..], NextLevel(level, s[0]));
      BreakAfterEveryOpening(s[1..], NextLevel(level, s[0]));
      assert Format(s, level) == e + rest;
      forall i | 0 <= i < |e + rest| && (e + rest)[i] == '{'
        ensures i + 1 < |e + rest| && (e + rest)[i + 1] == '\n'
      {
        if i < |e| {
          assert e[i] == '{';
          assert i == 0 && s[0] == '{';
        } else {
          assert rest[i - |e|] == '{';
          assert (e + rest)[i + 1] == rest[i - |e| + 1];
        }
      }
    }
  }
}
