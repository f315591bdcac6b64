/** `removeJsonQuotes` of the test client: takes the outer quotes and the backslashes before inner quotes away, in place. */
module JsonQuotes {
  import opened Text

  const QUOTE: char := '"'
  const BACKSLASH: char := '\\'

  // ---------------------------------------------------------------- specification

  /** Whether a backslash directly followed by a quote begins at the start of `s`. */
  predicate EscapedQuote(s: string) {
    |s| >= 2 && s[0] == BACKSLASH && s[1] == QUOTE
  }

  /** `s` with the backslash before each quote taken away, from left to right. */
  function Unescape(s: string): string {
    if s == [] then []
    else if EscapedQuote(s) then [QUOTE] + Unescape(s[2..])
    else [s[0]] + Unescape(s[1..])
  }

  predicate Quoted(s: string) {
    s != [] && s[0] == QUOTE && s[|s| - 1] == QUOTE
  }

  /** What the function makes of a string that is neither empty nor a lone quote. */
  function Unquoted(s: string): string
    requires s != [] && s != [QUOTE]
  {
    if Quoted(s) then Unescape(s[1..|s| - 1]) else s
  }

  // ---------------------------------------------------------------- the in-place loop

  lemma UnescapeQuote(s: string, i: nat)
    requires i < |s| && EscapedQuote(s[i..])
    ensures s[..i] + s[i + 1..] == s[..i] + [QUOTE] + s[i + 2..]
    ensures s[..i] + Unescape(s[i..]) == (s[..i] + [QUOTE]) + Unescape(s[i + 2..])
  {
    assert s[i..][2..] == s[i + 2..];
  }

  lemma UnescapeOther(s: string, i: nat)
    requires i < |s| && !EscapedQuote(s[i..])
    ensures s[..i] + Unescape(s[i..]) == s[..i + 1] + Unescape(s[i + 1..])
  {
    assert s[i..][1..] == s[i + 1..];
  }

  /** The characters before `i` are final, the others still have to be unescaped. */
  ghost predicate Half(s: string, i: nat, result: string) {
    i <= |s| && s[..i] + Unescape(s[i..]) == result
  }

  lemma HalfAfterErase(s: string, i: nat, result: string)
    requires i < |s| && EscapedQuote(s[i..]) && Half(s, i, result)
    ensures Half(s[..i] + s[i + 1..], i + 1, result)
  {
    UnescapeQuote(s, i);
    var t := s[..i] + s[i + 1..];
    assert t[..i + 1] == s[..i] + [QUOTE] && t[i + 1..] == s[i + 2..];
  }

  lemma HalfAtEnds(s: string)
    ensures Half(s, 0, Unescape(s))
    ensures Half(s, |s|, s)
  {
    assert s[0..] == s && s[..0] + Unescape(s) == Unescape(s);
    assert s[..|s|] + Unescape([]) == s;
  }

  method RemoveJsonQuotes(buf: StringBuffer)
    requires buf.str != [] && buf.str != [QUOTE]
    modifies buf
    ensures buf.str == Unquoted(old(buf.str))
    ensures !(old(buf.str)[0] == '"' && old(buf.str)[|old(buf.str)| - 1] == '"') ==> buf.str == old(buf.str)
  {
    if buf.str[0] == QUOTE && buf.str[|buf.str| - 1] == QUOTE {
      ghost var inner := buf.str[1..|buf.str| - 1];
      buf.Erase(0);
      buf.str := buf.str[..|buf.str| - 1];
      assert buf.str == inner;
      HalfAtEnds(inner);
      var i: nat := 0;
      while i < |buf.str|
        invariant Half(buf.str, i, Unescape(inner))
        decreases |buf.str| - i
      {
        if i < |buf.str| - 1 && buf.str[i] == BACKSLASH && buf.str[i + 1] == QUOTE {
          HalfAfterErase(buf.str, i, Unescape(inner));
          buf.Erase(i);
        } else {
          UnescapeOther(buf.str, i);
        }
        i := i + 1;
      }
      HalfAtEnds(buf.str);
    }
  }

  // ---------------------------------------------------------------- what it takes away

  /** `s` without the backslashes that stand directly before a quote: each position is judged by itself. */
  function WithoutEscapes(s: string): string {
    if s == [] then []
    else (if s[0] == '\\' && |s| >= 2 && s[1] == '"' then [] else [s[0]]) + WithoutEscapes(s[1..])
  }

  /** Although it erases while it scans, the loop takes away exactly the backslashes that precede a quote at the outset. */
  lemma {:induction false} UnescapeIsLocal(s: string)
    ensures Unescape(s) == WithoutEscapes(s)
  {
    if EscapedQuote(s) {
      UnescapeIsLocal(s[2..]);
      assert s[1..][1..] == s[2..] && s[1..][0] == '"';
    } else if s != [] {
      UnescapeIsLocal(s[1..]);
    }
  }

  // ---------------------------------------------------------------- what it inverts

  /** Inner quotes escaped by a backslash; nothing else is changed. */
  function EscapeQuotes(s: string): string {
    if s == [] then []
    else (if s[0] == QUOTE then [BACKSLASH, QUOTE] else [s[0]]) + EscapeQuotes(s[1..])
  }

  function Quote(s: string): string {
    [QUOTE] + s + [QUOTE]
  }

  /** Unescaping undoes the escaping of quotes, backslashes in the original notwithstanding. */
  lemma {:induction false} UnescapeEscapeQuotes(s: string)
    ensures Unescape(EscapeQuotes(s)) == s
  {
    if s != [] {
      var rest := EscapeQuotes(s[1..]);
      UnescapeEscapeQuotes(s[1..]);
      if s[0] == QUOTE {
        assert ([BACKSLASH, QUOTE] + rest)[2..] == rest;
      } else {
        EscapedStartsPlain(s[1..]);
        assert ([s[0]] + rest)[1..] == rest;
      }
    }
  }

  lemma EscapedStartsPlain(s: string)
    ensures EscapeQuotes(s) != [] ==> EscapeQuotes(s)[0] != QUOTE
  {
  }

  /** Any string, quoted with its inner quotes escaped, is recovered. */
  lemma {:induction false} RemoveUndoesQuote(s: string)
    ensures Unquoted(Quote(EscapeQuotes(s))) == s
  {
    var t := Quote(EscapeQuotes(s));
    assert t[1..|t| - 1] == EscapeQuotes(s);
    UnescapeEscapeQuotes(s);
  }

  /** The escaping of a JSON encoder, as far as quotes and backslashes go: both are preceded by a backslash. */
  function EscapeJson(s: string): string {
    if s == [] then []
    else (if s[0] == QUOTE || s[0] == BACKSLASH then [BACKSLASH, s[0]] else [s[0]]) + EscapeJson(s[1..])
  }

  /** How many backslashes `s` holds. */
  function Backslashes(s: string): nat {
    if s == [] then 0 else (if s[0] == BACKSLASH then 1 else 0) + Backslashes(s[1..])
  }

  lemma JsonStartsPlain(s: string)
    ensures EscapeJson(s) != [] ==> EscapeJson(s)[0] != QUOTE
  {
  }

  /** Every backslash comes out doubled. */
  lemma {:induction false} UnescapeJsonLength(s: string)
    ensures |Unescape(EscapeJson(s))| == |s| + Backslashes(s)
    ensures Backslashes(s) == 0 ==> Unescape(EscapeJson(s)) == s
  {
    if s != [] {
      var rest := EscapeJson(s[1..]);
      UnescapeJsonLength(s[1..]);
      JsonStartsPlain(s[1..]);
      if s[0] == QUOTE {
        assert ([BACKSLASH, QUOTE] + rest)[2..] == rest;
      } else if s[0] == BACKSLASH {
        var t := [BACKSLASH, BACKSLASH] + rest;
        assert t[1..] == [BACKSLASH] + rest;
        assert t[1..][1..] == rest;
      } else {
        assert ([s[0]] + rest)[1..] == rest;
      }
    }
  }

  lemma {:induction false} NoBackslashes(s: string)
    ensures Backslashes(s) == 0 <==> BACKSLASH !in s
  {
    if s != [] {
      NoBackslashes(s[1..]);
      assert s == [s[0]] + s[1..];
    }
  }

  /** Against a JSON encoder the function is an inverse exactly on the strings without a backslash. */
  lemma RemoveUndoesJson(s: string)
    ensures Unquoted(Quote(EscapeJson(s))) == s <==> BACKSLASH !in s
  {
    var t := Quote(EscapeJson(s));
    assert t[1..|t| - 1] == EscapeJson(s);
    UnescapeJsonLength(s);
    NoBackslashes(s);
  }

  /** The shortest string that does not survive the JSON encoding. */
  lemma BackslashIsDoubled()
    ensures Quote(EscapeJson("\\")) == "\"\\\\\""
    ensures Unquoted(Quote(EscapeJson("\\"))) == "\\\\"
  {
    var one, two := [BACKSLASH], [BACKSLASH, BACKSLASH];
    assert one[1..] == [] && two[1..] == one;
    assert EscapeJson(one) == two + EscapeJson([]) == two;
    assert Unescape(one) == one + Unescape([]) == one;
    assert Unescape(two) == one + Unescape(one) == two;
    var t := Quote(two);
    assert t[1..|t| - 1] == two;
  }
}
