/** The few operations of a mutable `std::string` that the modelled code uses. */
module Text {

  /** No `std::string` is longer than this; appending more throws `std::length_error`. */
  const MAX_STRING: nat := 0x7FFF_FFFF_FFFF_FFFF

  /** `std::string::npos`, the largest value of `std::size_t`. */
  const NPOS: nat := 0xFFFF_FFFF_FFFF_FFFF

  /** The value of `x` in the unsigned 64-bit type `std::size_t`. */
  function SizeT(x: int): nat {
    x % 0x1_0000_0000_0000_0000
  }

  function Min(a: nat, b: nat): nat {
    if a < b then a else b
  }

  lemma Associate<T>(a: seq<T>, b: seq<T>, c: seq<T>)
    ensures a + (b + c) == (a + b) + c
  {
  }

  /** The string made of `n` copies of `c`. */
  function Repeat(c: char, n: nat): (r: string)
    ensures |r| == n
    ensures forall i :: 0 <= i < n ==> r[i] == c
  {
    seq(n, _ => c)
  }

  /** A string that its holders update in place (a `std::string&` parameter). */
  class StringBuffer {
    var str: string

    constructor (s: string)
      ensures str == s
    {
      str := s;
    }

    /** Inserts `n` copies of `c` before position `pos`. */
    method Insert(pos: nat, n: nat, c: char)
      requires pos <= |str|
      modifies this
      ensures str == old(str[..pos]) + Repeat(c, n) + old(str[pos..])
    {
      str := str[..pos] + Repeat(c, n) + str[pos..];
    }

    /** Removes the single character at position `pos`. */
    method Erase(pos: nat)
      requires pos < |str|
      modifies this
      ensures str == old(str[..pos]) + old(str[pos + 1..])
    {
      str := str[..pos] + str[pos + 1..];
    }

    method Append(s: string)
      modifies this
      ensures str == old(str) + s
    {
      str := str + s;
    }
  }

  /** The first position of `c` at or after `from`; the length of `s` stands for "not found". */
  function FindFrom(s: string, c: char, from: nat): (r: nat)
    requires from <= |s|
    ensures from <= r <= |s|
    ensures r < |s| ==> s[r] == c
    decreases |s| - from
  {
    if from == |s| || s[from] == c then from else FindFrom(s, c, from + 1)
  }

  lemma {:induction false} FindFromIsFirst(s: string, c: char, from: nat)
    requires from <= |s|
    ensures c !in s[from..FindFrom(s, c, from)]
    decreases |s| - from
  {
    var r := FindFrom(s, c, from);
    if from < r {
      FindFromIsFirst(s, c, from + 1);
      assert s[from..r] == [s[from]] + s[from + 1..r];
    }
  }

  lemma {:induction false} FindsWhatIsThere(s: string, c: char, from: nat)
    requires from <= |s| && c in s[from..]
    ensures FindFrom(s, c, from) < |s|
    decreases |s| - from
  {
    if s[from] != c {
      assert s[from..] == [s[from]] + s[from + 1..];
      FindsWhatIsThere(s, c, from + 1);
    }
  }
}
