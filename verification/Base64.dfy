/**
  * `imageEncoder`: a streaming base64 encoder. The specification is the bit stream of section 4 of RFC 4648; the decoder,
  * also written from that section, is strict in the sense of section 3.5 (unused bits must be zero).
  */
module Base64 {
  import opened Text

  const BASE64_CHARS: string := "ABCDEFGHIJKLMNOPQRSTUVWXYZ" + "abcdefghijklmnopqrstuvwxyz" + "0123456789+/"

  const PAD: char := '='

  // ---------------------------------------------------------------- bits

  type Bits = seq<bool>

  /** The bits of a byte, most significant first. */
  function ByteBits(b: bv8): (r: Bits)
    ensures |r| == 8
  {
    [b & 0x80 != 0, b & 0x40 != 0, b & 0x20 != 0, b & 0x10 != 0, b & 0x08 != 0, b & 0x04 != 0, b & 0x02 != 0, b & 0x01 != 0]
  }

  /** The six lower bits of a byte, most significant first. */
  function SextetBits(x: bv8): (r: Bits)
    ensures |r| == 6
  {
    [x & 0x20 != 0, x & 0x10 != 0, x & 0x08 != 0, x & 0x04 != 0, x & 0x02 != 0, x & 0x01 != 0]
  }

  function Bit(b: bool, weight: bv8): bv8 {
    if b then weight else 0
  }

  lemma EightBits(b7: bool, b6: bool, b5: bool, b4: bool, b3: bool, b2: bool, b1: bool, b0: bool)
    ensures var b := Bit(b7, 0x80) | Bit(b6, 0x40) | Bit(b5, 0x20) | Bit(b4, 0x10)
                     | Bit(b3, 0x08) | Bit(b2, 0x04) | Bit(b1, 0x02) | Bit(b0, 0x01);
            && (b & 0x80 != 0) == b7 && (b & 0x40 != 0) == b6 && (b & 0x20 != 0) == b5 && (b & 0x10 != 0) == b4
            && (b & 0x08 != 0) == b3 && (b & 0x04 != 0) == b2 && (b & 0x02 != 0) == b1 && (b & 0x01 != 0) == b0
  {
  }

  function ToByte(r: Bits): bv8
    requires |r| == 8
  {
    Bit(r[0], 0x80) | Bit(r[1], 0x40) | Bit(r[2], 0x20) | Bit(r[3], 0x10)
    | Bit(r[4], 0x08) | Bit(r[5], 0x04) | Bit(r[6], 0x02) | Bit(r[7], 0x01)
  }

  lemma BitsOfByte(r: Bits)
    requires |r| == 8
    ensures ByteBits(ToByte(r)) == r
  {
    var s := ByteBits(ToByte(r));
    EightBits(r[0], r[1], r[2], r[3], r[4], r[5], r[6], r[7]);
    assert s[0] == r[0] && s[1] == r[1] && s[2] == r[2] && s[3] == r[3];
    assert s[4] == r[4] && s[5] == r[5] && s[6] == r[6] && s[7] == r[7];
  }

  type Group = r: Bits | |r| == 6 witness Zeros(6)

  function ToSextet(r: Group): (x: bv8)
    ensures x < 64 && SextetBits(x) == r
  {
    Bit(r[0], 0x20) | Bit(r[1], 0x10) | Bit(r[2], 0x08) | Bit(r[3], 0x04) | Bit(r[4], 0x02) | Bit(r[5], 0x01)
  }

  lemma SextetOfItsBits(x: bv8)
    requires x < 64
    ensures ToSextet(SextetBits(x)) == x
  {
  }

  lemma ByteOfItsBits(b: bv8)
    ensures ToByte(ByteBits(b)) == b
  {
  }

  function Zeros(n: nat): (r: Bits)
    ensures |r| == n && forall i :: 0 <= i < n ==> !r[i]
  {
    seq(n, _ => false)
  }

  // ---------------------------------------------------------------- specification of the encoder

  /** The input as one stream of bits, from left to right. */
  function Stream(bytes: seq<bv8>): (r: Bits)
    ensures |r| == 8 * |bytes|
  {
    if bytes == [] then [] else ByteBits(bytes[0]) + Stream(bytes[1..])
  }

  /** The stream cut into groups of six bits; zero bits fill the last group up on the right. */
  function Groups(bits: Bits): seq<Group> {
    if bits == [] then []
    else if |bits| < 6 then [bits + Zeros(6 - |bits|)]
    else [bits[..6]] + Groups(bits[6..])
  }

  /** The character that stands for a group. */
  function Symbol(g: Group): char {
    BASE64_CHARS[ToSextet(g) as int]
  }

  function Symbols(groups: seq<Group>): (r: string)
    ensures |r| == |groups|
  {
    if groups == [] then [] else [Symbol(groups[0])] + Symbols(groups[1..])
  }

  /** The symbols of the groups of six bits in `bits`. */
  function Emitted(bits: Bits): string {
    Symbols(Groups(bits))
  }

  /** Two pad characters after a final group of one byte, one after a final group of two. */
  function Padding(n: nat): string {
    if n % 3 == 1 then [PAD, PAD] else if n % 3 == 2 then [PAD] else []
  }

  function Encode(bytes: seq<bv8>, padding: bool): string {
    Emitted(Stream(bytes)) + if padding then Padding(|bytes|) else []
  }

  // ---------------------------------------------------------------- composition

  lemma {:induction false} StreamConcat(a: seq<bv8>, b: seq<bv8>)
    ensures Stream(a + b) == Stream(a) + Stream(b)
  {
    if a == [] {
      assert a + b == b;
    } else {
      assert (a + b)[1..] == a[1..] + b;
      StreamConcat(a[1..], b);
    }
  }

  lemma {:induction false} GroupsConcat(a: Bits, b: Bits)
    requires |a| % 6 == 0
    ensures Groups(a + b) == Groups(a) + Groups(b)
  {
    if a == [] {
      assert a + b == b;
    } else {
      FirstGroup(a);
      FirstGroup(a + b);
      TailOfSum(a, b);
      GroupsConcat(a[6..], b);
      Associate([a[..6]], Groups(a[6..]), Groups(b));
    }
  }

  lemma {:induction false} SymbolsConcat(a: seq<Group>, b: seq<Group>)
    ensures Symbols(a + b) == Symbols(a) + Symbols(b)
  {
    if a == [] {
      assert a + b == b;
    } else {
      assert (a + b)[1..] == a[1..] + b;
      SymbolsConcat(a[1..], b);
    }
  }

  lemma PaddingPeriod(n: nat, m: nat)
    requires n % 3 == 0
    ensures Padding(n + m) == Padding(m)
  {
    assert (n + m) % 3 == m % 3;
  }

  lemma SixTimes(k: nat)
    ensures 6 * k % 6 == 0
  {
  }

  lemma WholeGroups(a: seq<bv8>)
    requires |a| % 3 == 0
    ensures |Stream(a)| % 6 == 0
  {
    var k := |a| / 3;
    assert |Stream(a)| == 6 * (4 * k);
    SixTimes(4 * k);
  }

  /** Whole groups of three bytes are encoded on their own. */
  lemma EncodeConcat(a: seq<bv8>, b: seq<bv8>, padding: bool)
    requires |a| % 3 == 0
    ensures Encode(a + b, padding) == Encode(a, false) + Encode(b, padding)
  {
    WholeGroups(a);
    StreamConcat(a, b);
    GroupsConcat(Stream(a), Stream(b));
    SymbolsConcat(Groups(Stream(a)), Groups(Stream(b)));
    PaddingPeriod(|a|, |b|);
    ThreeParts(Emitted(Stream(a)), Emitted(Stream(b)), if padding then Padding(|b|) else []);
  }

  lemma ThreeParts(head: string, body: string, tail: string)
    ensures head + body + tail == (head + []) + (body + tail)
  {
  }

  // ---------------------------------------------------------------- the loop

  lemma SymbolsOne(g: Group)
    ensures Symbols([g]) == [Symbol(g)]
  {
    assert [g][1..] == [];
    assert Symbols([]) == "";
    assert [Symbol(g)] + "" == [Symbol(g)];
  }

  lemma GroupsOne(g: Group)
    ensures Groups(g) == [g]
  {
    assert g[..6] == g && g[6..] == [];
    assert Groups(g) == [g[..6]] + Groups(g[6..]);
    assert [g] + [] == [g];
  }

  lemma EmitGroup(done: Bits, g: Group)
    requires |done| % 6 == 0
    ensures Emitted(done + g) == Emitted(done) + [Symbol(g)]
  {
    GroupsConcat(done, g);
    GroupsOne(g);
    SymbolsConcat(Groups(done), [g]);
    SymbolsOne(g);
  }

  lemma FirstByte(b: bv8)
    ensures (b & 0xFC) >> 2 < 64 && SextetBits((b & 0xFC) >> 2) == ByteBits(b)[..6]
    ensures (b & 0x03) << 4 < 64 && SextetBits((b & 0x03) << 4) == Fill(ByteBits(b)[6..])
  {
  }

  /** Two pending bits and the upper four bits of a byte. */
  lemma JoinTwo(b: bv8, last: bv8)
    requires last < 64 && last & 0x0F == 0
    ensures var x := ((b & 0xF0) >> 4) | last;
            && x < 64
            && (x & 0x20 != 0 <==> last & 0x20 != 0) && (x & 0x10 != 0 <==> last & 0x10 != 0)
            && (x & 0x08 != 0 <==> b & 0x80 != 0) && (x & 0x04 != 0 <==> b & 0x40 != 0)
            && (x & 0x02 != 0 <==> b & 0x20 != 0) && (x & 0x01 != 0 <==> b & 0x10 != 0)
  {
  }

  /** Four pending bits and the upper two bits of a byte. */
  lemma JoinFour(b: bv8, last: bv8)
    requires last < 64 && last & 0x03 == 0
    ensures var x := ((b & 0xC0) >> 6) | last;
            && x < 64
            && (x & 0x20 != 0 <==> last & 0x20 != 0) && (x & 0x10 != 0 <==> last & 0x10 != 0)
            && (x & 0x08 != 0 <==> last & 0x08 != 0) && (x & 0x04 != 0 <==> last & 0x04 != 0)
            && (x & 0x02 != 0 <==> b & 0x80 != 0) && (x & 0x01 != 0 <==> b & 0x40 != 0)
  {
  }

  lemma LowBits(x: bv8)
    ensures x & 0x02 == 0 && x & 0x01 == 0 ==> x & 0x03 == 0
    ensures x & 0x08 == 0 && x & 0x04 == 0 && x & 0x02 == 0 && x & 0x01 == 0 ==> x & 0x0F == 0
  {
  }

  /** Pending bits, left-aligned in a group. */
  function Fill(pending: Bits): (g: Group)
    requires |pending| <= 6
  {
    pending + Zeros(6 - |pending|)
  }

  lemma FillTwo(p: Bits)
    requires |p| == 2
    ensures p == [p[0], p[1]] && Fill(p) == [p[0], p[1], false, false, false, false]
  {
  }

  lemma FillFour(p: Bits)
    requires |p| == 4
    ensures p == [p[0], p[1], p[2], p[3]] && Fill(p) == [p[0], p[1], p[2], p[3], false, false]
  {
  }

  lemma SecondBits(b: bv8, last: bv8, p0: bool, p1: bool)
    requires last < 64 && SextetBits(last) == [p0, p1, false, false, false, false]
    ensures ((b & 0xF0) >> 4) | last < 64
    ensures SextetBits(((b & 0xF0) >> 4) | last)
         == [p0, p1, b & 0x80 != 0, b & 0x40 != 0, b & 0x20 != 0, b & 0x10 != 0]
  {
    var s := SextetBits(last);
    assert s[0] == p0 && s[1] == p1 && !s[2] && !s[3] && !s[4] && !s[5];
    LowBits(last);
    JoinTwo(b, last);
  }

  lemma SecondRest(b: bv8)
    ensures (b & 0x0F) << 2 < 64 && SextetBits((b & 0x0F) << 2) == Fill(ByteBits(b)[4..])
  {
  }

  lemma ThirdRest(b: bv8)
    ensures b & 0x3F < 64 && SextetBits(b & 0x3F) == ByteBits(b)[2..]
  {
  }

  lemma ThirdBits(b: bv8, last: bv8, p0: bool, p1: bool, p2: bool, p3: bool)
    requires last < 64 && SextetBits(last) == [p0, p1, p2, p3, false, false]
    ensures ((b & 0xC0) >> 6) | last < 64
    ensures SextetBits(((b & 0xC0) >> 6) | last) == [p0, p1, p2, p3, b & 0x80 != 0, b & 0x40 != 0]
  {
    var s := SextetBits(last);
    assert s[0] == p0 && s[1] == p1 && s[2] == p2 && s[3] == p3 && !s[4] && !s[5];
    LowBits(last);
    JoinFour(b, last);
  }

  /**
    * The state of the encoder when it has read `stream`: `done` is the part whose symbols have been emitted, the last
    * `2 * state` bits are pending, and `lastStuff` holds them, left-aligned in a group of six.
    */
  ghost predicate Holds(stream: Bits, done: Bits, state: int, lastStuff: bv8) {
    && 0 <= state < 3
    && |done| % 6 == 0 && |stream| == |done| + 2 * state && done <= stream
    && (state > 0 ==> lastStuff < 64 && SextetBits(lastStuff) == Fill(stream[|done|..]))
  }

  /** The character of the alphabet that the source looks up. */
  lemma Lookup(x: bv8)
    requires x < 64
    ensures x as int < |BASE64_CHARS| && BASE64_CHARS[x as int] == Symbol(SextetBits(x))
  {
    SextetOfItsBits(x);
  }

  lemma SplitByte(b: bv8)
    ensures ByteBits(b) == ByteBits(b)[..6] + ByteBits(b)[6..]
         == ByteBits(b)[..4] + ByteBits(b)[4..] == ByteBits(b)[..2] + ByteBits(b)[2..]
    ensures ByteBits(b)[..4] == [b & 0x80 != 0, b & 0x40 != 0, b & 0x20 != 0, b & 0x10 != 0]
    ensures ByteBits(b)[..2] == [b & 0x80 != 0, b & 0x40 != 0]
  {
  }

  /** What is pending together with the first bits of a byte is emitted; its other bits become pending. */
  lemma Shift(stream: Bits, done: Bits, state: int, last: bv8, head: Bits, tail: Bits, state': int, last': bv8)
    requires Holds(stream, done, state, last) && 0 <= state' < 3
    requires (2 * state + |head|) % 6 == 0 && |tail| == 2 * state'
    requires state' > 0 ==> last' < 64 && SextetBits(last') == Fill(tail)
    ensures Holds(stream + (head + tail), done + (stream[|done|..] + head), state', last')
  {
    var p := stream[|done|..];
    var done' := done + (p + head);
    assert stream == done + p;
    assert stream + (head + tail) == done' + tail;
    assert (done' + tail)[|done'|..] == tail;
  }

  lemma ZeroToOne(stream: Bits, done: Bits, lastStuff: bv8, b: bv8)
    requires Holds(stream, done, 0, lastStuff)
    ensures Holds(stream + ByteBits(b), done + SextetBits((b & 0xFC) >> 2), 1, (b & 0x03) << 4)
  {
    FirstByte(b);
    SplitByte(b);
    assert stream[|done|..] + ByteBits(b)[..6] == ByteBits(b)[..6];
    Shift(stream, done, 0, lastStuff, ByteBits(b)[..6], ByteBits(b)[6..], 1, (b & 0x03) << 4);
  }

  lemma TwoAndFour(p: bool, q: bool, a: bool, b: bool, c: bool, d: bool)
    ensures [p, q] + [a, b, c, d] == [p, q, a, b, c, d]
  {
  }

  lemma FourAndTwo(a: bool, b: bool, c: bool, d: bool, p: bool, q: bool)
    ensures [a, b, c, d] + [p, q] == [a, b, c, d, p, q]
  {
  }

  lemma SecondGroup(p: Bits, lastStuff: bv8, b: bv8)
    requires |p| == 2 && lastStuff < 64 && SextetBits(lastStuff) == Fill(p)
    ensures ((b & 0xF0) >> 4) | lastStuff < 64
    ensures SextetBits(((b & 0xF0) >> 4) | lastStuff) == p + ByteBits(b)[..4]
  {
    FillTwo(p);
    SecondBits(b, lastStuff, p[0], p[1]);
    SplitByte(b);
    TwoAndFour(p[0], p[1], b & 0x80 != 0, b & 0x40 != 0, b & 0x20 != 0, b & 0x10 != 0);
  }

  lemma OneToTwo(stream: Bits, done: Bits, lastStuff: bv8, b: bv8)
    requires Holds(stream, done, 1, lastStuff)
    ensures ((b & 0xF0) >> 4) | lastStuff < 64
    ensures Holds(stream + ByteBits(b), done + SextetBits(((b & 0xF0) >> 4) | lastStuff), 2, (b & 0x0F) << 2)
  {
    SecondGroup(stream[|done|..], lastStuff, b);
    SecondRest(b);
    SplitByte(b);
    Shift(stream, done, 1, lastStuff, ByteBits(b)[..4], ByteBits(b)[4..], 2, (b & 0x0F) << 2);
  }

  lemma ThirdGroup(p: Bits, lastStuff: bv8, b: bv8)
    requires |p| == 4 && lastStuff < 64 && SextetBits(lastStuff) == Fill(p)
    ensures ((b & 0xC0) >> 6) | lastStuff < 64
    ensures SextetBits(((b & 0xC0) >> 6) | lastStuff) == p + ByteBits(b)[..2]
  {
    FillFour(p);
    ThirdBits(b, lastStuff, p[0], p[1], p[2], p[3]);
    SplitByte(b);
    FourAndTwo(p[0], p[1], p[2], p[3], b & 0x80 != 0, b & 0x40 != 0);
  }

  lemma TwoToZero(stream: Bits, done: Bits, lastStuff: bv8, b: bv8)
    requires Holds(stream, done, 2, lastStuff)
    ensures ((b & 0xC0) >> 6) | lastStuff < 64 && b & 0x3F < 64
    ensures Holds(stream + ByteBits(b), done + SextetBits(((b & 0xC0) >> 6) | lastStuff) + SextetBits(b & 0x3F), 0, lastStuff)
  {
    ThirdGroup(stream[|done|..], lastStuff, b);
    ThirdRest(b);
    Shift(stream, done, 2, lastStuff, ByteBits(b), [], 0, lastStuff);
    NothingRemains(done, stream[|done|..], ByteBits(b));
  }

  /** All of a byte is emitted: its first two bits with what is pending, and the other six. */
  lemma NothingRemains(done: Bits, pending: Bits, byte: Bits)
    requires |byte| == 8
    ensures byte + [] == byte
    ensures done + (pending + byte) == done + (pending + byte[..2]) + byte[2..]
  {
  }

  /** The last symbol stands for the pending bits, filled up with zeros. */
  lemma EmitPending(stream: Bits, done: Bits, state: int, lastStuff: bv8)
    requires Holds(stream, done, state, lastStuff)
    ensures state == 0 ==> Emitted(stream) == Emitted(done)
    ensures state > 0 ==> Emitted(stream) == Emitted(done) + [Symbol(SextetBits(lastStuff))]
  {
    var p := stream[|done|..];
    assert stream == done + p;
    if state > 0 {
      GroupsConcat(done, p);
      assert Groups(p) == [Fill(p)];
      SymbolsConcat(Groups(done), [Fill(p)]);
      SymbolsOne(Fill(p));
    } else {
      assert stream == done;
    }
  }

  lemma StreamOne(b: bv8)
    ensures Stream([b]) == ByteBits(b)
  {
    assert [b][1..] == [];
    assert ByteBits(b) + Stream([]) == ByteBits(b);
  }

  lemma StreamTake(bytes: seq<bv8>, k: nat)
    requires k < |bytes|
    ensures Stream(bytes[..k + 1]) == Stream(bytes[..k]) + ByteBits(bytes[k])
  {
    assert bytes[..k + 1] == bytes[..k] + [bytes[k]];
    StreamConcat(bytes[..k], [bytes[k]]);
    StreamOne(bytes[k]);
  }

  /** The number of pending bits tells how many bytes the final group holds. */
  lemma StateIsRemainder(n: nat, m: nat, state: nat)
    requires m % 6 == 0 && 8 * n == m + 2 * state && state < 3
    ensures n % 3 == state
  {
    assert n == 3 * (m / 6 - n) + state;
  }

  /** `result += base64_chars[x]`. */
  method Put(x: bv8, result: StringBuffer, ghost before: string, ghost done: Bits) returns (ghost after: Bits)
    requires x < 64 && |done| % 6 == 0 && result.str == before + Emitted(done)
    modifies result
    ensures after == done + SextetBits(x) && result.str == before + Emitted(after)
  {
    Lookup(x);
    EmitGroup(done, SextetBits(x));
    after := done + SextetBits(x);
    result.Append([BASE64_CHARS[x as int]]);
  }

  /** One turn of the loop. */
  method EncodeByte(b: bv8, state0: int, last0: bv8, result: StringBuffer,
                    ghost before: string, ghost stream: Bits, ghost done0: Bits)
    returns (state: int, lastStuff: bv8, ghost done: Bits)
    requires Holds(stream, done0, state0, last0) && result.str == before + Emitted(done0)
    modifies result
    ensures Holds(stream + ByteBits(b), done, state, lastStuff) && result.str == before + Emitted(done)
  {
    state, lastStuff, done := state0, last0, done0;
    if state == 0 {
      ZeroToOne(stream, done, lastStuff, b);
      FirstByte(b);
      done := Put((b & 0xFC) >> 2, result, before, done);
      lastStuff := (b & 0x03) << 4;
      state := 1;
    } else if state == 1 {
      OneToTwo(stream, done, lastStuff, b);
      done := Put(((b & 0xF0) >> 4) | lastStuff, result, before, done);
      lastStuff := (b & 0x0F) << 2;
      state := 2;
    } else if state == 2 {
      TwoToZero(stream, done, lastStuff, b);
      done := Put(((b & 0xC0) >> 6) | lastStuff, result, before, done);
      done := Put(b & 0x3F, result, before, done);
      state := 0;
    }
  }

  method ImageEncoder(bytes: array<bv8>, length: nat, padding: bool, result: StringBuffer)
    requires length <= bytes.Length && length < 0x1_0000_0000
    modifies result
    ensures result.str == old(result.str) + Encode(bytes[..length], padding)
  {
    ghost var before := result.str;
    ghost var done: Bits := [];
    var state := 0;
    var index := 0;
    var lastStuff: bv8 := 0;
    assert bytes[..0] == [];
    while index < length
      invariant 0 <= index <= length
      invariant Holds(Stream(bytes[..index]), done, state, lastStuff)
      invariant result.str == before + Emitted(done)
    {
      StreamTake(bytes[..], index);
      assert bytes[..][..index] == bytes[..index] && bytes[..][..index + 1] == bytes[..index + 1];
      state, lastStuff, done := EncodeByte(bytes[index], state, lastStuff, result, before, Stream(bytes[..index]), done);
      index := index + 1;
    }
    Finish(length, state, lastStuff, padding, result, before, Stream(bytes[..length]), done);
  }

  /** What follows the loop: the pending bits, and the padding. */
  method Finish(ghost n: nat, state: int, lastStuff: bv8, padding: bool, result: StringBuffer,
                ghost before: string, ghost stream: Bits, ghost done: Bits)
    requires Holds(stream, done, state, lastStuff) && |stream| == 8 * n && result.str == before + Emitted(done)
    modifies result
    ensures result.str == before + (Emitted(stream) + if padding then Padding(n) else [])
  {
    EmitPending(stream, done, state, lastStuff);
    StateIsRemainder(n, |done|, state);
    if state != 0 {
      Lookup(lastStuff);
      result.Append([BASE64_CHARS[lastStuff as int]]);
      if padding {
        if state == 1 {
          result.Append([PAD, PAD]);
        } else {
          result.Append([PAD]);
        }
      }
    }
  }

  // ---------------------------------------------------------------- decoding

  /** The value of a character of the alphabet, as the table of section 4 assigns it. */
  function ValueOf(c: char): int {
    if 'A' <= c <= 'Z' then c as int - 'A' as int
    else if 'a' <= c <= 'z' then c as int - 'a' as int + 26
    else if '0' <= c <= '9' then c as int - '0' as int + 52
    else if c == '+' then 62
    else if c == '/' then 63
    else -1
  }

  predicate IsSymbol(c: char) {
    ValueOf(c) >= 0
  }

  predicate AllSymbols(text: string) {
    forall i :: 0 <= i < |text| ==> IsSymbol(text[i])
  }

  function GroupOf(c: char): Group
    requires IsSymbol(c)
  {
    SextetBits(ValueOf(c) as bv8)
  }

  /** The bits that some symbols stand for. */
  function SymbolBits(text: string): (r: Bits)
    requires AllSymbols(text)
    ensures |r| == 6 * |text|
  {
    if text == [] then [] else GroupOf(text[0]) + SymbolBits(text[1..])
  }

  /** The whole bytes of a bit stream. */
  function Bytes(bits: Bits): (r: seq<bv8>)
    ensures |r| == |bits| / 8
  {
    if |bits| < 8 then [] else [ToByte(bits[..8])] + Bytes(bits[8..])
  }

  /** How many pad characters end the text; there are never more than two. */
  function PadLength(text: string): (n: nat)
    ensures n <= |text|
  {
    if text == [] || text[|text| - 1] != PAD then 0
    else if |text| == 1 || text[|text| - 2] != PAD then 1
    else 2
  }

  datatype Decoded = Malformed | Data(bytes: seq<bv8>)

  /** The symbols in front of the pad characters, if there are to be any. */
  function Body(text: string, padding: bool): string {
    if padding then text[..|text| - PadLength(text)] else text
  }

  /**
    * The strict decoder: a text of symbols that hold whole bytes, with unused bits that are zero and fill no symbol, and
    * with as many pad characters as make the length a multiple of four.
    */
  function Decode(text: string, padding: bool): Decoded {
    var body := Body(text, padding);
    if !AllSymbols(body) || |body| % 4 == 1 || (padding && |text| % 4 != 0) then Malformed
    else DecodeBits(SymbolBits(body))
  }

  function DecodeBits(bits: Bits): Decoded {
    if forall i :: 8 * (|bits| / 8) <= i < |bits| ==> !bits[i] then Data(Bytes(bits)) else Malformed
  }

  // ---------------------------------------------------------------- the alphabet

  lemma TableUpper(v: int)
    requires 0 <= v < 26
    ensures ValueOf(BASE64_CHARS[v]) == v
  {
    assert BASE64_CHARS[v] == "ABCDEFGHIJKLMNOPQRSTUVWXYZ"[v];
  }

  lemma TableLower(v: int)
    requires 26 <= v < 52
    ensures ValueOf(BASE64_CHARS[v]) == v
  {
    assert BASE64_CHARS[v] == "abcdefghijklmnopqrstuvwxyz"[v - 26];
  }

  lemma TableRest(v: int)
    requires 52 <= v < 64
    ensures ValueOf(BASE64_CHARS[v]) == v
  {
    assert BASE64_CHARS[v] == "0123456789+/"[v - 52];
  }

  lemma ValueOfTable(v: int)
    requires 0 <= v < 64
    ensures ValueOf(BASE64_CHARS[v]) == v
  {
    if v < 26 {
      TableUpper(v);
    } else if v < 52 {
      TableLower(v);
    } else {
      TableRest(v);
    }
  }

  lemma ValueDetermines(c: char, d: char)
    requires IsSymbol(c) && ValueOf(c) == ValueOf(d)
    ensures c == d
  {
  }

  /** Symbols and groups of six bits correspond one to one. */
  lemma SymbolOfGroup(g: Group)
    ensures IsSymbol(Symbol(g)) && GroupOf(Symbol(g)) == g && Symbol(g) != PAD
  {
    var x := ToSextet(g);
    ValueOfTable(x as int);
    assert (x as int) as bv8 == x;
  }

  lemma SmallIndex(v: int)
    requires 0 <= v < 64
    ensures v as bv8 < 64
  {
  }

  lemma SmallIndexBack(v: int)
    requires 0 <= v < 64
    ensures (v as bv8) as int == v
  {
  }

  lemma GroupOfSymbol(c: char)
    requires IsSymbol(c)
    ensures Symbol(GroupOf(c)) == c
  {
    SmallIndex(ValueOf(c));
    SmallIndexBack(ValueOf(c));
    Lookup(ValueOf(c) as bv8);
    ValueOfTable(ValueOf(c));
    ValueDetermines(c, BASE64_CHARS[ValueOf(c)]);
  }

  // ---------------------------------------------------------------- lengths

  lemma {:induction false} GroupCount(bits: Bits)
    ensures 6 * |Groups(bits)| == |bits| + Slack(|bits|)
  {
    if |bits| >= 6 {
      GroupCount(bits[6..]);
      assert |Groups(bits)| == 1 + |Groups(bits[6..])|;
    } else if bits != [] {
      assert |Groups(bits)| == 1;
    }
  }

  /** How many zero bits fill the last group of `n` bits up. */
  function Slack(n: nat): nat {
    if n % 6 == 0 then 0 else 6 - n % 6
  }

  lemma CountOfBytes(n: nat, groups: nat)
    requires 6 * groups == 8 * n + Slack(8 * n)
    ensures groups == 4 * (n / 3) + if n % 3 == 0 then 0 else n % 3 + 1
  {
    var q, r := n / 3, n % 3;
    if r == 0 {
      assert 8 * n == 6 * (4 * q);
    } else if r == 1 {
      assert 8 * n == 6 * (4 * q + 1) + 2;
    } else {
      assert 8 * n == 6 * (4 * q + 2) + 4;
    }
  }

  /** The number of symbols for `n` bytes: 4 for each three bytes, 2 or 3 for what is left. */
  lemma SymbolCount(bytes: seq<bv8>)
    ensures |Emitted(Stream(bytes))| == 4 * (|bytes| / 3) + if |bytes| % 3 == 0 then 0 else |bytes| % 3 + 1
  {
    GroupCount(Stream(bytes));
    CountOfBytes(|bytes|, |Groups(Stream(bytes))|);
  }

  /** Padded, the text is 4 * ceil(n / 3) characters long; unpadded, ceil(4 * n / 3). */
  lemma EncodedLength(bytes: seq<bv8>)
    ensures |Encode(bytes, true)| == 4 * ((|bytes| + 2) / 3)
    ensures |Encode(bytes, false)| == (4 * |bytes| + 2) / 3
  {
    SymbolCount(bytes);
    var n := |bytes|;
    assert n == 3 * (n / 3) + n % 3;
  }

  lemma {:induction false} SymbolsAreSymbols(groups: seq<Group>)
    ensures forall i :: 0 <= i < |groups| ==> IsSymbol(Symbols(groups)[i]) && Symbols(groups)[i] != PAD
  {
    if groups != [] {
      SymbolOfGroup(groups[0]);
      SymbolsAreSymbols(groups[1..]);
    }
  }

  /** The pad character only occurs at the end, at most twice, and not at all when no padding is wanted. */
  lemma PadLengthOf(body: string, tail: string)
    requires (body != [] ==> body[|body| - 1] != PAD) && (tail == [] || tail == [PAD] || tail == [PAD, PAD])
    ensures PadLength(body + tail) == |tail|
  {
  }

  lemma PaddingIs(n: nat)
    ensures Padding(n) == if n % 3 == 1 then "==" else if n % 3 == 2 then "=" else ""
  {
  }

  /** Pad characters are only at the end: as many as the length asks for, at most two, and none without padding. */
  lemma PadOnlyAtEnd(bytes: seq<bv8>, padding: bool)
    ensures var text := Encode(bytes, padding);
            && PadLength(text) == (if padding then |Padding(|bytes|)| else 0) <= 2
            && text[..|text| - PadLength(text)] == Emitted(Stream(bytes))
            && text[|text| - PadLength(text)..] == (if padding then Padding(|bytes|) else "")
    ensures forall i :: 0 <= i < |Emitted(Stream(bytes))| ==>
              IsSymbol(Emitted(Stream(bytes))[i]) && Emitted(Stream(bytes))[i] != '='
  {
    SymbolsAreSymbols(Groups(Stream(bytes)));
    SymbolCount(bytes);
    PadLengthOf(Emitted(Stream(bytes)), if padding then Padding(|bytes|) else []);
  }

  // ---------------------------------------------------------------- round trip

  lemma SymbolBitsCons(c: char, rest: string)
    requires IsSymbol(c) && AllSymbols(rest)
    ensures AllSymbols([c] + rest) && SymbolBits([c] + rest) == GroupOf(c) + SymbolBits(rest)
  {
    assert ([c] + rest)[1..] == rest;
  }

  lemma EmittedCons(g: Group, rest: Bits)
    ensures Emitted(g + rest) == [Symbol(g)] + Emitted(rest)
  {
    assert (g + rest)[..6] == g && (g + rest)[6..] == rest;
    assert ([g] + Groups(rest))[1..] == Groups(rest);
  }

  lemma ReadBackLast(bits: Bits)
    requires 0 < |bits| < 6
    ensures AllSymbols(Emitted(bits)) && SymbolBits(Emitted(bits)) == Fill(bits)
  {
    var none: Bits := [];
    ReadBackFirst(Fill(bits), none);
    GroupsOne(Fill(bits));
    assert Fill(bits) + none == Fill(bits);
    assert Groups(bits) == [Fill(bits)];
  }

  lemma AppendZeros(g: Bits, rest: Bits, n: nat)
    ensures g + (rest + Zeros(n)) == (g + rest) + Zeros(n)
  {
  }

  lemma SlackPeriod(n: nat)
    requires n >= 6
    ensures Slack(n) == Slack(n - 6)
  {
  }

  /** Reading symbols back gives the bits they were made of, and the zeros that filled the last group up. */
  lemma {:induction false} ReadBack(bits: Bits)
    ensures AllSymbols(Emitted(bits)) && SymbolBits(Emitted(bits)) == bits + Zeros(Slack(|bits|))
  {
    if |bits| >= 6 {
      var g, rest := bits[..6], bits[6..];
      ReadBack(rest);
      ReadBackFirst(g, rest);
      SlackPeriod(|bits|);
      AppendZeros(g, rest, Slack(|rest|));
      assert bits == g + rest;
    } else if bits != [] {
      ReadBackLast(bits);
    }
  }

  lemma ReadBackFirst(g: Group, rest: Bits)
    ensures AllSymbols(Emitted(rest)) && AllSymbols(Emitted(g + rest))
    ensures SymbolBits(Emitted(g + rest)) == g + SymbolBits(Emitted(rest))
  {
    SymbolsAreSymbols(Groups(rest));
    SymbolOfGroup(g);
    EmittedCons(g, rest);
    SymbolBitsCons(Symbol(g), Emitted(rest));
  }

  /** Writing the bits of some symbols gives these symbols. */
  lemma {:induction false} WriteBack(text: string)
    requires AllSymbols(text)
    ensures Emitted(SymbolBits(text)) == text
  {
    if text != [] {
      WriteBack(text[1..]);
      GroupOfSymbol(text[0]);
      EmittedCons(GroupOf(text[0]), SymbolBits(text[1..]));
    }
  }

  /** Zeros that only fill the last group up do not change the symbols. */
  lemma {:induction false} ZerosAreSilent(bits: Bits)
    ensures Groups(bits + Zeros(Slack(|bits|))) == Groups(bits)
  {
    var z := Zeros(Slack(|bits|));
    if |bits| >= 6 {
      ZerosAreSilent(bits[6..]);
      FirstGroup(bits);
      FirstGroup(bits + z);
      TailOfSum(bits, z);
    } else if bits != [] {
      GroupsOne(bits + z);
    } else {
      assert bits + z == bits;
    }
  }

  lemma FirstGroup(bits: Bits)
    requires |bits| >= 6
    ensures Groups(bits) == [bits[..6]] + Groups(bits[6..])
  {
  }

  lemma TailOfSum(a: Bits, b: Bits)
    requires |a| >= 6
    ensures (a + b)[..6] == a[..6] && (a + b)[6..] == a[6..] + b
  {
  }

  lemma {:induction false} BytesOfStream(bytes: seq<bv8>, rest: Bits)
    requires |rest| < 8
    ensures Bytes(Stream(bytes) + rest) == bytes
  {
    if bytes != [] {
      var first, tail := ByteBits(bytes[0]), Stream(bytes[1..]) + rest;
      BytesOfStream(bytes[1..], rest);
      ByteOfItsBits(bytes[0]);
      assert Stream(bytes) + rest == first + tail;
      assert (first + tail)[..8] == first && (first + tail)[8..] == tail;
    }
  }

  lemma {:induction false} StreamOfBytes(bits: Bits)
    ensures Stream(Bytes(bits)) == bits[..8 * (|bits| / 8)]
  {
    if |bits| >= 8 {
      StreamOfBytes(bits[8..]);
      BitsOfByte(bits[..8]);
      StreamCons(ToByte(bits[..8]), Bytes(bits[8..]));
      TakeBytes(bits, |bits| / 8);
    }
  }

  lemma StreamCons(b: bv8, rest: seq<bv8>)
    ensures Stream([b] + rest) == ByteBits(b) + Stream(rest)
  {
    assert ([b] + rest)[1..] == rest;
  }

  lemma TakeBytes(bits: Bits, n: nat)
    requires 0 < n && 8 * n <= |bits|
    ensures bits[..8 * n] == bits[..8] + bits[8..][..8 * (n - 1)]
  {
  }

  lemma WholeBytes(n: nat, rest: nat)
    requires rest < 8
    ensures (8 * n + rest) / 8 == n
  {
  }

  lemma SlackAt(k: nat, r: nat)
    requires r < 6
    ensures Slack(6 * k + r) == if r == 0 then 0 else 6 - r
  {
  }

  lemma DecodeBitsOfStream(bytes: seq<bv8>)
    ensures DecodeBits(Stream(bytes) + Zeros(Slack(8 * |bytes|))) == Data(bytes)
  {
    var stream, z := Stream(bytes), Zeros(Slack(8 * |bytes|));
    BytesOfStream(bytes, z);
    WholeBytes(|bytes|, |z|);
  }

  lemma Remainder(q: nat, r: nat)
    requires r < 4
    ensures (4 * q + r) % 4 == r
  {
  }

  /** The length of an encoded text is acceptable, with or without padding. */
  lemma EncodedShape(bytes: seq<bv8>)
    ensures |Emitted(Stream(bytes))| % 4 != 1
    ensures |Encode(bytes, true)| % 4 == 0
  {
    SymbolCount(bytes);
    EncodedLength(bytes);
    Remainder(|bytes| / 3, if |bytes| % 3 == 0 then 0 else |bytes| % 3 + 1);
    Remainder((|bytes| + 2) / 3, 0);
  }

  /** The decoder inverts the encoder, padded or not. */
  lemma DecodeEncode(bytes: seq<bv8>, padding: bool)
    ensures Decode(Encode(bytes, padding), padding) == Data(bytes)
  {
    PadOnlyAtEnd(bytes, padding);
    assert Body(Encode(bytes, padding), padding) == Emitted(Stream(bytes)) by {
      assert Emitted(Stream(bytes)) + [] == Emitted(Stream(bytes));
    }
    EncodedShape(bytes);
    ReadBack(Stream(bytes));
    DecodeBitsOfStream(bytes);
  }

  /** What is left over by the whole bytes of `m` groups, unless it could hold a group of its own. */
  lemma LeftOver(m: nat)
    requires m % 4 != 1
    ensures 6 * m == 8 * (6 * m / 8) + Slack(8 * (6 * m / 8))
  {
    var q, r := m / 4, m % 4;
    if r == 0 {
      WholeBytes(3 * q, 0);
      SlackAt(4 * q, 0);
    } else if r == 2 {
      assert 6 * m == 8 * (3 * q + 1) + 4;
      WholeBytes(3 * q + 1, 4);
      SlackAt(4 * q + 1, 2);
    } else {
      assert 6 * m == 8 * (3 * q + 2) + 2;
      WholeBytes(3 * q + 2, 2);
      SlackAt(4 * q + 2, 4);
    }
  }

  lemma StreamOfDecodedBits(bits: Bits, bytes: seq<bv8>, m: nat)
    requires DecodeBits(bits) == Data(bytes) && |bits| == 6 * m && m % 4 != 1
    ensures bits == Stream(bytes) + Zeros(Slack(8 * |bytes|))
  {
    StreamOfBytes(bits);
    LeftOver(m);
    var whole := 8 * (|bits| / 8);
    assert bits == bits[..whole] + bits[whole..];
    assert bits[whole..] == Zeros(Slack(whole));
  }

  /** The number of pad characters is the one that belongs to the number of bytes. */
  lemma PadsBelong(n: nat, body: nat, pads: nat)
    requires body == 4 * (n / 3) + (if n % 3 == 0 then 0 else n % 3 + 1) && (body + pads) % 4 == 0 && pads <= 2
    ensures pads == |Padding(n)|
  {
  }

  lemma PadsArePads(text: string)
    ensures PadLength(text) <= 2
    ensures forall i :: |text| - PadLength(text) <= i < |text| ==> text[i] == PAD
  {
  }

  /** A text that is decoded is the encoding of what it is decoded to: the decoder accepts nothing else. */
  lemma EncodeDecode(text: string, padding: bool, bytes: seq<bv8>)
    requires Decode(text, padding) == Data(bytes)
    ensures text == Encode(bytes, padding)
  {
    var body := Body(text, padding);
    var stream := Stream(bytes);
    WriteBack(body);
    StreamOfDecodedBits(SymbolBits(body), bytes, |body|);
    ZerosAreSilent(stream);
    assert body == Emitted(stream);
    if padding {
      SymbolCount(bytes);
      PadsArePads(text);
      PadsBelong(|bytes|, |body|, PadLength(text));
      assert text == body + text[|body|..];
      assert text[|body|..] == Padding(|bytes|);
    } else {
      assert body + [] == body;
    }
  }

  /** Encoding and strict decoding are inverse bijections, so different byte strings are encoded differently. */
  lemma Bijection(text: string, padding: bool, bytes: seq<bv8>)
    ensures Decode(text, padding) == Data(bytes) <==> text == Encode(bytes, padding)
  {
    DecodeEncode(bytes, padding);
    if Decode(text, padding) == Data(bytes) {
      EncodeDecode(text, padding, bytes);
    }
  }

  lemma GroupsOfFour(a: Group, b: Group, c: Group, d: Group)
    ensures Groups(a + b + c + d) == [a, b, c, d]
  {
    GroupsOne(a);
    GroupsOne(b);
    GroupsOne(c);
    GroupsOne(d);
    GroupsConcat(a, b);
    GroupsConcat(a + b, c);
    GroupsConcat(a + b + c, d);
  }

  /** A group of three bytes, as section 4 has it: 24 bits, read as four groups of six. */
  lemma BlockOfThree(x: bv8, y: bv8, z: bv8, padding: bool)
    ensures var g := ByteBits(x) + ByteBits(y) + ByteBits(z);
            Encode([x, y, z], padding) == Symbols([g[..6], g[6..12], g[12..18], g[18..]])
  {
    var g := ByteBits(x) + ByteBits(y) + ByteBits(z);
    assert g == g[..6] + g[6..12] + g[12..18] + g[18..];
    GroupsOfFour(g[..6], g[6..12], g[12..18], g[18..]);
    StreamConcat([x, y], [z]);
    StreamConcat([x], [y]);
    StreamOne(x);
    StreamOne(y);
    StreamOne(z);
    assert [x, y, z] == [x, y] + [z] && [x, y] == [x] + [y];
    assert Encode([x, y, z], padding) == Emitted(g) + [];
  }
}
