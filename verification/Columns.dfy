/** `formatColumns` of the test client: shows the `{...}` blocks behind "remoteData" side by side. */
module Columns {
  import opened Text
  import opened DisplayFormat
  import opened TableLayout
  import opened Blocks
  import opened ColumnPrinter

  // ---------------------------------------------------------------- specification

  const MAX_FORMATTED_COLUMNS: nat := 4

  predicate OccursAt(s: string, pattern: string, k: nat) {
    k + |pattern| <= |s| && s[k..k + |pattern|] == pattern
  }

  /** `std::string::find`: the least position at or after `from` where `pattern` occurs; the length of `s` stands for `npos`. */
  function FindText(s: string, pattern: string, from: nat): (r: nat)
    requires from <= |s| && pattern != []
    ensures from <= r <= |s|
    ensures r < |s| ==> OccursAt(s, pattern, r)
    ensures forall k :: from <= k < r ==> !OccursAt(s, pattern, k)
    decreases |s| - from
  {
    if from == |s| || OccursAt(s, pattern, from) then from else FindText(s, pattern, from + 1)
  }

  /** A text taken apart: parts that are copied, and the blocks that are laid out in columns. */
  datatype Piece = Verbatim(text: string) | Block(lines: seq<string>)

  /** Every opening brace behind `hit` has a line break somewhere after it. */
  ghost predicate OpeningsHaveBreaks(s: string, hit: nat) {
    forall i :: hit < i < |s| && s[i] == '{' ==> '\n' in s[i..]
  }

  /** The pieces of `s[p..]`: after an opening brace behind `hit`, the whole lines before the next closing brace are a block. */
  function Pieces(s: string, hit: nat, p: nat): seq<Piece>
    requires p <= |s| && OpeningsHaveBreaks(s, hit)
    decreases |s| - p
  {
    if p == |s| then []
    else if p > hit && s[p] == '{' then
      FindsWhatIsThere(s, '\n', p);
      [Verbatim(s[p..BlockStart(s, p)]), Block(BlockAt(s, p))] + Pieces(s, hit, BlockEnd(s, p))
    else [Verbatim([s[p]])] + Pieces(s, hit, p + 1)
  }

  function SourceOf(piece: Piece): string {
    match piece
    case Verbatim(text) => text
    case Block(lines) => Unlines(lines)
  }

  function DisplayOf(piece: Piece, n: nat): string
    requires n > 0
  {
    match piece
    case Verbatim(text) => text
    case Block(lines) => Table(lines, n)
  }

  /** The text the pieces were taken from. */
  function Source(pieces: seq<Piece>): string {
    if pieces == [] then [] else SourceOf(pieces[0]) + Source(pieces[1..])
  }

  /** The text with every block laid out in `n` columns. */
  function Display(pieces: seq<Piece>, n: nat): string
    requires n > 0
  {
    if pieces == [] then [] else DisplayOf(pieces[0], n) + Display(pieces[1..], n)
  }

  ghost predicate PieceFits(piece: Piece, n: nat)
    requires n > 0
  {
    piece.Block? ==> Fits(Reordered(piece.lines, n), n)
  }

  ghost predicate AllFit(pieces: seq<Piece>, n: nat)
    requires n > 0
  {
    forall i :: 0 <= i < |pieces| ==> PieceFits(pieces[i], n)
  }

  /** How many columns a terminal of this width shows. */
  function ColumnCount(width: nat): nat {
    Min(width / COLUMN_WIDTH, MAX_FORMATTED_COLUMNS)
  }

  const REMOTE_DATA: string := "remoteData"

  /** Whether there is anything to lay out. */
  predicate Applies(s: string, width: nat) {
    ColumnCount(width) >= 2 && FindText(s, REMOTE_DATA, 0) < |s|
  }

  /** The columns that fit: none below two, and never more than four. */
  lemma ColumnCountIs(width: nat)
    ensures ColumnCount(width) >= 2 <==> width >= 104
    ensures 104 <= width < 156 ==> ColumnCount(width) == 2
    ensures 156 <= width < 208 ==> ColumnCount(width) == 3
    ensures 208 <= width ==> ColumnCount(width) == 4
  {
  }

  /** The text "remoteData" stands at `hit`, and nowhere before. */
  ghost predicate FirstAt(s: string, hit: nat) {
    OccursAt(s, "remoteData", hit) && forall k :: 0 <= k < hit ==> !OccursAt(s, "remoteData", k)
  }

  /** The blocks are sought behind the first "remoteData". */
  lemma HitIsFirst(s: string, hit: nat)
    requires FirstAt(s, hit)
    ensures hit < |s| && FindText(s, REMOTE_DATA, 0) == hit
  {
  }

  /** There is something to lay out exactly when two columns fit and the text holds "remoteData". */
  lemma AppliesMeans(s: string, width: nat)
    ensures Applies(s, width) <==> width >= 104 && exists k: nat :: OccursAt(s, "remoteData", k)
    ensures Applies(s, width) ==> FirstAt(s, FindText(s, REMOTE_DATA, 0))
  {
    ColumnCountIs(width);
    if k: nat :| OccursAt(s, "remoteData", k) {
      assert k < |s|;
    }
  }

  /** What the function expects of its input, which is meant to come from the display formatter. */
  ghost predicate Ready(s: string, width: nat) {
    |s| <= MAX_STRING && (Applies(s, width) ==> OpeningsHaveBreaks(s, FindText(s, REMOTE_DATA, 0)))
  }

  function TextPieces(s: string, width: nat): seq<Piece>
    requires Ready(s, width) && Applies(s, width)
  {
    Pieces(s, FindText(s, REMOTE_DATA, 0), 0)
  }

  /** The text shown for `s` on a terminal of this width. */
  function Displayed(s: string, width: nat): string
    requires Ready(s, width)
  {
    if Applies(s, width) then Display(TextPieces(s, width), ColumnCount(width)) else s
  }

  /** Whether every padded line of every block fits its column. */
  ghost predicate Displayable(s: string, width: nat)
    requires Ready(s, width)
  {
    Applies(s, width) ==> AllFit(TextPieces(s, width), ColumnCount(width))
  }

  // ---------------------------------------------------------------- the transcription loop

  datatype Outcome = Returned | LengthError

  lemma DisplayTwo(text: string, lines: seq<string>, rest: seq<Piece>, n: nat)
    requires n > 0
    ensures Display([Verbatim(text), Block(lines)] + rest, n) == text + Table(lines, n) + Display(rest, n)
    ensures AllFit([Verbatim(text), Block(lines)] + rest, n) <==> Fits(Reordered(lines, n), n) && AllFit(rest, n)
  {
    var pieces := [Verbatim(text), Block(lines)] + rest;
    assert pieces[1..] == [Block(lines)] + rest;
    assert pieces[1..][1..] == rest;
    assert PieceFits(pieces[1], n) <==> Fits(Reordered(lines, n), n);
    forall i | 0 <= i < |rest| ensures rest[i] == pieces[i + 2] {
    }
  }

  lemma DisplayOne(text: string, rest: seq<Piece>, n: nat)
    requires n > 0
    ensures Display([Verbatim(text)] + rest, n) == text + Display(rest, n)
    ensures AllFit([Verbatim(text)] + rest, n) <==> AllFit(rest, n)
  {
    var pieces := [Verbatim(text)] + rest;
    assert pieces[1..] == rest;
    forall i | 0 <= i < |rest| ensures rest[i] == pieces[i + 1] {
    }
  }

  /** What has been transcribed and what remains make up the whole. */
  ghost predicate Transcribing(all: seq<Piece>, rest: seq<Piece>, n: nat, outstr: string)
    requires n > 0
  {
    outstr + Display(rest, n) == Display(all, n) && (AllFit(rest, n) <==> AllFit(all, n))
  }

  lemma TranscribeVerbatim(all: seq<Piece>, text: string, rest: seq<Piece>, n: nat, outstr: string)
    requires n > 0 && Transcribing(all, [Verbatim(text)] + rest, n, outstr)
    ensures Transcribing(all, rest, n, outstr + text)
  {
    DisplayOne(text, rest, n);
    Associate(outstr, text, Display(rest, n));
  }

  lemma TranscribeBlock(all: seq<Piece>, text: string, lines: seq<string>, rest: seq<Piece>, n: nat, outstr: string)
    requires n > 0 && Transcribing(all, [Verbatim(text), Block(lines)] + rest, n, outstr)
    ensures if Fits(Reordered(lines, n), n) then Transcribing(all, rest, n, outstr + (text + Table(lines, n)))
            else !AllFit(all, n)
  {
    DisplayTwo(text, lines, rest, n);
    Associate(outstr, text + Table(lines, n), Display(rest, n));
  }

  lemma PiecesAtCharacter(s: string, hit: nat, p: nat)
    requires OpeningsHaveBreaks(s, hit) && p < |s| && !(p > hit && s[p] == '{')
    ensures Pieces(s, hit, p) == [Verbatim([s[p]])] + Pieces(s, hit, p + 1)
  {
  }

  lemma PiecesAtBlock(s: string, hit: nat, p: nat)
    requires OpeningsHaveBreaks(s, hit) && hit < p < |s| && s[p] == '{'
    ensures FindFrom(s, '\n', p) < |s|
    ensures Pieces(s, hit, p)
         == [Verbatim(s[p..BlockStart(s, p)]), Block(BlockAt(s, p))] + Pieces(s, hit, BlockEnd(s, p))
  {
    FindsWhatIsThere(s, '\n', p);
  }

  /** The transcription loop stands at position `p` of `s`. */
  ghost predicate StandsAt(s: string, hit: nat, n: nat, p: nat, outstr: string)
    requires n > 0 && OpeningsHaveBreaks(s, hit)
  {
    p <= |s| && Transcribing(Pieces(s, hit, 0), Pieces(s, hit, p), n, outstr)
  }

  lemma StepCharacter(s: string, hit: nat, n: nat, p: nat, outstr: string)
    requires n > 0 && OpeningsHaveBreaks(s, hit) && p < |s| && !(p > hit && s[p] == '{')
    requires StandsAt(s, hit, n, p, outstr)
    ensures StandsAt(s, hit, n, p + 1, outstr + [s[p]])
  {
    PiecesAtCharacter(s, hit, p);
    TranscribeVerbatim(Pieces(s, hit, 0), [s[p]], Pieces(s, hit, p + 1), n, outstr);
  }

  lemma StepBlock(s: string, hit: nat, n: nat, p: nat, outstr: string)
    requires n > 0 && OpeningsHaveBreaks(s, hit) && hit < p < |s| && s[p] == '{'
    requires StandsAt(s, hit, n, p, outstr)
    ensures FindFrom(s, '\n', p) < |s|
    ensures var text := outstr + (s[p..BlockStart(s, p)] + Table(BlockAt(s, p), n));
            if Fits(Reordered(BlockAt(s, p), n), n) then StandsAt(s, hit, n, BlockEnd(s, p), text)
            else !AllFit(Pieces(s, hit, 0), n)
  {
    PiecesAtBlock(s, hit, p);
    TranscribeBlock(Pieces(s, hit, 0), s[p..BlockStart(s, p)], BlockAt(s, p), Pieces(s, hit, BlockEnd(s, p)), n, outstr);
  }

  lemma Regroup(before: string, s: string, p: nat, q: nat, table: string)
    requires p < q <= |s|
    ensures before + [s[p]] + (s[p + 1..q] + table) == before + (s[p..q] + table)
  {
    assert s[p..q] == [s[p]] + s[p + 1..q];
  }

  lemma StandsAtEnd(s: string, hit: nat, n: nat, outstr: string)
    requires n > 0 && OpeningsHaveBreaks(s, hit) && StandsAt(s, hit, n, |s|, outstr)
    ensures AllFit(Pieces(s, hit, 0), n) && outstr == Display(Pieces(s, hit, 0), n)
  {
    assert outstr + [] == outstr;
  }

  lemma StandsAtStart(s: string, hit: nat, n: nat)
    requires n > 0 && OpeningsHaveBreaks(s, hit)
    ensures StandsAt(s, hit, n, 0, "")
  {
    assert "" + Display(Pieces(s, hit, 0), n) == Display(Pieces(s, hit, 0), n);
  }

  /** One turn of the outermost loop at an opening brace. `ok` is false when a padding throws. */
  method TranscribeBlockAt(str: string, hit: nat, numcols: nat, at: nat, before: string,
                           collines: array<nat>, colstr: array<string>)
    returns (ok: bool, outstr: string, inidx: nat)
    requires |str| <= MAX_STRING && OpeningsHaveBreaks(str, hit) && hit < at < |str| && str[at] == '{'
    requires 0 < numcols <= collines.Length && numcols <= colstr.Length
    requires StandsAt(str, hit, numcols, at, before)
    modifies collines, colstr
    ensures FindFrom(str, '\n', at) < |str| && inidx == BlockEnd(str, at)
    ensures if ok then StandsAt(str, hit, numcols, inidx, outstr) else !AllFit(Pieces(str, hit, 0), numcols)
  {
    StepBlock(str, hit, numcols, at, before);
    Regroup(before, str, at, BlockStart(str, at), Table(BlockAt(str, at), numcols));
    var text, last;
    ok, text, last := TransposeBlock(str, at, numcols, collines, colstr);
    inidx := last + 1;
    outstr := before + [str[at]] + text;
  }

  /** One turn of the outermost loop at any other character. */
  method TranscribeCharacterAt(str: string, hit: nat, numcols: nat, at: nat, before: string)
    returns (outstr: string, inidx: nat)
    requires OpeningsHaveBreaks(str, hit) && at < |str| && !(at > hit && str[at] == '{')
    requires 0 < numcols && StandsAt(str, hit, numcols, at, before)
    ensures inidx == at + 1 && StandsAt(str, hit, numcols, inidx, outstr)
  {
    StepCharacter(str, hit, numcols, at, before);
    outstr, inidx := before + [str[at]], at + 1;
  }

  /** One turn of the outermost loop. */
  method TranscribeOne(str: string, idxRemoteData: nat, numcols: nat, at: nat, before: string,
                       collines: array<nat>, colstr: array<string>)
    returns (ok: bool, outstr: string, inidx: nat)
    requires |str| <= MAX_STRING && OpeningsHaveBreaks(str, idxRemoteData) && at < |str|
    requires 0 < numcols <= collines.Length && numcols <= colstr.Length
    requires StandsAt(str, idxRemoteData, numcols, at, before)
    modifies collines, colstr
    ensures at < inidx <= |str|
    ensures if ok then StandsAt(str, idxRemoteData, numcols, inidx, outstr) else !AllFit(Pieces(str, idxRemoteData, 0), numcols)
  {
    if at > idxRemoteData && str[at] == '{' {
      ok, outstr, inidx := TranscribeBlockAt(str, idxRemoteData, numcols, at, before, collines, colstr);
    } else {
      ok := true;
      outstr, inidx := TranscribeCharacterAt(str, idxRemoteData, numcols, at, before);
    }
  }

  /** The outermost loop. */
  method Transcribe(str: string, idxRemoteData: nat, numcols: nat, collines: array<nat>, colstr: array<string>)
    returns (ok: bool, outstr: string)
    requires |str| <= MAX_STRING && OpeningsHaveBreaks(str, idxRemoteData)
    requires 0 < numcols <= collines.Length && numcols <= colstr.Length
    modifies collines, colstr
    ensures ok <==> AllFit(Pieces(str, idxRemoteData, 0), numcols)
    ensures ok ==> outstr == Display(Pieces(str, idxRemoteData, 0), numcols)
  {
    ok, outstr := true, "";
    var inidx := 0;
    StandsAtStart(str, idxRemoteData, numcols);
    while inidx < |str|
      invariant ok && 0 <= inidx <= |str|
      invariant StandsAt(str, idxRemoteData, numcols, inidx, outstr)
    {
      ok, outstr, inidx := TranscribeOne(str, idxRemoteData, numcols, inidx, outstr, collines, colstr);
      if !ok {
        return;
      }
    }
    StandsAtEnd(str, idxRemoteData, numcols, outstr);
  }

  /** The whole function; the terminal width is a parameter here. */
  method FormatColumns(buf: StringBuffer, width: nat) returns (outcome: Outcome)
    requires Ready(buf.str, width)
    modifies buf
    ensures outcome.Returned? <==> Displayable(old(buf.str), width)
    ensures buf.str == if outcome.Returned? then Displayed(old(buf.str), width) else old(buf.str)
    ensures width < 104 || (forall k: nat :: !OccursAt(old(buf.str), "remoteData", k)) ==>
              outcome.Returned? && buf.str == old(buf.str)
    ensures forall hit: nat :: outcome.Returned? && width >= 104 && FirstAt(old(buf.str), hit) ==>
              OpeningsHaveBreaks(old(buf.str), hit) && buf.str == Display(Pieces(old(buf.str), hit, 0), ColumnCount(width))
  {
    AppliesMeans(buf.str, width);
    forall hit: nat | FirstAt(buf.str, hit) ensures FindText(buf.str, REMOTE_DATA, 0) == hit {
      HitIsFirst(buf.str, hit);
    }
    var numcols := width / COLUMN_WIDTH;
    if numcols > MAX_FORMATTED_COLUMNS {
      numcols := MAX_FORMATTED_COLUMNS;
    }
    if numcols < 2 {
      return Returned;
    }
    var str := buf.str;
    var idxRemoteData := FindText(str, REMOTE_DATA, 0);
    if idxRemoteData == |str| {
      return Returned;
    }
    var collines := new nat[MAX_FORMATTED_COLUMNS];
    var colstr := new string[MAX_FORMATTED_COLUMNS];
    var ok, outstr := Transcribe(str, idxRemoteData, numcols, collines, colstr);
    if !ok {
      return LengthError;
    }
    buf.str := outstr;
    outcome := Returned;
  }

  // ---------------------------------------------------------------- what is kept

  /** Taking a text apart loses nothing: the pieces, put together again unformatted, are the text. */
  lemma {:induction false} PiecesAreLossless(s: string, hit: nat, p: nat)
    requires p <= |s| && OpeningsHaveBreaks(s, hit)
    ensures Source(Pieces(s, hit, p)) == s[p..]
    decreases |s| - p
  {
    if p < |s| {
      var q := FirstPieces(s, hit, p);
      PiecesAreLossless(s, hit, q);
      TwoParts(s, p, q);
    }
  }

  /** The pieces from `p` on begin with those of `s[p..q]`. */
  ghost predicate SourceSplits(s: string, hit: nat, p: nat, q: nat)
    requires p <= q <= |s| && OpeningsHaveBreaks(s, hit)
  {
    Source(Pieces(s, hit, p)) == s[p..q] + Source(Pieces(s, hit, q))
  }

  lemma SplitsBehindCharacter(s: string, hit: nat, p: nat)
    requires p < |s| && OpeningsHaveBreaks(s, hit) && !(p > hit && s[p] == '{')
    ensures SourceSplits(s, hit, p, p + 1)
  {
    PiecesAtCharacter(s, hit, p);
    SourceOfCharacter(s, p, Pieces(s, hit, p + 1));
  }

  lemma SplitsBehindBlock(s: string, hit: nat, p: nat)
    requires p < |s| && OpeningsHaveBreaks(s, hit) && p > hit && s[p] == '{' && FindFrom(s, '\n', p) < |s|
    ensures SourceSplits(s, hit, p, BlockEnd(s, p))
  {
    PiecesAtBlock(s, hit, p);
    SourceOfBlock(s, p, Pieces(s, hit, BlockEnd(s, p)));
  }

  lemma FirstPieces(s: string, hit: nat, p: nat) returns (q: nat)
    requires p < |s| && OpeningsHaveBreaks(s, hit)
    ensures p < q <= |s| && SourceSplits(s, hit, p, q)
  {
    if p > hit && s[p] == '{' {
      FindsWhatIsThere(s, '\n', p);
      SplitsBehindBlock(s, hit, p);
      q := BlockEnd(s, p);
    } else {
      SplitsBehindCharacter(s, hit, p);
      q := p + 1;
    }
  }

  lemma SourceOfCharacter(s: string, p: nat, rest: seq<Piece>)
    requires p < |s|
    ensures Source([Verbatim([s[p]])] + rest) == s[p..p + 1] + Source(rest)
  {
    SourceOne([s[p]], rest);
    assert s[p..p + 1] == [s[p]];
  }

  lemma SourceOfBlock(s: string, p: nat, rest: seq<Piece>)
    requires p < |s| && FindFrom(s, '\n', p) < |s|
    ensures Source([Verbatim(s[p..BlockStart(s, p)]), Block(BlockAt(s, p))] + rest) == s[p..BlockEnd(s, p)] + Source(rest)
  {
    BlockIsComplete(s, p);
    SourceTwo(s[p..BlockStart(s, p)], BlockAt(s, p), rest);
    MiddlePart(s, p, BlockStart(s, p), BlockEnd(s, p));
  }

  lemma TwoParts(s: string, p: nat, q: nat)
    requires p <= q <= |s|
    ensures s[p..] == s[p..q] + s[q..]
  {
  }

  lemma MiddlePart(s: string, p: nat, q: nat, r: nat)
    requires p <= q <= r <= |s|
    ensures s[p..r] == s[p..q] + s[q..r]
  {
  }

  lemma SourceOne(text: string, rest: seq<Piece>)
    ensures Source([Verbatim(text)] + rest) == text + Source(rest)
  {
    assert ([Verbatim(text)] + rest)[1..] == rest;
  }

  lemma SourceTwo(text: string, lines: seq<string>, rest: seq<Piece>)
    ensures Source([Verbatim(text), Block(lines)] + rest) == text + Unlines(lines) + Source(rest)
  {
    var pieces := [Verbatim(text), Block(lines)] + rest;
    assert pieces[1..] == [Block(lines)] + rest;
    assert pieces[1..][1..] == rest;
  }

  lemma PieceKeepsInk(piece: Piece, n: nat, c: char)
    requires n > 0 && !IsBlank(c)
    ensures Count(DisplayOf(piece, n), c) == Count(SourceOf(piece), c)
  {
    if piece.Block? {
      TableKeepsInk(piece.lines, n, c);
    }
  }

  lemma {:induction false} DisplayKeepsInk(pieces: seq<Piece>, n: nat, c: char)
    requires n > 0 && !IsBlank(c)
    ensures Count(Display(pieces, n), c) == Count(Source(pieces), c)
  {
    if pieces != [] {
      DisplayKeepsInk(pieces[1..], n, c);
      PieceKeepsInk(pieces[0], n, c);
      CountConcat(DisplayOf(pieces[0], n), Display(pieces[1..], n), c);
      CountConcat(SourceOf(pieces[0]), Source(pieces[1..]), c);
    }
  }

  /** Whatever is laid out, every visible character is shown as often as it was there. */
  lemma DisplayedKeepsInk(s: string, width: nat, c: char)
    requires Ready(s, width) && !IsBlank(c)
    ensures Count(Displayed(s, width), c) == Count(s, c)
  {
    if Applies(s, width) {
      DisplayKeepsInk(TextPieces(s, width), ColumnCount(width), c);
      PiecesAreLossless(s, FindText(s, REMOTE_DATA, 0), 0);
      assert s[0..] == s;
    }
  }

  // ---------------------------------------------------------------- behind the display formatter

  /** Whatever the display formatter produced can be given to `FormatColumns`: its searches end within the text. */
  lemma FormattedIsReady(s: string, width: nat)
    requires |Format(s, 0)| <= MAX_STRING
    ensures Ready(Format(s, 0), width)
  {
    var text := Format(s, 0);
    BreakAfterEveryOpening(s, 0);
    forall i | 0 <= i < |text| && text[i] == '{' ensures '\n' in text[i..] {
      assert text[i..][1] == text[i + 1];
    }
  }

  /** Blanks aside, the number of occurrences of a character only depends on the visible text. */
  lemma {:induction false} CountOfInk(s: string, c: char)
    requires !IsBlank(c)
    ensures Count(Ink(s), c) == Count(s, c)
  {
    if s != [] {
      CountOfInk(s[1..], c);
      CountConcat(if IsBlank(s[0]) then [] else [s[0]], Ink(s[1..]), c);
      assert [s[0]][1..] == [];
    }
  }

  /** How the test client shows a network status: first the one formatter, then the other. */
  method ShowNetStatus(buf: StringBuffer, width: nat) returns (outcome: Outcome)
    requires |Format(buf.str, 0)| <= MAX_STRING
    modifies buf
    ensures Ready(Format(old(buf.str), 0), width)
    ensures outcome.Returned? <==> Displayable(Format(old(buf.str), 0), width)
    ensures outcome.Returned? ==> buf.str == Displayed(Format(old(buf.str), 0), width)
    ensures outcome.LengthError? ==> buf.str == Format(old(buf.str), 0)
    ensures forall c :: !IsBlank(c) ==> Count(buf.str, c) == Count(old(buf.str), c)
  {
    ghost var orig := buf.str;
    FormattedIsReady(orig, width);
    FormatForDisplay(buf);
    outcome := FormatColumns(buf, width);
    forall c | !IsBlank(c) ensures Count(buf.str, c) == Count(orig, c) {
      FormatKeepsInk(orig, 0);
      CountOfInk(orig, c);
      CountOfInk(Format(orig, 0), c);
      DisplayedKeepsInk(Format(orig, 0), width, c);
    }
  }
}
