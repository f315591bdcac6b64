/** What the two formatters of the test client show: where a line is seen on the screen, and when a line is too long. */
module Screen {
  import opened Text
  import opened DisplayFormat
  import opened TableLayout
  import opened Blocks
  import opened Columns

  // ---------------------------------------------------------------- where a line is seen

  lemma {:induction false} ScreenConcat(a: string, b: string)
    requires ScreenColumn(a) == 0
    ensures ScreenRow(a + b) == ScreenRow(a) + ScreenRow(b)
    ensures ScreenColumn(a + b) == ScreenColumn(b)
  {
    if b == [] {
      assert a + b == a;
    } else {
      assert (a + b)[..|a + b| - 1] == a + b[..|b| - 1];
      ScreenConcat(a, b[..|b| - 1]);
    }
  }

  lemma {:induction false} DisplayConcat(a: seq<Piece>, b: seq<Piece>, n: nat)
    requires n > 0
    ensures Display(a + b, n) == Display(a, n) + Display(b, n)
  {
    if a == [] {
      assert a + b == b;
    } else {
      assert (a + b)[1..] == a[1..] + b;
      DisplayConcat(a[1..], b, n);
    }
  }

  /** What is displayed before, for, and after one piece. */
  lemma DisplaySplit(pieces: seq<Piece>, i: nat, n: nat)
    requires n > 0 && i < |pieces|
    ensures Display(pieces, n) == Display(pieces[..i], n) + (DisplayOf(pieces[i], n) + Display(pieces[i + 1..], n))
  {
    assert pieces == pieces[..i] + pieces[i..];
    DisplayConcat(pieces[..i], pieces[i..], n);
  }

  /** Behind a piece that ends with a line break, the next one begins at the left edge of the screen. */
  lemma BehindBreak(pieces: seq<Piece>, i: nat, n: nat)
    requires n > 0 && 0 < i <= |pieces| && pieces[i - 1].Verbatim?
    requires var text := pieces[i - 1].text; text != [] && text[|text| - 1] == '\n'
    ensures ScreenColumn(Display(pieces[..i], n)) == 0
  {
    var text := pieces[i - 1].text;
    assert pieces[..i] == pieces[..i - 1] + [pieces[i - 1]];
    DisplayConcat(pieces[..i - 1], [pieces[i - 1]], n);
    assert Display([pieces[i - 1]], n) == text + [] == text;
  }

  /** Of the pieces of `s[p..]`, number `i` is the block of the opening brace at `brace`. */
  ghost predicate BlockOf(pieces: seq<Piece>, i: nat, s: string, p: nat, brace: nat) {
    && 0 < i < |pieces| && p <= brace < |s| && s[brace] == '{' && FindFrom(s, '\n', brace) < |s|
    && pieces[i - 1] == Verbatim(s[brace..BlockStart(s, brace)])
    && pieces[i] == Block(BlockAt(s, brace))
    && Source(pieces[..i]) == s[p..BlockStart(s, brace)]
  }

  lemma {:induction false} SourceConcat(a: seq<Piece>, b: seq<Piece>)
    ensures Source(a + b) == Source(a) + Source(b)
  {
    if a == [] {
      assert a + b == b;
    } else {
      assert (a + b)[1..] == a[1..] + b;
      SourceConcat(a[1..], b);
    }
  }

  lemma BlockBehind(front: seq<Piece>, pieces: seq<Piece>, i: nat, s: string, p: nat, q: nat, brace: nat)
    requires p <= q <= |s| && Source(front) == s[p..q] && BlockOf(pieces, i, s, q, brace)
    ensures BlockOf(front + pieces, |front| + i, s, p, brace)
  {
    Behind(front, pieces, i);
    MiddlePart(s, p, q, BlockStart(s, brace));
  }

  lemma Behind(front: seq<Piece>, pieces: seq<Piece>, i: nat)
    requires 0 < i < |pieces|
    ensures var all, k := front + pieces, |front| + i;
            all[k] == pieces[i] && all[k - 1] == pieces[i - 1] && Source(all[..k]) == Source(front) + Source(pieces[..i])
  {
    TakeBehind(front, pieces, i);
    SourceConcat(front, pieces[..i]);
  }

  lemma TakeBehind<T>(front: seq<T>, rest: seq<T>, i: nat)
    requires 0 < i < |rest|
    ensures (front + rest)[..|front| + i] == front + rest[..i]
    ensures (front + rest)[|front| + i] == rest[i] && (front + rest)[|front| + i - 1] == rest[i - 1]
  {
  }

  lemma SourceOfOne(text: string)
    ensures Source([Verbatim(text)]) == text
  {
    assert text + Source([]) == text;
  }

  lemma FirstBlock(s: string, p: nat, rest: seq<Piece>)
    requires p < |s| && s[p] == '{' && FindFrom(s, '\n', p) < |s|
    ensures var front := [Verbatim(s[p..BlockStart(s, p)]), Block(BlockAt(s, p))];
            BlockOf(front + rest, 1, s, p, p) && Source(front) == s[p..BlockEnd(s, p)]
  {
    var front := [Verbatim(s[p..BlockStart(s, p)]), Block(BlockAt(s, p))];
    assert (front + rest)[..1] == [front[0]];
    SourceOfOne(s[p..BlockStart(s, p)]);
    SourceOfBlock(s, p, []);
    assert front + [] == front && s[p..BlockEnd(s, p)] + [] == s[p..BlockEnd(s, p)];
  }

  /** Of the pieces of `s[p..]`, number `i` is the block of the opening brace at `brace`, which lies behind `hit`. */
  ghost predicate ComesFrom(s: string, hit: nat, p: nat, i: nat, brace: nat)
    requires OpeningsHaveBreaks(s, hit) && p <= |s|
  {
    hit < brace && BlockOf(Pieces(s, hit, p), i, s, p, brace)
  }

  /** The pieces from an opening brace on, and those behind its block. */
  lemma BlockBehindBlock(s: string, hit: nat, p: nat, i: nat, brace: nat)
    requires OpeningsHaveBreaks(s, hit) && hit < p < |s| && s[p] == '{' && FindFrom(s, '\n', p) < |s|
    requires ComesFrom(s, hit, BlockEnd(s, p), i, brace)
    ensures ComesFrom(s, hit, p, i + 2, brace)
  {
    PiecesAtBlock(s, hit, p);
    var rest := Pieces(s, hit, BlockEnd(s, p));
    FirstBlock(s, p, rest);
    BlockBehind([Verbatim(s[p..BlockStart(s, p)]), Block(BlockAt(s, p))], rest, i, s, p, BlockEnd(s, p), brace);
  }

  lemma BlockBehindCharacter(s: string, hit: nat, p: nat, i: nat, brace: nat)
    requires OpeningsHaveBreaks(s, hit) && p < |s| && !(p > hit && s[p] == '{')
    requires ComesFrom(s, hit, p + 1, i, brace)
    ensures ComesFrom(s, hit, p, i + 1, brace)
  {
    PiecesAtCharacter(s, hit, p);
    BehindCharacter(Pieces(s, hit, p + 1), i, s, p, brace);
  }

  lemma BehindCharacter(pieces: seq<Piece>, i: nat, s: string, p: nat, brace: nat)
    requires p < |s| && BlockOf(pieces, i, s, p + 1, brace)
    ensures BlockOf([Verbatim([s[p]])] + pieces, i + 1, s, p, brace)
  {
    SourceOfOne([s[p]]);
    assert s[p..p + 1] == [s[p]];
    BlockBehind([Verbatim([s[p]])], pieces, i, s, p, p + 1, brace);
  }

  ghost predicate HasBlock(s: string, hit: nat, p: nat, i: nat)
    requires OpeningsHaveBreaks(s, hit) && p <= |s|
  {
    i < |Pieces(s, hit, p)| && Pieces(s, hit, p)[i].Block?
  }

  /** Where the search for the origin of block number `i` goes on, unless it ends here. */
  lemma NextPieces(s: string, hit: nat, p: nat, i: nat)
    requires OpeningsHaveBreaks(s, hit) && p <= |s|
    requires HasBlock(s, hit, p, i)
    ensures p < |s|
    ensures p > hit && s[p] == '{' ==>
              && FindFrom(s, '\n', p) < |s|
              && if i == 1 then ComesFrom(s, hit, p, 1, p)
                 else i >= 2 && HasBlock(s, hit, BlockEnd(s, p), i - 2)
    ensures !(p > hit && s[p] == '{') ==>
              i >= 1 && HasBlock(s, hit, p + 1, i - 1)
  {
    if p > hit && s[p] == '{' {
      PiecesAtBlock(s, hit, p);
      FirstBlock(s, p, Pieces(s, hit, BlockEnd(s, p)));
    } else {
      PiecesAtCharacter(s, hit, p);
    }
  }

  /** Each block comes from an opening brace, and the pieces before it come from the text before it. */
  lemma {:induction false} BlockOrigin(s: string, hit: nat, p: nat, i: nat) returns (brace: nat)
    requires OpeningsHaveBreaks(s, hit) && p <= |s|
    requires HasBlock(s, hit, p, i)
    ensures ComesFrom(s, hit, p, i, brace)
    decreases |s| - p
  {
    NextPieces(s, hit, p, i);
    if !(p > hit && s[p] == '{') {
      brace := BlockOrigin(s, hit, p + 1, i - 1);
      BlockBehindCharacter(s, hit, p, i - 1, brace);
    } else if i == 1 {
      brace := p;
    } else {
      brace := BlockOrigin(s, hit, BlockEnd(s, p), i - 2);
      BlockBehindBlock(s, hit, p, i - 2, brace);
    }
  }

  lemma SliceInMiddle(a: string, b: string, c: string, at: nat, k: nat)
    requires at + k <= |b|
    ensures (a + (b + c))[|a| + at..|a| + at + k] == b[at..at + k]
    ensures (a + (b + c))[..|a| + at] == a + b[..at]
  {
  }

  /** Line `r` of column `j` of a block is seen at position `at` of `text`, `r` rows below `row`. */
  ghost predicate ShownAt(lines: seq<string>, n: nat, r: nat, j: nat, text: string, row: nat, at: nat)
    requires j < n
  {
    var number := Allocate(|lines|, n).Start(j) + r;
    && number < |lines| && at + |lines[number]| <= |text|
    && text[at..at + |lines[number]|] == lines[number]
    && ScreenRow(text[..at]) == row + r
    && ScreenColumn(text[..at]) == ColumnOffset(j)
  }

  lemma LineInText(before: string, lines: seq<string>, n: nat, after: string, r: nat, j: nat) returns (at: nat)
    requires j < n && Fits(Reordered(lines, n), n) && OneLiners(lines) && r < Allocate(|lines|, n).Length(j)
    requires ScreenColumn(before) == 0
    ensures ShownAt(lines, n, r, j, before + (Table(lines, n) + after), ScreenRow(before), at)
  {
    var inTable := LineOnScreen(lines, n, r, j);
    at := ShiftBehind(before, Table(lines, n), after, inTable, lines[Allocate(|lines|, n).Start(j) + r]);
  }

  /** A line that is seen in one part of a text, seen in the whole text. */
  lemma ShiftBehind(before: string, table: string, after: string, inTable: nat, line: string) returns (at: nat)
    requires inTable + |line| <= |table| && table[inTable..inTable + |line|] == line && ScreenColumn(before) == 0
    ensures var text := before + (table + after);
            && at + |line| <= |text| && text[at..at + |line|] == line
            && ScreenRow(text[..at]) == ScreenRow(before) + ScreenRow(table[..inTable])
            && ScreenColumn(text[..at]) == ScreenColumn(table[..inTable])
  {
    at := |before| + inTable;
    SliceInMiddle(before, table, after, inTable, |line|);
    ScreenConcat(before, table[..inTable]);
  }

  lemma BlockAtLeftEdge(pieces: seq<Piece>, i: nat, s: string, p: nat, brace: nat, n: nat)
    requires n > 0 && BlockOf(pieces, i, s, p, brace)
    ensures ScreenColumn(Display(pieces[..i], n)) == 0 && OneLiners(pieces[i].lines)
  {
    BlockIsComplete(s, brace);
    BehindBreak(pieces, i, n);
  }

  /**
    * Where the lines of a text are seen. Piece `i` of the text is the block behind the opening brace at `brace`; line
    * `j * (t / n) + min(j, t % n) + r` of its `t` lines is shown `r` rows below the row on which the block begins, from
    * screen column `52 * j` on.
    */
  lemma LineShown(s: string, width: nat, i: nat, r: nat, j: nat) returns (brace: nat, at: nat)
    requires Ready(s, width) && Applies(s, width) && Displayable(s, width)
    requires HasBlock(s, FindText(s, REMOTE_DATA, 0), 0, i)
    requires j < ColumnCount(width)
    requires r < Allocate(|TextPieces(s, width)[i].lines|, ColumnCount(width)).Length(j)
    ensures ComesFrom(s, FindText(s, REMOTE_DATA, 0), 0, i, brace)
    ensures ShownAt(BlockAt(s, brace), ColumnCount(width), r, j, Displayed(s, width), RowOfPiece(s, width, i), at)
  {
    var n, pieces := ColumnCount(width), TextPieces(s, width);
    brace := BlockOrigin(s, FindText(s, REMOTE_DATA, 0), 0, i);
    BlockAtLeftEdge(pieces, i, s, 0, brace, n);
    assert PieceFits(pieces[i], n);
    DisplaySplit(pieces, i, n);
    at := LineInText(Display(pieces[..i], n), pieces[i].lines, n, Display(pieces[i + 1..], n), r, j);
  }

  /** The row of the screen on which piece `i` begins. */
  function RowOfPiece(s: string, width: nat, i: nat): nat
    requires Ready(s, width) && Applies(s, width) && i < |TextPieces(s, width)|
  {
    ScreenRow(Display(TextPieces(s, width)[..i], ColumnCount(width)))
  }

  // ---------------------------------------------------------------- when a line is too long

  lemma {:induction false} FormatPlain(x: string, level: nat)
    requires ',' !in x && '{' !in x && '}' !in x
    ensures Format(x, level) == x && LevelAfter(x, level) == level
  {
    if x != [] {
      assert x == [x[0]] + x[1..];
      FormatPlain(x[1..], level);
    }
  }

  /** What an entry may be: it takes one line, and nothing in it is broken. */
  predicate Entry(x: string) {
    ',' !in x && '{' !in x && '}' !in x && '\n' !in x
  }

  /** One remote with two entries, the first of which is `x`. */
  function TwoEntries(x: string): string {
    REMOTE_DATA + "{" + x + ",b}"
  }

  lemma FormatFrom(c: char, rest: string, level: nat)
    ensures Format([c] + rest, level) == Emit(level, c) + Format(rest, NextLevel(level, c))
  {
    FormatConcat([c], rest, level);
    FormatOne(c, level);
  }

  lemma FormatPlainPart(x: string, rest: string, level: nat)
    requires ',' !in x && '{' !in x && '}' !in x
    ensures Format(x + rest, level) == x + Format(rest, level)
  {
    FormatConcat(x, rest, level);
    FormatPlain(x, level);
  }

  lemma FormatOfEnd()
    ensures Format(",b}", 1) == ",\n    b\n}"
  {
    FormatFrom(',', "b}", 1);
    assert ",b}" == [','] + "b}";
    FormatFrom('b', "}", 1);
    assert "b}" == ['b'] + "}";
    FormatOne('}', 1);
    assert Break(1) == "\n    " && Break(0) == "\n";
  }

  lemma FormatOfTwoEntries(x: string)
    requires Entry(x)
    ensures Format(TwoEntries(x), 0) == (REMOTE_DATA + "{\n    ") + (x + ",\n    b\n}")
  {
    Regrouped(REMOTE_DATA, "{", x, ",b}");
    FormatPlainPart(REMOTE_DATA, ['{'] + (x + ",b}"), 0);
    FormatFrom('{', x + ",b}", 0);
    FormatPlainPart(x, ",b}", 1);
    FormatOfEnd();
    assert Emit(0, '{') == "{\n    ";
    Associate(REMOTE_DATA, "{\n    ", x + ",\n    b\n}");
  }

  lemma Regrouped(a: string, b: string, c: string, d: string)
    ensures a + b + c + d == a + (b + (c + d))
  {
  }

  lemma {:induction false} FoundAt(s: string, from: nat, e: nat)
    requires from <= e < |s| && s[e] == '\n' && '\n' !in s[from..e]
    ensures FindFrom(s, '\n', from) == e
    decreases e - from
  {
    if from < e {
      assert s[from..e] == [s[from]] + s[from + 1..e];
      FoundAt(s, from + 1, e);
    }
  }

  lemma {:induction false} CountOver(s: string, from: nat, e: nat)
    requires from <= e <= |s| && '\n' !in s[from..e] && '}' !in s[from..e]
    ensures CountLines(s, from) == CountLines(s, e)
    decreases e - from
  {
    if from < e {
      assert s[from..e] == [s[from]] + s[from + 1..e];
      CountOver(s, from + 1, e);
    }
  }

  /** The line from `from` to the line break at `e` is the first of the lines counted there. */
  lemma LineTo(s: string, from: nat, e: nat)
    requires from <= e < |s| && s[e] == '\n' && '\n' !in s[from..e] && '}' !in s[from..e]
    ensures FindFrom(s, '\n', from) == e
    ensures CountLines(s, from) == 1 + CountLines(s, e + 1)
  {
    FoundAt(s, from, e);
    CountOver(s, from, e);
  }

  lemma TwoLines(s: string, from: nat, e: nat, f: nat)
    requires from <= e < f < |s| - 1 && s[e] == '\n' && s[f] == '\n' && s[f + 1] == '}'
    requires '\n' !in s[from..e] && '}' !in s[from..e] && '\n' !in s[e + 1..f] && '}' !in s[e + 1..f]
    ensures CountLines(s, from) == 2 && AfterLines(s, from, 2) == f + 1
    ensures LinesFrom(s, from, 2) == [s[from..e], s[e + 1..f]]
  {
    LineTo(s, from, e);
    LineTo(s, e + 1, f);
    NextLine(s, from, 2);
    NextLine(s, e + 1, 1);
    assert LinesFrom(s, f + 1, 0) == [] && AfterLines(s, f + 1, 0) == f + 1;
  }

  ghost predicate FitsFrom(s: string, hit: nat, p: nat, n: nat)
    requires n > 0 && OpeningsHaveBreaks(s, hit) && p <= |s|
  {
    AllFit(Pieces(s, hit, p), n)
  }

  lemma FitsFromCharacter(s: string, hit: nat, p: nat, n: nat)
    requires n > 0 && OpeningsHaveBreaks(s, hit) && p < |s| && !(p > hit && s[p] == '{')
    ensures FitsFrom(s, hit, p, n) <==> FitsFrom(s, hit, p + 1, n)
  {
    PiecesAtCharacter(s, hit, p);
    DisplayOne([s[p]], Pieces(s, hit, p + 1), n);
  }

  lemma FitsFromBlock(s: string, hit: nat, p: nat, n: nat)
    requires n > 0 && OpeningsHaveBreaks(s, hit) && hit < p < |s| && s[p] == '{'
    ensures FindFrom(s, '\n', p) < |s|
    ensures FitsFrom(s, hit, p, n) <==> Fits(Reordered(BlockAt(s, p), n), n) && FitsFrom(s, hit, BlockEnd(s, p), n)
  {
    PiecesAtBlock(s, hit, p);
    DisplayTwo(s[p..BlockStart(s, p)], BlockAt(s, p), Pieces(s, hit, BlockEnd(s, p)), n);
  }

  lemma FitsFromLast(s: string, hit: nat, n: nat)
    requires n > 0 && OpeningsHaveBreaks(s, hit) && s != [] && s[|s| - 1] != '{'
    ensures FitsFrom(s, hit, |s| - 1, n)
  {
    FitsFromCharacter(s, hit, |s| - 1, n);
    assert Pieces(s, hit, |s|) == [];
  }

  /** Behind the last block there is only its closing brace. */
  lemma FitsFromLastBlock(s: string, hit: nat, p: nat, n: nat)
    requires n > 0 && OpeningsHaveBreaks(s, hit) && hit < p < |s| && s[p] == '{' && FindFrom(s, '\n', p) < |s|
    requires BlockEnd(s, p) == |s| - 1 && s[|s| - 1] == '}'
    ensures FitsFrom(s, hit, p, n) <==> Fits(Reordered(BlockAt(s, p), n), n)
  {
    FitsFromBlock(s, hit, p, n);
    FitsFromLast(s, hit, n);
    assert FitsFrom(s, hit, BlockEnd(s, p), n);
  }

  predicate NoBraceBefore(s: string, p: nat)
    requires p <= |s|
  {
    forall k :: 0 <= k < p ==> s[k] != '{'
  }

  lemma {:induction false} SkipCharacters(s: string, hit: nat, p: nat, n: nat)
    requires n > 0 && OpeningsHaveBreaks(s, hit) && p <= |s| && NoBraceBefore(s, p)
    ensures FitsFrom(s, hit, 0, n) <==> FitsFrom(s, hit, p, n)
  {
    if p > 0 {
      SkipCharacters(s, hit, p - 1, n);
      FitsFromCharacter(s, hit, p - 1, n);
    }
  }

  /** Of two lines, the first is padded and the second ends the last row. */
  lemma TwoCells(a: string, b: string, n: nat)
    requires n >= 2
    ensures Fits(Reordered([a, b], n), n) <==> |a| <= COLUMN_WIDTH
  {
    var cells := Reordered([a, b], n);
    assert Place(n, 0) == (0, 0);
    assert Slot(Allocate(2, n), 0) == 0;
    assert cells[0] == a;
    assert !ClosesRow(2, n, 0) && ClosesRow(2, n, 1);
  }

  /** An opening brace at `p`, two lines that end at `e` and `f`, and a closing brace. */
  predicate TwoLineBlock(s: string, p: nat, e: nat, f: nat) {
    && p + 2 <= e < f < |s| - 1
    && s[p] == '{' && s[p + 1] == '\n' && s[e] == '\n' && s[f] == '\n' && s[f + 1] == '}'
    && OneLine(s[p + 2..e]) && '}' !in s[p + 2..e] && OneLine(s[e + 1..f]) && '}' !in s[e + 1..f]
  }

  lemma BlockOfTwoLines(s: string, p: nat, e: nat, f: nat)
    requires TwoLineBlock(s, p, e, f)
    ensures FindFrom(s, '\n', p) < |s|
    ensures BlockAt(s, p) == [s[p + 2..e], s[e + 1..f]] && BlockEnd(s, p) == f + 1
  {
    FoundAt(s, p, p + 1);
    TwoLines(s, p + 2, e, f);
  }

  lemma TwoLinesFit(s: string, p: nat, e: nat, f: nat, n: nat)
    requires n >= 2 && TwoLineBlock(s, p, e, f)
    ensures FindFrom(s, '\n', p) < |s| && BlockEnd(s, p) == f + 1
    ensures Fits(Reordered(BlockAt(s, p), n), n) <==> e - (p + 2) <= COLUMN_WIDTH
  {
    BlockOfTwoLines(s, p, e, f);
    TwoCells(s[p + 2..e], s[e + 1..f], n);
  }

  /** A text with a single block of two lines fits exactly when the first line does. */
  lemma OneBlockFits(s: string, p: nat, e: nat, f: nat, n: nat)
    requires n >= 2 && OpeningsHaveBreaks(s, 0) && 0 < p && TwoLineBlock(s, p, e, f) && f + 2 == |s|
    requires NoBraceBefore(s, p)
    ensures FitsFrom(s, 0, 0, n) <==> e - (p + 2) <= COLUMN_WIDTH
  {
    SkipCharacters(s, 0, p, n);
    TwoLinesFit(s, p, e, f, n);
    FitsFromLastBlock(s, 0, p, n);
  }

  /** The characters of the formatted text around the entry. */
  ghost predicate Around(s: string, x: string) {
    && |s| == 25 + |x| && s[..10] == REMOTE_DATA && s[10] == '{' && s[11] == '\n'
    && s[12..16 + |x|] == "    " + x && s[16 + |x|] == ',' && s[17 + |x|] == '\n'
    && s[18 + |x|..23 + |x|] == "    b" && s[23 + |x|] == '\n' && s[24 + |x|] == '}'
  }

  lemma EntryIsAround(x: string)
    ensures Around(REMOTE_DATA + "{\n    " + (x + ",\n    b\n}"), x)
  {
    var head, tail := REMOTE_DATA + "{\n    ", ",\n    b\n}";
    Parts(head, x, tail);
    HeadAndTail(head + (x + tail), x, head, tail);
    Literals();
  }

  lemma Literals()
    ensures var head, tail := REMOTE_DATA + "{\n    ", ",\n    b\n}";
            && |head| == 16 && head[..10] == REMOTE_DATA && head[10] == '{' && head[11] == '\n' && head[12..] == "    "
            && |tail| == 9 && tail[0] == ',' && tail[1] == '\n' && tail[2..7] == "    b" && tail[7] == '\n' && tail[8] == '}'
  {
  }

  lemma HeadAndTail(s: string, x: string, head: string, tail: string)
    requires |head| == 16 && |tail| == 9 && |s| == 25 + |x| && s[16..16 + |x|] == x
    requires forall k :: 0 <= k < 16 ==> s[k] == head[k]
    requires forall k :: 0 <= k < 9 ==> s[16 + |x| + k] == tail[k]
    ensures s[..10] == head[..10] && s[12..16 + |x|] == head[12..] + x && s[18 + |x|..23 + |x|] == tail[2..7]
    ensures s[10] == head[10] && s[11] == head[11]
    ensures s[16 + |x|] == tail[0] && s[17 + |x|] == tail[1] && s[23 + |x|] == tail[7] && s[24 + |x|] == tail[8]
  {
  }

  /** The formatted text is one block of two lines. */
  lemma ShapeOfTwoEntries(s: string, x: string)
    requires Entry(x) && Around(s, x)
    ensures NoBraceBefore(s, 10) && TwoLineBlock(s, 10, 17 + |x|, 23 + |x|)
  {
    forall k | 0 <= k < 10 ensures s[k] != '{' {
      assert s[k] == s[..10][k] && '{' !in REMOTE_DATA;
    }
    assert s[12..17 + |x|] == s[12..16 + |x|] + [s[16 + |x|]];
    FirstEntryLine(x);
  }

  lemma FirstEntryLine(x: string)
    requires Entry(x)
    ensures OneLine("    " + x + ",") && '}' !in "    " + x + ","
  {
  }

  lemma Parts(a: string, b: string, c: string)
    ensures var s := a + (b + c);
            && |s| == |a| + |b| + |c|
            && (forall k :: 0 <= k < |a| ==> s[k] == a[k])
            && s[|a|..|a| + |b|] == b
            && (forall k :: 0 <= k < |c| ==> s[|a| + |b| + k] == c[k])
  {
  }

  /** Two entries are shown side by side exactly when the first is at most 47 characters long; otherwise it throws. */
  lemma TwoEntriesFit(x: string, width: nat)
    requires Entry(x) && width >= 104 && |x| + 25 <= MAX_STRING
    ensures |Format(TwoEntries(x), 0)| <= MAX_STRING && Ready(Format(TwoEntries(x), 0), width)
    ensures Displayable(Format(TwoEntries(x), 0), width) <==> |x| <= 47
  {
    var s := Format(TwoEntries(x), 0);
    FormatOfTwoEntries(x);
    EntryIsAround(x);
    ShapeOfTwoEntries(s, x);
    FormattedIsReady(TwoEntries(x), width);
    FoundFirst(s);
    OneBlockFits(s, 10, 17 + |x|, 23 + |x|, ColumnCount(width));
  }

  lemma FoundFirst(s: string)
    requires |s| > 10 && s[..10] == REMOTE_DATA
    ensures FindText(s, REMOTE_DATA, 0) == 0
  {
    assert OccursAt(s, REMOTE_DATA, 0);
  }

  /** A remote whose first entry is 60 characters long cannot be shown in two columns. */
  lemma SixtyCharactersThrow()
    ensures var s := Format(TwoEntries(Repeat('a', 60)), 0);
            Ready(s, 104) && !Displayable(s, 104)
  {
    TwoEntriesFit(Repeat('a', 60), 104);
  }
}
