/** The inner loops of `formatColumns`: loading the lines of a block into columns, and printing them row by row. */
module ColumnPrinter {
  import opened Text
  import opened TableLayout
  import opened Blocks

  // ---------------------------------------------------------------- loading the columns

  /** Counts the line breaks before the next closing brace. */
  method CountBlockLines(s: string, inidx: nat) returns (totallines: nat)
    requires inidx <= |s|
    ensures totallines == CountLines(s, inidx)
  {
    totallines := 0;
    var i := inidx;
    while i < |s|
      invariant inidx <= i <= |s|
      invariant totallines + CountLines(s, i) == CountLines(s, inidx)
    {
      if s[i] == '\n' {
        totallines := totallines + 1;
      } else if s[i] == '}' {
        break;
      }
      i := i + 1;
    }
  }

  /** Spreads the lines over the columns; the first columns take one of the left-over lines each. */
  method AllocateLines(totallines: nat, numcols: nat, collines: array<nat>) returns (outlines: nat)
    requires 0 < numcols <= collines.Length
    modifies collines
    ensures forall j :: 0 <= j < numcols ==> collines[j] == Allocate(totallines, numcols).Length(j)
    ensures outlines == Allocate(totallines, numcols).Length(0)
  {
    var baselines := totallines / numcols;
    var xtra := totallines % numcols;
    ghost var a := Allocate(totallines, numcols);
    outlines := baselines + if xtra > 0 then 1 else 0;
    for i := 0 to numcols
      invariant forall j :: 0 <= j < i ==> collines[j] == a.Length(j)
      invariant xtra == if i < a.extra then a.extra - i else 0
    {
      collines[i] := baselines + if xtra > 0 then 1 else 0;
      if xtra > 0 {
        xtra := xtra - 1;
      }
    }
  }

  lemma AfterLinesStep(s: string, at: nat, k: nat)
    requires at < |s| && k > 0
    ensures AfterLines(s, at, k) == AfterLines(s, at + 1, if s[at] == '\n' then k - 1 else k)
  {
  }

  lemma AfterLinesAtEnd(s: string, k: nat)
    ensures AfterLines(s, |s|, k) == |s|
  {
  }

  /** Moves the cursor over `budget` lines, collecting them. */
  method LoadColumn(s: string, cursor: nat, budget: nat) returns (column: string, inidx: nat, left: nat)
    requires cursor <= |s|
    ensures inidx == AfterLines(s, cursor, budget)
    ensures column == s[cursor..inidx]
  {
    column, inidx, left := "", cursor, budget;
    while inidx < |s|
      invariant cursor <= inidx <= |s|
      invariant AfterLines(s, inidx, left) == AfterLines(s, cursor, budget)
      invariant column == s[cursor..inidx]
    {
      if left > 0 {
        AfterLinesStep(s, inidx, left);
        column := column + [s[inidx]];
        if s[inidx] == '\n' {
          left := left - 1;
        }
      } else {
        break;
      }
      inidx := inidx + 1;
    }
    AfterLinesAtEnd(s, left);
  }

  /** The lines of column `j`. */
  function ColumnLines(lines: seq<string>, n: nat, j: nat): (r: seq<string>)
    requires j < n
    ensures |r| == Allocate(|lines|, n).Length(j)
  {
    var a := Allocate(|lines|, n);
    ColumnsPartition(a, j);
    ColumnStartsRise(a, j + 1, n);
    lines[a.Start(j)..a.Start(j) + a.Length(j)]
  }

  lemma ColumnText(s: string, start: nat, n: nat, j: nat)
    requires start <= |s| && j < n
    ensures var t := CountLines(s, start);
            var a := Allocate(t, n);
            var mid := AfterLines(s, start, a.Start(j));
            && |LinesFrom(s, start, t)| == t
            && AfterLines(s, mid, a.Length(j)) == AfterLines(s, start, a.Start(j + 1))
            && s[mid..AfterLines(s, mid, a.Length(j))] == Unlines(ColumnLines(LinesFrom(s, start, t), n, j))
  {
    var t := CountLines(s, start);
    var a := Allocate(t, n);
    ColumnsPartition(a, j);
    ColumnStartsRise(a, j + 1, n);
    MiddleLines(s, start, a.Start(j), a.Length(j));
    AfterLinesAdd(s, start, a.Start(j), a.Length(j));
  }

  /** The columns before `i` are loaded, the budgets of the others are untouched, and the cursor stands between them. */
  ghost predicate Loading(s: string, start: nat, numcols: nat, collines: seq<nat>, colstr: seq<string>, i: nat, inidx: nat)
    requires start <= |s| && i <= numcols <= |collines| && 0 < numcols <= |colstr|
  {
    var a := Allocate(CountLines(s, start), numcols);
    var lines := LinesFrom(s, start, CountLines(s, start));
    && |lines| == CountLines(s, start)
    && inidx == AfterLines(s, start, a.Start(i))
    && (forall j :: i <= j < numcols ==> collines[j] == a.Length(j))
    && (forall j :: 0 <= j < i ==> colstr[j] == Unlines(ColumnLines(lines, numcols, j)))
  }

  lemma LoadingStep(s: string, start: nat, numcols: nat, collines: seq<nat>, colstr: seq<string>, i: nat, inidx: nat, left: nat)
    requires start <= |s| && i < numcols <= |collines| && numcols <= |colstr|
    requires Loading(s, start, numcols, collines, colstr, i, inidx)
    ensures var end := AfterLines(s, inidx, collines[i]);
            Loading(s, start, numcols, collines[i := left], colstr[i := s[inidx..end]], i + 1, end)
  {
    ColumnText(s, start, numcols, i);
  }

  /** Loads all columns; the cursor ends behind the last line of the block. */
  method LoadColumns(s: string, start: nat, numcols: nat, collines: array<nat>, colstr: array<string>) returns (inidx: nat)
    requires start <= |s| && 0 < numcols <= collines.Length && numcols <= colstr.Length
    requires forall j :: 0 <= j < numcols ==> collines[j] == Allocate(CountLines(s, start), numcols).Length(j)
    modifies collines, colstr
    ensures inidx == AfterLines(s, start, CountLines(s, start))
    ensures |LinesFrom(s, start, CountLines(s, start))| == CountLines(s, start)
    ensures forall j :: 0 <= j < numcols ==>
              colstr[j] == Unlines(ColumnLines(LinesFrom(s, start, CountLines(s, start)), numcols, j))
  {
    LinesCount(s, start, CountLines(s, start));
    ColumnsPartition(Allocate(CountLines(s, start), numcols), 0);
    inidx := start;
    for i := 0 to numcols
      invariant inidx <= |s| && Loading(s, start, numcols, collines[..], colstr[..], i, inidx)
    {
      ghost var budgets, columns := collines[..], colstr[..];
      var column, end, left := LoadColumn(s, inidx, collines[i]);
      LoadingStep(s, start, numcols, budgets, columns, i, inidx, left);
      colstr[i] := column;
      collines[i] := left;
      inidx := end;
      assert collines[..] == budgets[i := left] && colstr[..] == columns[i := column];
    }
  }

  // ---------------------------------------------------------------- printing the rows

  /** The padding is computed in an unsigned type: it is an impossible length exactly when the line is too long. */
  lemma PadWraps(idx: nat)
    requires idx <= MAX_STRING
    ensures SizeT(COLUMN_WIDTH - idx) > MAX_STRING <==> idx > COLUMN_WIDTH
    ensures idx <= COLUMN_WIDTH ==> SizeT(COLUMN_WIDTH - idx) == COLUMN_WIDTH - idx
  {
  }

  lemma FindInLine(line: string, tail: string, from: nat)
    requires OneLine(line) && from <= |line|
    ensures FindFrom(line + ['\n'] + tail, '\n', from) == |line|
    decreases |line| - from
  {
    var s := line + ['\n'] + tail;
    if from < |line| {
      assert s[from] == line[from];
      FindInLine(line, tail, from + 1);
    } else {
      assert s[from] == '\n';
    }
  }

  /**
    * Moves the first line of a column to the end of the row under construction. `ok` is false when appending the
    * padding throws.
    */
  method TakeLine(column: string, rightmost: bool, totallines: nat, outline: string, ghost line: string, ghost tail: string)
    returns (ok: bool, rest: string, left: nat, longer: string)
    requires column == line + ['\n'] + tail && OneLine(line) && |line| <= MAX_STRING
    requires totallines > 0
    ensures rest == tail && left == totallines - 1
    ensures ok <==> rightmost || totallines == 1 || |line| <= COLUMN_WIDTH
    ensures ok ==> longer == outline + LineText(line, rightmost || totallines == 1)
  {
    ok, rest, left, longer := true, column, totallines, outline;
    FindInLine(line, tail, 0);
    var idx := FindFrom(column, '\n', 0);
    if idx != |column| {
      assert column[..idx + 1] == line + ['\n'];
      longer := longer + column[..idx + 1];
      rest := column[idx + 1..];
      left := left - 1;
      if !rightmost && left > 0 {
        assert longer == outline + line + ['\n'];
        longer := longer[..|longer| - 1];
        var pad := SizeT(COLUMN_WIDTH - idx);
        PadWraps(idx);
        if pad > MAX_STRING {
          ok := false;
          return;
        }
        longer := longer + Repeat(' ', pad);
      }
    }
  }

  /** What is left of a column after `r` rows. */
  function Rest(lines: seq<string>, r: nat): string {
    Unlines(lines[Min(r, |lines|)..])
  }

  lemma RestStep(lines: seq<string>, r: nat)
    requires r < |lines|
    ensures Rest(lines, r) == lines[r] + ['\n'] + Rest(lines, r + 1)
  {
    assert lines[r..][1..] == lines[r + 1..];
  }

  /** The columns hold the cells: cell number `k` is found on its row of its column. */
  ghost predicate Holds(cols: seq<seq<string>>, cells: seq<string>) {
    && |cols| > 0
    && forall k :: 0 <= k < |cells| ==>
         var p := Place(|cols|, k);
         p.0 < |cols[p.1]| && cols[p.1][p.0] == cells[k]
  }

  /** The cells are single lines of a possible length. */
  ghost predicate Plain(cells: seq<string>) {
    OneLiners(cells) && forall k :: 0 <= k < |cells| ==> |cells[k]| <= MAX_STRING
  }

  /** The columns as they stand when row `i` is printed up to column `j`. */
  ghost predicate Taken(colstr: seq<string>, cols: seq<seq<string>>, i: nat, j: nat) {
    && |cols| <= |colstr|
    && forall m :: 0 <= m < |cols| ==> colstr[m] == Rest(cols[m], if m < j then i + 1 else i)
  }

  ghost predicate FitsUpTo(cells: seq<string>, n: nat, k: nat)
    requires n > 0 && k <= |cells|
  {
    forall m :: 0 <= m < k && !ClosesRow(|cells|, n, m) ==> |cells[m]| <= COLUMN_WIDTH
  }

  /** The state of the printing loops: `k` cells are printed, and unless all are, the next one is at row `i`, column `j`. */
  ghost predicate AtCell(colstr: seq<string>, cols: seq<seq<string>>, cells: seq<string>, k: nat, i: nat, j: nat) {
    && |cols| > 0 && k <= |cells|
    && (k < |cells| ==>
          && Taken(colstr, cols, i, j)
          && Place(|cols|, k) == if j < |cols| then (i, j) else (i + 1, 0))
  }

  lemma FirstOf(colstr: seq<string>, cols: seq<seq<string>>, cells: seq<string>, k: nat, i: nat, j: nat)
    requires Holds(cols, cells) && k < |cells| && j < |cols| && AtCell(colstr, cols, cells, k, i, j)
    ensures i < |cols[j]| && cols[j][i] == cells[k]
    ensures colstr[j] == cells[k] + ['\n'] + Rest(cols[j], i + 1)
  {
    RestStep(cols[j], i);
  }

  lemma NextCell(colstr: seq<string>, cols: seq<seq<string>>, cells: seq<string>, k: nat, i: nat, j: nat)
    requires Holds(cols, cells) && k < |cells| && j < |cols| && AtCell(colstr, cols, cells, k, i, j)
    ensures j < |colstr|
    ensures AtCell(colstr[j := Rest(cols[j], i + 1)], cols, cells, k + 1, i, j + 1)
  {
    if k + 1 < |cells| {
      NextPlace(|cells|, |cols|, k);
    }
  }

  lemma FitsStep(cells: seq<string>, n: nat, k: nat)
    requires n > 0 && k < |cells| && FitsUpTo(cells, n, k)
    ensures FitsUpTo(cells, n, k + 1) <==> ClosesRow(|cells|, n, k) || |cells[k]| <= COLUMN_WIDTH
    ensures !FitsUpTo(cells, n, k + 1) ==> !Fits(cells, n)
  {
  }

  /** The invariant of both printing loops; `text` is all that has been printed so far. */
  ghost predicate Printing(colstr: seq<string>, cols: seq<seq<string>>, cells: seq<string>,
                           k: nat, left: nat, text: string, i: nat, j: nat) {
    && AtCell(colstr, cols, cells, k, i, j)
    && k + left == |cells|
    && FitsUpTo(cells, |cols|, k)
    && text == Printed(cells, |cols|, k)
  }

  lemma PrintingStep(colstr: seq<string>, cols: seq<seq<string>>, cells: seq<string>,
                     k: nat, left: nat, before: string, outline: string, i: nat, j: nat)
    requires Holds(cols, cells) && k < |cells| && j < |cols|
    requires Printing(colstr, cols, cells, k, left, before + outline, i, j)
    requires ClosesRow(|cells|, |cols|, k) || |cells[k]| <= COLUMN_WIDTH
    ensures j < |colstr|
    ensures Printing(colstr[j := Rest(cols[j], i + 1)], cols, cells, k + 1, left - 1,
                     before + (outline + LineText(cells[k], ClosesRow(|cells|, |cols|, k))), i, j + 1)
  {
    NextCell(colstr, cols, cells, k, i, j);
    FitsStep(cells, |cols|, k);
    assert before + (outline + Cell(cells, |cols|, k)) == before + outline + Cell(cells, |cols|, k);
  }

  /** All that the body of the inner loop relies on and achieves when a cell is left. */
  lemma CellStep(colstr: seq<string>, cols: seq<seq<string>>, cells: seq<string>,
                 k: nat, left: nat, before: string, outline: string, i: nat, j: nat)
    requires Holds(cols, cells) && j < |cols| <= |colstr| && left > 0
    requires Printing(colstr, cols, cells, k, left, before + outline, i, j)
    ensures k < |cells| && colstr[j] == cells[k] + ['\n'] + Rest(cols[j], i + 1)
    ensures var ends := j == |cols| - 1 || left == 1;
            if ends || |cells[k]| <= COLUMN_WIDTH then
              Printing(colstr[j := Rest(cols[j], i + 1)], cols, cells, k + 1, left - 1,
                       before + (outline + LineText(cells[k], ends)), i, j + 1)
            else
              !Fits(cells, |cols|)
  {
    FirstOf(colstr, cols, cells, k, i, j);
    FitsStep(cells, |cols|, k);
    assert ClosesRow(|cells|, |cols|, k) <==> j == |cols| - 1 || left == 1;
    if ClosesRow(|cells|, |cols|, k) || |cells[k]| <= COLUMN_WIDTH {
      PrintingStep(colstr, cols, cells, k, left, before, outline, i, j);
    }
  }

  lemma NoCellStep(colstr: seq<string>, cols: seq<seq<string>>, cells: seq<string>, k: nat, text: string, i: nat, j: nat)
    requires Printing(colstr, cols, cells, k, 0, text, i, j)
    ensures Printing(colstr, cols, cells, k, 0, text, i, j + 1)
  {
  }

  /** The body of the inner loop: one more cell, if any is left. */
  method PrintCell(colstr: array<string>, j: nat, numcols: nat, totallines: nat, outline: string,
                   ghost i: nat, ghost k: nat, ghost cols: seq<seq<string>>, ghost cells: seq<string>, ghost before: string)
    returns (ok: bool, left: nat, longer: string, ghost m: nat)
    requires j < |cols| == numcols <= colstr.Length && Holds(cols, cells) && Plain(cells)
    requires Printing(colstr[..], cols, cells, k, totallines, before + outline, i, j)
    modifies colstr
    ensures !ok ==> !Fits(cells, numcols)
    ensures ok ==> Printing(colstr[..], cols, cells, m, left, before + longer, i, j + 1)
  {
    ok, left, longer, m := true, totallines, outline, k;
    ghost var loaded := colstr[..];
    if totallines == 0 {
      NoCellStep(loaded, cols, cells, k, before + outline, i, j);
    } else {
      CellStep(loaded, cols, cells, k, totallines, before, outline, i, j);
    }
    if colstr[j] != "" && left > 0 {
      var rest;
      ok, rest, left, longer := TakeLine(colstr[j], j == numcols - 1, left, outline, cells[k], Rest(cols[j], i + 1));
      if ok {
        ghost var text := LineText(cells[k], j == numcols - 1 || totallines == 1);
        assert longer == outline + text && left == totallines - 1;
        assert Printing(loaded[j := rest], cols, cells, k + 1, left, before + (outline + text), i, j + 1);
        colstr[j] := rest;
        assert colstr[..] == loaded[j := rest];
        m := k + 1;
      }
    }
  }

  /** The inner loop: one row. */
  method PrintRow(colstr: array<string>, numcols: nat, totallines: nat, ghost i: nat, ghost k: nat,
                  ghost cols: seq<seq<string>>, ghost cells: seq<string>, ghost before: string)
    returns (ok: bool, left: nat, outline: string, ghost m: nat)
    requires |cols| == numcols <= colstr.Length && Holds(cols, cells) && Plain(cells)
    requires Printing(colstr[..], cols, cells, k, totallines, before, i, 0)
    modifies colstr
    ensures !ok ==> !Fits(cells, numcols)
    ensures ok ==> Printing(colstr[..], cols, cells, m, left, before + outline, i + 1, 0)
  {
    ok, left, outline, m := true, totallines, "", k;
    assert before + outline == before;
    for j := 0 to numcols
      invariant ok && Printing(colstr[..], cols, cells, m, left, before + outline, i, j)
    {
      ok, left, outline, m := PrintCell(colstr, j, numcols, left, outline, i, m, cols, cells, before);
      if !ok {
        return;
      }
    }
    assert Printing(colstr[..], cols, cells, m, left, before + outline, i + 1, 0);
  }

  /** Prints all rows from the loaded columns. `ok` is false when a padding throws. */
  method PrintRows(colstr: array<string>, numcols: nat, totallines: nat, outlines: nat,
                   ghost cols: seq<seq<string>>, ghost cells: seq<string>)
    returns (ok: bool, text: string)
    requires |cols| == numcols <= colstr.Length && Holds(cols, cells) && Plain(cells)
    requires totallines == |cells| && outlines == |cols[0]|
    requires forall j :: 0 <= j < numcols ==> colstr[j] == Unlines(cols[j])
    modifies colstr
    ensures ok <==> Fits(cells, numcols)
    ensures ok ==> text == Printed(cells, numcols, |cells|)
  {
    ghost var k := 0;
    var left := totallines;
    ok, text := true, "";
    forall m | 0 <= m < numcols ensures Rest(cols[m], 0) == Unlines(cols[m]) {
      assert cols[m][0..] == cols[m];
    }
    for i := 0 to outlines
      invariant ok && Printing(colstr[..], cols, cells, k, left, text, i, 0)
    {
      var outline;
      ok, left, outline, k := PrintRow(colstr, numcols, left, i, k, cols, cells, text);
      if !ok {
        return;
      }
      text := text + outline;
    }
    assert k == |cells|;
  }

  // ---------------------------------------------------------------- one block

  function AllColumns(lines: seq<string>, n: nat): (r: seq<seq<string>>)
    requires n > 0
    ensures |r| == n
  {
    seq(n, j requires 0 <= j < n => ColumnLines(lines, n, j))
  }

  lemma SliceAt<T>(s: seq<T>, from: nat, k: nat, i: nat)
    requires from + k <= |s| && i < k
    ensures s[from..from + k][i] == s[from + i]
  {
  }

  lemma CellOfColumn(lines: seq<string>, n: nat, k: nat)
    requires n > 0 && k < |lines|
    ensures var p := Place(n, k);
            p.0 < |ColumnLines(lines, n, p.1)| && ColumnLines(lines, n, p.1)[p.0] == Reordered(lines, n)[k]
  {
    var a, p := Allocate(|lines|, n), Place(n, k);
    SlotInRange(a, k);
    ColumnsPartition(a, p.1);
    ColumnStartsRise(a, p.1 + 1, n);
    SliceAt(lines, a.Start(p.1), a.Length(p.1), p.0);
  }

  lemma ColumnsHoldCells(lines: seq<string>, n: nat)
    requires n > 0
    ensures Holds(AllColumns(lines, n), Reordered(lines, n))
  {
    var cols, cells := AllColumns(lines, n), Reordered(lines, n);
    forall k | 0 <= k < |cells| ensures var p := Place(|cols|, k); p.0 < |cols[p.1]| && cols[p.1][p.0] == cells[k] {
      CellOfColumn(lines, n, k);
    }
  }

  lemma CellsArePlain(s: string, start: nat, n: nat)
    requires n > 0 && start <= |s| <= MAX_STRING
    ensures Plain(Reordered(LinesFrom(s, start, CountLines(s, start)), n))
  {
    var lines := LinesFrom(s, start, CountLines(s, start));
    LinesAreShort(s, start, CountLines(s, start));
    LinesAreBlockLines(s, start, CountLines(s, start));
    ReorderedKeepsOneLiners(lines, n);
    var a := Allocate(|lines|, n);
    forall k | 0 <= k < |lines| ensures |Reordered(lines, n)[k]| <= MAX_STRING {
      SlotInRange(a, k);
    }
  }

  /** The rest of the line of an opening brace is copied, up to and including its line break. */
  method CopyOpeningLine(s: string, at: nat) returns (copied: string, inidx: nat)
    requires at < |s| && s[at] == '{' && FindFrom(s, '\n', at) < |s|
    ensures inidx == BlockStart(s, at) && copied == s[at + 1..inidx]
  {
    assert FindFrom(s, '\n', at) == FindFrom(s, '\n', at + 1);
    inidx := at + 1;
    copied := [s[inidx]];
    while s[inidx] != '\n'
      invariant at + 1 <= inidx < |s|
      invariant copied == s[at + 1..inidx + 1]
      invariant FindFrom(s, '\n', inidx) == FindFrom(s, '\n', at) < |s|
      decreases |s| - inidx
    {
      inidx := inidx + 1;
      copied := copied + [s[inidx]];
    }
    inidx := inidx + 1;
  }

  /**
    * Everything that is done for the opening brace at `at`. The cursor is left on the last character of the block, one
    * before its end, because the transcription loop advances it. `ok` is false when a padding throws.
    */
  method TransposeBlock(s: string, at: nat, numcols: nat, collines: array<nat>, colstr: array<string>)
    returns (ok: bool, text: string, inidx: nat)
    requires at < |s| <= MAX_STRING && s[at] == '{' && FindFrom(s, '\n', at) < |s|
    requires 0 < numcols <= collines.Length && numcols <= colstr.Length
    modifies collines, colstr
    ensures ok <==> Fits(Reordered(BlockAt(s, at), numcols), numcols)
    ensures ok ==> text == s[at + 1..BlockStart(s, at)] + Table(BlockAt(s, at), numcols)
    ensures inidx + 1 == BlockEnd(s, at)
  {
    text, inidx := CopyOpeningLine(s, at);
    ghost var start := inidx;
    var totallines := CountBlockLines(s, inidx);
    var outlines := AllocateLines(totallines, numcols, collines);
    inidx := LoadColumns(s, inidx, numcols, collines, colstr);
    inidx := inidx - 1;
    ghost var lines := BlockAt(s, at);
    ColumnsHoldCells(lines, numcols);
    CellsArePlain(s, start, numcols);
    var table;
    ok, table := PrintRows(colstr, numcols, totallines, outlines, AllColumns(lines, numcols), Reordered(lines, numcols));
    text := text + table;
  }
}
