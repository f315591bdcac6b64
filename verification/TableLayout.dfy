/** How `formatColumns` lays out the lines of one block: down the columns first, then printed across the rows. */
module TableLayout {
  import opened Text
  import opened DisplayFormat

  /** `colsize` in the source. */
  const COLUMN_WIDTH: nat := 52

  /** The screen column on which column `j` of the table begins. */
  function ColumnOffset(j: nat): nat {
    52 * j
  }

  // ---------------------------------------------------------------- which line goes where

  /** The allocation of lines to columns: `extra` columns hold `base + 1` lines, the others `base`. */
  datatype Layout = Layout(columns: nat, base: nat, extra: nat) {
    predicate Valid() {
      extra < columns
    }

    /** How many lines are allocated. */
    function Total(): nat {
      base * columns + extra
    }

    /** How many lines column `j` receives. */
    function Length(j: nat): nat {
      base + if j < extra then 1 else 0
    }

    /** The first line that column `j` receives. */
    function Start(j: nat): nat {
      j * base + Min(j, extra)
    }
  }

  /** The allocation of `t` lines to `n` columns. */
  function Allocate(t: nat, n: nat): (a: Layout)
    requires n > 0
    ensures a.Valid() && a.columns == n && a.Total() == t
  {
    Layout(n, t / n, t % n)
  }

  /** Row and column of the cell that is printed as number `k`, counting across the rows of `n` columns. */
  function Place(n: nat, k: nat): (p: (nat, nat))
    requires n > 0
    ensures p.1 < n
    ensures k == 0 ==> p == (0, 0)
  {
    if k == 0 then (0, 0)
    else
      var p := Place(n, k - 1);
      if p.1 == n - 1 then (p.0 + 1, 0) else (p.0, p.1 + 1)
  }

  /** The line that is printed as number `k`. */
  function Slot(a: Layout, k: nat): nat
    requires a.Valid()
  {
    var p := Place(a.columns, k);
    a.Start(p.1) + p.0
  }

  lemma MulGap(a: nat, b: nat, n: nat)
    requires a < b
    ensures a * n + n <= b * n
  {
    var d: nat := b - a - 1;
    assert b * n == a * n + n + d * n;
  }

  lemma SameQuotient(a: nat, b: nat, r: nat, s: nat, n: nat)
    requires r < n && s < n && a * n + r == b * n + s
    ensures a == b && r == s
  {
    if a < b {
      MulGap(a, b, n);
    } else if b < a {
      MulGap(b, a, n);
    }
  }

  lemma NextMultiple(j: nat, q: nat)
    ensures (j + 1) * q == j * q + q
  {
  }

  /** Cell number `k` is the one with `k == row * n + column`. */
  lemma {:induction false} PlaceLaw(n: nat, k: nat)
    requires n > 0
    ensures k == Place(n, k).0 * n + Place(n, k).1
  {
    if k > 0 {
      PlaceLaw(n, k - 1);
      NextMultiple(Place(n, k - 1).0, n);
    }
  }

  lemma PlaceIs(n: nat, i: nat, j: nat)
    requires j < n
    ensures Place(n, i * n + j) == (i, j)
  {
    var k := i * n + j;
    PlaceLaw(n, k);
    SameQuotient(Place(n, k).0, i, Place(n, k).1, j, n);
  }

  /** Row `i` of column `j` is filled exactly when fewer cells come before it than there are lines. */
  lemma FilledCells(a: Layout, i: nat, j: nat)
    requires a.Valid() && j < a.columns
    ensures i < a.Length(j) <==> i * a.columns + j < a.Total()
  {
    if i < a.base {
      MulGap(i, a.base, a.columns);
    } else if a.base < i {
      MulGap(a.base, i, a.columns);
    }
  }

  /** The columns partition the lines: each starts where the previous one ends, and together they take all lines. */
  lemma ColumnsPartition(a: Layout, j: nat)
    requires a.Valid() && j < a.columns
    ensures a.Start(0) == 0 && a.Start(a.columns) == a.Total()
    ensures a.Start(j) + a.Length(j) == a.Start(j + 1)
  {
    NextMultiple(j, a.base);
  }

  lemma {:induction false} ColumnStartsRise(a: Layout, j: nat, m: nat)
    requires a.Valid() && j <= m <= a.columns
    ensures a.Start(j) <= a.Start(m)
  {
    if j < m {
      ColumnStartsRise(a, j, m - 1);
      ColumnsPartition(a, m - 1);
    }
  }

  /** The cell at row `i` of column `j` is printed as number `i * columns + j`. */
  lemma SlotOfCell(a: Layout, i: nat, j: nat)
    requires a.Valid() && j < a.columns && i < a.Length(j)
    ensures i * a.columns + j < a.Total()
    ensures Slot(a, i * a.columns + j) == a.Start(j) + i < a.Total()
  {
    FilledCells(a, i, j);
    PlaceIs(a.columns, i, j);
    ColumnsPartition(a, j);
    ColumnStartsRise(a, j + 1, a.columns);
  }

  lemma SlotInRange(a: Layout, k: nat)
    requires a.Valid() && k < a.Total()
    ensures Place(a.columns, k).0 < a.Length(Place(a.columns, k).1)
    ensures Slot(a, k) < a.Total()
  {
    var p := Place(a.columns, k);
    PlaceLaw(a.columns, k);
    FilledCells(a, p.0, p.1);
    SlotOfCell(a, p.0, p.1);
  }

  /** No line is printed twice. */
  lemma SlotInjective(a: Layout, k: nat, l: nat)
    requires a.Valid() && k < a.Total() && l < a.Total() && Slot(a, k) == Slot(a, l)
    ensures k == l
  {
    SlotInRange(a, k);
    SlotInRange(a, l);
    var p, p' := Place(a.columns, k), Place(a.columns, l);
    SameCell(a, p.0, p.1, p'.0, p'.1);
    PlaceLaw(a.columns, k);
    PlaceLaw(a.columns, l);
  }

  lemma SameCell(a: Layout, i: nat, j: nat, i': nat, j': nat)
    requires a.Valid() && j < a.columns && j' < a.columns && i < a.Length(j) && i' < a.Length(j')
    requires a.Start(j) + i == a.Start(j') + i'
    ensures i == i' && j == j'
  {
    ColumnsPartition(a, j);
    ColumnsPartition(a, j');
    if j < j' {
      ColumnStartsRise(a, j + 1, j');
    } else if j' < j {
      ColumnStartsRise(a, j' + 1, j);
    }
  }

  /** Every line is printed. */
  lemma SlotOnto(a: Layout, p: nat) returns (k: nat)
    requires a.Valid() && p < a.Total()
    ensures k < a.Total() && Slot(a, k) == p
  {
    var i, j := CellOfLine(a, p);
    SlotOfCell(a, i, j);
    k := i * a.columns + j;
  }

  lemma CellOfLine(a: Layout, p: nat) returns (i: nat, j: nat)
    requires a.Valid() && p < a.Total()
    ensures j < a.columns && i < a.Length(j) && a.Start(j) + i == p
  {
    ColumnsPartition(a, 0);
    j := ColumnOf(a, p, a.columns);
    ColumnsPartition(a, j);
    i := p - a.Start(j);
  }

  lemma {:induction false} ColumnOf(a: Layout, p: nat, m: nat) returns (j: nat)
    requires a.Valid() && m <= a.columns && p < a.Start(m)
    ensures j < m && a.Start(j) <= p < a.Start(j + 1)
  {
    if a.Start(m - 1) <= p {
      j := m - 1;
    } else {
      j := ColumnOf(a, p, m - 1);
    }
  }

  /** The lines in printing order. */
  function Reordered(lines: seq<string>, n: nat): (r: seq<string>)
    requires n > 0
    ensures |r| == |lines|
  {
    var a := Allocate(|lines|, n);
    seq(|lines|, k requires 0 <= k < |lines| => (SlotInRange(a, k); lines[Slot(a, k)]))
  }

  lemma ReorderedKeepsOneLiners(lines: seq<string>, n: nat)
    requires n > 0 && OneLiners(lines)
    ensures OneLiners(Reordered(lines, n))
  {
    var a := Allocate(|lines|, n);
    forall k | 0 <= k < |lines| ensures OneLine(Reordered(lines, n)[k]) {
      SlotInRange(a, k);
    }
  }

  // ---------------------------------------------------------------- the printed text

  /** The text of some lines, each closed by a line break. */
  function Unlines(lines: seq<string>): string {
    if lines == [] then [] else lines[0] + ['\n'] + Unlines(lines[1..])
  }

  predicate OneLine(s: string) {
    '\n' !in s
  }

  predicate OneLiners(lines: seq<string>) {
    forall p :: 0 <= p < |lines| ==> OneLine(lines[p])
  }

  /** Whether the cell printed as number `k` of `t` closes its row. */
  predicate ClosesRow(t: nat, n: nat, k: nat)
    requires n > 0
  {
    Place(n, k).1 == n - 1 || k == t - 1
  }

  /** The text of a printed line: it keeps its line break when it ends the row, and is padded otherwise. */
  function LineText(line: string, ends: bool): string {
    if ends then line + ['\n']
    else line + Repeat(' ', if |line| <= COLUMN_WIDTH then COLUMN_WIDTH - |line| else 0)
  }

  /** Cell number `k` as printed. */
  function Cell(cells: seq<string>, n: nat, k: nat): string
    requires n > 0 && k < |cells|
  {
    LineText(cells[k], ClosesRow(|cells|, n, k))
  }

  /** Whether every padded cell fits its column. */
  ghost predicate Fits(cells: seq<string>, n: nat)
    requires n > 0
  {
    forall k :: 0 <= k < |cells| && !ClosesRow(|cells|, n, k) ==> |cells[k]| <= COLUMN_WIDTH
  }

  /** The first `k` cells, printed. */
  function Printed(cells: seq<string>, n: nat, k: nat): string
    requires n > 0 && k <= |cells|
  {
    if k == 0 then [] else Printed(cells, n, k - 1) + Cell(cells, n, k - 1)
  }

  /** What the lines of a block become. */
  function Table(lines: seq<string>, n: nat): string
    requires n > 0
  {
    Printed(Reordered(lines, n), n, |lines|)
  }

  // ---------------------------------------------------------------- where a cell is seen

  /** How many line breaks `text` holds: the screen row on which its end lies. */
  function ScreenRow(text: string): nat {
    if text == [] then 0
    else ScreenRow(text[..|text| - 1]) + if text[|text| - 1] == '\n' then 1 else 0
  }

  /** How many characters follow the last line break of `text`: the screen column on which its end lies. */
  function ScreenColumn(text: string): nat {
    if text == [] || text[|text| - 1] == '\n' then 0
    else ScreenColumn(text[..|text| - 1]) + 1
  }

  lemma {:induction false} MoveRight(a: string, b: string)
    requires OneLine(b)
    ensures ScreenRow(a + b) == ScreenRow(a)
    ensures ScreenColumn(a + b) == ScreenColumn(a) + |b|
  {
    if b == [] {
      assert a + b == a;
    } else {
      assert (a + b)[..|a + b| - 1] == a + b[..|b| - 1];
      MoveRight(a, b[..|b| - 1]);
    }
  }

  lemma NextRow(a: string)
    ensures ScreenRow(a + ['\n']) == ScreenRow(a) + 1
    ensures ScreenColumn(a + ['\n']) == 0
  {
    assert (a + ['\n'])[..|a + ['\n']| - 1] == a;
  }

  lemma CloseLine(before: string, line: string)
    requires OneLine(line)
    ensures ScreenRow(before + (line + ['\n'])) == ScreenRow(before) + 1
    ensures ScreenColumn(before + (line + ['\n'])) == 0
  {
    MoveRight(before, line);
    NextRow(before + line);
    assert before + (line + ['\n']) == before + line + ['\n'];
  }

  lemma PadLine(before: string, line: string, width: nat)
    requires OneLine(line) && |line| <= width
    ensures ScreenRow(before + (line + Repeat(' ', width - |line|))) == ScreenRow(before)
    ensures ScreenColumn(before + (line + Repeat(' ', width - |line|))) == ScreenColumn(before) + width
  {
    MoveRight(before, line + Repeat(' ', width - |line|));
  }

  /** The end of the text after one more cell. */
  lemma AfterCell(cells: seq<string>, n: nat, k: nat)
    requires n > 0 && k < |cells| && Fits(cells, n) && OneLiners(cells)
    ensures var before, after := Printed(cells, n, k), Printed(cells, n, k + 1);
            if ClosesRow(|cells|, n, k) then
              ScreenRow(after) == ScreenRow(before) + 1 && ScreenColumn(after) == 0
            else
              ScreenRow(after) == ScreenRow(before) && ScreenColumn(after) == ScreenColumn(before) + COLUMN_WIDTH
  {
    if ClosesRow(|cells|, n, k) {
      CloseLine(Printed(cells, n, k), cells[k]);
    } else {
      PadLine(Printed(cells, n, k), cells[k], COLUMN_WIDTH);
    }
  }

  lemma NextPlace(t: nat, n: nat, k: nat)
    requires n > 0 && k + 1 < t
    ensures ClosesRow(t, n, k) ==> Place(n, k + 1) == (Place(n, k).0 + 1, 0)
    ensures !ClosesRow(t, n, k) ==> Place(n, k + 1) == (Place(n, k).0, Place(n, k).1 + 1)
  {
  }

  /** Whether cell number `k` begins on its row and at 52 times its column. */
  ghost predicate InPlace(cells: seq<string>, n: nat, k: nat)
    requires n > 0 && k < |cells|
  {
    && ScreenRow(Printed(cells, n, k)) == Place(n, k).0
    && ScreenColumn(Printed(cells, n, k)) == ColumnOffset(Place(n, k).1)
  }

  lemma NextInPlace(cells: seq<string>, n: nat, k: nat)
    requires n > 0 && k + 1 < |cells| && Fits(cells, n) && OneLiners(cells) && InPlace(cells, n, k)
    ensures InPlace(cells, n, k + 1)
  {
    AfterCell(cells, n, k);
    NextPlace(|cells|, n, k);
  }

  /** When the padded cells fit, every cell begins where it should. */
  lemma CellPosition(cells: seq<string>, n: nat, k: nat)
    requires n > 0 && k < |cells| && Fits(cells, n) && OneLiners(cells)
    ensures InPlace(cells, n, k)
  {
    assert Printed(cells, n, 0) == [];
    var m := 0;
    while m < k
      invariant m <= k && InPlace(cells, n, m)
    {
      NextInPlace(cells, n, m);
      m := m + 1;
    }
  }

  lemma {:induction false} PrintedIsPrefix(cells: seq<string>, n: nat, k: nat, m: nat)
    requires n > 0 && k <= m <= |cells|
    ensures Printed(cells, n, k) <= Printed(cells, n, m)
  {
    if k < m {
      PrintedIsPrefix(cells, n, k, m - 1);
    }
  }

  lemma CellText(cells: seq<string>, n: nat, k: nat)
    requires n > 0 && k < |cells|
    ensures Printed(cells, n, k) + cells[k] <= Printed(cells, n, |cells|)
  {
    PrintedIsPrefix(cells, n, k + 1, |cells|);
    assert Printed(cells, n, k) + cells[k] <= Printed(cells, n, k + 1);
  }

  /** The same, as a position in the finished text. */
  lemma CellOnScreen(cells: seq<string>, n: nat, k: nat) returns (at: nat)
    requires n > 0 && k < |cells| && Fits(cells, n) && OneLiners(cells)
    ensures var text := Printed(cells, n, |cells|);
            && at + |cells[k]| <= |text|
            && text[at..at + |cells[k]|] == cells[k]
            && ScreenRow(text[..at]) == Place(n, k).0
            && ScreenColumn(text[..at]) == ColumnOffset(Place(n, k).1)
  {
    var text := Printed(cells, n, |cells|);
    var before, cell := Printed(cells, n, k), cells[k];
    CellPosition(cells, n, k);
    CellText(cells, n, k);
    at := |before|;
    assert text[..at + |cell|] == before + cell;
    assert text[..at] == before;
  }

  /**
    * The transposition, as seen on the screen: line `i` of column `j`, that is line
    * `j * (t / n) + min(j, t % n) + i` of the block, is shown on row `i` from screen column `52 * j` on.
    */
  lemma LineOnScreen(lines: seq<string>, n: nat, i: nat, j: nat) returns (at: nat)
    requires j < n && i < Allocate(|lines|, n).Length(j)
    requires Fits(Reordered(lines, n), n) && OneLiners(lines)
    ensures Allocate(|lines|, n).Start(j) + i < |lines|
    ensures var line := lines[Allocate(|lines|, n).Start(j) + i];
            && at + |line| <= |Table(lines, n)|
            && Table(lines, n)[at..at + |line|] == line
    ensures ScreenRow(Table(lines, n)[..at]) == i
    ensures ScreenColumn(Table(lines, n)[..at]) == ColumnOffset(j)
  {
    var k := CellNumber(lines, n, i, j);
    ReorderedKeepsOneLiners(lines, n);
    at := CellOnScreen(Reordered(lines, n), n, k);
  }

  lemma CellNumber(lines: seq<string>, n: nat, i: nat, j: nat) returns (k: nat)
    requires j < n && i < Allocate(|lines|, n).Length(j)
    ensures k < |lines| && Place(n, k) == (i, j)
    ensures Allocate(|lines|, n).Start(j) + i < |lines|
    ensures Reordered(lines, n)[k] == lines[Allocate(|lines|, n).Start(j) + i]
  {
    k := i * n + j;
    SlotOfCell(Allocate(|lines|, n), i, j);
    PlaceIs(n, i, j);
  }

  /** The printed text has one row more than the row of its last cell, and ends with a line break. */
  lemma PrintedHeight(cells: seq<string>, n: nat)
    requires n > 0 && Fits(cells, n) && OneLiners(cells) && cells != []
    ensures ScreenRow(Printed(cells, n, |cells|)) == Place(n, |cells| - 1).0 + 1
    ensures ScreenColumn(Printed(cells, n, |cells|)) == 0
  {
    CellPosition(cells, n, |cells| - 1);
    AfterCell(cells, n, |cells| - 1);
  }

  /** The table has exactly ceil(t / n) rows, and ends with a line break unless it is empty. */
  lemma TableHeight(lines: seq<string>, n: nat)
    requires n > 0 && Fits(Reordered(lines, n), n) && OneLiners(lines)
    ensures var a := Allocate(|lines|, n);
            ScreenRow(Table(lines, n)) == a.base + if a.extra > 0 then 1 else 0
    ensures ScreenColumn(Table(lines, n)) == 0
  {
    ReorderedKeepsOneLiners(lines, n);
    if lines == [] {
      NothingAllocated(Allocate(0, n));
    } else {
      PrintedHeight(Reordered(lines, n), n);
      LastPlace(Allocate(|lines|, n));
    }
  }

  lemma NothingAllocated(a: Layout)
    requires a.Valid() && a.Total() == 0
    ensures a.base == 0 && a.extra == 0
  {
    if a.base > 0 {
      MulGap(0, a.base, a.columns);
    }
  }

  lemma LastPlace(a: Layout)
    requires a.Valid() && a.Total() > 0
    ensures Place(a.columns, a.Total() - 1).0 + 1 == a.base + if a.extra > 0 then 1 else 0
  {
    if a.extra > 0 {
      PlaceIs(a.columns, a.base, a.extra - 1);
    } else {
      NextMultiple(a.base - 1, a.columns);
      PlaceIs(a.columns, a.base - 1, a.columns - 1);
    }
  }

  // ---------------------------------------------------------------- nothing is lost

  /** How often `c` occurs in `s`. */
  function Count(s: string, c: char): nat {
    if s == [] then 0 else (if s[0] == c then 1 else 0) + Count(s[1..], c)
  }

  lemma {:induction false} CountConcat(a: string, b: string, c: char)
    ensures Count(a + b, c) == Count(a, c) + Count(b, c)
  {
    if a == [] {
      assert a + b == b;
    } else {
      assert (a + b)[1..] == a[1..] + b;
      CountConcat(a[1..], b, c);
    }
  }

  lemma {:induction false} CountOther(s: string, c: char)
    requires forall i :: 0 <= i < |s| ==> s[i] != c
    ensures Count(s, c) == 0
  {
    if s != [] {
      CountOther(s[1..], c);
    }
  }

  /** How often `c` occurs in some lines. */
  function CountAll(lines: seq<string>, c: char): nat {
    if lines == [] then 0 else CountAll(lines[..|lines| - 1], c) + Count(lines[|lines| - 1], c)
  }

  lemma {:induction false} CountAllConcat(a: seq<string>, b: seq<string>, c: char)
    ensures CountAll(a + b, c) == CountAll(a, c) + CountAll(b, c)
  {
    if b == [] {
      assert a + b == a;
    } else {
      assert (a + b)[..|a + b| - 1] == a + b[..|b| - 1];
      CountAllConcat(a, b[..|b| - 1], c);
    }
  }

  lemma CountAllOne(s: string, c: char)
    ensures CountAll([s], c) == Count(s, c)
  {
    assert [s][..0] == [];
  }

  lemma CountAllSplit(a: seq<string>, p: nat, c: char)
    requires p < |a|
    ensures CountAll(a, c) == CountAll(a[..p] + a[p + 1..], c) + Count(a[p], c)
  {
    var left, middle, right := a[..p], [a[p]], a[p + 1..];
    assert a == left + (middle + right);
    CountAllConcat(left, middle + right, c);
    CountAllConcat(middle, right, c);
    CountAllConcat(left, right, c);
    CountAllOne(a[p], c);
  }

  /** Closes the gap that removing position `p` leaves. */
  function Shift(perm: seq<nat>, p: nat): (r: seq<nat>)
    ensures |r| == |perm|
  {
    seq(|perm|, k requires 0 <= k < |perm| => if perm[k] > p then (perm[k] - 1) as nat else perm[k])
  }

  predicate Distinct(perm: seq<nat>) {
    forall k, l :: 0 <= k < l < |perm| ==> perm[k] != perm[l]
  }

  predicate Picks(a: seq<string>, b: seq<string>, perm: seq<nat>) {
    |b| == |perm| && forall k :: 0 <= k < |b| ==> perm[k] < |a| && b[k] == a[perm[k]]
  }

  lemma ShiftPicks(a: seq<string>, b: seq<string>, perm: seq<nat>, p: nat)
    requires Picks(a, b, perm) && Distinct(perm) && p < |a| && p !in perm
    ensures Picks(a[..p] + a[p + 1..], b, Shift(perm, p)) && Distinct(Shift(perm, p))
  {
    var a' := a[..p] + a[p + 1..];
    forall k | 0 <= k < |b| ensures Shift(perm, p)[k] < |a'| && b[k] == a'[Shift(perm, p)[k]] {
      assert perm[k] != p;
    }
  }

  /** Reordering lines does not change the characters they hold. */
  lemma {:induction false} CountAllPermuted(a: seq<string>, b: seq<string>, perm: seq<nat>, c: char)
    requires |a| == |b| && Picks(a, b, perm) && Distinct(perm)
    ensures CountAll(a, c) == CountAll(b, c)
  {
    if b != [] {
      var m := |b| - 1;
      var p := perm[m];
      ShiftPicks(a, b[..m], perm[..m], p);
      CountAllPermuted(a[..p] + a[p + 1..], b[..m], Shift(perm[..m], p), c);
      CountAllSplit(a, p, c);
    }
  }

  lemma CountAllReordered(lines: seq<string>, n: nat, c: char)
    requires n > 0
    ensures CountAll(Reordered(lines, n), c) == CountAll(lines, c)
  {
    var a := Allocate(|lines|, n);
    var perm := seq(|lines|, k requires 0 <= k < |lines| => Slot(a, k));
    forall k, l | 0 <= k < l < |lines| ensures perm[k] != perm[l] {
      if perm[k] == perm[l] {
        SlotInjective(a, k, l);
      }
    }
    forall k | 0 <= k < |lines| ensures perm[k] < |lines| {
      SlotInRange(a, k);
    }
    CountAllPermuted(lines, Reordered(lines, n), perm, c);
  }

  lemma {:induction false} CountOfUnlines(lines: seq<string>, c: char)
    requires !IsBlank(c)
    ensures Count(Unlines(lines), c) == CountAll(lines, c)
  {
    if lines != [] {
      var rest := lines[1..];
      CountOfUnlines(rest, c);
      CountConcat(lines[0] + ['\n'], Unlines(rest), c);
      CountConcat(lines[0], ['\n'], c);
      CountOther(['\n'], c);
      assert lines == [lines[0]] + rest;
      CountAllConcat([lines[0]], rest, c);
      CountAllOne(lines[0], c);
    }
  }

  lemma CountOfCell(cells: seq<string>, n: nat, k: nat, c: char)
    requires n > 0 && k < |cells| && !IsBlank(c)
    ensures Count(Cell(cells, n, k), c) == Count(cells[k], c)
  {
    var tail := Cell(cells, n, k)[|cells[k]|..];
    assert Cell(cells, n, k) == cells[k] + tail;
    CountConcat(cells[k], tail, c);
    CountOther(tail, c);
  }

  lemma CountAllTake(cells: seq<string>, k: nat, c: char)
    requires k < |cells|
    ensures CountAll(cells[..k + 1], c) == CountAll(cells[..k], c) + Count(cells[k], c)
  {
    assert cells[..k + 1][..k] == cells[..k];
  }

  lemma CountOfPrintedStep(cells: seq<string>, n: nat, k: nat, c: char)
    requires n > 0 && k < |cells| && !IsBlank(c)
    ensures Count(Printed(cells, n, k + 1), c) == Count(Printed(cells, n, k), c) + Count(cells[k], c)
  {
    CountConcat(Printed(cells, n, k), Cell(cells, n, k), c);
    CountOfCell(cells, n, k, c);
  }

  lemma {:induction false} CountOfPrinted(cells: seq<string>, n: nat, k: nat, c: char)
    requires n > 0 && k <= |cells| && !IsBlank(c)
    ensures Count(Printed(cells, n, k), c) == CountAll(cells[..k], c)
  {
    var m := 0;
    while m < k
      invariant m <= k && Count(Printed(cells, n, m), c) == CountAll(cells[..m], c)
    {
      CountOfPrintedStep(cells, n, m, c);
      CountAllTake(cells, m, c);
      m := m + 1;
    }
  }

  /** The table shows every visible character of the block as often as the block does. */
  lemma TableKeepsInk(lines: seq<string>, n: nat, c: char)
    requires n > 0 && !IsBlank(c)
    ensures Count(Table(lines, n), c) == Count(Unlines(lines), c)
  {
    var cells := Reordered(lines, n);
    CountOfPrinted(cells, n, |cells|, c);
    assert cells[..|cells|] == cells;
    CountOfUnlines(lines, c);
    CountAllReordered(lines, n, c);
  }
}
