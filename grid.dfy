/** The grid formatter `format_full_layout`: 58 keycodes are laid out as
    the Lily58's five rows (12, 12, 12, 6+2+6 and 8 keys), the cells of the
    four upper rows padded so that every column lines up. */
module Grid {
  import opened Text

  /** Number of keys of a full Lily58 layout. */
  const FullKeys := 58
  /** Spaces between the two halves of rows 1 to 3. */
  const HalfGap := 21
  /** Indentation of the thumb row. */
  const ThumbIndent := 23

  /** Index of the first key of row `r` (0-based) among rows 1 to 4. */
  function RowStart(r: nat): nat {
    12 * r
  }

  /** The left six keys of rows 1 to 4. */
  function LeftColumns(keycodes: seq<string>): (rows: seq<seq<string>>)
    requires |keycodes| >= FullKeys
    ensures |rows| == 4 && forall r :: 0 <= r < 4 ==> |rows[r]| == 6
  {
    [keycodes[0..6], keycodes[12..18], keycodes[24..30], keycodes[36..42]]
  }

  /** The right six keys of rows 1 to 4; row 4 skips its two middle keys. */
  function RightColumns(keycodes: seq<string>): (rows: seq<seq<string>>)
    requires |keycodes| >= FullKeys
    ensures |rows| == 4 && forall r :: 0 <= r < 4 ==> |rows[r]| == 6
  {
    [keycodes[6..12], keycodes[18..24], keycodes[30..36], keycodes[44..50]]
  }

  /** `max(len(row[i]) for row in rows)`: no key of column `i` is longer. */
  function ColumnWidth(rows: seq<seq<string>>, i: nat): (w: nat)
    requires |rows| >= 1 && forall r :: 0 <= r < |rows| ==> i < |rows[r]|
    ensures forall r :: 0 <= r < |rows| ==> |rows[r][i]| <= w
    decreases |rows|
  {
    var last := |rows[|rows| - 1][i]|;
    if |rows| == 1 then last
    else
      var init := rows[..|rows| - 1];
      assert forall r :: 0 <= r < |rows| - 1 ==> init[r] == rows[r];
      var w := ColumnWidth(init, i);
      if w < last then last else w
  }

  /** The width of a column is the length of its longest key: besides
      bounding every key, it is exactly the length of one of them. */
  lemma {:induction false} ColumnWidthIsMax(rows: seq<seq<string>>, i: nat)
    requires |rows| >= 1 && forall r :: 0 <= r < |rows| ==> i < |rows[r]|
    ensures exists r :: 0 <= r < |rows| && |rows[r][i]| == ColumnWidth(rows, i)
    decreases |rows|
  {
    if |rows| > 1 {
      var init := rows[..|rows| - 1];
      ColumnWidthIsMax(init, i);
      assert forall r :: 0 <= r < |rows| - 1 ==> init[r] == rows[r];
      var r0 :| 0 <= r0 < |init| && |init[r0][i]| == ColumnWidth(init, i);
      if ColumnWidth(init, i) < |rows[|rows| - 1][i]| {
        assert |rows[|rows| - 1][i]| == ColumnWidth(rows, i);
      } else {
        assert |rows[r0][i]| == ColumnWidth(rows, i);
      }
    } else {
      assert |rows[0][i]| == ColumnWidth(rows, i);
    }
  }

  /** The first `n` column widths of a half (`left_widths` or
      `right_widths` after `n` rounds of its loop). */
  function Widths(rows: seq<seq<string>>, n: nat): (ws: seq<nat>)
    requires n <= 6 && |rows| >= 1 && forall r :: 0 <= r < |rows| ==> |rows[r]| == 6
    ensures |ws| == n
  {
    if n == 0 then [] else Widths(rows, n - 1) + [ColumnWidth(rows, n - 1)]
  }

  lemma {:induction false} WidthsAt(rows: seq<seq<string>>, n: nat, j: nat)
    requires n <= 6 && |rows| >= 1 && forall r :: 0 <= r < |rows| ==> |rows[r]| == 6
    requires j < n
    ensures Widths(rows, n)[j] == ColumnWidth(rows, j)
  {
    if j < n - 1 { WidthsAt(rows, n - 1, j); }
  }

  /** Left cell `i` of rows 1 to 3: key, comma, three spaces, padded to the
      column width plus four; the last one only takes a comma. */
  function LeftCell(key: string, w: nat, i: nat): string {
    if i < 5 then LJust(key + ",   ", w + 4) else LJust(key + ",", w + 1)
  }

  /** Left cell `i` of row 4: key, comma, two spaces; the last one padded to
      the column width plus two. */
  function Row4LeftCell(key: string, w: nat, i: nat): string {
    if i < 5 then LJust(key + ",  ", w + 4) else LJust(key + ",  ", w + 2)
  }

  /** Right cell `i` of rows 1 to 4; the last one is not padded. */
  function RightCell(key: string, w: nat, i: nat): string {
    if i < 5 then LJust(key + ",   ", w + 4) else key + ","
  }

  /** The first `n` padded left cells of one of rows 1 to 3. */
  function LeftCells(row: seq<string>, lw: seq<nat>, n: nat): (cells: seq<string>)
    requires n <= 6 && |row| >= 6 && |lw| == 6
    ensures |cells| == n
  {
    if n == 0 then [] else LeftCells(row, lw, n - 1) + [LeftCell(row[n - 1], lw[n - 1], n - 1)]
  }

  /** The first `n` padded left cells of row 4. */
  function Row4LeftCells(row: seq<string>, lw: seq<nat>, n: nat): (cells: seq<string>)
    requires n <= 6 && |row| >= 6 && |lw| == 6
    ensures |cells| == n
  {
    if n == 0 then [] else Row4LeftCells(row, lw, n - 1) + [Row4LeftCell(row[n - 1], lw[n - 1], n - 1)]
  }

  /** The first `n` padded right cells of one of rows 1 to 4. */
  function RightCells(half: seq<string>, rw: seq<nat>, n: nat): (cells: seq<string>)
    requires n <= 6 && |half| >= 6 && |rw| == 6
    ensures |cells| == n
  {
    if n == 0 then [] else RightCells(half, rw, n - 1) + [RightCell(half[n - 1], rw[n - 1], n - 1)]
  }

  lemma {:induction false} LeftCellsAt(row: seq<string>, lw: seq<nat>, n: nat, j: nat)
    requires n <= 6 && |row| >= 6 && |lw| == 6 && j < n
    ensures LeftCells(row, lw, n)[j] == LeftCell(row[j], lw[j], j)
  {
    if j < n - 1 { LeftCellsAt(row, lw, n - 1, j); }
  }

  lemma {:induction false} Row4LeftCellsAt(row: seq<string>, lw: seq<nat>, n: nat, j: nat)
    requires n <= 6 && |row| >= 6 && |lw| == 6 && j < n
    ensures Row4LeftCells(row, lw, n)[j] == Row4LeftCell(row[j], lw[j], j)
  {
    if j < n - 1 { Row4LeftCellsAt(row, lw, n - 1, j); }
  }

  lemma {:induction false} RightCellsAt(half: seq<string>, rw: seq<nat>, n: nat, j: nat)
    requires n <= 6 && |half| >= 6 && |rw| == 6 && j < n
    ensures RightCells(half, rw, n)[j] == RightCell(half[j], rw[j], j)
  {
    if j < n - 1 { RightCellsAt(half, rw, n - 1, j); }
  }

  /** The two middle keys of row 4, padded to the wider of the two plus two.
      The first cell is that wide; the second, whose key is followed by a
      comma and two spaces, comes out one wider whenever its key is at least
      as long as the first. */
  function MiddleCells(m0: string, m1: string): (cells: seq<string>)
    ensures |cells| == 2
    ensures |cells[0]| == (if |m0| < |m1| then |m1| else |m0|) + 2
    ensures |cells[1]| == |cells[0]| + (if |m0| <= |m1| then 1 else 0)
  {
    var mw := if |m0| < |m1| then |m1| else |m0|;
    [LJust(m0 + ", ", mw + 2), LJust(m1 + ",  ", mw + 2)]
  }

  /** Rows 1 to 3: two spaces, the left half, the gap, the right half. */
  function StandardLine(row: seq<string>, lw: seq<nat>, rw: seq<nat>): string
    requires |row| == 12 && |lw| == 6 && |rw| == 6
  {
    "  " + Concat(LeftCells(row, lw, 6)) + (Spaces(HalfGap) + Concat(RightCells(row[6..], rw, 6)))
  }

  /** Row 4: two spaces, the left half, the two middle keys, the right half. */
  function Row4Line(row: seq<string>, lw: seq<nat>, rw: seq<nat>): string
    requires |row| == 14 && |lw| == 6 && |rw| == 6
  {
    "  " + Concat(Row4LeftCells(row, lw, 6)) + (Concat(MiddleCells(row[6], row[7])) + Concat(RightCells(row[8..], rw, 6)))
  }

  /** Row 5: the eight thumb keys, comma-separated, behind a fixed indent. */
  function ThumbLine(row: seq<string>): string {
    Spaces(ThumbIndent) + Join(row, ", ")
  }

  /** `left_widths`: the widths of the six left columns over rows 1 to 4. */
  function LeftWidths(keycodes: seq<string>): (lw: seq<nat>)
    requires |keycodes| >= FullKeys
  {
    Widths(LeftColumns(keycodes), 6)
  }

  /** `right_widths`: the widths of the six right columns over rows 1 to 4. */
  function RightWidths(keycodes: seq<string>): (rw: seq<nat>)
    requires |keycodes| >= FullKeys
  {
    Widths(RightColumns(keycodes), 6)
  }

  /** Row `r` (0-based) of rows 1 to 4: twelve keys, or fourteen for row 4,
      whose two middle keys sit between the halves. */
  function GridRow(keycodes: seq<string>, r: nat): (row: seq<string>)
    requires |keycodes| >= FullKeys && r < 4
    ensures |row| == if r < 3 then 12 else 14
  {
    if r < 3 then keycodes[RowStart(r)..RowStart(r) + 12] else keycodes[36..50]
  }

  /** Line `r` (0-based) of the grid of a full layout. */
  function GridLine(keycodes: seq<string>, r: nat): string
    requires |keycodes| >= FullKeys && r < 5
  {
    if r < 3 then StandardLine(GridRow(keycodes, r), LeftWidths(keycodes), RightWidths(keycodes))
    else if r == 3 then Row4Line(GridRow(keycodes, 3), LeftWidths(keycodes), RightWidths(keycodes))
    else ThumbLine(keycodes[50..58])
  }

  /** The first `n` lines of the grid of a full layout. */
  function GridLines(keycodes: seq<string>, n: nat): (lines: seq<string>)
    requires |keycodes| >= FullKeys && n <= 5
    ensures |lines| == n
  {
    if n == 0 then [] else GridLines(keycodes, n - 1) + [GridLine(keycodes, n - 1)]
  }

  lemma {:induction false} GridLinesAt(keycodes: seq<string>, n: nat, k: nat)
    requires |keycodes| >= FullKeys && k < n <= 5
    ensures GridLines(keycodes, n)[k] == GridLine(keycodes, k)
  {
    if k < n - 1 { GridLinesAt(keycodes, n - 1, k); }
  }

  /** The lines `format_full_layout` returns for `keycodes`: one line when
      there are fewer than 58 keycodes, else the five lines of the grid
      (keycodes past the 58th are not shown). */
  function FullLayout(keycodes: seq<string>): seq<string> {
    if |keycodes| < FullKeys then ["  " + Join(keycodes, ", ")] else GridLines(keycodes, 5)
  }

  /** One line for fewer than 58 keycodes, five lines otherwise. */
  lemma LineCount(keycodes: seq<string>)
    ensures |FullLayout(keycodes)| == if |keycodes| < FullKeys then 1 else 5
  {
  }

  /** One of rows 1 to 3 (the body of the `for row in [row1, row2, row3]`
      loop): pads the left and the right cells and joins the two halves. */
  method FormatStandardRow(row: seq<string>, leftWidths: seq<nat>, rightWidths: seq<nat>)
    returns (line: string)
    requires |row| == 12 && |leftWidths| == 6 && |rightWidths| == 6
    ensures line == StandardLine(row, leftWidths, rightWidths)
  {
    var leftFormatted := [];
    for i := 0 to 6
      invariant leftFormatted == LeftCells(row, leftWidths, i)
    {
      var part := if i < 5 then row[i] + ",   " else row[i] + ",";
      var cell := if i < 5 then LJust(part, leftWidths[i] + 4) else LJust(part, leftWidths[i] + 1);
      leftFormatted := leftFormatted + [cell];
    }
    var rightFormatted := [];
    for i := 0 to 6
      invariant rightFormatted == RightCells(row[6..], rightWidths, i)
    {
      var part := if i < 5 then row[i + 6] + ",   " else row[i + 6] + ",";
      var cell := if i < 5 then LJust(part, rightWidths[i] + 4) else part;
      rightFormatted := rightFormatted + [cell];
    }
    line := "  " + Concat(leftFormatted) + Spaces(HalfGap) + Concat(rightFormatted);
  }

  /** Row 4: the left half, the two middle keys padded to the wider of the
      two, and the right half. */
  method FormatRow4(row4: seq<string>, leftWidths: seq<nat>, rightWidths: seq<nat>)
    returns (line: string)
    requires |row4| == 14 && |leftWidths| == 6 && |rightWidths| == 6
    ensures line == Row4Line(row4, leftWidths, rightWidths)
  {
    var leftFormatted := [];
    for i := 0 to 6
      invariant leftFormatted == Row4LeftCells(row4, leftWidths, i)
    {
      var part := row4[i] + ",  ";
      var cell := if i < 5 then LJust(part, leftWidths[i] + 4) else LJust(part, leftWidths[i] + 2);
      leftFormatted := leftFormatted + [cell];
    }
    var middleWidth := if |row4[6]| < |row4[7]| then |row4[7]| else |row4[6]|;
    var middleFormatted := [LJust(row4[6] + ", ", middleWidth + 2), LJust(row4[7] + ",  ", middleWidth + 2)];
    var rightFormatted := [];
    for i := 0 to 6
      invariant rightFormatted == RightCells(row4[8..], rightWidths, i)
    {
      var part := if i < 5 then row4[i + 8] + ",   " else row4[i + 8] + ",";
      var cell := if i < 5 then LJust(part, rightWidths[i] + 4) else part;
      rightFormatted := rightFormatted + [cell];
    }
    line := "  " + Concat(leftFormatted) + Concat(middleFormatted) + Concat(rightFormatted);
  }

  /** The `for i in range(6)` loop of `format_full_layout` that fills
      `left_widths` and `right_widths`. */
  method ComputeWidths(leftCols: seq<seq<string>>, rightCols: seq<seq<string>>)
    returns (leftWidths: seq<nat>, rightWidths: seq<nat>)
    requires |leftCols| >= 1 && forall r :: 0 <= r < |leftCols| ==> |leftCols[r]| == 6
    requires |rightCols| >= 1 && forall r :: 0 <= r < |rightCols| ==> |rightCols[r]| == 6
    ensures leftWidths == Widths(leftCols, 6) && rightWidths == Widths(rightCols, 6)
  {
    leftWidths := [];
    rightWidths := [];
    for i := 0 to 6
      invariant leftWidths == Widths(leftCols, i)
      invariant rightWidths == Widths(rightCols, i)
    {
      leftWidths := leftWidths + [ColumnWidth(leftCols, i)];
      rightWidths := rightWidths + [ColumnWidth(rightCols, i)];
    }
  }

  /** The three rows of the `for row in [row1, row2, row3]` loop. */
  lemma StandardRowsAt(keycodes: seq<string>, r: nat)
    requires |keycodes| >= FullKeys && r < 3
    ensures [keycodes[0..12], keycodes[12..24], keycodes[24..36]][r] == GridRow(keycodes, r)
  {
  }

  /** `format_full_layout`: computes the column widths, then builds rows 1
      to 3, row 4 and row 5 in that order. */
  method FormatFullLayout(keycodes: seq<string>) returns (lines: seq<string>)
    ensures lines == FullLayout(keycodes)
  {
    if |keycodes| < FullKeys {
      return ["  " + Join(keycodes, ", ")];
    }
    var row1, row2, row3 := keycodes[0..12], keycodes[12..24], keycodes[24..36];
    var row4, row5 := keycodes[36..50], keycodes[50..58];
    var leftWidths, rightWidths := ComputeWidths(LeftColumns(keycodes), RightColumns(keycodes));
    assert leftWidths == LeftWidths(keycodes) && rightWidths == RightWidths(keycodes);
    lines := [];
    var standardRows := [row1, row2, row3];
    for r := 0 to 3
      invariant lines == GridLines(keycodes, r)
    {
      StandardRowsAt(keycodes, r);
      var line := FormatStandardRow(standardRows[r], leftWidths, rightWidths);
      lines := lines + [line];
    }
    var line4 := FormatRow4(row4, leftWidths, rightWidths);
    assert line4 == GridLine(keycodes, 3);
    lines := lines + [line4];
    assert lines == GridLines(keycodes, 4);
    var line5 := Spaces(ThumbIndent) + Join(row5, ", ");
    assert line5 == GridLine(keycodes, 4);
    lines := lines + [line5];
    assert lines == GridLines(keycodes, 5);
  }

  /** `key` followed by its comma stands in `line` at position `off`. */
  predicate KeyAt(line: string, off: nat, key: string) {
    off <= |line| && StartsWith(line[off..], key + [','])
  }

  /** Start of column `i` of a half that starts at `start` and whose first
      `i` cells have widths `ws[j] + 4`. */
  function ColumnStart(start: nat, ws: seq<nat>, i: nat): nat
    requires i <= |ws|
  {
    if i == 0 then start else ColumnStart(start, ws, i - 1) + ws[i - 1] + 4
  }

  /** Start of the right half in rows 1 to 3. */
  function RightStart(lw: seq<nat>): nat
    requires |lw| == 6
  {
    ColumnStart(2, lw, 5) + lw[5] + 1 + HalfGap
  }

  lemma {:induction false} ConcatCells(cells: seq<string>, ws: seq<nat>, start: nat, i: nat)
    requires i <= |cells| && i <= |ws|
    requires forall j :: 0 <= j < i ==> |cells[j]| == ws[j] + 4
    ensures start + |Concat(cells[..i])| == ColumnStart(start, ws, i)
  {
    if i > 0 {
      ConcatCells(cells, ws, start, i - 1);
      assert cells[..i][..i - 1] == cells[..i - 1];
    }
  }

  lemma SliceMiddle(a: string, b: string, c: string)
    ensures (a + b + c)[|a|..|a| + |b|] == b
  {
    assert forall k :: 0 <= k < |b| ==> (a + b + c)[|a| + k] == b[k];
  }

  lemma {:induction false} ConcatCons(xs: seq<string>)
    requires |xs| > 0
    ensures Concat(xs) == xs[0] + Concat(xs[1..])
    decreases |xs|
  {
    var n := |xs|;
    var init := xs[..n - 1];
    var tail := xs[1..];
    if n == 1 {
      assert init == [] && tail == [];
    } else {
      ConcatCons(init);
      assert init[1..] == tail[..n - 2];
      assert tail[n - 2] == xs[n - 1];
      calc {
        Concat(xs);
        Concat(init) + xs[n - 1];
        xs[0] + Concat(tail[..n - 2]) + tail[n - 2];
        xs[0] + Concat(tail);
      }
    }
  }

  /** Cell `i` of `cells` sits in `pre + Concat(cells) + post` right after
      `pre` and the cells before it. */
  lemma CellInLine(pre: string, cells: seq<string>, post: string, i: nat)
    requires i < |cells|
    ensures var line := pre + Concat(cells) + post;
      var off := |pre| + |Concat(cells[..i])|;
      off + |cells[i]| <= |line| && line[off..off + |cells[i]|] == cells[i]
  {
    ConcatPrefix(cells, i);
    ConcatCons(cells[i..]);
    assert cells[i..][1..] == cells[i + 1..];
    var a := pre + Concat(cells[..i]);
    var c := Concat(cells[i + 1..]) + post;
    assert pre + Concat(cells) + post == a + cells[i] + c;
    SliceMiddle(a, cells[i], c);
  }

  /** Key `i` of a half sits at the offset of its column when the cells
      before it have their full column width. */
  lemma KeyInLine(pre: string, cells: seq<string>, post: string, ws: seq<nat>, key: string, i: nat)
    requires i < |cells| && i <= |ws|
    requires forall j :: 0 <= j < i ==> |cells[j]| == ws[j] + 4
    requires |key| < |cells[i]| && cells[i][..|key| + 1] == key + [',']
    ensures KeyAt(pre + Concat(cells) + post, ColumnStart(|pre|, ws, i), key)
  {
    var line := pre + Concat(cells) + post;
    var off := |pre| + |Concat(cells[..i])|;
    ConcatCells(cells, ws, |pre|, i);
    CellInLine(pre, cells, post, i);
    var col := ColumnStart(|pre|, ws, i);
    assert col == off;
    CellStartsKey(line, col, cells[i], key);
  }

  /** A cell that begins with `key` and a comma, found at `off` in `line`,
      puts the key at `off`. */
  lemma CellStartsKey(line: string, off: nat, cell: string, key: string)
    requires off + |cell| <= |line| && line[off..off + |cell|] == cell
    requires |key| < |cell| && cell[..|key| + 1] == key + [',']
    ensures KeyAt(line, off, key)
  {
    assert line[off..][..|key| + 1] == cell[..|key| + 1];
    StartsWithPrefix(line[off..], key + [',']);
  }

  /** A padded cell begins with its key and a comma. */
  lemma CellStart(key: string, sep: string, w: int)
    requires sep != [] && sep[0] == ','
    ensures |key| < |LJust(key + sep, w)|
    ensures LJust(key + sep, w)[..|key| + 1] == key + [',']
  {
    var r := LJust(key + sep, w);
    assert r[..|key| + |sep|] == key + sep;
    assert r[..|key| + 1] == (key + sep)[..|key| + 1];
  }

  /** A padded cell is exactly as wide as its column allows when the key
      fits. */
  lemma CellShape(key: string, sep: string, w: nat)
    requires |key| + |sep| <= w && sep != [] && sep[0] == ','
    ensures |LJust(key + sep, w)| == w
    ensures LJust(key + sep, w)[..|key| + 1] == key + [',']
  {
    CellStart(key, sep, w);
  }

  lemma LeftColumnsAt(keycodes: seq<string>, r: nat, i: nat)
    requires |keycodes| >= FullKeys && r < 4 && i < 6
    ensures LeftColumns(keycodes)[r][i] == keycodes[RowStart(r) + i]
  {
  }

  lemma RightColumnsAt(keycodes: seq<string>, r: nat, i: nat)
    requires |keycodes| >= FullKeys && r < 3 && i < 6
    ensures RightColumns(keycodes)[r][i] == keycodes[RowStart(r) + 6 + i]
  {
  }

  /** The left cells of rows 1 to 3 when every key fits its column. */
  lemma LeftCellsShape(row: seq<string>, lw: seq<nat>)
    requires |row| >= 6 && |lw| == 6
    requires forall j :: 0 <= j < 6 ==> |row[j]| <= lw[j]
    ensures var cells := LeftCells(row, lw, 6);
      (forall j :: 0 <= j < 5 ==> |cells[j]| == lw[j] + 4) &&
      (forall j :: 0 <= j < 6 ==> |row[j]| < |cells[j]| && cells[j][..|row[j]| + 1] == row[j] + [','])
  {
    var cells := LeftCells(row, lw, 6);
    forall j | 0 <= j < 6
      ensures j < 5 ==> |cells[j]| == lw[j] + 4
      ensures |row[j]| < |cells[j]| && cells[j][..|row[j]| + 1] == row[j] + [',']
    {
      LeftCellsAt(row, lw, 6, j);
      if j < 5 { CellShape(row[j], ",   ", lw[j] + 4); } else { CellShape(row[j], ",", lw[j] + 1); }
    }
  }

  /** The left cells of row 4 when every key fits its column. */
  lemma Row4LeftCellsShape(row: seq<string>, lw: seq<nat>)
    requires |row| >= 6 && |lw| == 6
    requires forall j :: 0 <= j < 6 ==> |row[j]| <= lw[j]
    ensures var cells := Row4LeftCells(row, lw, 6);
      (forall j :: 0 <= j < 5 ==> |cells[j]| == lw[j] + 4) &&
      (forall j :: 0 <= j < 6 ==> |row[j]| < |cells[j]| && cells[j][..|row[j]| + 1] == row[j] + [','])
  {
    var cells := Row4LeftCells(row, lw, 6);
    forall j | 0 <= j < 6
      ensures j < 5 ==> |cells[j]| == lw[j] + 4
      ensures |row[j]| < |cells[j]| && cells[j][..|row[j]| + 1] == row[j] + [',']
    {
      Row4LeftCellsAt(row, lw, 6, j);
      if j < 5 { CellShape(row[j], ",  ", lw[j] + 4); } else { CellStart(row[j], ",  ", lw[j] + 2); }
    }
  }

  /** The right cells of rows 1 to 4 when every key fits its column. */
  lemma RightCellsShape(half: seq<string>, rw: seq<nat>)
    requires |half| >= 6 && |rw| == 6
    requires forall j :: 0 <= j < 6 ==> |half[j]| <= rw[j]
    ensures var cells := RightCells(half, rw, 6);
      (forall j :: 0 <= j < 5 ==> |cells[j]| == rw[j] + 4) &&
      (forall j :: 0 <= j < 6 ==> |half[j]| < |cells[j]| && cells[j][..|half[j]| + 1] == half[j] + [','])
  {
    var cells := RightCells(half, rw, 6);
    forall j | 0 <= j < 6
      ensures j < 5 ==> |cells[j]| == rw[j] + 4
      ensures |half[j]| < |cells[j]| && cells[j][..|half[j]| + 1] == half[j] + [',']
    {
      RightCellsAt(half, rw, 6, j);
      if j < 5 { CellShape(half[j], ",   ", rw[j] + 4); }
    }
  }

  /** The column widths bound every key of their column. */
  lemma KeysFitLeft(keycodes: seq<string>, r: nat)
    requires |keycodes| >= FullKeys && r < 4
    ensures forall j :: 0 <= j < 6 ==> |GridRow(keycodes, r)[j]| <= LeftWidths(keycodes)[j]
  {
    var cols := LeftColumns(keycodes);
    forall j | 0 <= j < 6 ensures |GridRow(keycodes, r)[j]| <= LeftWidths(keycodes)[j] {
      LeftColumnsAt(keycodes, r, j);
      WidthsAt(cols, 6, j);
      ColumnWidthIsMax(cols, j);
    }
  }

  lemma KeysFitRight(keycodes: seq<string>, r: nat)
    requires |keycodes| >= FullKeys && r < 3
    ensures forall j :: 0 <= j < 6 ==> |GridRow(keycodes, r)[6 + j]| <= RightWidths(keycodes)[j]
  {
    var cols := RightColumns(keycodes);
    forall j | 0 <= j < 6 ensures |GridRow(keycodes, r)[6 + j]| <= RightWidths(keycodes)[j] {
      RightColumnsAt(keycodes, r, j);
      WidthsAt(cols, 6, j);
      ColumnWidthIsMax(cols, j);
    }
  }

  /** Key `i` of the left half of one of rows 1 to 3 in the line built from
      that row. */
  lemma StandardLeftKey(line: string, row: seq<string>, lw: seq<nat>, rw: seq<nat>, i: nat)
    requires |row| == 12 && |lw| == 6 && |rw| == 6 && i < 6
    requires forall j :: 0 <= j < 6 ==> |row[j]| <= lw[j]
    requires line == StandardLine(row, lw, rw)
    ensures KeyAt(line, ColumnStart(2, lw, i), row[i])
  {
    LeftCellsShape(row, lw);
    var post := Spaces(HalfGap) + Concat(RightCells(row[6..], rw, 6));
    assert line == "  " + Concat(LeftCells(row, lw, 6)) + post;
    KeyInLine("  ", LeftCells(row, lw, 6), post, lw, row[i], i);
  }

  /** Key `i` of the left half of row 4 in the line built from that row. */
  lemma Row4LeftKey(line: string, row: seq<string>, lw: seq<nat>, rw: seq<nat>, i: nat)
    requires |row| == 14 && |lw| == 6 && |rw| == 6 && i < 6
    requires forall j :: 0 <= j < 6 ==> |row[j]| <= lw[j]
    requires line == Row4Line(row, lw, rw)
    ensures KeyAt(line, ColumnStart(2, lw, i), row[i])
  {
    Row4LeftCellsShape(row, lw);
    var post := Concat(MiddleCells(row[6], row[7])) + Concat(RightCells(row[8..], rw, 6));
    assert line == "  " + Concat(Row4LeftCells(row, lw, 6)) + post;
    KeyInLine("  ", Row4LeftCells(row, lw, 6), post, lw, row[i], i);
  }

  /** `line` holds the 21-space gap right before position `off`. */
  predicate GapBefore(line: string, off: nat) {
    HalfGap <= off <= |line| && StartsWith(line[off - HalfGap..], Spaces(HalfGap))
  }

  /** The left half of one of rows 1 to 3, followed by the gap, is as long
      as `RightStart` says when every key fits its column. */
  lemma StandardPrefix(row: seq<string>, lw: seq<nat>)
    requires |row| == 12 && |lw| == 6
    requires forall j :: 0 <= j < 6 ==> |row[j]| <= lw[j]
    ensures |"  " + Concat(LeftCells(row, lw, 6)) + Spaces(HalfGap)| == RightStart(lw)
  {
    LeftCellsShape(row, lw);
    var left := LeftCells(row, lw, 6);
    ConcatCells(left, lw, 2, 5);
    assert Concat(left) == Concat(left[..5]) + left[5] by {
      assert left[..|left| - 1] == left[..5];
    }
    assert |left[5]| == lw[5] + 1 by { LeftCellsAt(row, lw, 6, 5); CellShape(row[5], ",", lw[5] + 1); }
  }

  /** Key `i` of the right half of one of rows 1 to 3 in the line built
      from that row. */
  lemma StandardRightKey(line: string, row: seq<string>, lw: seq<nat>, rw: seq<nat>, i: nat)
    requires |row| == 12 && |lw| == 6 && |rw| == 6 && i < 6
    requires forall j :: 0 <= j < 6 ==> |row[j]| <= lw[j]
    requires forall j :: 0 <= j < 6 ==> |row[6 + j]| <= rw[j]
    requires line == StandardLine(row, lw, rw)
    ensures KeyAt(line, ColumnStart(RightStart(lw), rw, i), row[6 + i])
  {
    StandardPrefix(row, lw);
    RightCellsShape(row[6..], rw);
    var pre := "  " + Concat(LeftCells(row, lw, 6)) + Spaces(HalfGap);
    var right := RightCells(row[6..], rw, 6);
    assert line == pre + Concat(right) + [];
    KeyInLine(pre, right, [], rw, row[6..][i], i);
  }

  /** The gap of one of rows 1 to 3 ends where the right half starts. */
  lemma StandardGap(line: string, row: seq<string>, lw: seq<nat>, rw: seq<nat>)
    requires |row| == 12 && |lw| == 6 && |rw| == 6
    requires forall j :: 0 <= j < 6 ==> |row[j]| <= lw[j]
    requires line == StandardLine(row, lw, rw)
    ensures GapBefore(line, RightStart(lw))
  {
    StandardPrefix(row, lw);
    var left := "  " + Concat(LeftCells(row, lw, 6));
    var right := Concat(RightCells(row[6..], rw, 6));
    assert line == left + Spaces(HalfGap) + right;
    SliceMiddle(left, Spaces(HalfGap), right);
    assert line[|left|..][..HalfGap] == line[|left|..|left| + HalfGap];
    StartsWithPrefix(line[|left|..], Spaces(HalfGap));
  }

  /** Rows 1 to 3 of a full layout. */
  lemma StandardLineOf(keycodes: seq<string>, r: nat)
    requires |keycodes| >= FullKeys && r < 3
    ensures FullLayout(keycodes)[r] == StandardLine(GridRow(keycodes, r), LeftWidths(keycodes), RightWidths(keycodes))
  {
    GridLinesAt(keycodes, 5, r);
  }

  /** Row 4 of a full layout. */
  lemma Row4LineOf(keycodes: seq<string>)
    requires |keycodes| >= FullKeys
    ensures FullLayout(keycodes)[3] == Row4Line(GridRow(keycodes, 3), LeftWidths(keycodes), RightWidths(keycodes))
  {
    GridLinesAt(keycodes, 5, 3);
  }

  /** Row 5 of a full layout. */
  lemma ThumbLineOf(keycodes: seq<string>)
    requires |keycodes| >= FullKeys
    ensures FullLayout(keycodes)[4] == ThumbLine(keycodes[50..58])
  {
    GridLinesAt(keycodes, 5, 4);
  }

  /** Row `r` (one of rows 1 to 3) of a full layout, with the facts the
      alignment proofs need about it. */
  lemma StandardView(keycodes: seq<string>, r: nat)
    returns (line: string, row: seq<string>, lw: seq<nat>, rw: seq<nat>)
    requires |keycodes| >= FullKeys && r < 3
    ensures line == FullLayout(keycodes)[r] && row == GridRow(keycodes, r)
    ensures lw == LeftWidths(keycodes) && rw == RightWidths(keycodes)
    ensures |row| == 12 && |lw| == 6 && |rw| == 6
    ensures forall j :: 0 <= j < 6 ==> |row[j]| <= lw[j]
    ensures forall j :: 0 <= j < 6 ==> |row[6 + j]| <= rw[j]
    ensures line == StandardLine(row, lw, rw)
  {
    line, row, lw, rw := FullLayout(keycodes)[r], GridRow(keycodes, r), LeftWidths(keycodes), RightWidths(keycodes);
    KeysFitLeft(keycodes, r);
    KeysFitRight(keycodes, r);
    StandardLineOf(keycodes, r);
  }

  /** Row 4 of a full layout, with the facts the alignment proofs need. */
  lemma Row4View(keycodes: seq<string>)
    returns (line: string, row: seq<string>, lw: seq<nat>, rw: seq<nat>)
    requires |keycodes| >= FullKeys
    ensures line == FullLayout(keycodes)[3] && row == GridRow(keycodes, 3)
    ensures lw == LeftWidths(keycodes) && rw == RightWidths(keycodes)
    ensures |row| == 14 && |lw| == 6 && |rw| == 6
    ensures forall j :: 0 <= j < 6 ==> |row[j]| <= lw[j]
    ensures line == Row4Line(row, lw, rw)
  {
    line, row, lw, rw := FullLayout(keycodes)[3], GridRow(keycodes, 3), LeftWidths(keycodes), RightWidths(keycodes);
    KeysFitLeft(keycodes, 3);
    Row4LineOf(keycodes);
  }

  lemma StandardLeftAligned(keycodes: seq<string>, r: nat, i: nat)
    requires |keycodes| >= FullKeys && r < 3 && i < 6
    ensures KeyAt(FullLayout(keycodes)[r], ColumnStart(2, LeftWidths(keycodes), i), GridRow(keycodes, r)[i])
  {
    var line, row, lw, rw := StandardView(keycodes, r);
    StandardLeftKey(line, row, lw, rw, i);
  }

  lemma Row4LeftAligned(keycodes: seq<string>, i: nat)
    requires |keycodes| >= FullKeys && i < 6
    ensures KeyAt(FullLayout(keycodes)[3], ColumnStart(2, LeftWidths(keycodes), i), GridRow(keycodes, 3)[i])
  {
    var line, row, lw, rw := Row4View(keycodes);
    Row4LeftKey(line, row, lw, rw, i);
  }

  /** Columns line up in the left half: in each of rows 1 to 4, key `i` of
      the row starts at the same position, two spaces plus the widths of the
      columns before it (each plus four), and is followed by its comma. */
  lemma LeftColumnsAligned(keycodes: seq<string>, r: nat, i: nat)
    requires |keycodes| >= FullKeys && r < 4 && i < 6
    ensures KeyAt(FullLayout(keycodes)[r], ColumnStart(2, LeftWidths(keycodes), i), GridRow(keycodes, r)[i])
  {
    if r < 3 {
      StandardLeftAligned(keycodes, r, i);
    } else {
      Row4LeftAligned(keycodes, i);
    }
  }

  /** Columns line up in the right half of rows 1 to 3: key `i` starts at
      the same position in each of them, right after the left half and the
      gap. */
  lemma RightColumnsAligned(keycodes: seq<string>, r: nat, i: nat)
    requires |keycodes| >= FullKeys && r < 3 && i < 6
    ensures KeyAt(FullLayout(keycodes)[r], ColumnStart(RightStart(LeftWidths(keycodes)), RightWidths(keycodes), i),
                  GridRow(keycodes, r)[6 + i])
  {
    var line, row, lw, rw := StandardView(keycodes, r);
    StandardRightKey(line, row, lw, rw, i);
  }

  /** In rows 1 to 3 the two halves are separated by 21 spaces, which end
      where the right half starts. */
  lemma HalvesSeparated(keycodes: seq<string>, r: nat)
    requires |keycodes| >= FullKeys && r < 3
    ensures GapBefore(FullLayout(keycodes)[r], RightStart(LeftWidths(keycodes)))
  {
    var line, row, lw, rw := StandardView(keycodes, r);
    StandardGap(line, row, lw, rw);
  }

  /** `left_widths[i]` is the maximum length of column `i` over the left
      halves of rows 1 to 4: no key of the column is longer, and one key is
      exactly that long. */
  lemma LeftWidthIsMax(keycodes: seq<string>, i: nat)
    requires |keycodes| >= FullKeys && i < 6
    ensures forall r :: 0 <= r < 4 ==> |keycodes[RowStart(r) + i]| <= LeftWidths(keycodes)[i]
    ensures exists r :: 0 <= r < 4 && |keycodes[RowStart(r) + i]| == LeftWidths(keycodes)[i]
  {
    var cols := LeftColumns(keycodes);
    WidthsAt(cols, 6, i);
    ColumnWidthIsMax(cols, i);
    forall r | 0 <= r < 4 ensures cols[r][i] == keycodes[RowStart(r) + i] {
      LeftColumnsAt(keycodes, r, i);
    }
  }

  /** `right_widths[i]` is the maximum length of column `i` over the right
      halves of rows 1 to 4; row 4's right half starts after its two middle
      keys. */
  lemma RightWidthIsMax(keycodes: seq<string>, i: nat)
    requires |keycodes| >= FullKeys && i < 6
    ensures forall r :: 0 <= r < 4 ==> |keycodes[RightKeyIndex(r, i)]| <= RightWidths(keycodes)[i]
    ensures exists r :: 0 <= r < 4 && |keycodes[RightKeyIndex(r, i)]| == RightWidths(keycodes)[i]
  {
    var cols := RightColumns(keycodes);
    WidthsAt(cols, 6, i);
    ColumnWidthIsMax(cols, i);
    assert forall r :: 0 <= r < 4 ==> cols[r][i] == keycodes[RightKeyIndex(r, i)];
  }

  /** Index among all keycodes of key `i` of the right half of row `r`. */
  function RightKeyIndex(r: nat, i: nat): nat {
    if r < 3 then RowStart(r) + 6 + i else 44 + i
  }

  /** Keycodes past the 58th do not reach the output. */
  lemma ExtraKeysIgnored(keycodes: seq<string>)
    requires |keycodes| >= FullKeys
    ensures FullLayout(keycodes) == FullLayout(keycodes[..FullKeys])
  {
    var kc := keycodes[..FullKeys];
    forall lo, hi | 0 <= lo <= hi <= FullKeys ensures keycodes[lo..hi] == kc[lo..hi] {
      assert forall k :: lo <= k < hi ==> keycodes[k] == kc[k];
    }
    assert LeftColumns(keycodes) == LeftColumns(kc);
    assert RightColumns(keycodes) == RightColumns(kc);
    assert keycodes[50..58] == kc[50..58];
    forall r | 0 <= r < 4 ensures GridRow(keycodes, r) == GridRow(kc, r) {
    }
    GridLinesSame(keycodes, kc, 5);
  }

  lemma {:induction false} GridLinesSame(a: seq<string>, b: seq<string>, n: nat)
    requires |a| >= FullKeys && |b| >= FullKeys && n <= 5
    requires LeftColumns(a) == LeftColumns(b) && RightColumns(a) == RightColumns(b)
    requires forall r :: 0 <= r < 4 ==> GridRow(a, r) == GridRow(b, r)
    requires a[50..58] == b[50..58]
    ensures GridLines(a, n) == GridLines(b, n)
  {
    if n > 0 {
      GridLinesSame(a, b, n - 1);
      assert GridLine(a, n - 1) == GridLine(b, n - 1);
    }
  }

  /** Rows 1 to 4 start with two spaces. */
  lemma RowsIndented(keycodes: seq<string>, r: nat)
    requires |keycodes| >= FullKeys && r < 4
    ensures |FullLayout(keycodes)[r]| >= 2 && FullLayout(keycodes)[r][..2] == "  "
  {
    GridLinesAt(keycodes, 5, r);
  }
}
