/** The virtualised grid: items are laid out row by row in a fixed number of
    columns, each row as tall as its tallest item, and only the cells whose
    vertical extent meets the window (widened by a margin) are rendered. */
module GridList {
  import opened Wrappers
  import opened Strings
  import JsNumber

  /** What `getItemData` returns for an item, together with the item. */
  datatype Entry<P> = Entry(key: string, height: real, item: P)

  /** One laid-out cell. `offset` is the top of its row inside the grid. */
  datatype Cell<P> = Cell(key: string, columnNumber: int, rowNumber: int, offset: real, height: int, item: P)

  datatype RenderData<P> = RenderData(
    cellsToRender: seq<Cell<P>>,
    firstRenderedRowNumber: Option<int>,
    firstRenderedRowOffset: Option<real>)

  /** Window geometry: the grid's offset from the top of the page (unknown
      before the first measurement), the scroll position, the window height
      and the margin rendered beyond each window edge. */
  datatype Window = Window(elementWindowOffset: Option<real>, scrollY: real, windowHeight: real, windowMargin: real)

  // ---------------------------------------------------------------------------
  // Column width
  // ---------------------------------------------------------------------------

  /** `getColumnWidth`: the width left after the gaps, shared equally. */
  function ColumnWidth(columnCount: Option<int>, gridGap: Option<real>, elementWidth: Option<real>): (r: Option<int>)
    requires columnCount.Some? ==> columnCount.value >= 1
    ensures r.None? <==> columnCount.None? || gridGap.None? || elementWidth.None?
    ensures r.Some? ==> WidthFits(columnCount.value, gridGap.value, elementWidth.value, r.value)
  {
    if columnCount.None? || gridGap.None? || elementWidth.None? then None
    else
      var w := JsNumber.Round(Share(columnCount.value, gridGap.value, elementWidth.value));
      RoundedShare(columnCount.value, gridGap.value, elementWidth.value);
      Some(w)
  }

  /** The width left after the `columnCount - 1` gaps, divided by the
      number of columns. */
  function Share(columnCount: int, gridGap: real, elementWidth: real): real
    requires columnCount >= 1
  {
    var n := columnCount as real;
    (elementWidth - (n - 1.0) * gridGap) / n
  }

  /** `n` columns of width `w` and the `n - 1` gaps between them fill the
      element to within half a pixel per column. */
  ghost predicate WidthFits(columnCount: int, gridGap: real, elementWidth: real, w: int) {
    var n := columnCount as real;
    var filled := n * (w as real) + (n - 1.0) * gridGap;
    elementWidth - n / 2.0 < filled <= elementWidth + n / 2.0
  }

  lemma RoundedShare(columnCount: int, gap: real, width: real)
    requires columnCount >= 1
    ensures WidthFits(columnCount, gap, width, JsNumber.Round(Share(columnCount, gap, width)))
  {
    var n := columnCount as real;
    var x := Share(columnCount, gap, width);
    var w := JsNumber.Round(x);
    var wr := w as real;
    assert n * x == width - (n - 1.0) * gap;
    ScaleBounds(n, wr - 0.5, x, wr + 0.5);
    assert n * (wr - 0.5) == n * wr - n / 2.0;
    assert n * (wr + 0.5) == n * wr + n / 2.0;
  }

  lemma ScaleBounds(n: real, lo: real, x: real, hi: real)
    requires n > 0.0 && lo <= x < hi
    ensures n * lo <= n * x < n * hi
  {
  }

  // ---------------------------------------------------------------------------
  // Layout
  // ---------------------------------------------------------------------------

  /** The rounded heights of the entries, in order. */
  function Heights<P>(entries: seq<Entry<P>>): (h: seq<int>)
    ensures |h| == |entries|
    ensures forall i :: 0 <= i < |h| ==> h[i] == JsNumber.Round(entries[i].height)
  {
    seq(|entries|, i requires 0 <= i < |entries| => JsNumber.Round(entries[i].height))
  }

  /** The running `Math.max` of a row's heights, starting from 0. */
  function MaxFrom0(s: seq<int>): (m: int)
    ensures m >= 0
    ensures forall k :: 0 <= k < |s| ==> s[k] <= m
  {
    if s == [] then 0
    else
      var m0 := MaxFrom0(s[..|s| - 1]);
      assert forall k :: 0 <= k < |s| - 1 ==> s[..|s| - 1][k] == s[k];
      if m0 >= s[|s| - 1] then m0 else s[|s| - 1]
  }

  /** The index of the first cell of row `row` (rows are numbered from 1):
      each row holds `cols` cells. */
  function RowStart(cols: nat, row: int): nat
    decreases row
  {
    if row <= 1 then 0 else RowStart(cols, row - 1) + cols
  }

  /** A row is exactly as tall as one of its cells, unless all of them are
      of non-positive height. */
  lemma {:induction false} MaxFrom0Attained(s: seq<int>)
    ensures MaxFrom0(s) == 0 || MaxFrom0(s) in s
  {
    if s != [] {
      MaxFrom0Attained(s[..|s| - 1]);
      assert forall x :: x in s[..|s| - 1] ==> x in s;
    }
  }

  /** The heights in row `row`. */
  function RowHeights(h: seq<int>, cols: nat, row: int): seq<int> {
    var lo := if RowStart(cols, row) < |h| then RowStart(cols, row) else |h|;
    var hi := if RowStart(cols, row) + cols < |h| then RowStart(cols, row) + cols else |h|;
    h[lo..hi]
  }

  /** The height of row `row`: its tallest cell, or 0. */
  function RowMax(h: seq<int>, cols: nat, row: int): (m: int)
    ensures m >= 0
  {
    MaxFrom0(RowHeights(h, cols, row))
  }

  /** The offset of row `row`: the heights of the rows above it plus a gap
      after each of them. */
  function RowOffset(h: seq<int>, cols: nat, gap: real, row: int): real
    decreases row
  {
    if row <= 1 then 0.0
    else RowOffset(h, cols, gap, row - 1) + RowMax(h, cols, row - 1) as real + gap
  }

  /** The row of index `i`: the one whose `cols` cells include it. */
  function RowOf(i: nat, cols: nat): (row: int)
    requires cols >= 1
    ensures row >= 1 && RowStart(cols, row) <= i < RowStart(cols, row) + cols
    decreases i
  {
    if i < cols then 1 else RowOf(i - cols, cols) + 1
  }

  /** The column of index `i`, counted from 1 within its row. */
  function ColumnOf(i: nat, cols: nat): (column: int)
    requires cols >= 1
    ensures 1 <= column <= cols
  {
    i - RowStart(cols, RowOf(i, cols)) + 1
  }

  /** The cell the layout produces for entry `i`. */
  function CellAt<P>(entries: seq<Entry<P>>, cols: nat, gap: real, i: int): Cell<P>
    requires cols >= 1 && 0 <= i < |entries|
  {
    var row := RowOf(i, cols);
    Cell(entries[i].key, ColumnOf(i, cols), row, RowOffset(Heights(entries), cols, gap, row),
         JsNumber.Round(entries[i].height), entries[i].item)
  }

  /** The height of the whole grid: the last row's offset plus its height. */
  function TotalHeight(h: seq<int>, cols: nat, gap: real): real
    requires cols >= 1
  {
    if h == [] then 0.0
    else
      var last := RowOf(|h| - 1, cols);
      RowOffset(h, cols, gap, last) + RowMax(h, cols, last) as real
  }

  /** The layout of `useGridListLayoutData`: one pass over the entries that
      keeps the current row, the height of the rows above it and the tallest
      cell of the current row so far. */
  method Layout<P>(entries: seq<Entry<P>>, columnCount: nat, gridGap: real)
    returns (totalHeight: real, cells: seq<Cell<P>>)
    requires columnCount >= 1
    ensures |cells| == |entries|
    ensures forall i :: 0 <= i < |entries| ==> cells[i] == CellAt(entries, columnCount, gridGap, i)
    ensures totalHeight == TotalHeight(Heights(entries), columnCount, gridGap)
  {
    var currentRowNumber := 1;
    var prevRowsTotalHeight := 0.0;
    var currentRowMaxHeight := 0;
    ghost var start := 0;
    cells := [];
    assert Heights(entries)[0..0] == [];
    while |cells| < |entries|
      invariant Laid(entries, columnCount, gridGap, cells, currentRowNumber, prevRowsTotalHeight, currentRowMaxHeight, start)
      decreases |entries| - |cells|
    {
      cells, currentRowNumber, prevRowsTotalHeight, currentRowMaxHeight, start :=
        Place(entries, columnCount, gridGap, cells, currentRowNumber, prevRowsTotalHeight, currentRowMaxHeight, start);
    }
    LaidAll(entries, columnCount, gridGap, cells, currentRowNumber, prevRowsTotalHeight, currentRowMaxHeight, start);
    totalHeight := prevRowsTotalHeight + currentRowMaxHeight as real;
  }

  /** Once every entry is laid out, the cells and the running totals are
      the whole layout. */
  lemma LaidAll<P>(entries: seq<Entry<P>>, cols: nat, gap: real, cells: seq<Cell<P>>,
                   row: int, prev: real, max: int, start: int)
    requires cols >= 1 && Laid(entries, cols, gap, cells, row, prev, max, start) && |cells| >= |entries|
    ensures |cells| == |entries|
    ensures forall i :: 0 <= i < |entries| ==> cells[i] == CellAt(entries, cols, gap, i)
    ensures prev + max as real == TotalHeight(Heights(entries), cols, gap)
  {
    LayoutTotal(Heights(entries), cols, gap, row, prev, max, start);
    forall i | 0 <= i < |entries| ensures cells[i] == CellAt(entries, cols, gap, i) {
      assert CellLaid(entries, cols, gap, cells, i);
    }
  }

  /** The first `|cells|` entries are laid out and the running totals are
      those after them. */
  ghost predicate Laid<P>(entries: seq<Entry<P>>, cols: nat, gap: real, cells: seq<Cell<P>>,
                          row: int, prev: real, max: int, start: int)
    requires cols >= 1
  {
    && |cells| <= |entries|
    && (forall i :: 0 <= i < |cells| ==> CellLaid(entries, cols, gap, cells, i))
    && Running(Heights(entries), cols, gap, |cells|, row, prev, max, start)
  }

  /** Cell `i` is the layout's cell of entry `i`. */
  ghost predicate CellLaid<P>(entries: seq<Entry<P>>, cols: nat, gap: real, cells: seq<Cell<P>>, i: int) {
    cols >= 1 && 0 <= i < |cells| && i < |entries| && cells[i] == CellAt(entries, cols, gap, i)
  }

  /** The running totals after `index` entries: the current row starts at
      `start`, the rows above it take `prev`, and `max` is the tallest cell
      of the current row so far. */
  ghost predicate Running(h: seq<int>, cols: nat, gap: real, index: int, row: int, prev: real, max: int, start: int) {
    RowState(h, cols, gap, index, row, prev, max, start) && (index == 0 || start < index)
  }

  /** The totals are those of row `row` up to (not including) `index`. */
  ghost predicate RowState(h: seq<int>, cols: nat, gap: real, index: int, row: int, prev: real, max: int, start: int) {
    && row >= 1 && start == RowStart(cols, row)
    && 0 <= start <= index <= start + cols && index <= |h|
    && prev == RowOffset(h, cols, gap, row)
    && max == MaxFrom0(h[start..index])
  }

  /** The body of the layout callback for the next entry: move to the next
      row when the entry starts one, then lay out the entry's cell, which
      `map` appends to the cells so far. */
  method Place<P>(entries: seq<Entry<P>>, columnCount: nat, gridGap: real, cells0: seq<Cell<P>>,
                  currentRowNumber0: int, prevRowsTotalHeight0: real, currentRowMaxHeight0: int, ghost start0: int)
    returns (cells: seq<Cell<P>>, currentRowNumber: int, prevRowsTotalHeight: real, currentRowMaxHeight: int, ghost start: int)
    requires columnCount >= 1 && |cells0| < |entries|
    requires Laid(entries, columnCount, gridGap, cells0, currentRowNumber0, prevRowsTotalHeight0, currentRowMaxHeight0, start0)
    ensures |cells| == |cells0| + 1
    ensures Laid(entries, columnCount, gridGap, cells, currentRowNumber, prevRowsTotalHeight, currentRowMaxHeight, start)
  {
    var index := |cells0|;
    var cell;
    cell, currentRowNumber, prevRowsTotalHeight, currentRowMaxHeight, start :=
      PlaceCell(entries, columnCount, gridGap, index, currentRowNumber0, prevRowsTotalHeight0, currentRowMaxHeight0, start0);
    Appended(entries, columnCount, gridGap, cells0, cell, currentRowNumber, prevRowsTotalHeight, currentRowMaxHeight, start);
    cells := cells0 + [cell];
  }

  /** The cell of the entry at `index` and the running totals after it. */
  method PlaceCell<P>(entries: seq<Entry<P>>, columnCount: nat, gridGap: real, index: nat,
                  currentRowNumber0: int, prevRowsTotalHeight0: real, currentRowMaxHeight0: int, ghost start0: int)
    returns (cell: Cell<P>, currentRowNumber: int, prevRowsTotalHeight: real, currentRowMaxHeight: int, ghost start: int)
    requires columnCount >= 1 && index < |entries|
    requires Running(Heights(entries), columnCount, gridGap, index, currentRowNumber0, prevRowsTotalHeight0, currentRowMaxHeight0, start0)
    ensures cell == CellAt(entries, columnCount, gridGap, index)
    ensures Running(Heights(entries), columnCount, gridGap, index + 1, currentRowNumber, prevRowsTotalHeight, currentRowMaxHeight, start)
  {
    ghost var h := Heights(entries);
    var columnNumber := index % columnCount + 1;
    var rowNumber := index / columnCount + 1;
    currentRowNumber, prevRowsTotalHeight, currentRowMaxHeight, start :=
      EnterRow(h, columnCount, gridGap, index, currentRowNumber0, prevRowsTotalHeight0, currentRowMaxHeight0, start0);
    CellFacts(entries, columnCount, gridGap, index, currentRowNumber, prevRowsTotalHeight, currentRowMaxHeight, start);
    var offset := prevRowsTotalHeight;
    var height := JsNumber.Round(entries[index].height);
    ExtendRow(h, columnCount, gridGap, index, currentRowNumber, prevRowsTotalHeight, currentRowMaxHeight, start);
    if height > currentRowMaxHeight {
      currentRowMaxHeight := height;
    }
    cell := Cell(entries[index].key, columnNumber, rowNumber, offset, height, entries[index].item);
  }

  /** When the entry at `index` starts a new row, the totals move on to it:
      the finished row's height and a gap are added to the offset and the
      row's maximum starts again from 0. */
  method EnterRow(ghost h: seq<int>, columnCount: nat, gridGap: real, index: nat,
                  currentRowNumber0: int, prevRowsTotalHeight0: real, currentRowMaxHeight0: int, ghost start0: int)
    returns (currentRowNumber: int, prevRowsTotalHeight: real, currentRowMaxHeight: int, ghost start: int)
    requires columnCount >= 1 && index < |h|
    requires Running(h, columnCount, gridGap, index, currentRowNumber0, prevRowsTotalHeight0, currentRowMaxHeight0, start0)
    ensures RowState(h, columnCount, gridGap, index, currentRowNumber, prevRowsTotalHeight, currentRowMaxHeight, start)
    ensures index < start + columnCount
  {
    currentRowNumber, prevRowsTotalHeight, currentRowMaxHeight, start :=
      currentRowNumber0, prevRowsTotalHeight0, currentRowMaxHeight0, start0;
    var rowNumber := index / columnCount + 1;
    DivIsRowOf(index, columnCount);
    RowOfIndex(index, columnCount, currentRowNumber, start);
    if rowNumber != currentRowNumber {
      NextRow(h, columnCount, gridGap, index, currentRowNumber, prevRowsTotalHeight, currentRowMaxHeight, start);
      currentRowNumber := rowNumber;
      prevRowsTotalHeight := prevRowsTotalHeight + currentRowMaxHeight as real + gridGap;
      currentRowMaxHeight := 0;
      start := index;
    }
  }

  /** The cell built from the running totals of the entry's row is the
      entry's cell in the layout. */
  lemma CellFacts<P>(entries: seq<Entry<P>>, cols: nat, gap: real, index: nat, row: int, prev: real, max: int, start: int)
    requires cols >= 1 && index < |entries|
    requires RowState(Heights(entries), cols, gap, index, row, prev, max, start) && index < start + cols
    ensures Cell(entries[index].key, index % cols + 1, index / cols + 1, prev, JsNumber.Round(entries[index].height),
                 entries[index].item) == CellAt(entries, cols, gap, index)
  {
    DivIsRowOf(index, cols);
    RowOfIndex(index, cols, row, start);
  }

  /** Appending the next entry's cell keeps the laid-out prefix. */
  lemma Appended<P>(entries: seq<Entry<P>>, cols: nat, gap: real, cells0: seq<Cell<P>>, cell: Cell<P>,
                    row: int, prev: real, max: int, start: int)
    requires cols >= 1 && |cells0| < |entries|
    requires forall i :: 0 <= i < |cells0| ==> CellLaid(entries, cols, gap, cells0, i)
    requires cell == CellAt(entries, cols, gap, |cells0|)
    requires Running(Heights(entries), cols, gap, |cells0| + 1, row, prev, max, start)
    ensures Laid(entries, cols, gap, cells0 + [cell], row, prev, max, start)
  {
    var cells := cells0 + [cell];
    forall i | 0 <= i < |cells| ensures CellLaid(entries, cols, gap, cells, i) {
      if i < |cells0| {
        assert CellLaid(entries, cols, gap, cells0, i) && cells[i] == cells0[i];
      }
    }
  }

  /** Starting a new row: the finished row's height and a gap join the
      rows above. */
  lemma NextRow(h: seq<int>, cols: nat, gap: real, index: int, row: int, prev: real, max: int, start: int)
    requires cols >= 1 && Running(h, cols, gap, index, row, prev, max, start)
    requires index == start + cols && index < |h|
    ensures RowState(h, cols, gap, index, row + 1, prev + max as real + gap, 0, index)
  {
    assert RowHeights(h, cols, row) == h[start..index];
    assert RowStart(cols, row + 1) == index;
    assert h[index..index] == [];
  }

  /** Adding the entry at `index` to the current row. */
  lemma ExtendRow(h: seq<int>, cols: nat, gap: real, index: int, row: int, prev: real, max: int, start: int)
    requires cols >= 1 && RowState(h, cols, gap, index, row, prev, max, start)
    requires index < start + cols && index < |h|
    ensures Running(h, cols, gap, index + 1, row, prev, if h[index] > max then h[index] else max, start)
  {
    assert h[start..index + 1][..index - start] == h[start..index];
  }

  /** After the last entry the running totals add up to the grid height. */
  lemma LayoutTotal(h: seq<int>, cols: nat, gap: real, row: int, prev: real, max: int, start: int)
    requires cols >= 1 && Running(h, cols, gap, |h|, row, prev, max, start)
    ensures prev + max as real == TotalHeight(h, cols, gap)
  {
    if |h| > 0 {
      RowOfIndex(|h| - 1, cols, row, start);
      assert RowHeights(h, cols, row) == h[start..|h|];
    }
  }

  /** Where index `i` falls relative to the row that starts at `start`: in
      it, or (at `start + cols`) first in the next one. */
  lemma RowOfIndex(i: nat, cols: nat, row: int, start: int)
    requires cols >= 1 && row >= 1 && start == RowStart(cols, row)
    requires start <= i <= start + cols
    ensures i < start + cols ==> RowOf(i, cols) == row
    ensures i == start + cols ==> RowOf(i, cols) == row + 1 && i == RowStart(cols, row + 1)
  {
    var r := RowOf(i, cols);
    RowStartMonotone(cols, r + 1, row);
    RowStartMonotone(cols, row + 1, r);
    RowStartMonotone(cols, row + 2, r);
  }

  lemma {:induction false} RowStartIs(cols: nat, row: int)
    requires row >= 1
    ensures RowStart(cols, row) == (row - 1) * cols
    decreases row
  {
    if row > 1 {
      RowStartIs(cols, row - 1);
    }
  }

  /** Rows and columns are the quotient and remainder of the index. */
  lemma DivIsRowOf(i: nat, cols: nat)
    requires cols >= 1
    ensures RowOf(i, cols) == i / cols + 1 && ColumnOf(i, cols) == i % cols + 1
  {
    var row := RowOf(i, cols);
    RowStartIs(cols, row);
    QuotientIs(i, cols, row - 1, i - RowStart(cols, row));
  }

  lemma {:induction false} RowStartMonotone(cols: nat, r1: int, r2: int)
    ensures r1 <= r2 ==> RowStart(cols, r1) <= RowStart(cols, r2)
    decreases r2 - r1
  {
    if r1 < r2 {
      RowStartMonotone(cols, r1, r2 - 1);
    }
  }

  lemma MulAtLeast(k: int, c: int)
    requires c >= 1
    ensures k >= 1 ==> k * c >= c
    ensures k <= -1 ==> k * c <= -c
  {
  }

  /** Euclidean division has one quotient and one remainder. */
  lemma QuotientIs(i: int, cols: nat, q: int, r: int)
    requires cols >= 1 && 0 <= r < cols && i == q * cols + r
    ensures i / cols == q && i % cols == r
  {
    var d, m := i / cols, i % cols;
    assert (d - q) * cols == r - m;
    MulAtLeast(d - q, cols);
  }

  /** Cell `i` sits in column `i mod cols + 1`, between 1 and `cols`, of
      row `i div cols + 1`. */
  lemma CellGrid<P>(entries: seq<Entry<P>>, cols: nat, gap: real, i: int)
    requires cols >= 1 && 0 <= i < |entries|
    ensures var c := CellAt(entries, cols, gap, i);
      && c.columnNumber == i % cols + 1 && 1 <= c.columnNumber <= cols
      && c.rowNumber == i / cols + 1
  {
    DivIsRowOf(i, cols);
  }

  /** A cell is no taller than its row. */
  lemma CellWithinRow(h: seq<int>, cols: nat, i: int)
    requires cols >= 1 && 0 <= i < |h|
    ensures h[i] <= RowMax(h, cols, RowOf(i, cols))
  {
    var lo := RowStart(cols, RowOf(i, cols));
    var s := RowHeights(h, cols, RowOf(i, cols));
    assert s[i - lo] == h[i];
  }

  /** With a non-negative gap a row ends (gap included) no lower than any
      later row begins. */
  lemma RowsStack(h: seq<int>, cols: nat, gap: real, r1: int, r2: int)
    requires cols >= 1 && gap >= 0.0 && 1 <= r1 <= r2
    ensures r1 < r2 ==> RowOffset(h, cols, gap, r1) + RowMax(h, cols, r1) as real + gap <= RowOffset(h, cols, gap, r2)
    ensures RowOffset(h, cols, gap, r1) + RowMax(h, cols, r1) as real <= RowOffset(h, cols, gap, r2) + RowMax(h, cols, r2) as real
  {
    OffsetStep(h, cols, gap, r1);
    OffsetStep(h, cols, gap, r2);
    if r1 < r2 {
      OffsetMonotone(h, cols, gap, r1 + 1, r2);
    }
  }

  /** With a non-negative gap, later rows start no higher. */
  lemma {:induction false} OffsetMonotone(h: seq<int>, cols: nat, gap: real, r1: int, r2: int)
    requires gap >= 0.0 && 1 <= r1 <= r2
    ensures RowOffset(h, cols, gap, r1) <= RowOffset(h, cols, gap, r2)
    decreases r2
  {
    if r1 < r2 {
      OffsetMonotone(h, cols, gap, r1, r2 - 1);
      OffsetStep(h, cols, gap, r2 - 1);
      NoHigher(RowOffset(h, cols, gap, r1), RowOffset(h, cols, gap, r2 - 1),
               RowMax(h, cols, r2 - 1) as real, gap, RowOffset(h, cols, gap, r2));
    }
  }

  lemma NoHigher(a: real, b: real, m: real, gap: real, c: real)
    requires a <= b && m >= 0.0 && gap >= 0.0 && c == b + m + gap
    ensures a <= c
  {
  }

  /** The row after row `r` starts below it by its height and a gap. */
  lemma OffsetStep(h: seq<int>, cols: nat, gap: real, r: int)
    requires r >= 1
    ensures RowOffset(h, cols, gap, r + 1) == RowOffset(h, cols, gap, r) + RowMax(h, cols, r) as real + gap
    ensures RowMax(h, cols, r) >= 0
  {
  }

  /** Cells in the same row share one offset, and a cell in an earlier row
      ends, with the gap after it, above every cell of a later row. */
  lemma CellsDoNotOverlap<P>(entries: seq<Entry<P>>, cols: nat, gap: real, i: int, j: int)
    requires cols >= 1 && gap >= 0.0 && 0 <= i < |entries| && 0 <= j < |entries|
    ensures var a, b := CellAt(entries, cols, gap, i), CellAt(entries, cols, gap, j);
      && (a.rowNumber == b.rowNumber ==> a.offset == b.offset)
      && (a.rowNumber < b.rowNumber ==> a.offset + a.height as real + gap <= b.offset)
  {
    var h := Heights(entries);
    var a, b := CellAt(entries, cols, gap, i), CellAt(entries, cols, gap, j);
    if a.rowNumber < b.rowNumber {
      CellWithinRow(h, cols, i);
      RowsStack(h, cols, gap, a.rowNumber, b.rowNumber);
    }
  }

  /** Rows are numbered in the order of the entries. */
  lemma RowsInOrder<P>(entries: seq<Entry<P>>, cols: nat, gap: real, i: int, j: int)
    requires cols >= 1 && 0 <= i <= j < |entries|
    ensures CellAt(entries, cols, gap, i).rowNumber <= CellAt(entries, cols, gap, j).rowNumber
  {
    RowOfMonotone(i, j, cols);
  }

  lemma RowOfMonotone(i: nat, j: nat, cols: nat)
    requires cols >= 1 && i <= j
    ensures RowOf(i, cols) <= RowOf(j, cols)
  {
    var ri, rj := RowOf(i, cols), RowOf(j, cols);
    RowStartMonotone(cols, rj + 1, ri);
  }

  /** With a non-negative gap the grid is tall enough for every cell. */
  lemma TotalHeightCovers<P>(entries: seq<Entry<P>>, cols: nat, gap: real, i: int)
    requires cols >= 1 && gap >= 0.0 && 0 <= i < |entries|
    ensures var c := CellAt(entries, cols, gap, i);
      c.offset + c.height as real <= TotalHeight(Heights(entries), cols, gap)
  {
    RowFitsTotal(Heights(entries), cols, gap, i);
  }

  lemma RowFitsTotal(h: seq<int>, cols: nat, gap: real, i: int)
    requires cols >= 1 && gap >= 0.0 && 0 <= i < |h|
    ensures RowOffset(h, cols, gap, RowOf(i, cols)) + h[i] as real <= TotalHeight(h, cols, gap)
  {
    var row := RowOf(i, cols);
    var last := RowOf(|h| - 1, cols);
    CellWithinRow(h, cols, i);
    RowOfMonotone(i, |h| - 1, cols);
    RowsStack(h, cols, gap, row, last);
  }

  // ---------------------------------------------------------------------------
  // Render window
  // ---------------------------------------------------------------------------

  /** Whether the cell's extent meets the window widened by the margin. */
  predicate Overlaps<P>(cell: Cell<P>, elementWindowOffset: real, w: Window) {
    var cellTop := elementWindowOffset + cell.offset;
    var cellBottom := cellTop + cell.height as real;
    var renderTop := w.scrollY - w.windowMargin;
    var renderBottom := w.scrollY + w.windowHeight + w.windowMargin;
    !(cellTop > renderBottom) && !(cellBottom < renderTop)
  }

  /** The cells that meet the window, in layout order. */
  function Visible<P>(cells: seq<Cell<P>>, elementWindowOffset: real, w: Window): (r: seq<Cell<P>>)
    ensures |r| <= |cells|
    ensures forall c :: c in r ==> c in cells && Overlaps(c, elementWindowOffset, w)
    ensures forall c :: c in cells && Overlaps(c, elementWindowOffset, w) ==> c in r
  {
    if cells == [] then []
    else
      var init := cells[..|cells| - 1];
      var last := cells[|cells| - 1];
      assert cells == init + [last];
      Visible(init, elementWindowOffset, w) + (if Overlaps(last, elementWindowOffset, w) then [last] else [])
  }

  /** The running `firstRenderedRowOffset` over the rendered cells. The
      stored offset is kept only while it is truthy, so a stored 0 is
      replaced by the next offset rather than compared with it. */
  function FirstRowOffset<P>(rendered: seq<Cell<P>>, row: int): Option<real> {
    if rendered == [] then None
    else
      var acc := FirstRowOffset(rendered[..|rendered| - 1], row);
      var cell := rendered[|rendered| - 1];
      if cell.rowNumber != row then acc
      else if acc.Some? && acc.value != 0.0 then Some(if acc.value <= cell.offset then acc.value else cell.offset)
      else Some(cell.offset)
  }

  /** What `useGridListRenderData` computes, as a function of its inputs. */
  function Render<P>(cells: seq<Cell<P>>, w: Window): RenderData<P> {
    if w.elementWindowOffset.None? then RenderData([], None, None)
    else
      var rendered := Visible(cells, w.elementWindowOffset.value, w);
      if rendered == [] then RenderData([], None, None)
      else RenderData(rendered, Some(rendered[0].rowNumber), FirstRowOffset(rendered, rendered[0].rowNumber))
  }

  /** The render pass of `useGridListRenderData`: a loop over the cells that
      skips those outside the window and remembers the first rendered row. */
  method RenderCells<P>(cells: seq<Cell<P>>, w: Window) returns (r: RenderData<P>)
    ensures r == Render(cells, w)
  {
    var cellsToRender := [];
    var firstRenderedRowNumber: Option<int> := None;
    var firstRenderedRowOffset: Option<real> := None;
    if w.elementWindowOffset.Some? {
      var elementWindowOffset := w.elementWindowOffset.value;
      for k := 0 to |cells|
        invariant cellsToRender == Visible(cells[..k], elementWindowOffset, w)
        invariant firstRenderedRowNumber.None? <==> cellsToRender == []
        invariant cellsToRender != [] ==> firstRenderedRowNumber == Some(cellsToRender[0].rowNumber)
        invariant firstRenderedRowOffset == FirstRowOffset(cellsToRender, firstRenderedRowNumber.GetOr(0))
      {
        var cell := cells[k];
        assert cells[..k + 1][..k] == cells[..k];
        var cellTop := elementWindowOffset + cell.offset;
        var cellBottom := cellTop + cell.height as real;
        var windowTop := w.scrollY;
        var windowBottom := windowTop + w.windowHeight;
        var renderTop := windowTop - w.windowMargin;
        var renderBottom := windowBottom + w.windowMargin;
        if cellTop > renderBottom {
          continue;
        }
        if cellBottom < renderTop {
          continue;
        }
        if firstRenderedRowNumber.None? {
          firstRenderedRowNumber := Some(cell.rowNumber);
        }
        if cell.rowNumber == firstRenderedRowNumber.value {
          firstRenderedRowOffset :=
            if firstRenderedRowOffset.Some? && firstRenderedRowOffset.value != 0.0 then
              Some(if firstRenderedRowOffset.value <= cell.offset then firstRenderedRowOffset.value else cell.offset)
            else Some(cell.offset);
        }
        assert (cellsToRender + [cell])[..|cellsToRender|] == cellsToRender;
        cellsToRender := cellsToRender + [cell];
      }
      assert cells[..|cells|] == cells;
    }
    r := RenderData(cellsToRender, firstRenderedRowNumber, firstRenderedRowOffset);
  }

  /** If every cell of `row` among `rendered` has offset `o`, and there is
      one, the running offset settles on `o` (the falsy-0 rule is harmless). */
  lemma {:induction false} FirstRowOffsetIs<P>(rendered: seq<Cell<P>>, row: int, o: real)
    requires forall c :: c in rendered && c.rowNumber == row ==> c.offset == o
    ensures (exists c :: c in rendered && c.rowNumber == row) ==> FirstRowOffset(rendered, row) == Some(o)
    ensures (forall c :: c in rendered ==> c.rowNumber != row) ==> FirstRowOffset(rendered, row) == None
  {
    if rendered != [] {
      var init := rendered[..|rendered| - 1];
      assert rendered == init + [rendered[|rendered| - 1]];
      FirstRowOffsetIs(init, row, o);
    }
  }

  /** Rendering a laid-out grid: nothing is rendered before the grid is
      measured; otherwise the first rendered row is the row of the first
      rendered cell and its recorded offset is that row's layout offset. */
  lemma RenderedFirstRow<P>(entries: seq<Entry<P>>, cols: nat, gap: real, cells: seq<Cell<P>>, w: Window)
    requires cols >= 1
    requires |cells| == |entries|
    requires forall i :: 0 <= i < |entries| ==> cells[i] == CellAt(entries, cols, gap, i)
    ensures var r := Render(cells, w);
      && (w.elementWindowOffset.None? ==> r.cellsToRender == [])
      && (r.firstRenderedRowNumber.None? <==> r.cellsToRender == [])
      && (r.cellsToRender != [] ==>
            r.firstRenderedRowNumber == Some(r.cellsToRender[0].rowNumber)
            && r.firstRenderedRowOffset == Some(RowOffset(Heights(entries), cols, gap, r.cellsToRender[0].rowNumber)))
  {
    var r := Render(cells, w);
    if r.cellsToRender != [] {
      var row := r.cellsToRender[0].rowNumber;
      assert row >= 1 by {
        assert r.cellsToRender[0] in cells;
      }
      var o := RowOffset(Heights(entries), cols, gap, row);
      forall c | c in r.cellsToRender && c.rowNumber == row
        ensures c.offset == o
      {
        assert c in cells;
      }
      assert r.cellsToRender[0] in r.cellsToRender;
      FirstRowOffsetIs(r.cellsToRender, row, o);
    }
  }

  /** Cells listed in non-decreasing row order. */
  ghost predicate InRowOrder<P>(cells: seq<Cell<P>>) {
    forall i, j :: 0 <= i <= j < |cells| ==> cells[i].rowNumber <= cells[j].rowNumber
  }

  /** `Visible` keeps cells in their order, so it keeps row order. */
  lemma {:induction false} VisibleInRowOrder<P>(cells: seq<Cell<P>>, e: real, w: Window)
    requires InRowOrder(cells)
    ensures InRowOrder(Visible(cells, e, w))
  {
    if cells != [] {
      var init := cells[..|cells| - 1];
      var last := cells[|cells| - 1];
      var vi := Visible(init, e, w);
      var v := Visible(cells, e, w);
      assert v == vi + (if Overlaps(last, e, w) then [last] else []);
      assert forall a :: 0 <= a < |init| ==> init[a] == cells[a];
      VisibleInRowOrder(init, e, w);
      forall c | c in vi
        ensures c.rowNumber <= last.rowNumber
      {
        var k :| 0 <= k < |init| && init[k] == c;
        assert cells[k] == c;
      }
      forall i, j | 0 <= i <= j < |v|
        ensures v[i].rowNumber <= v[j].rowNumber
      {
        if j < |vi| {
          assert v[i] == vi[i] && v[j] == vi[j];
        } else if i < |vi| {
          assert v[j] == last && v[i] == vi[i];
          assert vi[i] in vi;
        }
      }
    }
  }

  // ---------------------------------------------------------------------------
  // Grid row start
  // ---------------------------------------------------------------------------

  /** `getGridRowStart`: the CSS row of a rendered cell, counted from the
      first rendered row; no value before render data exists. */
  function GridRowStart<P>(cell: Cell<P>, renderData: Option<RenderData<P>>): (r: Option<string>)
    ensures r.None? <==> renderData.None?
    ensures renderData.Some? && renderData.value.firstRenderedRowNumber == Some(cell.rowNumber) ==> r == Some("1")
  {
    if renderData.None? then None
    else
      var offset := if renderData.value.firstRenderedRowNumber.Some? then renderData.value.firstRenderedRowNumber.value - 1 else 0;
      Some(IntToString(cell.rowNumber - offset))
  }

  /** In a rendered laid-out grid the first rendered row becomes CSS row 1,
      and every rendered cell gets the positive row number counted from
      there. */
  lemma GridRowsFromOne<P>(entries: seq<Entry<P>>, cols: nat, gap: real, cells: seq<Cell<P>>, w: Window, k: int)
    requires cols >= 1
    requires |cells| == |entries|
    requires forall i :: 0 <= i < |entries| ==> cells[i] == CellAt(entries, cols, gap, i)
    requires 0 <= k < |Render(cells, w).cellsToRender|
    ensures var r := Render(cells, w);
      var cell := r.cellsToRender[k];
      var n := cell.rowNumber - r.cellsToRender[0].rowNumber + 1;
      && n >= 1
      && (k == 0 ==> n == 1)
      && GridRowStart(cell, Some(r)) == Some(NatToString(n))
  {
    forall i, j | 0 <= i <= j < |cells|
      ensures cells[i].rowNumber <= cells[j].rowNumber
    {
      RowsInOrder(entries, cols, gap, i, j);
    }
    var r := Render(cells, w);
    assert r.cellsToRender == Visible(cells, w.elementWindowOffset.value, w);
    VisibleInRowOrder(cells, w.elementWindowOffset.value, w);
    assert r.cellsToRender[0].rowNumber <= r.cellsToRender[k].rowNumber;
  }
}
