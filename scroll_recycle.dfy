/** The scroll-based recycling table of the desktop application: from the
    scroll position, the table's offset in its container, the container's
    height and the row geometry it works out which rows to render and how
    tall the placeholders above and below them must be. Lengths are exact
    reals. */
module ScrollRecycle {

  /** The rows `[start, end)` to render and the placeholder heights. */
  datatype ScrollWindow = ScrollWindow(start: int, end: int, placeholderTopHeight: real, placeholderBottomHeight: real)

  /** The number of whole rows of height `rowHeight` that fit in an
      off-screen stretch of length `off`: none when `off` is not positive. */
  function UnitsOffScreen(off: real, rowHeight: real): (n: nat)
    requires rowHeight > 0.0
    ensures off <= 0.0 ==> n == 0
    ensures off > 0.0 ==> n as real * rowHeight <= off < (n + 1) as real * rowHeight
  {
    if off > 0.0 then
      var n := (off / rowHeight).Floor;
      FloorOfQuotient(off, rowHeight);
      n
    else 0
  }

  /** The floor of `off / h` counts the whole multiples of `h` in `off`. */
  lemma FloorOfQuotient(off: real, h: real)
    requires h > 0.0 && off > 0.0
    ensures (off / h).Floor >= 0
    ensures (off / h).Floor as real * h <= off < ((off / h).Floor + 1) as real * h
  {
    var x := off / h;
    QuotientTimes(off, h);
    QuotientPositive(off, h);
    var n := x.Floor;
    ScaledFloor(n as real, x, h, off);
  }

  lemma QuotientTimes(a: real, b: real)
    requires b != 0.0
    ensures (a / b) * b == a
  {
  }

  lemma QuotientPositive(a: real, b: real)
    requires a > 0.0 && b > 0.0
    ensures a / b > 0.0
  {
  }

  /** `lo <= x < lo + 1` scaled by `h > 0`, with `x * h == off`. */
  lemma ScaledFloor(lo: real, x: real, h: real, off: real)
    requires h > 0.0 && lo <= x < lo + 1.0 && x * h == off
    ensures lo * h <= off < (lo + 1.0) * h
  {
    var d := x - lo;
    Distribute(x, lo, d, h);
    assert off == lo * h + d * h;
    Distribute(lo + 1.0, lo, 1.0, h);
    assert (lo + 1.0) * h == lo * h + h;
    FractionOf(d, h);
    assert off < lo * h + h;
  }

  lemma Distribute(x: real, a: real, b: real, h: real)
    requires x == a + b
    ensures x * h == a * h + b * h
  {
  }

  /** A fraction `0 <= d < 1` of `h > 0` lies in `[0, h)`. */
  lemma FractionOf(d: real, h: real)
    requires h > 0.0 && 0.0 <= d < 1.0
    ensures 0.0 <= d * h < h
  {
    assert h - d * h == (1.0 - d) * h;
  }

  lemma ScaleBounds(n: real, lo: real, x: real, hi: real)
    requires n > 0.0 && lo <= x < hi
    ensures n * lo <= n * x < n * hi
  {
  }

  /** The `useMemo` of `useRecycle`: the stretch of table scrolled past the
      top of the container and the stretch still below its bottom, each
      turned into a whole number of rows. */
  function Recycle(scrollTop: real, offsetTop: real, containerHeight: real, rowHeight: real, rowCount: nat): (w: ScrollWindow)
    requires rowHeight > 0.0
    ensures w.start >= 0 && w.end <= rowCount
    ensures w.placeholderTopHeight == w.start as real * rowHeight
    ensures w.placeholderBottomHeight == (rowCount - w.end) as real * rowHeight
    ensures w.placeholderTopHeight + (w.end - w.start) as real * rowHeight + w.placeholderBottomHeight
            == rowCount as real * rowHeight
  {
    var offTop := scrollTop - offsetTop;
    var height := rowHeight * rowCount as real;
    var offBottom := height - offTop - containerHeight;
    var unitsTop := UnitsOffScreen(offTop, rowHeight);
    var unitsBottom := UnitsOffScreen(offBottom, rowHeight);
    WholeRows(unitsTop, rowCount - unitsBottom, rowCount, rowHeight);
    ScrollWindow(unitsTop, rowCount - unitsBottom, unitsTop as real * rowHeight, unitsBottom as real * rowHeight)
  }

  lemma WholeRows(start: int, end: int, rowCount: int, h: real)
    ensures start as real * h + (end - start) as real * h + (rowCount - end) as real * h == rowCount as real * h
  {
  }

  /** `k` rows are at most as tall as `m` rows when `k <= m`. */
  lemma RowsMonotone(k: int, m: int, h: real)
    requires h > 0.0
    ensures k <= m <==> k as real * h <= m as real * h
  {
    if k > m {
      ScaleBounds(h, m as real, m as real, k as real);
    }
  }

  /** A row is at or after the first rendered row exactly when its bottom
      edge lies below the top of the container. */
  lemma AfterStart(offTop: real, rowHeight: real, row: nat)
    requires rowHeight > 0.0
    ensures UnitsOffScreen(offTop, rowHeight) <= row <==> offTop < (row + 1) as real * rowHeight
  {
    var n := UnitsOffScreen(offTop, rowHeight);
    if offTop <= 0.0 {
      RowsMonotone(row + 1, 0, rowHeight);
    } else {
      RowsMonotone(n + 1, row + 1, rowHeight);
      RowsMonotone(row + 1, n, rowHeight);
    }
  }

  /** A table row is before the end of the rendered rows exactly when its
      top edge lies above the bottom of the container. */
  lemma BeforeEnd(offTop: real, containerHeight: real, rowHeight: real, rowCount: nat, row: nat)
    requires rowHeight > 0.0 && row < rowCount
    ensures var offBottom := rowHeight * rowCount as real - offTop - containerHeight;
      row < rowCount - UnitsOffScreen(offBottom, rowHeight) <==> row as real * rowHeight < offTop + containerHeight
  {
    var offBottom := rowHeight * rowCount as real - offTop - containerHeight;
    var below := rowCount - row - 1;
    AfterStart(offBottom, rowHeight, below);
    assert (below + 1) as real == (rowCount - row) as real;
    Distribute(rowCount as real, (rowCount - row) as real, row as real, rowHeight);
    assert rowHeight * rowCount as real == rowCount as real * rowHeight;
  }

  /** The rendered rows are exactly the table rows that are at least partly
      inside the container: the row's bottom edge is below the container's
      top and its top edge above the container's bottom. */
  lemma RenderedRows(scrollTop: real, offsetTop: real, containerHeight: real, rowHeight: real, rowCount: nat, row: int)
    requires rowHeight > 0.0
    ensures var w := Recycle(scrollTop, offsetTop, containerHeight, rowHeight, rowCount);
      var offTop := scrollTop - offsetTop;
      w.start <= row < w.end <==>
        && 0 <= row < rowCount
        && offTop < (row + 1) as real * rowHeight
        && row as real * rowHeight < offTop + containerHeight
  {
    if 0 <= row < rowCount {
      AfterStart(scrollTop - offsetTop, rowHeight, row);
      BeforeEnd(scrollTop - offsetTop, containerHeight, rowHeight, rowCount, row);
    }
  }

  /** The window is never inverted exactly when the table reaches below
      the container's top by more than a negative row height and starts
      less than one row past the end of the table: `start <= end` is not
      implied by a non-negative container height and a scroll offset
      within the table (see `FarBelowViewport`). */
  lemma StartNotAfterEnd(scrollTop: real, offsetTop: real, containerHeight: real, rowHeight: real, rowCount: nat)
    requires rowHeight > 0.0 && containerHeight >= 0.0
    ensures var w := Recycle(scrollTop, offsetTop, containerHeight, rowHeight, rowCount);
      var offTop := scrollTop - offsetTop;
      w.start <= w.end <==>
        -rowHeight < offTop + containerHeight && offTop < (rowCount + 1) as real * rowHeight
  {
    var offTop := scrollTop - offsetTop;
    var offBottom := rowHeight * rowCount as real - offTop - containerHeight;
    OrderedIff(offTop, offBottom, containerHeight, rowHeight, rowCount);
  }

  /** `StartNotAfterEnd` in terms of the two off-screen stretches. */
  lemma OrderedIff(offTop: real, offBottom: real, containerHeight: real, rowHeight: real, rowCount: nat)
    requires rowHeight > 0.0 && containerHeight >= 0.0
    requires offBottom == rowHeight * rowCount as real - offTop - containerHeight
    ensures UnitsOffScreen(offTop, rowHeight) <= rowCount - UnitsOffScreen(offBottom, rowHeight) <==>
            -rowHeight < offTop + containerHeight && offTop < (rowCount + 1) as real * rowHeight
  {
    var height := rowHeight * rowCount as real;
    RowsMonotone(0, rowCount, rowHeight);
    assert (rowCount + 1) as real * rowHeight == height + rowHeight;
    if offTop > 0.0 && offBottom > 0.0 {
      BothOffScreen(offTop, offBottom, rowHeight, rowCount);
    } else if offBottom > 0.0 {
      AfterStart(offBottom, rowHeight, rowCount);
    } else if offTop > 0.0 {
      AfterStart(offTop, rowHeight, rowCount);
    }
  }

  /** Rows scrolled past at the top and rows still below the container
      never add up to more than the table when the container has a
      non-negative height. */
  lemma BothOffScreen(offTop: real, offBottom: real, rowHeight: real, rowCount: nat)
    requires rowHeight > 0.0 && offTop > 0.0 && offBottom > 0.0
    requires offTop + offBottom <= rowHeight * rowCount as real
    ensures UnitsOffScreen(offTop, rowHeight) + UnitsOffScreen(offBottom, rowHeight) <= rowCount
  {
    var t := UnitsOffScreen(offTop, rowHeight);
    var b := UnitsOffScreen(offBottom, rowHeight);
    assert (t + b) as real * rowHeight == t as real * rowHeight + b as real * rowHeight;
    RowsMonotone(t + b, rowCount, rowHeight);
  }

  /** A five-row table of 10-pixel rows whose top is 1000 pixels below the
      top of a 100-pixel container: the scroll offset is within the table and
      the container height is not negative, yet the window is inverted. */
  lemma FarBelowViewport()
    ensures var w := Recycle(0.0, 1000.0, 100.0, 10.0, 5);
      && 0.0 - 1000.0 <= 5.0 * 10.0
      && w.start == 0 && w.end == -90 && w.start > w.end
  {
    assert UnitsOffScreen(0.0 - 1000.0, 10.0) == 0;
    var offBottom := 10.0 * 5.0 - (0.0 - 1000.0) - 100.0;
    assert offBottom == 950.0;
    var n := UnitsOffScreen(950.0, 10.0);
    RowsMonotone(n, 95, 10.0);
    RowsMonotone(96, n + 1, 10.0);
  }
}
