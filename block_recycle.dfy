/** The block-based recycling table: every `rowsPerBlock`-th row carries a
    sentinel; an intersection observer reports which sentinels are on screen,
    and the table renders the rows from one block before the first visible
    sentinel to two blocks past the last one, with placeholders of the right
    height above and below. */
module BlockRecycle {
  const DefaultRowsPerBlock := 5
  const DefaultRootMargin := 30

  /** `SentinelBlock`: a sentinel is rendered only on the first row of a
      block. */
  function IsSentinel(index: nat, rowsPerBlock: nat): bool
    requires rowsPerBlock >= 1
  {
    index % rowsPerBlock == 0
  }

  /** The sentinels are exactly the block starts, and the cursor the
      observer derives from a sentinel's index is its whole block number. */
  lemma SentinelIsBlockStart(index: nat, rowsPerBlock: nat)
    requires rowsPerBlock >= 1
    ensures IsSentinel(index, rowsPerBlock) <==> (index / rowsPerBlock) * rowsPerBlock == index
  {
    assert index == (index / rowsPerBlock) * rowsPerBlock + index % rowsPerBlock;
  }

  /** The cursors of a set of intersecting blocks: its least and greatest
      element, or 0 and 0 when no block intersects. */
  ghost predicate Cursors(intersecting: set<int>, minCursor: int, maxCursor: int) {
    && (intersecting == {} ==> minCursor == 0 && maxCursor == 0)
    && (intersecting != {} ==>
          && minCursor in intersecting && maxCursor in intersecting
          && forall c :: c in intersecting ==> minCursor <= c <= maxCursor)
  }

  /** The recalculation in the observer callback: a loop over the keys of
      the record that keeps the running `Math.min`/`Math.max`, starting
      from `Infinity`/`-Infinity` (here: no value yet). */
  method MinMaxCursors(intersecting: set<int>) returns (minCursor: int, maxCursor: int)
    ensures Cursors(intersecting, minCursor, maxCursor)
  {
    var hasCursor := false;
    var lo, hi := 0, 0;
    var rest := intersecting;
    while rest != {}
      invariant Scanned(intersecting, rest, hasCursor, lo, hi)
      decreases |rest|
    {
      var index := Pick(rest);
      ScanStep(intersecting, rest, index, hasCursor, lo, hi);
      if !hasCursor || index < lo {
        lo := index;
      }
      if !hasCursor || index > hi {
        hi := index;
      }
      hasCursor := true;
      rest := rest - {index};
    }
    ScanDone(intersecting, hasCursor, lo, hi);
    if hasCursor {
      minCursor, maxCursor := lo, hi;
    } else {
      minCursor, maxCursor := 0, 0;
    }
  }

  /** The loop state: the keys not in `rest` have been visited, and a
      running minimum and maximum exist exactly when one of them was. */
  ghost predicate Scanned(intersecting: set<int>, rest: set<int>, hasCursor: bool, lo: int, hi: int) {
    && rest <= intersecting
    && (hasCursor <==> intersecting - rest != {})
    && (hasCursor ==> Cursors(intersecting - rest, lo, hi))
  }

  /** Visiting one more key: the running minimum and maximum take it into
      account (the first key sets both). */
  lemma ScanStep(intersecting: set<int>, rest: set<int>, index: int, hasCursor: bool, lo: int, hi: int)
    requires Scanned(intersecting, rest, hasCursor, lo, hi) && index in rest
    ensures Scanned(intersecting, rest - {index}, true,
                    if !hasCursor || index < lo then index else lo,
                    if !hasCursor || index > hi then index else hi)
  {
    var seen := intersecting - rest;
    assert intersecting - (rest - {index}) == seen + {index};
    CursorStep(seen, index, hasCursor, lo, hi);
  }

  lemma CursorStep(seen: set<int>, index: int, hasCursor: bool, lo: int, hi: int)
    requires hasCursor <==> seen != {}
    requires hasCursor ==> Cursors(seen, lo, hi)
    ensures Cursors(seen + {index},
                    if !hasCursor || index < lo then index else lo,
                    if !hasCursor || index > hi then index else hi)
  {
    var all := seen + {index};
    assert index in all;
    assert forall c :: c in seen ==> c in all;
    if !hasCursor {
      assert all == {index};
    }
  }

  /** With nothing left to visit, the running values are the cursors. */
  lemma ScanDone(intersecting: set<int>, hasCursor: bool, lo: int, hi: int)
    requires Scanned(intersecting, {}, hasCursor, lo, hi)
    ensures hasCursor ==> Cursors(intersecting, lo, hi)
    ensures !hasCursor ==> intersecting == {}
  {
    assert intersecting - {} == intersecting;
  }

  /** Some element of a non-empty set (the key the loop visits next). */
  method Pick<T>(s: set<T>) returns (x: T)
    requires s != {}
    ensures x in s
  {
    x :| x in s;
  }

  /** The set of intersecting blocks after the observer reports `entries`
      (sentinel index, whether it now intersects), in order. */
  function Observed(intersecting: set<int>, entries: seq<(nat, bool)>, rowsPerBlock: nat): set<int>
    requires rowsPerBlock >= 1
  {
    if entries == [] then intersecting
    else
      var (index, isIntersecting) := entries[|entries| - 1];
      var before := Observed(intersecting, entries[..|entries| - 1], rowsPerBlock);
      if isIntersecting then before + {index / rowsPerBlock} else before - {index / rowsPerBlock}
  }

  /** The state `useRecycle` keeps across observer callbacks. */
  class Recycler {
    const rowsPerBlock: nat
    var intersecting: set<int>
    var minCursor: int
    var maxCursor: int

    ghost predicate Valid()
      reads `intersecting, `minCursor, `maxCursor
    {
      rowsPerBlock >= 1 && Cursors(intersecting, minCursor, maxCursor)
    }

    constructor(rowsPerBlock: nat)
      requires rowsPerBlock >= 1
      ensures this.rowsPerBlock == rowsPerBlock
      ensures intersecting == {} && minCursor == 0 && maxCursor == 0
      ensures Valid()
    {
      this.rowsPerBlock := rowsPerBlock;
      intersecting := {};
      minCursor, maxCursor := 0, 0;
    }

    /** One observer entry for the sentinel of row `index`: the block is
        recorded on entry and deleted on exit, then both cursors are
        recalculated. */
    method Observe(index: nat, isIntersecting: bool)
      requires Valid()
      modifies `intersecting, `minCursor, `maxCursor
      ensures intersecting == if isIntersecting then old(intersecting) + {index / rowsPerBlock}
                              else old(intersecting) - {index / rowsPerBlock}
      ensures Valid()
    {
      var cursorIndex := index / rowsPerBlock;
      if isIntersecting {
        intersecting := intersecting + {cursorIndex};
      } else {
        intersecting := intersecting - {cursorIndex};
      }
      minCursor, maxCursor := MinMaxCursors(intersecting);
    }

    /** The observer callback: the entries of one notification in order. */
    method ObserveAll(entries: seq<(nat, bool)>)
      requires Valid()
      modifies `intersecting, `minCursor, `maxCursor
      ensures intersecting == Observed(old(intersecting), entries, rowsPerBlock)
      ensures Valid()
    {
      ghost var initial := intersecting;
      for k := 0 to |entries|
        invariant Valid()
        invariant intersecting == Observed(initial, entries[..k], rowsPerBlock)
      {
        assert entries[..k + 1][..k] == entries[..k];
        Observe(entries[k].0, entries[k].1);
      }
      assert entries[..|entries|] == entries;
    }
  }

  /** A sentinel that enters and then leaves leaves the set as it was when
      its block was not there before. */
  lemma EnterThenLeave(intersecting: set<int>, index: nat, rowsPerBlock: nat)
    requires rowsPerBlock >= 1 && index / rowsPerBlock !in intersecting
    ensures Observed(intersecting, [(index, true), (index, false)], rowsPerBlock) == intersecting
  {
    var entries := [(index, true), (index, false)];
    assert entries[..1] == [(index, true)];
    assert entries[..1][..0] == entries[..0];
    assert Observed(intersecting, entries[..1], rowsPerBlock) == intersecting + {index / rowsPerBlock};
  }

  /** The rows rendered and the placeholder heights around them. */
  datatype RowWindow = RowWindow(start: int, end: int, placeholderTopHeight: real, placeholderBottomHeight: real)

  /** The `useMemo` computing the rendered rows from the cursors. */
  function Window(minCursor: int, maxCursor: int, rowsPerBlock: nat, rowCount: nat, rowHeight: real): (w: RowWindow)
    requires rowsPerBlock >= 1
    ensures w.start >= 0 && w.start % rowsPerBlock == 0
    ensures w.end <= rowCount
    ensures w.placeholderTopHeight + (w.end - w.start) as real * rowHeight + w.placeholderBottomHeight
            == rowCount as real * rowHeight
  {
    var blocksAbove := if minCursor - 1 > 0 then minCursor - 1 else 0;
    var start := blocksAbove * rowsPerBlock;
    var end := if (maxCursor + 2) * rowsPerBlock < rowCount then (maxCursor + 2) * rowsPerBlock else rowCount;
    BlockStart(blocksAbove, rowsPerBlock);
    WholeRows(start, end, rowCount, rowHeight);
    RowWindow(start, end, start as real * rowHeight, (rowCount - end) as real * rowHeight)
  }

  lemma BlockStart(blocks: nat, rowsPerBlock: nat)
    requires rowsPerBlock >= 1
    ensures blocks * rowsPerBlock >= 0 && (blocks * rowsPerBlock) % rowsPerBlock == 0
  {
    var n := blocks * rowsPerBlock;
    assert n == n / rowsPerBlock * rowsPerBlock + n % rowsPerBlock;
    assert (n / rowsPerBlock - blocks) * rowsPerBlock == -(n % rowsPerBlock);
    MulAtLeast(n / rowsPerBlock - blocks, rowsPerBlock);
  }

  lemma MulAtLeast(k: int, c: int)
    requires c >= 1
    ensures k >= 1 ==> k * c >= c
    ensures k <= -1 ==> k * c <= -c
  {
  }

  lemma WholeRows(start: int, end: int, rowCount: int, h: real)
    ensures start as real * h + (end - start) as real * h + (rowCount - end) as real * h == rowCount as real * h
  {
  }

  /** The rendered rows are exactly the table rows from one block before
      the first visible block up to, not including, the block two past the
      last visible one. */
  lemma WindowRows(minCursor: int, maxCursor: int, rowsPerBlock: nat, rowCount: nat, rowHeight: real, row: int)
    requires rowsPerBlock >= 1
    ensures var w := Window(minCursor, maxCursor, rowsPerBlock, rowCount, rowHeight);
      w.start <= row < w.end <==>
        0 <= row < rowCount && (minCursor - 1) * rowsPerBlock <= row < (maxCursor + 2) * rowsPerBlock
  {
    var blocksAbove := if minCursor - 1 > 0 then minCursor - 1 else 0;
    MulMonotone(minCursor - 1, blocksAbove, rowsPerBlock);
    MulMonotone(0, blocksAbove, rowsPerBlock);
  }

  lemma MulMonotone(a: int, b: int, c: nat)
    requires a <= b
    ensures a * c <= b * c
  {
  }

  /** Every block the observer reports as visible is rendered in full (as
      far as the table goes). */
  lemma VisibleBlocksRendered(intersecting: set<int>, minCursor: int, maxCursor: int,
                              rowsPerBlock: nat, rowCount: nat, rowHeight: real, c: int, row: int)
    requires rowsPerBlock >= 1 && Cursors(intersecting, minCursor, maxCursor)
    requires c in intersecting && c * rowsPerBlock <= row < (c + 1) * rowsPerBlock && 0 <= row < rowCount
    ensures var w := Window(minCursor, maxCursor, rowsPerBlock, rowCount, rowHeight);
      w.start <= row < w.end
  {
    MulMonotone(minCursor - 1, c, rowsPerBlock);
    MulMonotone(c + 1, maxCursor + 2, rowsPerBlock);
    WindowRows(minCursor, maxCursor, rowsPerBlock, rowCount, rowHeight, row);
  }
}
