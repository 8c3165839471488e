/** Placement of the grid's cells inside the box the host allocates to the
    indicator list. Cells are laid out in row-major order; only the far edge
    of each cell is rounded, and each near edge is the previous cell's far
    edge plus the spacing, so the gaps between cells stay exactly the spacing. */
module Allocation {

  /** An axis-aligned box: near edges (x1, y1) and far edges (x2, y2). */
  datatype Box = Box(x1: real, y1: real, x2: real, y2: real)

  /** JavaScript's `Math.round`: the nearest integer, halves rounded up. */
  function Round(v: real): (r: int)
    ensures v - 0.5 < r as real <= v + 0.5
  {
    (v + 0.5).Floor
  }

  /** Unrounded position of the near edge of the `k`-th cell along one axis:
      the origin advanced by one cell and one gap per cell before it. */
  function Offset(origin: real, cell: real, spacing: real, k: nat): real
  {
    if k == 0 then origin else Offset(origin, cell, spacing, k - 1) + (cell + spacing)
  }

  /** The accumulated offset is `origin + k * (cell + spacing)`. */
  lemma {:induction false} OffsetClosedForm(origin: real, cell: real, spacing: real, k: nat)
    ensures Offset(origin, cell, spacing, k) == origin + (k as real) * (cell + spacing)
  {
    if k > 0 {
      OffsetClosedForm(origin, cell, spacing, k - 1);
      assert (k as real) * (cell + spacing) == ((k - 1) as real) * (cell + spacing) + (cell + spacing);
    }
  }

  /** Unrounded position of the far edge of the `k`-th cell along one axis. */
  function ExactFar(origin: real, cell: real, spacing: real, k: nat): real
  {
    Offset(origin, cell, spacing, k) + cell
  }

  /** Far edge of the `k`-th cell along one axis: the unrounded far edge, rounded. */
  function FarEdge(origin: real, cell: real, spacing: real, k: nat): real
  {
    Round(ExactFar(origin, cell, spacing, k)) as real
  }

  /** Near edge of the `k`-th cell along one axis: the origin for the first
      cell, otherwise the previous cell's far edge plus the spacing. */
  function NearEdge(origin: real, cell: real, spacing: real, k: nat): real
  {
    if k == 0 then origin else FarEdge(origin, cell, spacing, k - 1) + spacing
  }

  /** The box of child `i`, which sits at row `i / ncols`, column `i % ncols`. */
  function CellBox(origin: Box, childWidth: real, childHeight: real, spacing: real, ncols: nat, i: nat): Box
    requires ncols >= 1
  {
    var row, col := i / ncols, i % ncols;
    Box(NearEdge(origin.x1, childWidth, spacing, col), NearEdge(origin.y1, childHeight, spacing, row),
        FarEdge(origin.x1, childWidth, spacing, col), FarEdge(origin.y1, childHeight, spacing, row))
  }

  /** The box of the cell at (`row`, `col`), i.e. of child `row * ncols + col`. */
  lemma CellAt(origin: Box, childWidth: real, childHeight: real, spacing: real, ncols: nat, row: nat, col: nat)
    requires col < ncols
    ensures CellBox(origin, childWidth, childHeight, spacing, ncols, row * ncols + col)
      == Box(NearEdge(origin.x1, childWidth, spacing, col), NearEdge(origin.y1, childHeight, spacing, row),
             FarEdge(origin.x1, childWidth, spacing, col), FarEdge(origin.y1, childHeight, spacing, row))
  {
    RowMajorIndex(row, col, ncols);
  }

  /** Child `row * ncols + col` is the cell at (`row`, `col`). */
  lemma RowMajorIndex(row: nat, col: nat, ncols: nat)
    requires col < ncols
    ensures (row * ncols + col) / ncols == row && (row * ncols + col) % ncols == col
  {
    DivModUnique(row * ncols + col, ncols, row, col);
  }

  /** Euclidean division is determined by quotient and remainder. */
  lemma DivModUnique(i: int, n: int, q: int, r: int)
    requires 0 <= r < n && i == q * n + r
    ensures i / n == q && i % n == r
  {
    var d := q - i / n;
    assert d * n == i % n - r;
    if d > 0 {
      assert false;
    } else if d < 0 {
      assert false;
    }
  }

  /** Along one axis, the edges of the `k`-th cell in closed form: the far
      edge is `origin + k * (cell + spacing) + cell` rounded, and each near
      edge after the first is the previous such rounded edge plus the spacing. */
  lemma EdgesClosedForm(origin: real, cell: real, spacing: real, k: nat)
    ensures FarEdge(origin, cell, spacing, k) == Round(origin + (k as real) * (cell + spacing) + cell) as real
    ensures NearEdge(origin, cell, spacing, k)
      == if k == 0 then origin else Round(origin + ((k - 1) as real) * (cell + spacing) + cell) as real + spacing
  {
    OffsetClosedForm(origin, cell, spacing, k);
    assert ExactFar(origin, cell, spacing, k) == origin + (k as real) * (cell + spacing) + cell;
    if k > 0 {
      OffsetClosedForm(origin, cell, spacing, k - 1);
      assert ExactFar(origin, cell, spacing, k - 1) == origin + ((k - 1) as real) * (cell + spacing) + cell;
    }
  }

  /** The box of the cell at (`row`, `col`) in closed form, as the source's
      running sums compute it. */
  lemma CellEdgesClosedForm(origin: Box, childWidth: real, childHeight: real, spacing: real, ncols: nat, row: nat, col: nat)
    requires col < ncols
    ensures var b := CellBox(origin, childWidth, childHeight, spacing, ncols, row * ncols + col);
      && b.x2 == Round(origin.x1 + (col as real) * (childWidth + spacing) + childWidth) as real
      && b.y2 == Round(origin.y1 + (row as real) * (childHeight + spacing) + childHeight) as real
      && b.x1 == (if col == 0 then origin.x1
                  else Round(origin.x1 + ((col - 1) as real) * (childWidth + spacing) + childWidth) as real + spacing)
      && b.y1 == (if row == 0 then origin.y1
                  else Round(origin.y1 + ((row - 1) as real) * (childHeight + spacing) + childHeight) as real + spacing)
  {
    CellAt(origin, childWidth, childHeight, spacing, ncols, row, col);
    EdgesClosedForm(origin.x1, childWidth, spacing, col);
    EdgesClosedForm(origin.y1, childHeight, spacing, row);
  }

  /** Neighbours within a row: the first cell of a row starts at the box's
      left edge; every later cell starts one spacing after the previous
      cell's far edge; all cells of a row share their top and bottom edges. */
  lemma CellsInRow(origin: Box, childWidth: real, childHeight: real, spacing: real, ncols: nat, row: nat, col: nat)
    requires col < ncols
    ensures var here := CellBox(origin, childWidth, childHeight, spacing, ncols, row * ncols + col);
      && (col == 0 ==> here.x1 == origin.x1)
      && (col + 1 < ncols ==>
            var next := CellBox(origin, childWidth, childHeight, spacing, ncols, row * ncols + col + 1);
            next.x1 == here.x2 + spacing && next.y1 == here.y1 && next.y2 == here.y2)
  {
    RowMajorIndex(row, col, ncols);
    if col + 1 < ncols {
      RowMajorIndex(row, col + 1, ncols);
    }
  }

  /** Neighbours within a column: the first row starts at the box's top edge;
      every later row starts one spacing below the previous row's far edge;
      all cells of a column share their left and right edges. */
  lemma CellsInColumn(origin: Box, childWidth: real, childHeight: real, spacing: real, ncols: nat, row: nat, col: nat)
    requires col < ncols
    ensures var here := CellBox(origin, childWidth, childHeight, spacing, ncols, row * ncols + col);
      var below := CellBox(origin, childWidth, childHeight, spacing, ncols, (row + 1) * ncols + col);
      && (row == 0 ==> here.y1 == origin.y1)
      && below.y1 == here.y2 + spacing && below.x1 == here.x1 && below.x2 == here.x2
  {
    RowMajorIndex(row, col, ncols);
    RowMajorIndex(row + 1, col, ncols);
  }

  /** Rounding only the far edges keeps every cell within one pixel of its
      exact size, and every far edge within half a pixel of where the exact
      grid puts it, so no error accumulates along a row or a column. */
  lemma CellsTrackExactGrid(origin: Box, childWidth: real, childHeight: real, spacing: real, ncols: nat, i: nat)
    requires ncols >= 1
    ensures var b := CellBox(origin, childWidth, childHeight, spacing, ncols, i);
      && childWidth - 1.0 < b.x2 - b.x1 < childWidth + 1.0
      && childHeight - 1.0 < b.y2 - b.y1 < childHeight + 1.0
      && ExactFar(origin.x1, childWidth, spacing, i % ncols) - 0.5 < b.x2 <= ExactFar(origin.x1, childWidth, spacing, i % ncols) + 0.5
      && ExactFar(origin.y1, childHeight, spacing, i / ncols) - 0.5 < b.y2 <= ExactFar(origin.y1, childHeight, spacing, i / ncols) + 0.5
  {
    EdgeSpan(origin.x1, childWidth, spacing, i % ncols);
    EdgeSpan(origin.y1, childHeight, spacing, i / ncols);
  }

  /** Along one axis, the `k`-th cell spans within one pixel of `cell`. */
  lemma EdgeSpan(origin: real, cell: real, spacing: real, k: nat)
    ensures cell - 1.0 < FarEdge(origin, cell, spacing, k) - NearEdge(origin, cell, spacing, k) < cell + 1.0
  {
    if k > 0 {
      var prev := ExactFar(origin, cell, spacing, k - 1);
      assert ExactFar(origin, cell, spacing, k) == prev + cell + spacing;
    }
  }
}
