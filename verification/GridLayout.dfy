/** The grid of the tiled view: how many columns and rows for `n` streams, and where each cell lies. */
module GridLayout {
  import opened Arithmetic

  /** Pixels `x0 <= x < x1`, `y0 <= y < y1`. */
  datatype Area = Area(x0: nat, y0: nat, x1: nat, y1: nat) {
    predicate Contains(x: int, y: int) {
      x0 <= x < x1 && y0 <= y < y1
    }
  }

  /** Where cell `i` starts along one axis: each cell has a gutter in front of it. */
  function AxisStart(i: nat, cell: nat, padding: nat): nat {
    padding + i * (cell + padding)
  }

  datatype Layout = Layout(rows: nat, cols: nat, cellWidth: nat, cellHeight: nat, padding: nat) {
    function CellRect(row: nat, col: nat): Area {
      var x := AxisStart(col, cellWidth, padding);
      var y := AxisStart(row, cellHeight, padding);
      Area(x, y, x + cellWidth, y + cellHeight)
    }
  }

  /** The least `c >= from` whose square reaches `n`. */
  function CeilSqrtFrom(n: nat, from: nat): (c: nat)
    ensures c * c >= n
    decreases n - from * from
  {
    if from * from >= n then from else CeilSqrtFrom(n, from + 1)
  }

  function CeilSqrt(n: nat): nat {
    CeilSqrtFrom(n, 0)
  }

  function CeilDiv(n: nat, d: nat): (q: nat)
    requires d > 0
    ensures n > 0 ==> q > 0
  {
    (n + d - 1) / d
  }

  /** Columns, as the source's table and its fall-back formula give them. */
  function Columns(n: nat): (c: nat)
    ensures c >= 1
  {
    if n <= 1 then 1
    else if n <= 4 then 2
    else if n <= 9 then 3
    else if n <= 12 then 4
    else CeilSqrt(n)
  }

  function Rows(n: nat): (r: nat)
    ensures r >= 1
  {
    if n <= 2 then 1
    else if n <= 6 then 2
    else if n <= 12 then 3
    else CeilDiv(n, Columns(n))
  }

  /** The window leaves room for the gutters; otherwise the source's unsigned subtraction underflows. */
  predicate Fits(n: nat, width: nat, height: nat, padding: nat) {
    n == 0 || (padding * (Columns(n) + 1) <= width && padding * (Rows(n) + 1) <= height)
  }

  lemma {:induction false} CeilSqrtFromBounds(n: nat, from: nat)
    requires from == 0 || (from - 1) * (from - 1) < n
    ensures var c := CeilSqrtFrom(n, from);
            c * c >= n && (c == 0 || (c - 1) * (c - 1) < n)
    decreases n - from * from
  {
    if from * from < n {
      CeilSqrtFromBounds(n, from + 1);
    }
  }

  lemma {:induction false} CeilSqrtUnique(n: nat, c: nat)
    requires c > 0 && (c - 1) * (c - 1) < n <= c * c
    ensures CeilSqrt(n) == c
  {
    CeilSqrtFromBounds(n, 0);
    var d := CeilSqrt(n);
    if d < c {
      SquareLe(d, c - 1);
    } else if d > c {
      SquareLe(c, d - 1);
    }
  }

  lemma {:induction false} CeilDivBounds(n: nat, d: nat)
    requires d > 0
    ensures n <= CeilDiv(n, d) * d < n + d
  {
  }

  /** The hand-written table is the general formula: the near-square grid, for every number of streams. */
  lemma {:induction false} TableAgreesWithFormula(n: nat)
    requires n >= 1
    ensures Columns(n) == CeilSqrt(n) >= 1
    ensures Rows(n) == CeilDiv(n, CeilSqrt(n))
  {
    CeilSqrtFromBounds(n, 0);
    if n <= 1 {
      CeilSqrtUnique(n, 1);
    } else if n <= 4 {
      CeilSqrtUnique(n, 2);
    } else if n <= 9 {
      CeilSqrtUnique(n, 3);
    } else if n <= 12 {
      CeilSqrtUnique(n, 4);
    }
  }

  /** Every stream has a cell, no row is wholly empty, and the grid is as narrow as a near-square one can be. */
  lemma {:induction false} GridHoldsAllStreams(n: nat)
    requires n >= 1
    ensures (Rows(n) - 1) * Columns(n) < n <= Rows(n) * Columns(n)
    ensures (Columns(n) - 1) * (Columns(n) - 1) < n && Rows(n) <= Columns(n)
  {
    TableAgreesWithFormula(n);
    CeilSqrtFromBounds(n, 0);
    var c := Columns(n);
    CeilDivBounds(n, c);
    if Rows(n) > c {
      MulLe(c, Rows(n) - 1, c);
    }
  }

  /** Stream `k`, placed row by row, gets a cell of the grid. */
  lemma {:induction false} StreamHasCell(n: nat, k: nat)
    requires k < n
    ensures k / Columns(n) < Rows(n) && k % Columns(n) < Columns(n)
  {
    GridHoldsAllStreams(n);
    RowMajorBound(k, Rows(n), Columns(n));
  }

  function Compute(n: nat, width: nat, height: nat, padding: nat): Layout
    requires Fits(n, width, height, padding)
  {
    if n == 0 then Layout(1, 1, width, height, padding)
    else
      Layout(Rows(n), Columns(n),
             CellSide(width, Columns(n), padding),
             CellSide(height, Rows(n), padding),
             padding)
  }

  /** Intervals on one axis that are `gap` apart, either way round. */
  predicate Apart(a0: int, a1: int, b0: int, b1: int, gap: nat) {
    a1 + gap <= b0 || b1 + gap <= a0
  }

  lemma {:induction false} StridesApart(i: nat, j: nat, cell: nat, padding: nat)
    requires i < j
    ensures AxisStart(i, cell, padding) + cell + padding <= AxisStart(j, cell, padding)
  {
    MulLe(i + 1, j, cell + padding);
  }

  function CellSide(side: nat, count: nat, padding: nat): nat
    requires count > 0 && padding * (count + 1) <= side
  {
    (side - padding * (count + 1)) / count
  }

  /** Cells are as large as the window allows: one pixel more each, and they would not fit beside their gutters. */
  lemma {:induction false} CellsAreMaximal(side: nat, count: nat, padding: nat)
    requires count > 0 && padding * (count + 1) <= side
    ensures var cell := CellSide(side, count, padding);
            count * cell + padding * (count + 1) <= side < count * (cell + 1) + padding * (count + 1)
  {
    DivBounds(side - padding * (count + 1), count);
  }

  /** Without streams the one cell is the window. */
  lemma {:induction false} EmptyGrid(width: nat, height: nat, padding: nat)
    ensures var l := Compute(0, width, height, padding);
            l.rows == 1 && l.cols == 1 && l.cellWidth == width && l.cellHeight == height && l.padding == padding
  {
  }

  /** Along one axis: cell `i`, after its gutters, ends at least one gutter before the far edge. */
  lemma {:induction false} AxisCellInside(side: nat, count: nat, padding: nat, i: nat)
    requires i < count && padding * (count + 1) <= side
    ensures var cell := CellSide(side, count, padding);
            padding <= AxisStart(i, cell, padding) && AxisStart(i, cell, padding) + cell + padding <= side
  {
    var cell := CellSide(side, count, padding);
    assert cell * count <= side - padding * (count + 1);
    assert count * (cell + padding) == cell * count + padding * count;
    assert padding * (count + 1) == padding * count + padding;
    StridesApart(i, count, cell, padding);
  }

  /** Two different cells are at least `padding` apart on one of the axes, hence disjoint. */
  lemma {:induction false} CellsApart(l: Layout, r: nat, c: nat, r': nat, c': nat)
    requires (r, c) != (r', c')
    ensures var a, b := l.CellRect(r, c), l.CellRect(r', c');
            Apart(a.x0, a.x1, b.x0, b.x1, l.padding) || Apart(a.y0, a.y1, b.y0, b.y1, l.padding)
  {
    if c < c' {
      StridesApart(c, c', l.cellWidth, l.padding);
    } else if c' < c {
      StridesApart(c', c, l.cellWidth, l.padding);
    } else if r < r' {
      StridesApart(r, r', l.cellHeight, l.padding);
    } else {
      StridesApart(r', r, l.cellHeight, l.padding);
    }
  }

  /** Every cell of a computed grid lies in the window, at least `padding` from its four edges. */
  lemma {:induction false} CellInsideWindow(n: nat, width: nat, height: nat, padding: nat, row: nat, col: nat)
    requires n >= 1 && Fits(n, width, height, padding)
    requires row < Rows(n) && col < Columns(n)
    ensures var a := Compute(n, width, height, padding).CellRect(row, col);
            padding <= a.x0 && a.x1 + padding <= width && padding <= a.y0 && a.y1 + padding <= height
  {
    AxisCellInside(width, Columns(n), padding, col);
    AxisCellInside(height, Rows(n), padding, row);
  }
}
