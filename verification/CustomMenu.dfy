/** Hit-testing of the grid menu (CustomMenuView): the items laid out row by row,
    three square cells of side cellWidth per row, below and right of the press point. */
module CustomMenu {
  import opened Common

  /** CELLS_PER_LEVEL: the number of cells in one row. */
  const CellsPerLevel: nat := 3

  /** The number of rows, (n - 1) / 3 + 1 in Java arithmetic: ceil(n / 3) for a
      non-empty menu, and 1 for an empty one (Java truncates -1 / 3 to 0). */
  function Rows(n: nat): (rows: int)
    ensures n >= 1 ==> (rows - 1) * CellsPerLevel < n <= rows * CellsPerLevel
    ensures n == 0 ==> rows == 1
  {
    JavaDiv(n - 1, CellsPerLevel) + 1
  }

  /** The raw index (int) p.y / W * 3 + (int) p.x / W: for an offset right of and
      below the press point, the row-major number of the cell holding it. */
  function RawIndex(p: Point, cellWidth: Pixels): (i: int)
    ensures p.x >= 0.0 && p.y >= 0.0 ==>
              i == (p.y / cellWidth as real).Floor * CellsPerLevel + (p.x / cellWidth as real).Floor
  {
    assert p.x >= 0.0 && p.y >= 0.0 ==>
             JavaDiv(Trunc(p.x), cellWidth) == (p.x / cellWidth as real).Floor
             && JavaDiv(Trunc(p.y), cellWidth) == (p.y / cellWidth as real).Floor by {
      if p.x >= 0.0 && p.y >= 0.0 {
        FloorThenDivide(p.x, cellWidth);
        FloorThenDivide(p.y, cellWidth);
      }
    }
    JavaDiv(Trunc(p.y), cellWidth) * CellsPerLevel + JavaDiv(Trunc(p.x), cellWidth)
  }

  /** essentialGeometry(p): the raw index of p, or -1 when p is in the dead zone,
      outside the grid's bounding box, or over an empty cell of the last row. */
  function EssentialGeometry(p: Point, n: nat, cellWidth: Pixels, minDist: nat): (r: int)
    ensures -1 <= r < n
    ensures (InDeadZone(p, minDist) || p.x < 0.0 || p.x > (cellWidth * CellsPerLevel) as real
             || p.y < 0.0 || p.y > (cellWidth * Rows(n)) as real || RawIndex(p, cellWidth) >= n)
            ==> r == -1
    ensures r >= 0 ==> !InDeadZone(p, minDist)
                       && 0.0 <= p.x <= (cellWidth * CellsPerLevel) as real
                       && 0.0 <= p.y <= (cellWidth * Rows(n)) as real
                       && r == (p.y / cellWidth as real).Floor * CellsPerLevel
                               + (p.x / cellWidth as real).Floor
    // conversely, a point in the box, outside the dead zone, over a filled cell selects it
    ensures (!InDeadZone(p, minDist) && 0.0 <= p.x <= (cellWidth * CellsPerLevel) as real
             && 0.0 <= p.y <= (cellWidth * Rows(n)) as real && RawIndex(p, cellWidth) < n)
            ==> r == RawIndex(p, cellWidth)
  {
    var height := Rows(n);
    var index := RawIndex(p, cellWidth);
    if InDeadZone(p, minDist) || p.x > (cellWidth * CellsPerLevel) as real || p.x < 0.0
       || p.y > (cellWidth * height) as real || p.y < 0.0 || index >= n
    then -1
    else index
  }

  /** The cell a floor quotient names holds the coordinate: r = floor(v / w) gives
      r * w <= v < (r + 1) * w. */
  lemma FloorBand(v: real, w: Pixels)
    requires v >= 0.0
    ensures var r := (v / w as real).Floor;
            (r * w) as real <= v < ((r + 1) * w) as real
  {
    var r := (v / w as real).Floor;
    ScaleBounds(v, w as real, r as real, r as real + 1.0);
    assert (r * w) as real == r as real * w as real;
    assert ((r + 1) * w) as real == (r as real + 1.0) * w as real;
  }

  /** Away from the right edge, the selected item's cell, in row r / 3 and column
      r % 3, contains the offset. */
  lemma SelectedCellContainsPoint(p: Point, n: nat, cellWidth: Pixels, minDist: nat)
    requires p.x < (cellWidth * CellsPerLevel) as real
    requires EssentialGeometry(p, n, cellWidth, minDist) >= 0
    ensures var r := EssentialGeometry(p, n, cellWidth, minDist);
            var row, col := r / CellsPerLevel, r % CellsPerLevel;
            (row * cellWidth) as real <= p.y < ((row + 1) * cellWidth) as real
            && (col * cellWidth) as real <= p.x < ((col + 1) * cellWidth) as real
  {
    var r := EssentialGeometry(p, n, cellWidth, minDist);
    var fx := (p.x / cellWidth as real).Floor;
    var fy := (p.y / cellWidth as real).Floor;
    FloorBand(p.x, cellWidth);
    FloorBand(p.y, cellWidth);
    assert fx < CellsPerLevel by {
      assert (fx * cellWidth) as real < (CellsPerLevel * cellWidth) as real;
      CancelLt(fx, CellsPerLevel, cellWidth);
    }
    assert 0 <= fx;
    assert r == fy * CellsPerLevel + fx;
    RowAndColumn(fy, fx);
  }

  /** Row-major numbering: cell (row, col) of the grid has number row * 3 + col. */
  lemma RowAndColumn(row: int, col: int)
    requires 0 <= col < CellsPerLevel
    ensures (row * CellsPerLevel + col) / CellsPerLevel == row
    ensures (row * CellsPerLevel + col) % CellsPerLevel == col
  {
  }

  /** The right edge belongs to the next row: with four or more items, a point on
      the right edge of the first row selects item 3, the first cell of the second row. */
  lemma RightEdgeSpillsIntoNextRow(n: nat, cellWidth: Pixels, minDist: nat)
    requires n >= 4
    requires 2 * minDist <= cellWidth
    ensures EssentialGeometry(Point((3 * cellWidth) as real, cellWidth as real / 2.0), n,
                              cellWidth, minDist) == 3
  {
    var w := cellWidth as real;
    var p := Point((3 * cellWidth) as real, w / 2.0);
    CastMul(3, cellWidth);
    assert !InDeadZone(p, minDist) by {
      SquareLe(minDist as real, p.x);
      CastMul(minDist, minDist);
      assert p.x * p.x <= DistSq(p);
    }
    DivOfMultiple(w, 3.0);
    DivOfMultiple(w, 0.5);
    assert p.x / w == 3.0 && p.y / w == 0.5;
    assert RawIndex(p, cellWidth) == 3;
    assert cellWidth <= cellWidth * Rows(n) by {
      MulAtLeast(cellWidth, Rows(n));
    }
  }

  lemma MulAtLeast(a: Pixels, b: int)
    requires b >= 1
    ensures a <= a * b
  {
  }

  /** With five items, the offset (2.5W, 1.5W) lies in row 1, column 2: raw index 5,
      an empty cell of the partly filled last row, so nothing is selected. */
  lemma WorkedExample(cellWidth: Pixels, minDist: nat)
    ensures RawIndex(Point(cellWidth as real * 2.5, cellWidth as real * 1.5), cellWidth) == 5
    ensures EssentialGeometry(Point(cellWidth as real * 2.5, cellWidth as real * 1.5), 5,
                              cellWidth, minDist) == -1
  {
    var w := cellWidth as real;
    var p := Point(w * 2.5, w * 1.5);
    assert p.x >= 0.0 && p.y >= 0.0;
    DivOfMultiple(w, 2.5);
    DivOfMultiple(w, 1.5);
    assert (2.5).Floor == 2 && (1.5).Floor == 1;
    assert RawIndex(p, cellWidth) == 1 * CellsPerLevel + 2;
  }
}
