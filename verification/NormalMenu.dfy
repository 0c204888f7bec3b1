/** Hit-testing of the linear menu (NormalMenuView): a single column of `n` cells,
    each cellWidth wide and cellHeight high, hanging below the press point. */
module NormalMenu {
  import opened Common

  /** essentialGeometry(p): the index of the cell under the offset p (relative to
      the press point), or -1 when p is left of, right of, above or below the
      column, or still within MIN_DIST of the press point. */
  function EssentialGeometry(p: Point, n: nat, cellWidth: Pixels, cellHeight: Pixels, minDist: nat): (r: int)
    ensures -1 <= r <= n
    // every point outside the column or in the dead zone selects nothing
    ensures (p.x < 0.0 || p.x > cellWidth as real || p.y < 0.0 || p.y > (cellHeight * n) as real
             || InDeadZone(p, minDist)) ==> r == -1
    // a selected cell is the one whose rows contain p.y
    ensures r >= 0 ==> 0.0 <= p.x <= cellWidth as real && !InDeadZone(p, minDist)
                       && (r * cellHeight) as real <= p.y < ((r + 1) * cellHeight) as real
    // every point strictly inside the column and outside the dead zone selects a cell
    ensures (0.0 <= p.x <= cellWidth as real && 0.0 <= p.y < (cellHeight * n) as real
             && !InDeadZone(p, minDist)) ==> 0 <= r < n
    // the only way to obtain n, one past the last cell, is the bottom edge itself
    ensures r == n ==> p.y == (cellHeight * n) as real
    // and the bottom edge, inside the column and outside the dead zone, does give n
    ensures (0.0 <= p.x <= cellWidth as real && p.y == (cellHeight * n) as real
             && !InDeadZone(p, minDist)) ==> r == n
  {
    if p.x > cellWidth as real || p.y > (cellHeight * n) as real || p.x < 0.0 || p.y < 0.0
       || InDeadZone(p, minDist)
    then -1
    else
      var r := Trunc(p.y / cellHeight as real);
      CellOf(p.y, cellHeight, r);
      assert r >= n ==> r == n && p.y == (cellHeight * n) as real by {
        if r >= n { BottomEdge(p.y, cellHeight, n, r); }
      }
      assert p.y == (cellHeight * n) as real ==> r == n by {
        if p.y == (cellHeight * n) as real { BandUnique(p.y, cellHeight, r, n); }
      }
      r
  }

  /** r = floor(y / h) places y in the band [r*h, (r+1)*h). */
  lemma CellOf(y: real, h: Pixels, r: int)
    requires y >= 0.0 && r == Trunc(y / h as real)
    ensures (r * h) as real <= y < ((r + 1) * h) as real
  {
    ScaleBounds(y, h as real, r as real, r as real + 1.0);
    assert (r * h) as real == r as real * h as real;
    assert ((r + 1) * h) as real == (r as real + 1.0) * h as real;
  }

  lemma BottomEdge(y: real, h: Pixels, n: nat, r: int)
    requires 0.0 <= y <= (h * n) as real
    requires (r * h) as real <= y < ((r + 1) * h) as real
    requires r >= n
    ensures r == n && y == (h * n) as real
  {
    assert r * h >= n * h;
    assert (r * h) as real <= (h * n) as real;
    assert r * h <= n * h;
    assert r == n;
  }

  /** Moving down never decreases the selected index: of two accepted points, the
      lower one selects the same cell or a later one, whatever their x. */
  lemma Monotone(p: Point, q: Point, n: nat, cellWidth: Pixels, cellHeight: Pixels, minDist: nat)
    requires p.y <= q.y
    requires EssentialGeometry(p, n, cellWidth, cellHeight, minDist) >= 0
    requires EssentialGeometry(q, n, cellWidth, cellHeight, minDist) >= 0
    ensures EssentialGeometry(p, n, cellWidth, cellHeight, minDist)
            <= EssentialGeometry(q, n, cellWidth, cellHeight, minDist)
  {
    var rp := EssentialGeometry(p, n, cellWidth, cellHeight, minDist);
    var rq := EssentialGeometry(q, n, cellWidth, cellHeight, minDist);
    assert (rp * cellHeight) as real < ((rq + 1) * cellHeight) as real;
    CancelLt(rp, rq + 1, cellHeight);
  }

  /** Two bands [r*h, (r+1)*h) and [k*h, (k+1)*h) that share a point are the same band. */
  lemma BandUnique(y: real, h: Pixels, r: int, k: int)
    requires (r * h) as real <= y < ((r + 1) * h) as real
    requires (k * h) as real <= y < ((k + 1) * h) as real
    ensures r == k
  {
    CancelLt(r, k + 1, h);
    CancelLt(k, r + 1, h);
  }

  /** A point at least MIN_DIST below the press point is outside the dead zone. */
  lemma BelowDeadZone(p: Point, minDist: nat)
    requires minDist as real <= p.y
    ensures !InDeadZone(p, minDist)
  {
    SquareLe(minDist as real, p.y);
    CastMul(minDist, minDist);
    assert p.y * p.y <= DistSq(p);
  }

  /** The bottom edge of a three-item menu yields index 3, one past the last item. */
  lemma BottomEdgeQuirk(cellWidth: Pixels, cellHeight: Pixels, minDist: nat)
    requires minDist <= cellHeight
    ensures EssentialGeometry(Point(cellWidth as real / 2.0, (3 * cellHeight) as real), 3,
                              cellWidth, cellHeight, minDist) == 3
  {
    var p := Point(cellWidth as real / 2.0, (3 * cellHeight) as real);
    BelowDeadZone(p, minDist);
    var r := EssentialGeometry(p, 3, cellWidth, cellHeight, minDist);
    BandUnique(p.y, cellHeight, r, 3);
  }

  /** With three items: the middle of the first cell selects 0, the middle of the
      third selects 2 and half a cell below the menu selects nothing. */
  lemma WorkedExample(cellWidth: Pixels, cellHeight: Pixels, minDist: nat)
    requires 2 * minDist <= cellHeight
    ensures EssentialGeometry(Point(cellWidth as real / 2.0, cellHeight as real / 2.0), 3,
                              cellWidth, cellHeight, minDist) == 0
    ensures EssentialGeometry(Point(cellWidth as real / 2.0, cellHeight as real * 2.5), 3,
                              cellWidth, cellHeight, minDist) == 2
    ensures EssentialGeometry(Point(cellWidth as real / 2.0, cellHeight as real * 3.5), 3,
                              cellWidth, cellHeight, minDist) == -1
  {
    var h := cellHeight as real;
    var p0 := Point(cellWidth as real / 2.0, h / 2.0);
    var p2 := Point(cellWidth as real / 2.0, h * 2.5);
    BelowDeadZone(p0, minDist);
    BelowDeadZone(p2, minDist);
    var r0 := EssentialGeometry(p0, 3, cellWidth, cellHeight, minDist);
    var r2 := EssentialGeometry(p2, 3, cellWidth, cellHeight, minDist);
    BandUnique(p0.y, cellHeight, r0, 0);
    BandUnique(p2.y, cellHeight, r2, 2);
  }
}
