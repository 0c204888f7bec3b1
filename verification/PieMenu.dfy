/** Hit-testing of the radial menu (PieMenuView): n equal sectors around the press
    point, sector 0 centred on north and the sectors numbered clockwise. The menu has
    no outer edge; only the dead zone around the press point selects nothing. */
module PieMenu {
  import opened Common

  /** Math.toDegrees(Math.atan2(y, x)) for the offset (x, y): an angle in degrees in
      [-180, 180], growing clockwise on the screen, where y points down. The
      trigonometry itself is not modelled; the angle is an input. */
  type Degrees = a: real | -180.0 <= a <= 180.0

  /** The angular width of one sector, 360 / n degrees. */
  function SectorWidth(n: nat): (s: real)
    requires n >= 1
    ensures s > 0.0 && s * n as real == 360.0
  {
    360.0 / n as real
  }

  /** The pointer's angle turned so that 0 is the start edge of sector 0:
      (toDegrees(atan2 + PI / 2) + 0.5 * 360 / n + 360) % 360. */
  function NormalisedAngle(theta: Degrees, n: nat): (a: real)
    requires n >= 1
    ensures 0.0 <= a < 360.0
  {
    FloatRem(theta + 90.0 + 0.5 * 360.0 / n as real + 360.0, 360.0)
  }

  /** essentialGeometry(p): -1 inside the dead zone, otherwise the sector holding
      the normalised angle. An empty menu divides by zero: the angle is NaN and
      Java's (int) cast of NaN is 0. */
  function EssentialGeometry(p: Point, theta: Degrees, n: nat, minDist: nat): (r: int)
    ensures r >= -1
    ensures r == -1 <==> InDeadZone(p, minDist)
    ensures n == 0 ==> r <= 0
    ensures n >= 1 && r >= 0 ==>
              r < n
              && r as real * SectorWidth(n) <= NormalisedAngle(theta, n) < (r + 1) as real * SectorWidth(n)
  {
    if InDeadZone(p, minDist) then -1
    else if n == 0 then 0
    else
      var a := NormalisedAngle(theta, n);
      SectorBounds(a, n);
      Trunc(a / SectorWidth(n))
  }

  /** The sector number floor(a / (360 / n)) of an angle a in [0, 360) is a valid
      sector whose band of angles contains a. */
  lemma SectorBounds(a: real, n: nat)
    requires n >= 1 && 0.0 <= a < 360.0
    ensures var s, r := SectorWidth(n), Trunc(a / SectorWidth(n));
            0 <= r < n && r as real * s <= a < (r + 1) as real * s
  {
    var s := SectorWidth(n);
    var q := a / s;
    assert q >= 0.0 by {
      ScaleBounds(a, s, 0.0, 360.0 / s + 1.0);
    }
    var r := Trunc(q);
    assert r as real <= q < r as real + 1.0;
    ScaleBounds(a, s, r as real, r as real + 1.0);
    assert r as real * s < n as real * s by {
      assert r as real * s <= a < 360.0;
      assert n as real * s == 360.0;
    }
    CancelLtReal(r as real, n as real, s);
  }

  /** Two sectors never share an angle. */
  lemma SectorsDisjoint(n: nat, a: real, k: int, k': int)
    requires n >= 1
    requires k as real * SectorWidth(n) <= a < (k + 1) as real * SectorWidth(n)
    requires k' as real * SectorWidth(n) <= a < (k' + 1) as real * SectorWidth(n)
    ensures k == k'
  {
    var s := SectorWidth(n);
    ScaleBounds(a, s, k as real, k as real + 1.0);
    ScaleBounds(a, s, k' as real, k' as real + 1.0);
  }

  /** Sector k is centred on the direction k * 360 / n degrees clockwise from north
      (north is theta = -90) and reaches half a sector either side, the start side
      included: every angle -90 + k * 360 / n + d with -s/2 <= d < s/2, taken modulo
      a whole turn, selects k. */
  lemma SectorAroundCentre(p: Point, theta: Degrees, n: nat, minDist: nat, k: int, d: real, turns: int)
    requires n >= 1 && 0 <= k < n
    requires !InDeadZone(p, minDist)
    requires -0.5 * SectorWidth(n) <= d < 0.5 * SectorWidth(n)
    requires theta == -90.0 + k as real * SectorWidth(n) + d + 360.0 * turns as real
    ensures EssentialGeometry(p, theta, n, minDist) == k
  {
    var s := SectorWidth(n);
    var b := k as real * s + d + 0.5 * s;
    NormalisedAngleNearCentre(theta, n, k, d, turns);
    assert k as real * s <= NormalisedAngle(theta, n) < (k + 1) as real * s;
    SectorOfAngle(p, theta, n, minDist, k);
  }

  /** Outside the dead zone, the sector whose band holds the normalised angle is selected. */
  lemma SectorOfAngle(p: Point, theta: Degrees, n: nat, minDist: nat, k: int)
    requires n >= 1 && !InDeadZone(p, minDist)
    requires k as real * SectorWidth(n) <= NormalisedAngle(theta, n) < (k + 1) as real * SectorWidth(n)
    ensures EssentialGeometry(p, theta, n, minDist) == k
  {
    var r := EssentialGeometry(p, theta, n, minDist);
    SectorsDisjoint(n, NormalisedAngle(theta, n), r, k);
  }

  lemma NormalisedAngleNearCentre(theta: Degrees, n: nat, k: int, d: real, turns: int)
    requires n >= 1 && 0 <= k < n
    requires -0.5 * SectorWidth(n) <= d < 0.5 * SectorWidth(n)
    requires theta == -90.0 + k as real * SectorWidth(n) + d + 360.0 * turns as real
    ensures var s := SectorWidth(n);
            var b := k as real * s + d + 0.5 * s;
            k as real * s <= b < (k + 1) as real * s && b < 360.0
            && NormalisedAngle(theta, n) == b
  {
    var s := SectorWidth(n);
    var b := k as real * s + d + 0.5 * s;
    assert (k + 1) as real * s <= 360.0 by {
      MulLeReal((k + 1) as real, n as real, s);
    }
    assert 0.5 * 360.0 / n as real == 0.5 * s;
    var a := theta + 90.0 + 0.5 * 360.0 / n as real + 360.0;
    assert a == b + 360.0 * (turns + 1) as real;
    assert turns + 1 >= 0;
    RemOfShift(b, 360.0, turns + 1);
  }

  /** Straight north (atan2 = -90 degrees) selects sector 0, whatever the number of items. */
  lemma NorthIsSectorZero(p: Point, n: nat, minDist: nat)
    requires n >= 1 && !InDeadZone(p, minDist)
    ensures EssentialGeometry(p, -90.0, n, minDist) == 0
  {
    SectorAroundCentre(p, -90.0, n, minDist, 0, 0.0, 0);
  }

  /** With four items, 45 degrees clockwise from north (atan2 = -45) lies on the
      boundary between sectors 0 and 1 and belongs to sector 1, which starts there. */
  lemma BoundaryBelongsToNextSector(p: Point, minDist: nat)
    requires !InDeadZone(p, minDist)
    ensures EssentialGeometry(p, -45.0, 4, minDist) == 1
  {
    SectorAroundCentre(p, -45.0, 4, minDist, 1, -45.0, 0);
  }
}
