/** Value types shared by the menu views, the trials and the session, and the Java
    numeric conventions (casts and integer division) that their arithmetic relies on. */
module Common {

  datatype Option<+T> = None | Some(value: T)

  datatype Result<+T, +E> = Success(value: T) | Failure(error: E)

  /** A screen dimension in pixels, derived from the display; always positive. */
  type Pixels = n: int | n > 0 witness 1

  /** An android.graphics.PointF. Float coordinates are modelled as reals. */
  datatype Point = Point(x: real, y: real)

  /** The point (0,0), the default start point of a menu. */
  const Origin: Point := Point(0.0, 0.0)

  /** The square of getDistance(p), the distance of p from the origin. */
  function DistSq(p: Point): (d: real)
    ensures d >= 0.0
  {
    p.x * p.x + p.y * p.y
  }

  /** getDistance(p) < MIN_DIST. Both sides are non-negative, so the comparison
      of the square root with MIN_DIST is done on squares. */
  predicate InDeadZone(p: Point, minDist: nat)
    // the dead zone lies inside the square of side 2 * MIN_DIST around the press point
    ensures InDeadZone(p, minDist) ==>
              -(minDist as real) < p.x < minDist as real && -(minDist as real) < p.y < minDist as real
    // and, when MIN_DIST is positive, holds the press point itself
    ensures minDist > 0 && p == Origin ==> InDeadZone(p, minDist)
  {
    assert !(-(minDist as real) < p.x < minDist as real && -(minDist as real) < p.y < minDist as real)
           ==> DistSq(p) >= (minDist * minDist) as real by {
      CastMul(minDist, minDist);
      SquaresBelowDistSq(p);
      if !(-(minDist as real) < p.x < minDist as real) {
        AtLeastInSquare(minDist as real, p.x);
      } else if !(-(minDist as real) < p.y < minDist as real) {
        AtLeastInSquare(minDist as real, p.y);
      }
    }
    DistSq(p) < (minDist * minDist) as real
  }

  /** Each coordinate's square is at most the squared distance. */
  lemma SquaresBelowDistSq(p: Point)
    ensures p.x * p.x <= DistSq(p) && p.y * p.y <= DistSq(p)
  {
    assert p.x * p.x >= 0.0 && p.y * p.y >= 0.0;
  }

  /** A coordinate at least d away from 0, on either side, has a square of at least d * d. */
  lemma AtLeastInSquare(d: real, v: real)
    requires d >= 0.0 && (v <= -d || d <= v)
    ensures d * d <= v * v
  {
    if v >= d {
      SquareLe(d, v);
    } else {
      SquareLe(d, -v);
      assert (-v) * (-v) == v * v;
    }
  }

  function Min(a: int, b: int): (m: int)
    ensures m <= a && m <= b
    ensures m == a || m == b
  {
    if a <= b then a else b
  }

  /** Java's (int) cast of a float: truncation toward zero. */
  function Trunc(x: real): (r: int)
    ensures x >= 0.0 ==> r >= 0 && r as real <= x < r as real + 1.0
    ensures x < 0.0 ==> r <= 0 && x <= r as real < x + 1.0
  {
    if x >= 0.0 then x.Floor else -((-x).Floor)
  }

  /** Java's `/` on ints, which truncates toward zero (Dafny's `/` is Euclidean). */
  function JavaDiv(a: int, b: int): (q: int)
    requires b > 0
    ensures a >= 0 ==> q >= 0 && q * b <= a < q * b + b
    ensures a < 0 ==> q <= 0 && q * b - b < a <= q * b
  {
    if a >= 0 then a / b else -((-a) / b)
  }

  /** Java's `%` on doubles: the remainder keeps the sign of the dividend. */
  function FloatRem(a: real, m: real): (r: real)
    requires m > 0.0
    ensures a >= 0.0 ==> 0.0 <= r < m && (a - r) / m == (a / m).Floor as real
  {
    var k := Trunc(a / m);
    if a >= 0.0 then
      ScaleBounds(a, m, k as real, k as real + 1.0);
      a - m * k as real
    else
      a - m * k as real
  }

  /** Java's `%` removes whole multiples of m from a non-negative dividend. */
  lemma RemOfShift(b: real, m: real, q: int)
    requires m > 0.0 && 0.0 <= b < m && q >= 0
    ensures FloatRem(b + m * q as real, m) == b
  {
    var qr := q as real;
    var a := b + m * qr;
    MulNonneg(m, qr);
    DivAddMultiple(b, m, qr);
    ScaleBounds(b, m, 0.0, 1.0);
    FloorShift(b / m, q);
    assert Trunc(a / m) == q;
    assert FloatRem(a, m) == a - m * qr;
    assert FloatRem(a, m) == b;
    assert b + m * q as real == a;
  }

  lemma MulNonneg(a: real, b: real)
    requires a >= 0.0 && b >= 0.0
    ensures a * b >= 0.0
  {
  }

  /** (b + m * q) / m == b / m + q for a positive m. */
  lemma DivAddMultiple(b: real, m: real, q: real)
    requires m > 0.0
    ensures (b + m * q) / m == b / m + q
  {
    assert (b / m + q) * m == b / m * m + q * m;
    assert b / m * m == b;
  }

  /** Adding a whole number to a fraction in [0, 1) gives that number as its floor. */
  lemma FloorShift(x: real, q: int)
    requires 0.0 <= x < 1.0
    ensures (x + q as real).Floor == q
  {
  }

  /** lo <= y / w < hi, for a positive w, is lo * w <= y < hi * w. */
  lemma ScaleBounds(y: real, w: real, lo: real, hi: real)
    requires w > 0.0
    ensures lo <= y / w < hi <==> lo * w <= y < hi * w
  {
    assert y / w * w == y;
    if lo <= y / w {
      assert lo * w <= y / w * w;
    }
    if y / w < hi {
      assert y / w * w < hi * w;
    }
    if lo * w <= y {
      assert lo <= y / w;
    }
    if y < hi * w {
      assert y / w < hi;
    }
  }

  /** Cancelling a positive factor from a strict comparison of products. */
  lemma CancelLt(a: int, b: int, h: int)
    requires h > 0 && a * h < b * h
    ensures a < b
  {
  }

  /** Dividing a multiple of w by w gives the factor back. */
  lemma DivOfMultiple(w: real, a: real)
    requires w > 0.0
    ensures (w * a) / w == a
  {
  }

  /** Cancelling a positive real factor from a strict comparison of products. */
  lemma CancelLtReal(a: real, b: real, s: real)
    requires s > 0.0 && a * s < b * s
    ensures a < b
  {
  }

  /** Multiplying by a positive real keeps a non-strict comparison. */
  lemma MulLeReal(a: real, b: real, s: real)
    requires s > 0.0 && a <= b
    ensures a * s <= b * s
  {
  }

  /** Squaring is monotone on non-negative reals. */
  lemma SquareLe(a: real, b: real)
    requires 0.0 <= a <= b
    ensures a * a <= b * b
  {
    assert a * a <= a * b;
    assert a * b <= b * b;
  }

  /** Euclidean division of an int by a positive int, as bounds on the quotient. */
  lemma DivBounds(f: int, w: int)
    requires w > 0
    ensures (f / w) * w <= f < (f / w) * w + w
  {
  }

  /** Casting to real commutes with multiplication. */
  lemma CastMul(a: int, b: int)
    ensures (a * b) as real == a as real * b as real
  {
  }

  /** For a non-negative y, dividing its integer part by w is flooring y / w:
      (int) y / w == floor(y / w). */
  lemma FloorThenDivide(y: real, w: Pixels)
    requires y >= 0.0
    ensures y.Floor / w == (y / w as real).Floor
  {
    var f := y.Floor;
    var q := f / w;
    DivBounds(f, w);
    CastMul(q, w);
    CastMul(q + 1, w);
    assert (q * w) as real <= y;
    assert y < ((q + 1) * w) as real;
    ScaleBounds(y, w as real, q as real, q as real + 1.0);
  }
}
