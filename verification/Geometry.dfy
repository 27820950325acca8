/** Zone polygons drawn on a camera image (tvt_edge/geometry.py), over exact reals. */
module Geometry {

  datatype Point = Point(x: real, y: real)

  datatype Flaw = OutOfRange | TooFewPoints | SelfIntersecting | NoArea

  // ---------------------------------------------------------------- crossing segments

  function Orientation(a: Point, b: Point, c: Point): real {
    (b.x - a.x) * (c.y - a.y) - (b.y - a.y) * (c.x - a.x)
  }

  predicate Crosses(a: Point, b: Point, c: Point, d: Point) {
    Orientation(a, b, c) * Orientation(a, b, d) < 0.0 && Orientation(c, d, a) * Orientation(c, d, b) < 0.0
  }

  /** The cross product of the two directions; zero for parallel segments. */
  function Cross(a: Point, b: Point, c: Point, d: Point): real {
    (b.x - a.x) * (d.y - c.y) - (b.y - a.y) * (d.x - c.x)
  }

  /** The point at fraction s of the segment. */
  function Along(a: Point, b: Point, s: real): Point {
    Point(a.x + s * (b.x - a.x), a.y + s * (b.y - a.y))
  }

  predicate MeetAt(a: Point, b: Point, c: Point, d: Point, s: real, t: real) {
    0.0 < s < 1.0 && 0.0 < t < 1.0 && Along(a, b, s) == Along(c, d, t)
  }

  lemma SecondOrientation(a: Point, b: Point, c: Point, d: Point)
    ensures Orientation(a, b, d) == Orientation(a, b, c) + Cross(a, b, c, d)
    ensures Orientation(c, d, b) == Orientation(c, d, a) - Cross(a, b, c, d)
  {
  }

  // With u and v the directions and w from the first start to the second, two lines
  // meet at fractions s and t when s u - t v == w.

  lemma MeetingOrientation(ux: real, uy: real, vx: real, vy: real, s: real, t: real)
    ensures ux * (s * uy - t * vy) - uy * (s * ux - t * vx) == -t * (ux * vy - uy * vx)
    ensures vy * (s * ux - t * vx) - vx * (s * uy - t * vy) == s * (ux * vy - uy * vx)
  {
  }

  /** Solving for s and t, before dividing. */
  lemma Cramer(ux: real, uy: real, vx: real, vy: real, wx: real, wy: real)
    ensures (vy * wx - vx * wy) * ux + (ux * wy - uy * wx) * vx == (ux * vy - uy * vx) * wx
    ensures (vy * wx - vx * wy) * uy + (ux * wy - uy * wx) * vy == (ux * vy - uy * vx) * wy
  {
  }

  lemma Cancel(k: real, x: real, y: real)
    requires k != 0.0 && k * x == k * y
    ensures x == y
  {
    assert k * (x - y) == 0.0;
  }

  lemma OppositeSigns(o: real, den: real, t: real)
    requires den != 0.0 && 0.0 < t < 1.0 && o == -t * den
    ensures o * (o + den) < 0.0
  {
    var q, e := t * (1.0 - t), den * den;
    assert e > 0.0;
    assert q > 0.0;
    PositiveProduct(q, e);
    assert o + den == (1.0 - t) * den;
    assert o * (o + den) == -(q * e);
  }

  lemma PositiveProduct(x: real, y: real)
    requires y > 0.0
    ensures x * y > 0.0 <==> x > 0.0
  {
  }

  /** With opposite signs at the ends the zero lies strictly between. */
  lemma Fraction(o: real, den: real)
    requires o * (o + den) < 0.0
    ensures den != 0.0 && 0.0 < -o / den < 1.0 && (-o / den) * den == -o
  {
    var t := -o / den;
    if o > 0.0 {
      assert o + den < 0.0;
      Ratio(o, -den);
      assert t == o / -den;
    } else {
      assert o < 0.0 && o + den > 0.0;
      Ratio(-o, den);
    }
  }

  lemma Ratio(x: real, y: real)
    requires 0.0 < x < y
    ensures 0.0 < x / y < 1.0
  {
    var r := x / y;
    assert r * y == x;
    assert (1.0 - r) * y == y - x;
    PositiveProduct(r, y);
    PositiveProduct(1.0 - r, y);
  }

  lemma OrientationOfMeeting(a: Point, b: Point, c: Point, d: Point, s: real, t: real)
    requires Along(a, b, s) == Along(c, d, t)
    ensures Orientation(a, b, c) == -t * Cross(a, b, c, d) && Orientation(c, d, a) == s * Cross(a, b, c, d)
  {
    var ux, uy, vx, vy := b.x - a.x, b.y - a.y, d.x - c.x, d.y - c.y;
    assert c.x - a.x == s * ux - t * vx && c.y - a.y == s * uy - t * vy;
    MeetingOrientation(ux, uy, vx, vy, s, t);
  }

  lemma MeetingCrosses(a: Point, b: Point, c: Point, d: Point, s: real, t: real)
    requires Cross(a, b, c, d) != 0.0 && MeetAt(a, b, c, d, s, t)
    ensures Crosses(a, b, c, d)
  {
    var den, o1, o3 := Cross(a, b, c, d), Orientation(a, b, c), Orientation(c, d, a);
    OrientationOfMeeting(a, b, c, d, s, t);
    SecondOrientation(a, b, c, d);
    OppositeSigns(o1, den, t);
    OppositeSigns(o3, -den, s);
  }

  lemma Solve(ux: real, uy: real, vx: real, vy: real, wx: real, wy: real, den: real, s: real, t: real)
    requires den == ux * vy - uy * vx && den != 0.0
    requires s * den == vy * wx - vx * wy && t * den == -(ux * wy - uy * wx)
    ensures s * ux - t * vx == wx && s * uy - t * vy == wy
  {
    Cramer(ux, uy, vx, vy, wx, wy);
    Spread(den, s, t, ux, vx);
    Spread(den, s, t, uy, vy);
    Cancel(den, s * ux - t * vx, wx);
    Cancel(den, s * uy - t * vy, wy);
  }

  lemma Spread(den: real, s: real, t: real, u: real, v: real)
    ensures den * (s * u - t * v) == (s * den) * u - (t * den) * v
  {
  }

  lemma CrossingMeets(a: Point, b: Point, c: Point, d: Point)
    requires Crosses(a, b, c, d)
    ensures Cross(a, b, c, d) != 0.0
    ensures exists s, t :: MeetAt(a, b, c, d, s, t)
  {
    var den, o1, o3 := Cross(a, b, c, d), Orientation(a, b, c), Orientation(c, d, a);
    SecondOrientation(a, b, c, d);
    Fraction(o1, den);
    Fraction(o3, -den);
    var t, s := -o1 / den, -o3 / -den;
    OrientationByParts(a, b, c, d);
    Solve(b.x - a.x, b.y - a.y, d.x - c.x, d.y - c.y, c.x - a.x, c.y - a.y, den, s, t);
    assert MeetAt(a, b, c, d, s, t);
  }

  lemma OrientationByParts(a: Point, b: Point, c: Point, d: Point)
    ensures Orientation(c, d, a) == (d.y - c.y) * (c.x - a.x) - (d.x - c.x) * (c.y - a.y)
    ensures Orientation(a, b, c) == (b.x - a.x) * (c.y - a.y) - (b.y - a.y) * (c.x - a.x)
  {
  }

  /** Two segments cross exactly when they are not parallel and meet strictly inside both. */
  lemma CrossesMeansMeetInside(a: Point, b: Point, c: Point, d: Point)
    ensures Crosses(a, b, c, d)
            <==> Cross(a, b, c, d) != 0.0 && exists s, t :: MeetAt(a, b, c, d, s, t)
  {
    if Crosses(a, b, c, d) {
      CrossingMeets(a, b, c, d);
    }
    if Cross(a, b, c, d) != 0.0 {
      forall s, t | MeetAt(a, b, c, d, s, t) ensures Crosses(a, b, c, d) {
        MeetingCrosses(a, b, c, d, s, t);
      }
    }
  }

  lemma OrientationFlips(a: Point, b: Point, c: Point)
    ensures Orientation(b, a, c) == -Orientation(a, b, c)
  {
  }

  lemma CrossesIsSymmetric(a: Point, b: Point, c: Point, d: Point)
    ensures Crosses(a, b, c, d) == Crosses(c, d, a, b) == Crosses(b, a, d, c)
  {
    OrientationFlips(a, b, c);
    OrientationFlips(a, b, d);
    OrientationFlips(c, d, a);
    OrientationFlips(c, d, b);
  }
}
