/**
 * Points and the two planar predicates of the terrain triangulation
 * (TopoBuilder/TerrainGenerator.cs, IsPointInCircumcircle). Coordinates are
 * exact reals, so the determinant tests have their algebraic meaning.
 */
module Geometry {

  datatype Point2 = Point2(x: real, y: real)

  datatype Point3 = Point3(x: real, y: real, z: real)

  /** The tolerance the in-circle test compares against (1e-9). */
  const Epsilon: real := 0.000000001

  function Abs(v: real): real {
    if v < 0.0 then -v else v
  }

  function Max(a: real, b: real): real {
    if a >= b then a else b
  }

  function Min(a: real, b: real): real {
    if a <= b then a else b
  }

  /** The planar projection of an elevation sample. */
  function Project(p: Point3): Point2 {
    Point2(p.x, p.y)
  }

  function SqDist(p: Point2, q: Point2): real {
    (p.x - q.x) * (p.x - q.x) + (p.y - q.y) * (p.y - q.y)
  }

  /** Twice the signed area of (a, b, c): positive when counter-clockwise. */
  function Orientation(a: Point2, b: Point2, c: Point2): real {
    (b.x - a.x) * (c.y - a.y) - (b.y - a.y) * (c.x - a.x)
  }

  /**
   * The in-circle determinant, written in coordinates translated so that
   * p is the origin.
   */
  function InCircleDet(p: Point2, a: Point2, b: Point2, c: Point2): real {
    var xa, ya := a.x - p.x, a.y - p.y;
    var xb, yb := b.x - p.x, b.y - p.y;
    var xc, yc := c.x - p.x, c.y - p.y;
    Det3(xa, ya, xa * xa + ya * ya, xb, yb, xb * xb + yb * yb, xc, yc, xc * xc + yc * yc)
  }

  /** The determinant of the rows (xa, ya, qa), (xb, yb, qb), (xc, yc, qc). */
  function Det3(xa: real, ya: real, qa: real, xb: real, yb: real, qb: real, xc: real, yc: real, qc: real): real {
    xa * (yb * qc - yc * qb) - ya * (xb * qc - xc * qb) + qa * (xb * yc - xc * yb)
  }

  /**
   * The "bad triangle" test: p lies strictly inside the circumcircle of
   * (a, b, c), read relative to the winding of (a, b, c); a triple whose
   * orientation is below Epsilon in magnitude has no circumcircle.
   */
  predicate IsPointInCircumcircle(p: Point2, a: Point2, b: Point2, c: Point2) {
    var orientation := Orientation(a, b, c);
    var det := InCircleDet(p, a, b, c);
    if Abs(orientation) < Epsilon then false
    else if orientation > 0.0 then det > Epsilon
    else det < -Epsilon
  }

  /** A (nearly) collinear triple never makes a point "inside". */
  lemma CollinearIsNeverBad(p: Point2, a: Point2, b: Point2, c: Point2)
    requires Abs(Orientation(a, b, c)) < Epsilon
    ensures !IsPointInCircumcircle(p, a, b, c)
  {
  }

  /** Swapping b and c flips both determinants, so the answer is the same. */
  lemma InCircleIgnoresWinding(p: Point2, a: Point2, b: Point2, c: Point2)
    ensures IsPointInCircumcircle(p, a, b, c) == IsPointInCircumcircle(p, a, c, b)
  {
    assert Orientation(a, c, b) == -Orientation(a, b, c);
    var xa, ya := a.x - p.x, a.y - p.y;
    var xb, yb := b.x - p.x, b.y - p.y;
    var xc, yc := c.x - p.x, c.y - p.y;
    Det3SwapRows(xa, ya, xa * xa + ya * ya, xb, yb, xb * xb + yb * yb, xc, yc, xc * xc + yc * yc);
  }

  /** Rotating the vertices leaves both determinants unchanged. */
  lemma InCircleIgnoresRotation(p: Point2, a: Point2, b: Point2, c: Point2)
    ensures IsPointInCircumcircle(p, a, b, c) == IsPointInCircumcircle(p, b, c, a)
  {
    assert Orientation(b, c, a) == Orientation(a, b, c);
    var xa, ya := a.x - p.x, a.y - p.y;
    var xb, yb := b.x - p.x, b.y - p.y;
    var xc, yc := c.x - p.x, c.y - p.y;
    Det3RotateRows(xa, ya, xa * xa + ya * ya, xb, yb, xb * xb + yb * yb, xc, yc, xc * xc + yc * yc);
  }

  lemma Det3SwapRows(xa: real, ya: real, qa: real, xb: real, yb: real, qb: real, xc: real, yc: real, qc: real)
    ensures Det3(xa, ya, qa, xc, yc, qc, xb, yb, qb) == -Det3(xa, ya, qa, xb, yb, qb, xc, yc, qc)
  {
  }

  lemma Det3RotateRows(xa: real, ya: real, qa: real, xb: real, yb: real, qb: real, xc: real, yc: real, qc: real)
    ensures Det3(xb, yb, qb, xc, yc, qc, xa, ya, qa) == Det3(xa, ya, qa, xb, yb, qb, xc, yc, qc)
  {
  }

  /** A vertex of the triangle is never strictly inside its circumcircle. */
  lemma VertexIsNeverBad(a: Point2, b: Point2, c: Point2)
    ensures !IsPointInCircumcircle(a, a, b, c)
    ensures !IsPointInCircumcircle(b, a, b, c)
    ensures !IsPointInCircumcircle(c, a, b, c)
  {
    assert InCircleDet(a, a, b, c) == 0.0;
    InCircleIgnoresRotation(b, a, b, c);
    assert InCircleDet(b, b, c, a) == 0.0;
    InCircleIgnoresRotation(c, b, c, a);
    assert InCircleDet(c, c, a, b) == 0.0;
  }

  lemma Det3Linear(xa: real, ya: real, xb: real, yb: real, xc: real, yc: real, s: real, t: real, k: real)
    ensures Det3(xa, ya, s * xa + t * ya + k, xb, yb, s * xb + t * yb + k, xc, yc, s * xc + t * yc + k)
         == k * Det3(xa, ya, 1.0, xb, yb, 1.0, xc, yc, 1.0)
  {
  }

  /** On a circle of centre (xo, yo), translated squared lengths are linear in the point. */
  lemma OnCircleSquare(x: real, y: real, xo: real, yo: real, r2: real)
    requires (x - xo) * (x - xo) + (y - yo) * (y - yo) == r2
    ensures x * x + y * y == 2.0 * xo * x + 2.0 * yo * y + (r2 - (xo * xo + yo * yo))
  {
  }

  /** The orientation is invariant under translation. */
  lemma OrientationTranslated(p: Point2, a: Point2, b: Point2, c: Point2)
    ensures Det3(a.x - p.x, a.y - p.y, 1.0, b.x - p.x, b.y - p.y, 1.0, c.x - p.x, c.y - p.y, 1.0) == Orientation(a, b, c)
  {
  }

  /**
   * If a, b and c lie on the circle of centre o and squared radius r2, the
   * in-circle determinant is the orientation times r2 - |p - o|^2.
   */
  lemma InCircleDetIdentity(p: Point2, a: Point2, b: Point2, c: Point2, o: Point2, r2: real)
    requires SqDist(a, o) == r2 && SqDist(b, o) == r2 && SqDist(c, o) == r2
    ensures InCircleDet(p, a, b, c) == Orientation(a, b, c) * (r2 - SqDist(p, o))
  {
    TranslatedSquare(p, a, o, r2);
    TranslatedSquare(p, b, o, r2);
    TranslatedSquare(p, c, o, r2);
    LiftedDet(a.x - p.x, a.y - p.y, b.x - p.x, b.y - p.y, c.x - p.x, c.y - p.y,
              2.0 * (o.x - p.x), 2.0 * (o.y - p.y), r2 - SqDist(p, o));
    OrientationTranslated(p, a, b, c);
  }

  /**
   * When every lifted coordinate x^2 + y^2 is the same affine function of
   * (x, y), the lifted determinant is the constant term times the orientation.
   */
  lemma LiftedDet(xa: real, ya: real, xb: real, yb: real, xc: real, yc: real, s: real, t: real, k: real)
    requires xa * xa + ya * ya == s * xa + t * ya + k
    requires xb * xb + yb * yb == s * xb + t * yb + k
    requires xc * xc + yc * yc == s * xc + t * yc + k
    ensures Det3(xa, ya, xa * xa + ya * ya, xb, yb, xb * xb + yb * yb, xc, yc, xc * xc + yc * yc)
         == k * Det3(xa, ya, 1.0, xb, yb, 1.0, xc, yc, 1.0)
  {
    Det3Linear(xa, ya, xb, yb, xc, yc, s, t, k);
  }

  /** The squared length of a - p, for a on the circle (o, r2), is linear in a - p. */
  lemma TranslatedSquare(p: Point2, a: Point2, o: Point2, r2: real)
    requires SqDist(a, o) == r2
    ensures (a.x - p.x) * (a.x - p.x) + (a.y - p.y) * (a.y - p.y)
         == (2.0 * (o.x - p.x)) * (a.x - p.x) + (2.0 * (o.y - p.y)) * (a.y - p.y) + (r2 - SqDist(p, o))
  {
    var xa, ya := a.x - p.x, a.y - p.y;
    var xo, yo := o.x - p.x, o.y - p.y;
    assert SqDist(p, o) == xo * xo + yo * yo;
    assert (xa - xo) * (xa - xo) + (ya - yo) * (ya - yo) == r2;
    OnCircleSquare(xa, ya, xo, yo, r2);
  }

  /**
   * Soundness of the test: a point flagged as inside lies strictly inside
   * every circle through a, b and c.
   */
  lemma BadMeansInsideCircumcircle(p: Point2, a: Point2, b: Point2, c: Point2, o: Point2, r2: real)
    requires SqDist(a, o) == r2 && SqDist(b, o) == r2 && SqDist(c, o) == r2
    requires IsPointInCircumcircle(p, a, b, c)
    ensures SqDist(p, o) < r2
  {
    InCircleDetIdentity(p, a, b, c, o, r2);
    SameSignFactor(Orientation(a, b, c), r2 - SqDist(p, o), InCircleDet(p, a, b, c));
  }

  /** A product with the sign of its first factor has a positive second factor. */
  lemma SameSignFactor(orientation: real, k: real, det: real)
    requires det == orientation * k
    requires (orientation > 0.0 && det > Epsilon) || (orientation < 0.0 && det < -Epsilon)
    ensures k > 0.0
  {
  }

  /**
   * Completeness up to the tolerance: a point inside the circumcircle of a
   * proper triangle, by more than the tolerance allows for, is flagged.
   */
  lemma InsideCircumcircleIsBad(p: Point2, a: Point2, b: Point2, c: Point2, o: Point2, r2: real)
    requires SqDist(a, o) == r2 && SqDist(b, o) == r2 && SqDist(c, o) == r2
    requires Abs(Orientation(a, b, c)) >= Epsilon
    requires Abs(Orientation(a, b, c)) * (r2 - SqDist(p, o)) > Epsilon
    ensures IsPointInCircumcircle(p, a, b, c)
  {
    InCircleDetIdentity(p, a, b, c, o, r2);
    FactorSign(Orientation(a, b, c), r2 - SqDist(p, o), InCircleDet(p, a, b, c));
  }

  /** A product whose magnitude exceeds the tolerance has the sign of its first factor. */
  lemma FactorSign(orientation: real, k: real, det: real)
    requires det == orientation * k
    requires Abs(orientation) * k > Epsilon
    ensures orientation > 0.0 ==> det > Epsilon
    ensures orientation < 0.0 ==> det < -Epsilon
  {
    if orientation < 0.0 {
      assert orientation * k == -(Abs(orientation) * k);
    }
  }
}
