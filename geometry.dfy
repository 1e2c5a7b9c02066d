/**
  Plane geometry over exact real coordinates: the points and segments that the
  constructions of Euclid's Elements, Book I, work on.

  Square roots are not computable over Dafny's reals, so wherever a length is
  read from a segment the caller supplies it as a root: a real `r` with
  `IsRoot(r, x)`, that is `r >= 0` and `r * r == x`. Since such a root is
  unique (RootUnique), this pins the length down exactly.
 */
module Geometry {

  /** A point of the plane. The presentation layer's third coordinate is always zero and is dropped. */
  datatype Point = Point(x: real, y: real)

  /** A segment from `start` to `end`; which endpoint is the start matters (it fixes a direction). */
  datatype Line = Line(start: Point, end: Point)

  const Origin := Point(0.0, 0.0)

  function Add(p: Point, q: Point): Point { Point(p.x + q.x, p.y + q.y) }

  function Sub(p: Point, q: Point): Point { Point(p.x - q.x, p.y - q.y) }

  function Scale(p: Point, k: real): Point { Point(k * p.x, k * p.y) }

  function Dot(p: Point, q: Point): real { p.x * q.x + p.y * q.y }

  /** The z component of the cross product: positive when q lies counterclockwise of p. */
  function Cross(p: Point, q: Point): real { p.x * q.y - p.y * q.x }

  /** Squared Euclidean distance. */
  function Dist2(p: Point, q: Point): real { Dot(Sub(q, p), Sub(q, p)) }

  /** The vector from a segment's start to its end. */
  function Vector(l: Line): Point { Sub(l.end, l.start) }

  /** Squared length of a segment. */
  function Len2(l: Line): real { Dist2(l.start, l.end) }

  /** `r` is the (non-negative) square root of `x`. */
  predicate IsRoot(r: real, x: real) { r >= 0.0 && r * r == x }

  /** `r` is the length of `l`. */
  predicate IsLength(l: Line, r: real) { IsRoot(r, Len2(l)) }

  /** The sine of 60 degrees: the positive root of 3/4 (its cosine is exactly 1/2). */
  predicate IsSin60(s: real) { s > 0.0 && s * s == 0.75 }

  /** `p` lies on the infinite line through `l`'s endpoints. */
  predicate OnLineThrough(p: Point, l: Line) { Cross(Vector(l), Sub(p, l.start)) == 0.0 }

  /** `p` lies on the ray that starts at `l.start` and passes through `l.end`. */
  predicate OnRay(p: Point, l: Line)
  {
    OnLineThrough(p, l) && Dot(Sub(p, l.start), Vector(l)) >= 0.0
  }

  /** `p` lies on the closed segment `l`. */
  predicate OnSegment(p: Point, l: Line)
  {
    OnLineThrough(p, l) && Dot(Sub(p, l.start), Sub(l.end, p)) >= 0.0
  }

  /*
    Real arithmetic helpers. The solver reasons about inequalities between
    products reliably only when the products sit behind function symbols, so
    the sign facts are stated about `Sq` and `Mul` and the identities that
    connect them to raw products are asserted where they are used.
   */

  function Sq(x: real): real { x * x }

  function Mul(a: real, b: real): real { a * b }

  lemma MulPositive(a: real, b: real)
    requires a > 0.0 && b > 0.0
    ensures Mul(a, b) > 0.0
  {
  }

  lemma MulNonnegative(a: real, b: real)
    requires a >= 0.0 && b >= 0.0
    ensures Mul(a, b) >= 0.0
  {
    if a > 0.0 && b > 0.0 {
      MulPositive(a, b);
    }
  }

  /** A product with a non-zero factor vanishes only when the other factor does. */
  lemma ZeroProduct(a: real, e: real)
    requires a != 0.0 && Mul(a, e) == 0.0
    ensures e == 0.0
  {
    if e != 0.0 {
      var a', e' := if a > 0.0 then a else -a, if e > 0.0 then e else -e;
      MulPositive(a', e');
      assert false;
    }
  }

  lemma SquareSign(x: real)
    ensures Sq(x) >= 0.0
    ensures x != 0.0 ==> Sq(x) > 0.0
  {
    if x > 0.0 {
      MulPositive(x, x);
    } else if x < 0.0 {
      MulPositive(-x, -x);
      assert Mul(-x, -x) == Sq(x);
    }
  }

  lemma SquareStrictlyMonotone(a: real, b: real)
    requires 0.0 <= a < b
    ensures Sq(a) < Sq(b)
  {
    MulPositive(b - a, b + a);
    assert Mul(b - a, b + a) == Sq(b) - Sq(a);
  }

  /** Square roots are unique. */
  lemma RootUnique(r: real, s: real, x: real)
    requires IsRoot(r, x) && IsRoot(s, x)
    ensures r == s
  {
    if r < s {
      SquareStrictlyMonotone(r, s);
    } else if s < r {
      SquareStrictlyMonotone(s, r);
    }
  }

  /** A vector's squared norm is non-negative, and positive unless the vector is zero. */
  lemma NormSign(v: Point)
    ensures Dot(v, v) >= 0.0
    ensures v != Origin ==> Dot(v, v) > 0.0
  {
    assert Dot(v, v) == Sq(v.x) + Sq(v.y);
    SquareSign(v.x);
    SquareSign(v.y);
  }

  /** A length is zero exactly when the segment's endpoints coincide. */
  lemma ZeroLength(l: Line, len: real)
    requires IsLength(l, len)
    ensures len == 0.0 <==> l.start == l.end
  {
    if len == 0.0 {
      assert Len2(l) == 0.0;
      CoincidentEnds(l);
    } else {
      SquareSign(len);
      assert Sq(len) == Len2(l);
      if l.start == l.end {
        DistanceToSelf(l.start);
      }
    }
  }

  lemma DistanceToSelf(p: Point)
    ensures Dist2(p, p) == 0.0
  {
    assert Sub(p, p) == Origin;
  }

  lemma Dist2Symmetric(p: Point, q: Point)
    ensures Dist2(p, q) == Dist2(q, p)
  {
    assert Sub(q, p) == Scale(Sub(p, q), -1.0);
  }

  lemma ZeroNormVector(v: Point)
    requires Dot(v, v) == 0.0
    ensures v.x == 0.0 && v.y == 0.0
  {
    NormSign(v);
  }

  lemma CoincidentEnds(l: Line)
    requires Len2(l) == 0.0
    ensures l.start == l.end
  {
    ZeroNormVector(Vector(l));
  }

  /** manim's unit vector: the direction of `l`, or the zero vector for a zero-length segment. */
  function UnitVector(l: Line, len: real): (u: Point)
    requires IsLength(l, len)
    ensures len > 0.0 ==> Dot(u, u) == 1.0 && Scale(u, len) == Vector(l)
    ensures len == 0.0 ==> u == Origin
  {
    if len == 0.0 then Origin
    else
      var u := Scale(Vector(l), 1.0 / len);
      assert Dot(u, u) * (len * len) == Len2(l) by {
        assert Dot(u, u) == (1.0 / len) * (1.0 / len) * Len2(l);
      }
      u
  }

  /**
    The point `l.start + unit * d` that the constructions use to step a given
    distance along a segment's direction.
   */
  function PointAlong(l: Line, len: real, d: real): (p: Point)
    requires IsLength(l, len)
    ensures len == 0.0 || d == 0.0 ==> p == l.start
    ensures len > 0.0 ==> OnLineThrough(p, l) && Dist2(l.start, p) == d * d
    ensures len > 0.0 && d >= 0.0 ==> OnRay(p, l)
    ensures len > 0.0 && 0.0 <= d <= len ==> OnSegment(p, l)
  {
    var p := Add(l.start, Scale(UnitVector(l, len), d));
    if len == 0.0 then p
    else
      AlongProperties(l, len, d, p);
      p
  }

  lemma AlongProperties(l: Line, len: real, d: real, p: Point)
    requires IsLength(l, len) && len > 0.0
    requires p == Add(l.start, Scale(UnitVector(l, len), d))
    ensures OnLineThrough(p, l) && Dist2(l.start, p) == d * d
    ensures d >= 0.0 ==> OnRay(p, l)
    ensures 0.0 <= d <= len ==> OnSegment(p, l)
  {
    var v := Vector(l);
    var k := d / len;
    assert Sub(p, l.start) == Scale(v, k);
    assert Cross(v, Scale(v, k)) == 0.0;
    AlongDistance(l, len, d, k);
    if d >= 0.0 {
      ScaledAlong(v, k);
    }
    if 0.0 <= d <= len {
      assert Sub(l.end, p) == Scale(v, 1.0 - k);
      assert k <= 1.0;
      ScaledBetween(v, k);
    }
  }

  lemma AlongDistance(l: Line, len: real, d: real, k: real)
    requires IsLength(l, len) && len > 0.0 && k == d / len
    ensures Dist2(l.start, Add(l.start, Scale(Vector(l), k))) == d * d
  {
    var q := Add(l.start, Scale(Vector(l), k));
    assert Sub(q, l.start) == Scale(Vector(l), k);
    assert Dist2(l.start, q) == Mul(Mul(k, k), Len2(l));
    assert Mul(k, k) * Len2(l) == Mul(k, k) * (len * len);
    assert k * len == d;
  }

  lemma ScaledAlong(v: Point, k: real)
    requires k >= 0.0
    ensures Dot(Scale(v, k), v) >= 0.0
  {
    NormSign(v);
    MulNonnegative(k, Dot(v, v));
    assert Dot(Scale(v, k), v) == Mul(k, Dot(v, v));
  }

  lemma ScaledBetween(v: Point, k: real)
    requires 0.0 <= k <= 1.0
    ensures Dot(Scale(v, k), Scale(v, 1.0 - k)) >= 0.0
  {
    NormSign(v);
    MulNonnegative(k, 1.0 - k);
    MulNonnegative(Mul(k, 1.0 - k), Dot(v, v));
    assert Dot(Scale(v, k), Scale(v, 1.0 - k)) == Mul(Mul(k, 1.0 - k), Dot(v, v));
  }

  /** The midpoint of a segment. */
  function Midpoint(l: Line): Point
  {
    Point((l.start.x + l.end.x) / 2.0, (l.start.y + l.end.y) / 2.0)
  }

  /** Rotation of `p` about `about` by the angle whose cosine and sine are given (counterclockwise for a positive sine). */
  function Rotate(p: Point, about: Point, cos: real, sin: real): Point
  {
    var d := Sub(p, about);
    Point(about.x + cos * d.x - sin * d.y, about.y + sin * d.x + cos * d.y)
  }

  /** A rotation scales distances from its centre by cos^2 + sin^2. */
  lemma RotateDistance(p: Point, about: Point, cos: real, sin: real)
    ensures Dist2(about, Rotate(p, about, cos, sin)) == (cos * cos + sin * sin) * Dist2(about, p)
  {
    var d := Sub(p, about);
    var q := Sub(Rotate(p, about, cos, sin), about);
    assert q == Point(cos * d.x - sin * d.y, sin * d.x + cos * d.y);
    calc {
      Dot(q, q);
      (cos * d.x - sin * d.y) * (cos * d.x - sin * d.y) + (sin * d.x + cos * d.y) * (sin * d.x + cos * d.y);
      (cos * cos + sin * sin) * (d.x * d.x + d.y * d.y);
    }
  }
}
