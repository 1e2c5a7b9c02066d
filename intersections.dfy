/**
  The closed-form intersection solvers inside the perpendicular-dropping
  construction (Elements I.12) and the triangle construction (Elements I.22),
  and the radius I.12 picks for the circle it draws about the outside point.

  Every solver reads its square root from the caller as a parameter `root`
  with `IsRoot(root, discriminant)`: a negative discriminant, for which the
  code would compute NaN, is outside the model.
 */
module Intersections {
  import opened Geometry

  /*
    The quadratic formula shared by both solvers.
   */

  function Quadratic(a: real, b: real, c: real, x: real): real { a * x * x + b * x + c }

  lemma CancelDivision(t: real, a: real)
    requires a != 0.0
    ensures a * (t / a) == t
  {
  }

  /** (-b + q)/2/a and (-b - q)/2/a solve a x^2 + b x + c = 0 when q is a root of the discriminant. */
  lemma QuadraticFormula(a: real, b: real, c: real, q: real, x: real)
    requires a != 0.0 && q * q == b * b - 4.0 * a * c
    requires x == (-b + q) / 2.0 / a || x == (-b - q) / 2.0 / a
    ensures Quadratic(a, b, c, x) == 0.0
  {
    var y := 2.0 * a * x;
    CancelDivision((-b + q) / 2.0, a);
    CancelDivision((-b - q) / 2.0, a);
    assert y + b == q || y + b == -q;
    assert (y + b) * (y + b) == q * q;
    assert Mul(4.0 * a, Quadratic(a, b, c, x)) == (y + b) * (y + b) - (b * b - 4.0 * a * c);
    ZeroProduct(4.0 * a, Quadratic(a, b, c, x));
  }

  /** ... and they are its only solutions. */
  lemma QuadraticOnlyRoots(a: real, b: real, c: real, q: real, x: real)
    requires a != 0.0 && q * q == b * b - 4.0 * a * c
    requires Quadratic(a, b, c, x) == 0.0
    ensures x == (-b + q) / 2.0 / a || x == (-b - q) / 2.0 / a
  {
    var y := 2.0 * a * x;
    assert Mul(y + b - q, y + b + q) == 4.0 * a * Quadratic(a, b, c, x) + (b * b - 4.0 * a * c) - q * q;
    if y + b - q != 0.0 {
      ZeroProduct(y + b - q, y + b + q);
    }
    RecoverRoot(a, y, x);
  }

  lemma RecoverRoot(a: real, y: real, x: real)
    requires a != 0.0 && y == 2.0 * a * x
    ensures x == y / 2.0 / a
  {
    CancelDivision(y / 2.0, a);
    assert a * x == a * (y / 2.0 / a);
    ZeroProduct(a, x - y / 2.0 / a);
  }

  lemma DivideNonnegative(q: real, a: real)
    requires q >= 0.0 && a > 0.0
    ensures q / a >= 0.0
  {
    var t := q / a;
    assert Mul(t, a) == q;
    if t < 0.0 {
      MulPositive(-t, a);
      assert false;
    }
  }

  /** With a positive leading coefficient the `+` root is the larger one. */
  lemma OrderedRoots(a: real, t: real, q: real)
    requires a > 0.0 && q >= 0.0
    ensures (t + q) / 2.0 / a >= (t - q) / 2.0 / a
  {
    DivideNonnegative(q, a);
    assert (t + q) / 2.0 / a - (t - q) / 2.0 / a == q / a;
  }

  lemma SquarePlusOnePositive(m: real)
    ensures m * m + 1.0 > 0.0
  {
    SquareSign(m);
  }

  /*
    Elements I.12: the circle about C meets the line through AB. The solver
    works on the line's equation y = m x + b.
   */

  /** The slope manim reports for a non-vertical segment: rise over run. */
  function Slope(l: Line): real
    requires l.start.x != l.end.x
  {
    (l.end.y - l.start.y) / (l.end.x - l.start.x)
  }

  /** The intercept `b` of y = m x + b, chosen as the code does: -m x_0 + y_0 for the segment's start. */
  function Intercept(l: Line): real
    requires l.start.x != l.end.x
  {
    -Slope(l) * l.start.x + l.start.y
  }

  /** y = Slope(l) x + Intercept(l) passes through both endpoints of l. */
  lemma SlopeIntercept(l: Line)
    requires l.start.x != l.end.x
    ensures Slope(l) * (l.end.x - l.start.x) == l.end.y - l.start.y
    ensures l.start.y == Slope(l) * l.start.x + Intercept(l)
    ensures l.end.y == Slope(l) * l.end.x + Intercept(l)
  {
    CancelDivision(l.end.y - l.start.y, l.end.x - l.start.x);
  }

  /** The points of the line through a non-vertical segment are exactly those with y = m x + b. */
  lemma OnLineThroughIsGraph(l: Line, p: Point)
    requires l.start.x != l.end.x
    ensures OnLineThrough(p, l) <==> p.y == Slope(l) * p.x + Intercept(l)
  {
    var m, b := Slope(l), Intercept(l);
    var dx := l.end.x - l.start.x;
    assert Cross(Vector(l), Sub(p, l.start)) == Mul(dx, p.y - (m * p.x + b)) by {
      SlopeIntercept(l);
    }
    if OnLineThrough(p, l) {
      ZeroProduct(dx, p.y - (m * p.x + b));
    }
  }

  /** The point of y = m x + b above abscissa x. */
  function GraphPoint(m: real, b: real, x: real): Point
  {
    Point(x, m * x + b)
  }

  /** The discriminant the I.12 solver takes the square root of, with zeta = b - y_c. */
  function LineCircleDiscriminant(m: real, b: real, center: Point, r: real): real
  {
    var zeta := b - center.y;
    (2.0 * m * zeta - 2.0 * center.x) * (2.0 * m * zeta - 2.0 * center.x)
      - 4.0 * (m * m + 1.0) * (zeta * zeta + center.x * center.x - r * r)
  }

  /** On the line y = m x + b, the circle's equation is the solver's quadratic in x. */
  lemma GraphCircleEquation(m: real, b: real, center: Point, r: real, x: real)
    ensures Dist2(center, Point(x, m * x + b)) - r * r
         == Quadratic(m * m + 1.0, 2.0 * m * (b - center.y) - 2.0 * center.x,
                      (b - center.y) * (b - center.y) + center.x * center.x - r * r, x)
  {
    assert Sub(Point(x, m * x + b), center) == Point(x - center.x, m * x + (b - center.y));
  }

  /** The two abscissas the I.12 solver computes, the `+` root first. */
  function LineCircleAbscissas(m: real, b: real, center: Point, root: real): (real, real)
  {
    var zeta := b - center.y;
    SquarePlusOnePositive(m);
    ((-2.0 * m * zeta + 2.0 * center.x + root) / 2.0 / (m * m + 1.0),
     (-2.0 * m * zeta + 2.0 * center.x - root) / 2.0 / (m * m + 1.0))
  }

  /**
    The two points where the circle of radius r about `center` meets the line
    y = m x + b, in the order the solver returns them.
   */
  function LineCircleIntersections(m: real, b: real, center: Point, r: real, root: real): (points: (Point, Point))
    requires IsRoot(root, LineCircleDiscriminant(m, b, center, r))
    ensures points.0.y == m * points.0.x + b && points.1.y == m * points.1.x + b
    ensures Dist2(center, points.0) == r * r && Dist2(center, points.1) == r * r
    ensures points.0.x >= points.1.x
  {
    var xs := LineCircleAbscissas(m, b, center, root);
    LineCircleRoots(m, b, center, r, root);
    (GraphPoint(m, b, xs.0), GraphPoint(m, b, xs.1))
  }

  lemma LineCircleRoots(m: real, b: real, center: Point, r: real, root: real)
    requires IsRoot(root, LineCircleDiscriminant(m, b, center, r))
    ensures var xs := LineCircleAbscissas(m, b, center, root);
            Dist2(center, GraphPoint(m, b, xs.0)) == r * r && Dist2(center, GraphPoint(m, b, xs.1)) == r * r &&
            xs.0 >= xs.1
  {
    var xs := LineCircleAbscissas(m, b, center, root);
    LineCircleRoot(m, b, center, r, root, xs.0);
    LineCircleRoot(m, b, center, r, root, xs.1);
    SquarePlusOnePositive(m);
    OrderedRoots(m * m + 1.0, -2.0 * m * (b - center.y) + 2.0 * center.x, root);
  }

  lemma LineCircleRoot(m: real, b: real, center: Point, r: real, root: real, x: real)
    requires IsRoot(root, LineCircleDiscriminant(m, b, center, r))
    requires x == (-2.0 * m * (b - center.y) + 2.0 * center.x + root) / 2.0 / (m * m + 1.0) ||
             x == (-2.0 * m * (b - center.y) + 2.0 * center.x - root) / 2.0 / (m * m + 1.0)
    ensures Dist2(center, GraphPoint(m, b, x)) == r * r
  {
    LineCircleRootSolves(m, b, center, r, root, x);
    QuadraticRootOnCircle(m, b, center, r, x);
  }

  lemma LineCircleRootSolves(m: real, b: real, center: Point, r: real, root: real, x: real)
    requires IsRoot(root, LineCircleDiscriminant(m, b, center, r))
    requires x == (-2.0 * m * (b - center.y) + 2.0 * center.x + root) / 2.0 / (m * m + 1.0) ||
             x == (-2.0 * m * (b - center.y) + 2.0 * center.x - root) / 2.0 / (m * m + 1.0)
    ensures Quadratic(m * m + 1.0, 2.0 * m * (b - center.y) - 2.0 * center.x,
                      (b - center.y) * (b - center.y) + center.x * center.x - r * r, x) == 0.0
  {
    SquarePlusOnePositive(m);
    QuadraticFormula(m * m + 1.0, 2.0 * m * (b - center.y) - 2.0 * center.x,
                     (b - center.y) * (b - center.y) + center.x * center.x - r * r, root, x);
  }

  lemma QuadraticRootOnCircle(m: real, b: real, center: Point, r: real, x: real)
    requires Quadratic(m * m + 1.0, 2.0 * m * (b - center.y) - 2.0 * center.x,
                       (b - center.y) * (b - center.y) + center.x * center.x - r * r, x) == 0.0
    ensures Dist2(center, GraphPoint(m, b, x)) == r * r
  {
    GraphCircleEquation(m, b, center, r, x);
  }

  /** Conversely, every common point of the circle and the line is one of the two the solver returns. */
  lemma LineCircleOnlyPoints(m: real, b: real, center: Point, r: real, root: real, p: Point)
    requires IsRoot(root, LineCircleDiscriminant(m, b, center, r))
    requires p.y == m * p.x + b && Dist2(center, p) == r * r
    ensures var points := LineCircleIntersections(m, b, center, r, root);
            p == points.0 || p == points.1
  {
    assert p == GraphPoint(m, b, p.x);
    CircleRootSolvesQuadratic(m, b, center, r, p.x);
    LineCircleOnlyRoots(m, b, center, r, root, p.x);
  }

  lemma CircleRootSolvesQuadratic(m: real, b: real, center: Point, r: real, x: real)
    requires Dist2(center, GraphPoint(m, b, x)) == r * r
    ensures Quadratic(m * m + 1.0, 2.0 * m * (b - center.y) - 2.0 * center.x,
                      (b - center.y) * (b - center.y) + center.x * center.x - r * r, x) == 0.0
  {
    GraphCircleEquation(m, b, center, r, x);
  }

  lemma LineCircleOnlyRoots(m: real, b: real, center: Point, r: real, root: real, x: real)
    requires IsRoot(root, LineCircleDiscriminant(m, b, center, r))
    requires Quadratic(m * m + 1.0, 2.0 * m * (b - center.y) - 2.0 * center.x,
                       (b - center.y) * (b - center.y) + center.x * center.x - r * r, x) == 0.0
    ensures var xs := LineCircleAbscissas(m, b, center, root);
            x == xs.0 || x == xs.1
  {
    SquarePlusOnePositive(m);
    QuadraticOnlyRoots(m * m + 1.0, 2.0 * m * (b - center.y) - 2.0 * center.x,
                       (b - center.y) * (b - center.y) + center.x * center.x - r * r, root, x);
    assert -(2.0 * m * (b - center.y) - 2.0 * center.x) + root == -2.0 * m * (b - center.y) + 2.0 * center.x + root;
    assert -(2.0 * m * (b - center.y) - 2.0 * center.x) - root == -2.0 * m * (b - center.y) + 2.0 * center.x - root;
  }

  /**
    The midpoint of the chord is the foot of the perpendicular from the
    circle's centre: the point Euclid's I.12 joins C to.
   */
  lemma ChordMidpointIsFoot(m: real, b: real, center: Point, r: real, root: real)
    requires IsRoot(root, LineCircleDiscriminant(m, b, center, r))
    ensures var points := LineCircleIntersections(m, b, center, r, root);
            var foot := Midpoint(Line(points.0, points.1));
            foot.y == m * foot.x + b && Dot(Sub(foot, center), Point(1.0, m)) == 0.0
  {
    var points := LineCircleIntersections(m, b, center, r, root);
    SquarePlusOnePositive(m);
    ChordCentre(-2.0 * m * (b - center.y) + 2.0 * center.x, root, m * m + 1.0, points.0.x, points.1.x);
    var foot := Midpoint(Line(points.0, points.1));
    assert foot == Point((points.0.x + points.1.x) / 2.0, m * ((points.0.x + points.1.x) / 2.0) + b);
    PerpendicularAt(m, b, center, (points.0.x + points.1.x) / 2.0);
  }

  /** The two roots average to -b/2a. */
  lemma ChordCentre(t: real, q: real, a: real, x1: real, x2: real)
    requires a > 0.0 && x1 == (t + q) / 2.0 / a && x2 == (t - q) / 2.0 / a
    ensures a * ((x1 + x2) / 2.0) == t / 2.0
  {
    assert (x1 + x2) / 2.0 == (t / 2.0) / a;
    CancelDivision(t / 2.0, a);
  }

  /** The point of y = m x + b above fx is the foot of the perpendicular from `center`. */
  lemma PerpendicularAt(m: real, b: real, center: Point, fx: real)
    requires (m * m + 1.0) * fx == center.x - m * (b - center.y)
    ensures Dot(Sub(Point(fx, m * fx + b), center), Point(1.0, m)) == 0.0
  {
    assert Sub(Point(fx, m * fx + b), center) == Point(fx - center.x, m * fx + b - center.y);
  }

  /** The chord that the circle about C cuts from the line through AB, as I.12 computes it. */
  function DropChord(lineAB: Line, pointC: Point, r: real, root: real): (points: (Point, Point))
    requires lineAB.start.x != lineAB.end.x
    requires IsRoot(root, LineCircleDiscriminant(Slope(lineAB), Intercept(lineAB), pointC, r))
    ensures OnLineThrough(points.0, lineAB) && OnLineThrough(points.1, lineAB)
    ensures Dist2(pointC, points.0) == r * r && Dist2(pointC, points.1) == r * r
  {
    var points := LineCircleIntersections(Slope(lineAB), Intercept(lineAB), pointC, r, root);
    OnLineThroughIsGraph(lineAB, points.0);
    OnLineThroughIsGraph(lineAB, points.1);
    points
  }

  /*
    The radius of I.12's circle: C is joined to the point Z half of AB's length
    along AB, and the circle passes through D, one unit beyond Z.
   */

  /** The point D the circle about C passes through. */
  function DropCirclePoint(lineAB: Line, abLen: real, pointC: Point, czLen: real): (pointD: Point)
    requires IsLength(lineAB, abLen)
    requires IsLength(Line(pointC, PointAlong(lineAB, abLen, 0.5 * abLen)), czLen)
    ensures czLen > 0.0 ==> IsLength(Line(pointC, pointD), czLen + 1.0)
    ensures czLen == 0.0 ==> pointD == pointC
  {
    var lineCZ := Line(pointC, PointAlong(lineAB, abLen, 0.5 * abLen));
    ExtendByOne(lineCZ, czLen);
    Add(lineCZ.end, UnitVector(lineCZ, czLen))
  }

  /** Stepping one unit past a segment's end lengthens it by one; for a zero-length segment it stays put. */
  lemma ExtendByOne(l: Line, len: real)
    requires IsLength(l, len)
    ensures len > 0.0 ==> IsLength(Line(l.start, Add(l.end, UnitVector(l, len))), len + 1.0)
    ensures len == 0.0 ==> Add(l.end, UnitVector(l, len)) == l.start
  {
    ZeroLength(l, len);
    if len == 0.0 {
      assert UnitVector(l, len) == Origin;
    } else {
      ExtendProperSegment(l, len);
    }
  }

  lemma ExtendProperSegment(l: Line, len: real)
    requires IsLength(l, len) && len > 0.0
    ensures IsLength(Line(l.start, Add(l.end, UnitVector(l, len))), len + 1.0)
  {
    var u := UnitVector(l, len);
    var d := Add(l.end, u);
    assert Sub(d, l.start) == Scale(u, len + 1.0);
    assert Dist2(l.start, d) == Mul(Sq(len + 1.0), Dot(u, u));
    assert Mul(Sq(len + 1.0), Dot(u, u)) == Mul(Sq(len + 1.0), 1.0);
  }

  lemma SolverDiscriminantForm(m: real, b: real, center: Point, r: real)
    ensures LineCircleDiscriminant(m, b, center, r)
         == 4.0 * ((m * m + 1.0) * (r * r) - Sq(b - center.y + m * center.x))
  {
  }

  /**
    For a point Z of the line, (m^2+1) |CZ|^2 bounds the squared vertical
    offset of C (the Cauchy-Schwarz inequality in the plane).
   */
  lemma OffsetBound(m: real, b: real, center: Point, pointZ: Point)
    requires pointZ.y == m * pointZ.x + b
    ensures Sq(b - center.y + m * center.x) <= (m * m + 1.0) * Dist2(center, pointZ)
  {
    assert b - center.y + m * center.x == (pointZ.y - center.y) - m * (pointZ.x - center.x);
    assert (m * m + 1.0) * Dist2(center, pointZ) - Sq((pointZ.y - center.y) - m * (pointZ.x - center.x))
        == Sq(m * (pointZ.y - center.y) + (pointZ.x - center.x));
    SquareSign(m * (pointZ.y - center.y) + (pointZ.x - center.x));
  }

  /** A circle that reaches a point of the line has a non-negative discriminant. */
  lemma ReachingCircleMeetsLine(m: real, b: real, center: Point, pointZ: Point, r: real)
    requires pointZ.y == m * pointZ.x + b
    requires Dist2(center, pointZ) <= Sq(r)
    ensures LineCircleDiscriminant(m, b, center, r) >= 0.0
  {
    OffsetBound(m, b, center, pointZ);
    SolverDiscriminantForm(m, b, center, r);
    SquarePlusOnePositive(m);
    MulNonnegative(m * m + 1.0, Sq(r) - Dist2(center, pointZ));
    assert Mul(m * m + 1.0, Sq(r) - Dist2(center, pointZ))
        == (m * m + 1.0) * (r * r) - (m * m + 1.0) * Dist2(center, pointZ);
  }

  /** The radius is at least |CZ|. */
  lemma DropRadiusReachesZ(lineAB: Line, abLen: real, pointC: Point, czLen: real, r: real)
    requires IsLength(lineAB, abLen)
    requires IsLength(Line(pointC, PointAlong(lineAB, abLen, 0.5 * abLen)), czLen)
    requires IsLength(Line(pointC, DropCirclePoint(lineAB, abLen, pointC, czLen)), r)
    ensures Sq(czLen) <= Sq(r)
  {
    var pointD := DropCirclePoint(lineAB, abLen, pointC, czLen);
    if czLen > 0.0 {
      RootUnique(r, czLen + 1.0, Len2(Line(pointC, pointD)));
      SquareStrictlyMonotone(czLen, r);
    } else {
      ZeroLength(Line(pointC, pointD), r);
    }
  }

  /**
    The circle I.12 draws always meets the line: with the radius |CD| the
    discriminant is never negative, so the square root is always defined.
   */
  lemma DropCircleMeetsLine(lineAB: Line, abLen: real, pointC: Point, czLen: real, r: real)
    requires lineAB.start.x != lineAB.end.x
    requires IsLength(lineAB, abLen)
    requires IsLength(Line(pointC, PointAlong(lineAB, abLen, 0.5 * abLen)), czLen)
    requires IsLength(Line(pointC, DropCirclePoint(lineAB, abLen, pointC, czLen)), r)
    ensures LineCircleDiscriminant(Slope(lineAB), Intercept(lineAB), pointC, r) >= 0.0
  {
    var pointZ := PointAlong(lineAB, abLen, 0.5 * abLen);
    ZeroLength(lineAB, abLen);
    assert OnLineThrough(pointZ, lineAB);
    OnLineThroughIsGraph(lineAB, pointZ);
    DropRadiusReachesZ(lineAB, abLen, pointC, czLen, r);
    assert Dist2(pointC, pointZ) == Sq(czLen);
    ReachingCircleMeetsLine(Slope(lineAB), Intercept(lineAB), pointC, pointZ, r);
  }
}
