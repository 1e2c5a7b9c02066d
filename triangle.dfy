/**
  Elements I.22: the triangle on three given segments. The construction marks
  F and G on the base, draws a circle of radius |A| about F and one of radius
  |C| about G, and takes their meeting point K as the apex.

  The closed-form solver for the two meeting points of two circles has two
  branches: centres at the same height, where both points share one abscissa,
  and the general case, where both points lie on the radical line
  y = m x + b and the first circle is cut by that line.
 */
module Triangle {
  import opened Geometry
  import opened Intersections

  /*
    Centres at the same height.
   */

  /** The abscissa both meeting points share when the centres are level. */
  function LevelAbscissa(c1: Point, r1: real, c2: Point, r2: real): real
    requires c1.y == c2.y && c1 != c2
  {
    ((r1 * r1 - r2 * r2) - (c1.x * c1.x - c2.x * c2.x)) / (2.0 * c2.x - 2.0 * c1.x)
  }

  /** The discriminant of the level branch, written as the code writes it. */
  function LevelDiscriminant(c1: Point, r1: real, c2: Point, r2: real): real
    requires c1.y == c2.y && c1 != c2
  {
    var kx := LevelAbscissa(c1, r1, c2, r2);
    4.0 * c2.y * c2.y - 4.0 * (c2.y * c2.y + kx * kx - 2.0 * kx * c2.x + c2.x * c2.x - r2 * r2)
  }

  /** The two meeting points of the level branch, the upper one first. */
  function LevelIntersections(c1: Point, r1: real, c2: Point, r2: real, root: real): (points: (Point, Point))
    requires c1.y == c2.y && c1 != c2
    requires IsRoot(root, LevelDiscriminant(c1, r1, c2, r2))
    ensures Dist2(c1, points.0) == r1 * r1 && Dist2(c2, points.0) == r2 * r2
    ensures Dist2(c1, points.1) == r1 * r1 && Dist2(c2, points.1) == r2 * r2
    ensures points.0.x == points.1.x && points.0.y >= points.1.y
  {
    var kx := LevelAbscissa(c1, r1, c2, r2);
    var points := (Point(kx, (2.0 * c2.y + root) / 2.0), Point(kx, (2.0 * c2.y - root) / 2.0));
    LevelPoint(c1, r1, c2, r2, root, points.0);
    LevelPoint(c1, r1, c2, r2, root, points.1);
    points
  }

  lemma LevelPoint(c1: Point, r1: real, c2: Point, r2: real, root: real, p: Point)
    requires c1.y == c2.y && c1 != c2
    requires IsRoot(root, LevelDiscriminant(c1, r1, c2, r2))
    requires p.x == LevelAbscissa(c1, r1, c2, r2)
    requires p.y == (2.0 * c2.y + root) / 2.0 || p.y == (2.0 * c2.y - root) / 2.0
    ensures Dist2(c1, p) == r1 * r1 && Dist2(c2, p) == r2 * r2
  {
    LevelHeight(c2, r2, root, p);
    LevelBalance(c1, r1, c2, r2, p);
  }

  /** A point at height y2 +- root/2 above the shared abscissa lies on the second circle. */
  lemma LevelHeight(c2: Point, r2: real, root: real, p: Point)
    requires root * root == 4.0 * c2.y * c2.y
                           - 4.0 * (c2.y * c2.y + p.x * p.x - 2.0 * p.x * c2.x + c2.x * c2.x - r2 * r2)
    requires p.y == (2.0 * c2.y + root) / 2.0 || p.y == (2.0 * c2.y - root) / 2.0
    ensures Dist2(c2, p) == r2 * r2
  {
    assert Sq(p.y - c2.y) * 4.0 == root * root;
  }

  /**
    At the shared abscissa the squared distances to the two centres differ by
    r1^2 - r2^2, whatever the height.
   */
  lemma LevelBalance(c1: Point, r1: real, c2: Point, r2: real, p: Point)
    requires c1.y == c2.y && c1 != c2
    requires p.x == LevelAbscissa(c1, r1, c2, r2)
    ensures Dist2(c1, p) - Dist2(c2, p) == r1 * r1 - r2 * r2
  {
    CancelDivision((r1 * r1 - r2 * r2) - (c1.x * c1.x - c2.x * c2.x), 2.0 * c2.x - 2.0 * c1.x);
    assert Dist2(c1, p) - Dist2(c2, p) == p.x * (2.0 * c2.x - 2.0 * c1.x) + (c1.x * c1.x - c2.x * c2.x);
  }

  /*
    Centres at different heights: the radical line.
   */

  /** The slope of the radical line. */
  function RadicalSlope(c1: Point, c2: Point): real
    requires c1.y != c2.y
  {
    (c2.x - c1.x) / (c1.y - c2.y)
  }

  /** The intercept of the radical line, written as the code writes it. */
  function RadicalIntercept(c1: Point, r1: real, c2: Point, r2: real): real
    requires c1.y != c2.y
  {
    -1.0 / 2.0 / (c1.y - c2.y) * ((r1 * r1 - r2 * r2) - (c1.x * c1.x - c2.x * c2.x) - (c1.y * c1.y - c2.y * c2.y))
  }

  /** The coefficients A, B, C of the first circle's equation along the radical line. */
  function RadicalQuadratic(c1: Point, r1: real, m: real, b: real): (real, real, real)
  {
    (1.0 + m * m,
     -2.0 * c1.x + 2.0 * b * m - 2.0 * m * c1.y,
     c1.x * c1.x + b * b - 2.0 * b * c1.y + c1.y * c1.y - r1 * r1)
  }

  /** The discriminant B^2 - 4 A C of the general branch. */
  function RadicalDiscriminant(c1: Point, r1: real, c2: Point, r2: real): real
    requires c1.y != c2.y
  {
    var abc := RadicalQuadratic(c1, r1, RadicalSlope(c1, c2), RadicalIntercept(c1, r1, c2, r2));
    abc.1 * abc.1 - 4.0 * abc.0 * abc.2
  }

  /** The two meeting points of the general branch, the one with the larger abscissa first. */
  function RadicalIntersections(c1: Point, r1: real, c2: Point, r2: real, root: real): (points: (Point, Point))
    requires c1.y != c2.y
    requires IsRoot(root, RadicalDiscriminant(c1, r1, c2, r2))
    ensures points == LineCircleIntersections(RadicalSlope(c1, c2), RadicalIntercept(c1, r1, c2, r2), c1, r1, root)
  {
    RadicalDiscriminantAgrees(c1, r1, c2, r2);
    QuadraticPoints(c1, r1, RadicalSlope(c1, c2), RadicalIntercept(c1, r1, c2, r2), root)
  }

  /** The points of y = m x + b at the two roots (-B +- root) / 2A of the first circle's quadratic. */
  function QuadraticPoints(c1: Point, r1: real, m: real, b: real, root: real): (points: (Point, Point))
    requires IsRoot(root, LineCircleDiscriminant(m, b, c1, r1))
    ensures points == LineCircleIntersections(m, b, c1, r1, root)
  {
    var abc := RadicalQuadratic(c1, r1, m, b);
    RadicalAbscissas(c1, r1, m, b, root);
    (GraphPoint(m, b, (-abc.1 + root) / 2.0 / abc.0), GraphPoint(m, b, (-abc.1 - root) / 2.0 / abc.0))
  }

  lemma RadicalDiscriminantAgrees(c1: Point, r1: real, c2: Point, r2: real)
    requires c1.y != c2.y
    ensures RadicalDiscriminant(c1, r1, c2, r2)
         == LineCircleDiscriminant(RadicalSlope(c1, c2), RadicalIntercept(c1, r1, c2, r2), c1, r1)
  {
    RadicalAgreesWithLineCircle(c1, r1, RadicalSlope(c1, c2), RadicalIntercept(c1, r1, c2, r2));
  }

  lemma RadicalAbscissas(c1: Point, r1: real, m: real, b: real, root: real)
    ensures var abc := RadicalQuadratic(c1, r1, m, b);
            var xs := LineCircleAbscissas(m, b, c1, root);
            abc.0 != 0.0 && (-abc.1 + root) / 2.0 / abc.0 == xs.0 && (-abc.1 - root) / 2.0 / abc.0 == xs.1
  {
    RadicalAgreesWithLineCircle(c1, r1, m, b);
    SquarePlusOnePositive(m);
  }

  /** Along the radical line the general branch is the I.12 line-circle solver about the first centre. */
  lemma RadicalAgreesWithLineCircle(c1: Point, r1: real, m: real, b: real)
    ensures var abc := RadicalQuadratic(c1, r1, m, b);
            abc.1 * abc.1 - 4.0 * abc.0 * abc.2 == LineCircleDiscriminant(m, b, c1, r1) &&
            abc.0 == m * m + 1.0 &&
            -abc.1 == -2.0 * m * (b - c1.y) + 2.0 * c1.x
  {
  }

  /** The defining equations of the radical line's slope and intercept. */
  lemma RadicalLineEquations(c1: Point, r1: real, c2: Point, r2: real)
    requires c1.y != c2.y
    ensures (c1.y - c2.y) * RadicalSlope(c1, c2) == c2.x - c1.x
    ensures 2.0 * (c1.y - c2.y) * RadicalIntercept(c1, r1, c2, r2)
         == -((r1 * r1 - r2 * r2) - (c1.x * c1.x - c2.x * c2.x) - (c1.y * c1.y - c2.y * c2.y))
  {
    CancelDivision(c2.x - c1.x, c1.y - c2.y);
    var e := (r1 * r1 - r2 * r2) - (c1.x * c1.x - c2.x * c2.x) - (c1.y * c1.y - c2.y * c2.y);
    CancelDivision(-1.0 / 2.0, c1.y - c2.y);
  }

  /**
    The difference of the squared distances to the two centres, an affine
    function of the point.
   */
  lemma PowerDifference(c1: Point, c2: Point, p: Point)
    ensures Dist2(c1, p) - Dist2(c2, p)
         == 2.0 * p.x * (c2.x - c1.x) + 2.0 * p.y * (c2.y - c1.y) + (c1.x * c1.x - c2.x * c2.x) + (c1.y * c1.y - c2.y * c2.y)
  {
  }

  /**
    The radical line is where the squared distances to the two centres differ
    by r1^2 - r2^2: a point with y = m x + b has that difference, and a point
    with that difference lies on y = m x + b.
   */
  lemma RadicalLineBalance(c1: Point, r1: real, c2: Point, r2: real, p: Point)
    requires c1.y != c2.y
    ensures p.y == RadicalSlope(c1, c2) * p.x + RadicalIntercept(c1, r1, c2, r2)
        <==> Dist2(c1, p) - Dist2(c2, p) == r1 * r1 - r2 * r2
  {
    var m := RadicalSlope(c1, c2);
    var b := RadicalIntercept(c1, r1, c2, r2);
    RadicalLineEquations(c1, r1, c2, r2);
    PowerDifference(c1, c2, p);
    BalanceOffset(c1.y - c2.y, m, b, c2.x - c1.x,
                  (r1 * r1 - r2 * r2) - (c1.x * c1.x - c2.x * c2.x) - (c1.y * c1.y - c2.y * c2.y), p);
    if Dist2(c1, p) - Dist2(c2, p) == r1 * r1 - r2 * r2 {
      ZeroProduct(c1.y - c2.y, p.y - (m * p.x + b));
    }
  }

  /** The algebra of RadicalLineBalance over plain variables: d is the height difference, e the constant. */
  lemma BalanceOffset(d: real, m: real, b: real, dx: real, e: real, p: Point)
    requires d * m == dx && 2.0 * d * b == -e
    ensures 2.0 * p.x * dx - 2.0 * p.y * d - e == -2.0 * Mul(d, p.y - (m * p.x + b))
  {
    assert Mul(d, p.y - (m * p.x + b)) == d * p.y - (d * m) * p.x - d * b;
  }

  /*
    The solver of I.22, both branches.
   */

  function CircleCircleDiscriminant(c1: Point, r1: real, c2: Point, r2: real): real
    requires c1 != c2
  {
    if c1.y == c2.y then LevelDiscriminant(c1, r1, c2, r2) else RadicalDiscriminant(c1, r1, c2, r2)
  }

  /**
    The two points K, L where the circle of radius r1 about c1 meets the circle
    of radius r2 about c2, for distinct centres.
   */
  function CircleCircleIntersections(c1: Point, r1: real, c2: Point, r2: real, root: real): (points: (Point, Point))
    requires c1 != c2
    requires IsRoot(root, CircleCircleDiscriminant(c1, r1, c2, r2))
    ensures Dist2(c1, points.0) == r1 * r1 && Dist2(c2, points.0) == r2 * r2
    ensures Dist2(c1, points.1) == r1 * r1 && Dist2(c2, points.1) == r2 * r2
    ensures c1.y == c2.y ==> points.0.x == points.1.x && points.0.y >= points.1.y
    ensures c1.y != c2.y ==> points.0.x >= points.1.x
  {
    if c1.y == c2.y then LevelIntersections(c1, r1, c2, r2, root)
    else
      RadicalOnBothCircles(c1, r1, c2, r2, root);
      RadicalIntersections(c1, r1, c2, r2, root)
  }

  /** The two points on the radical line and the first circle lie on the second circle too. */
  lemma RadicalOnBothCircles(c1: Point, r1: real, c2: Point, r2: real, root: real)
    requires c1.y != c2.y
    requires IsRoot(root, RadicalDiscriminant(c1, r1, c2, r2))
    ensures var points := RadicalIntersections(c1, r1, c2, r2, root);
            Dist2(c1, points.0) == r1 * r1 && Dist2(c2, points.0) == r2 * r2
            && Dist2(c1, points.1) == r1 * r1 && Dist2(c2, points.1) == r2 * r2
            && points.0.x >= points.1.x
  {
    RadicalDiscriminantAgrees(c1, r1, c2, r2);
    var points := LineCircleIntersections(RadicalSlope(c1, c2), RadicalIntercept(c1, r1, c2, r2), c1, r1, root);
    assert points == RadicalIntersections(c1, r1, c2, r2, root);
    RadicalPointOnBoth(c1, r1, c2, r2, points.0);
    RadicalPointOnBoth(c1, r1, c2, r2, points.1);
  }

  lemma RadicalPointOnBoth(c1: Point, r1: real, c2: Point, r2: real, p: Point)
    requires c1.y != c2.y
    requires p.y == RadicalSlope(c1, c2) * p.x + RadicalIntercept(c1, r1, c2, r2)
    requires Dist2(c1, p) == r1 * r1
    ensures Dist2(c2, p) == r2 * r2
  {
    RadicalLineBalance(c1, r1, c2, r2, p);
  }

  /** Conversely, every common point of the two circles is one of the two the solver returns. */
  lemma CircleCircleOnlyPoints(c1: Point, r1: real, c2: Point, r2: real, root: real, p: Point)
    requires c1 != c2
    requires IsRoot(root, CircleCircleDiscriminant(c1, r1, c2, r2))
    requires Dist2(c1, p) == r1 * r1 && Dist2(c2, p) == r2 * r2
    ensures var points := CircleCircleIntersections(c1, r1, c2, r2, root);
            p == points.0 || p == points.1
  {
    if c1.y == c2.y {
      LevelOnlyPoints(c1, r1, c2, r2, root, p);
    } else {
      RadicalOnlyPoints(c1, r1, c2, r2, root, p);
    }
  }

  lemma LevelOnlyPoints(c1: Point, r1: real, c2: Point, r2: real, root: real, p: Point)
    requires c1.y == c2.y && c1 != c2
    requires IsRoot(root, LevelDiscriminant(c1, r1, c2, r2))
    requires Dist2(c1, p) == r1 * r1 && Dist2(c2, p) == r2 * r2
    ensures var points := LevelIntersections(c1, r1, c2, r2, root);
            p == points.0 || p == points.1
  {
    LevelOnlyAbscissa(c1, r1, c2, r2, p);
    LevelOnlyHeights(c2, r2, root, p);
  }

  lemma RadicalOnlyPoints(c1: Point, r1: real, c2: Point, r2: real, root: real, p: Point)
    requires c1.y != c2.y
    requires IsRoot(root, RadicalDiscriminant(c1, r1, c2, r2))
    requires Dist2(c1, p) == r1 * r1 && Dist2(c2, p) == r2 * r2
    ensures var points := RadicalIntersections(c1, r1, c2, r2, root);
            p == points.0 || p == points.1
  {
    RadicalLineBalance(c1, r1, c2, r2, p);
    RadicalDiscriminantAgrees(c1, r1, c2, r2);
    LineCircleOnlyPoints(RadicalSlope(c1, c2), RadicalIntercept(c1, r1, c2, r2), c1, r1, root, p);
  }

  /** With level centres, a common point of the circles lies above the shared abscissa. */
  lemma LevelOnlyAbscissa(c1: Point, r1: real, c2: Point, r2: real, p: Point)
    requires c1.y == c2.y && c1 != c2
    requires Dist2(c1, p) - Dist2(c2, p) == r1 * r1 - r2 * r2
    ensures p.x == LevelAbscissa(c1, r1, c2, r2)
  {
    var kx := LevelAbscissa(c1, r1, c2, r2);
    PowerDifference(c1, c2, p);
    CancelDivision((r1 * r1 - r2 * r2) - (c1.x * c1.x - c2.x * c2.x), 2.0 * c2.x - 2.0 * c1.x);
    assert Mul(2.0 * c2.x - 2.0 * c1.x, p.x - kx) == 0.0;
    ZeroProduct(2.0 * c2.x - 2.0 * c1.x, p.x - kx);
  }

  /** A point of the second circle above the shared abscissa is at height y2 +- root/2. */
  lemma LevelOnlyHeights(c2: Point, r2: real, root: real, p: Point)
    requires root * root == 4.0 * c2.y * c2.y
                           - 4.0 * (c2.y * c2.y + p.x * p.x - 2.0 * p.x * c2.x + c2.x * c2.x - r2 * r2)
    requires Dist2(c2, p) == r2 * r2
    ensures p.y == (2.0 * c2.y + root) / 2.0 || p.y == (2.0 * c2.y - root) / 2.0
  {
    assert (2.0 * (p.y - c2.y)) * (2.0 * (p.y - c2.y)) == root * root;
    SquareRoots(2.0 * (p.y - c2.y), root);
  }

  /** The two square roots of q^2 are q and -q. */
  lemma SquareRoots(u: real, q: real)
    requires u * u == q * q
    ensures u == q || u == -q
  {
    assert Mul(u - q, u + q) == 0.0;
    if u - q != 0.0 {
      ZeroProduct(u - q, u + q);
    }
  }

  /*
    The apex of I.22. F and G are the points the construction marks on the
    base, |FG| being the second given length; the apex is the first meeting
    point the solver returns.
   */

  /** The first point the solver returns for circles of radii r1 about F and r2 about G. */
  function SolverApex(pointF: Point, pointG: Point, r1: real, r2: real, root: real): (pointK: Point)
    requires pointF != pointG && r1 >= 0.0 && r2 >= 0.0
    requires IsRoot(root, CircleCircleDiscriminant(pointF, r1, pointG, r2))
    ensures IsLength(Line(pointK, pointF), r1) && IsLength(Line(pointK, pointG), r2)
  {
    var pointK := CircleCircleIntersections(pointF, r1, pointG, r2, root).0;
    Dist2Symmetric(pointF, pointK);
    Dist2Symmetric(pointG, pointK);
    pointK
  }

  /**
    The apex as the code computes it: the solver is handed |B| as the second
    radius, although the circle the construction draws about G has radius
    |GH| = |C|. The apex is then |A| from F but |B| from G.
   */
  function TriangleApexAsWritten(pointF: Point, pointG: Point, aLen: real, bLen: real, cLen: real, root: real): (pointK: Point)
    requires pointF != pointG && aLen >= 0.0 && bLen >= 0.0 && cLen >= 0.0
    requires IsRoot(root, CircleCircleDiscriminant(pointF, aLen, pointG, bLen))
    ensures IsLength(Line(pointK, pointF), aLen) && IsLength(Line(pointK, pointG), bLen)
  {
    SolverApex(pointF, pointG, aLen, bLen, root)
  }

  /** So whenever |B| and |C| differ, the side KG the code returns does not have length |C|. */
  lemma AsWrittenApexMissesThirdSide(pointF: Point, pointG: Point, aLen: real, bLen: real, cLen: real, root: real)
    requires pointF != pointG && aLen >= 0.0 && bLen >= 0.0 && cLen >= 0.0 && bLen != cLen
    requires IsRoot(root, CircleCircleDiscriminant(pointF, aLen, pointG, bLen))
    ensures !IsLength(Line(TriangleApexAsWritten(pointF, pointG, aLen, bLen, cLen, root), pointG), cLen)
  {
    var pointK := TriangleApexAsWritten(pointF, pointG, aLen, bLen, cLen, root);
    if IsLength(Line(pointK, pointG), cLen) {
      RootUnique(bLen, cLen, Len2(Line(pointK, pointG)));
    }
  }

  /**
    The 3-4-5 triangle on a base along the x-axis: F = (3, 0), G = (7, 0).
    The code's discriminant is positive there, so it returns an apex, and that
    apex is 4 from G instead of 5.
   */
  lemma AsWrittenScenario(pointF: Point, pointG: Point, aLen: real, bLen: real, cLen: real)
    requires pointF == Point(3.0, 0.0) && pointG == Point(7.0, 0.0)
    requires aLen == 3.0 && bLen == 4.0 && cLen == 5.0
    ensures LevelAbscissa(pointF, aLen, pointG, bLen) == 33.0 / 8.0
    ensures CircleCircleDiscriminant(pointF, aLen, pointG, bLen) == 495.0 / 16.0
  {
    assert LevelAbscissa(pointF, aLen, pointG, bLen) == 33.0 / 8.0;
  }

  /** The apex with the radius the construction draws about G: |A| from F and |C| from G. */
  function TriangleApex(pointF: Point, pointG: Point, aLen: real, bLen: real, cLen: real, root: real): (pointK: Point)
    requires pointF != pointG && aLen >= 0.0 && bLen >= 0.0 && cLen >= 0.0
    requires IsRoot(root, CircleCircleDiscriminant(pointF, aLen, pointG, cLen))
    ensures IsLength(Line(pointK, pointF), aLen) && IsLength(Line(pointK, pointG), cLen)
  {
    SolverApex(pointF, pointG, aLen, cLen, root)
  }

  /**
    The three sides the construction returns, in the order of the given
    segments: KF, FG, KG. They close up into a triangle whose sides have the
    lengths |A|, |FG| and |C|.
   */
  function TriangleSides(pointF: Point, pointG: Point, aLen: real, bLen: real, cLen: real, root: real): (sides: (Line, Line, Line))
    requires pointF != pointG && aLen >= 0.0 && bLen >= 0.0 && cLen >= 0.0
    requires IsRoot(root, CircleCircleDiscriminant(pointF, aLen, pointG, cLen))
    ensures sides.0.start == sides.2.start && sides.0.end == sides.1.start && sides.1.end == sides.2.end
    ensures sides.1 == Line(pointF, pointG)
    ensures IsLength(sides.0, aLen) && IsLength(sides.2, cLen)
  {
    var pointK := TriangleApex(pointF, pointG, aLen, bLen, cLen, root);
    (Line(pointK, pointF), Line(pointF, pointG), Line(pointK, pointG))
  }

  /**
    On the same base the corrected apex of the 3-4-5 triangle is (3, 3), with
    the right angle at F.
   */
  lemma RightTriangleScenario(pointF: Point, pointG: Point, aLen: real, bLen: real, cLen: real, root: real)
    requires pointF == Point(3.0, 0.0) && pointG == Point(7.0, 0.0) && aLen == 3.0 && bLen == 4.0 && cLen == 5.0
    requires IsRoot(root, CircleCircleDiscriminant(pointF, aLen, pointG, cLen))
    ensures root == 6.0
    ensures TriangleApex(pointF, pointG, aLen, bLen, cLen, root) == Point(3.0, 3.0)
    ensures Dot(Sub(TriangleApex(pointF, pointG, aLen, bLen, cLen, root), pointF), Vector(Line(pointF, pointG))) == 0.0
  {
    assert LevelAbscissa(pointF, aLen, pointG, cLen) == 3.0;
    assert CircleCircleDiscriminant(pointF, aLen, pointG, cLen) == 36.0;
    RootUnique(root, 6.0, 36.0);
  }
}
