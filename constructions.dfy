/**
  The straight-line arithmetic of Elements I.1, I.2, I.3 and I.9 as the
  construction helpers compute it: the points they return, with every drawing
  call stripped away.
 */
module Constructions {
  import opened Geometry

  datatype Error = UnresolvedPolarity

  datatype Result<T> = Success(value: T) | Failure(error: Error)

  /**
    Elements I.1: the two new sides of the equilateral triangle on `base`,
    as (A->C, C->B). A->C is the base turned by +60 degrees about A, and C->B
    is the base turned by -60 degrees about B; the two turns put C at the same
    point, counterclockwise of the base.
   */
  function EquilateralTriangle(base: Line, sin60: real): (sides: (Line, Line))
    requires IsSin60(sin60)
    ensures sides.0.start == base.start && sides.1.end == base.end
    ensures sides.0.end == sides.1.start
    ensures Len2(sides.0) == Len2(base) && Len2(sides.1) == Len2(base)
    ensures Cross(Vector(base), Vector(sides.0)) == sin60 * Len2(base)
  {
    var lineAC := Line(base.start, Rotate(base.end, base.start, 0.5, sin60));
    var lineBC := Line(Rotate(base.start, base.end, 0.5, -sin60), base.end);
    ApexAgrees(base, sin60);
    SixtyDegreeTurnKeepsLength(base.end, base.start, sin60);
    SixtyDegreeTurnKeepsLength(base.start, base.end, -sin60);
    ApexIsCounterclockwise(base, sin60);
    assert Dist2(base.end, base.start) == Len2(base);
    assert Dist2(lineBC.start, base.end) == Dist2(base.end, lineBC.start);
    (lineAC, lineBC)
  }

  /** Because cos 60 = 1/2, turning B by +60 degrees about A lands where turning A by -60 degrees about B does. */
  lemma ApexAgrees(base: Line, sin60: real)
    ensures Rotate(base.end, base.start, 0.5, sin60) == Rotate(base.start, base.end, 0.5, -sin60)
  {
    var a, b := base.start, base.end;
    var p, q := Rotate(b, a, 0.5, sin60), Rotate(a, b, 0.5, -sin60);
    assert (-sin60) * (a.y - b.y) == sin60 * (b.y - a.y);
    assert (-sin60) * (a.x - b.x) == sin60 * (b.x - a.x);
    assert p.x == 0.5 * a.x + 0.5 * b.x - sin60 * (b.y - a.y) == q.x;
    assert p.y == 0.5 * a.y + 0.5 * b.y + sin60 * (b.x - a.x) == q.y;
  }

  lemma SixtyDegreeTurnKeepsLength(p: Point, about: Point, sin: real)
    requires sin * sin == 0.75
    ensures Dist2(about, Rotate(p, about, 0.5, sin)) == Dist2(about, p)
  {
    RotateDistance(p, about, 0.5, sin);
  }

  lemma ApexIsCounterclockwise(base: Line, sin60: real)
    ensures Cross(Vector(base), Sub(Rotate(base.end, base.start, 0.5, sin60), base.start)) == sin60 * Len2(base)
  {
  }

  /** On the base from (0,0) to (2,0) the apex is (1, sqrt 3). */
  lemma EquilateralScenario(base: Line, sin60: real)
    requires IsSin60(sin60)
    requires base == Line(Point(0.0, 0.0), Point(2.0, 0.0))
    ensures var apex := EquilateralTriangle(base, sin60).0.end;
            apex.x == 1.0 && apex.y > 0.0 && apex.y * apex.y == 3.0
  {
    var apex := EquilateralTriangle(base, sin60).0.end;
    assert apex == Point(1.0, 2.0 * sin60);
    assert apex.y * apex.y == 4.0 * (sin60 * sin60);
  }

  /**
    Elements I.2: a segment from `pointA` as long as `lineBC`. The equilateral
    triangle on A->B (B is lineBC's start) gives the apex D, and the result
    runs from A away from D for |BC|. `abLen` and `bcLen` are |AB| and |BC|.
   */
  function PointToLine(pointA: Point, lineBC: Line, abLen: real, bcLen: real, sin60: real): (lineAL: Line)
    requires IsSin60(sin60)
    requires IsLength(Line(pointA, lineBC.start), abLen)
    requires IsLength(lineBC, bcLen)
    ensures lineAL.start == pointA
    ensures pointA != lineBC.start ==> IsLength(lineAL, bcLen)
    ensures pointA == lineBC.start ==> lineAL.end == pointA
  {
    var lineAB := Line(pointA, lineBC.start);
    var sides := EquilateralTriangle(lineAB, sin60);
    var lineAD := sides.0;
    assert IsLength(lineAD, abLen);
    ZeroLength(lineAB, abLen);
    Line(pointA, PointAlong(lineAD, abLen, -bcLen))
  }

  /**
    Elements I.3, general path: the point of `greater` at |lesser| from its
    start, reached by first copying `lesser` to greater's start with I.2.
    `gapLen` is the distance between the two starts.
   */
  function CutSeparateLineToLength(greater: Line, lesser: Line, greaterLen: real, lesserLen: real, gapLen: real, sin60: real): (pointE: Point)
    requires IsSin60(sin60)
    requires IsLength(greater, greaterLen) && IsLength(lesser, lesserLen)
    requires IsLength(Line(greater.start, lesser.start), gapLen)
    ensures greater.start != lesser.start && greaterLen > 0.0 ==>
              OnRay(pointE, greater) && Dist2(greater.start, pointE) == lesserLen * lesserLen
    ensures greater.start != lesser.start && greaterLen > 0.0 && lesserLen <= greaterLen ==>
              OnSegment(pointE, greater)
    ensures greater.start == lesser.start || greaterLen == 0.0 ==> pointE == greater.start
  {
    var adLen := PointToLineLength(greater.start, lesser, lesserLen);
    assert adLen >= 0.0;
    PointAlong(greater, greaterLen, adLen)
  }

  /** The length of I.2's segment (`line_AD.get_length()`): |BC|, or zero when A is B itself. */
  function PointToLineLength(pointA: Point, lineBC: Line, bcLen: real): real
  {
    if pointA == lineBC.start then 0.0 else bcLen
  }

  /** PointToLineLength is the length of the segment I.2 draws. */
  lemma PointToLineLengthIsLength(pointA: Point, lineBC: Line, abLen: real, bcLen: real, sin60: real)
    requires IsSin60(sin60)
    requires IsLength(Line(pointA, lineBC.start), abLen)
    requires IsLength(lineBC, bcLen)
    ensures IsLength(PointToLine(pointA, lineBC, abLen, bcLen, sin60), PointToLineLength(pointA, lineBC, bcLen))
  {
    if pointA == lineBC.start {
      DistanceToSelf(pointA);
    }
  }

  /**
    Elements I.3 when both segments start at the same point: step |lesser|
    along greater's direction from its start.
   */
  function CutCoincidentLineToLength(greater: Line, lesser: Line, greaterLen: real, lesserLen: real): (point: Point)
    requires IsLength(greater, greaterLen) && IsLength(lesser, lesserLen)
    ensures greaterLen > 0.0 ==> OnRay(point, greater) && Dist2(greater.start, point) == lesserLen * lesserLen
    ensures greaterLen > 0.0 && lesserLen <= greaterLen ==> OnSegment(point, greater)
    ensures greaterLen == 0.0 ==> point == greater.start
  {
    PointAlong(greater, greaterLen, lesserLen)
  }

  /** When the two starts differ, the general path of I.3 finds the same point as the shortcut. */
  lemma SeparateCutAgreesWithCoincidentCut(greater: Line, lesser: Line, greaterLen: real, lesserLen: real, gapLen: real, sin60: real)
    requires IsSin60(sin60)
    requires IsLength(greater, greaterLen) && IsLength(lesser, lesserLen)
    requires IsLength(Line(greater.start, lesser.start), gapLen)
    requires greater.start != lesser.start
    ensures CutSeparateLineToLength(greater, lesser, greaterLen, lesserLen, gapLen, sin60)
         == CutCoincidentLineToLength(greater, lesser, greaterLen, lesserLen)
  {
    ZeroLength(Line(greater.start, lesser.start), gapLen);
  }

  /**
    When the two starts coincide the general path does not cut: I.2's copy has
    zero length, so it returns greater's start, while the shortcut returns a
    point at distance |lesser| from it.
   */
  lemma SeparateCutDegeneratesOnCommonStart(greater: Line, lesser: Line, greaterLen: real, lesserLen: real, gapLen: real, sin60: real)
    requires IsSin60(sin60)
    requires IsLength(greater, greaterLen) && IsLength(lesser, lesserLen)
    requires IsLength(Line(greater.start, lesser.start), gapLen)
    requires greater.start == lesser.start && greaterLen > 0.0 && lesserLen > 0.0
    ensures CutSeparateLineToLength(greater, lesser, greaterLen, lesserLen, gapLen, sin60) == greater.start
    ensures CutCoincidentLineToLength(greater, lesser, greaterLen, lesserLen) != greater.start
  {
    var point := CutCoincidentLineToLength(greater, lesser, greaterLen, lesserLen);
    SquareSign(lesserLen);
    assert Dist2(greater.start, point) == Sq(lesserLen) > 0.0;
    if point == greater.start {
      DistanceToSelf(point);
    }
  }

  /** Python's `if angle < 0: angle = 2*PI + angle`: maps an angle of [-pi, pi] into [0, 2 pi), keeping its direction. */
  function NormalizeAngle(angle: real, pi: real): (r: real)
    requires pi > 0.0
    ensures -pi <= angle <= pi ==> 0.0 <= r < 2.0 * pi
    ensures r == angle || r == angle + 2.0 * pi
    ensures angle >= 0.0 ==> r == angle
  {
    if angle < 0.0 then 2.0 * pi + angle else angle
  }

  /** The polarity flag of I.9: `Unresolved` stands for the initial -1 that the code treats as a failure. */
  datatype Polarity = Unresolved | Resolved(clockwise: bool)

  /** The case split of I.9 on two normalised angles. */
  function PolarityCase(angleAB: real, angleAC: real, pi: real): (polarity: Polarity)
    ensures polarity.Resolved?
  {
    if angleAB < pi then
      if (0.0 <= angleAC < angleAB) || (2.0 * pi > angleAC > angleAB + pi) then Resolved(true) else Resolved(false)
    else
      if angleAB - pi < angleAC < angleAB then Resolved(true) else Resolved(false)
  }

  /** The representative in [0, 2 pi) of an angle difference of (-2 pi, 2 pi). */
  function TurnModulo(d: real, pi: real): (r: real)
    requires pi > 0.0 && -2.0 * pi < d < 2.0 * pi
    ensures 0.0 <= r < 2.0 * pi
    ensures r == d || r == d + 2.0 * pi
  {
    if d < 0.0 then d + 2.0 * pi else d
  }

  /**
    Both branches of the case split state one rule: the polarity is true exactly
    when AC's direction lies strictly within the half turn clockwise of AB's.
   */
  lemma PolarityRule(angleAB: real, angleAC: real, pi: real)
    requires pi > 0.0
    requires -pi <= angleAB <= pi && -pi <= angleAC <= pi
    ensures var a, c := NormalizeAngle(angleAB, pi), NormalizeAngle(angleAC, pi);
            PolarityCase(a, c, pi) == Resolved(0.0 < TurnModulo(a - c, pi) < pi)
  {
  }

  /**
    Elements I.9 as written. D is the midpoint of AB, E lies on AC at |AD|
    from AC's start, and an equilateral triangle is erected on E->D; the
    returned segment joins A to the start of that triangle's first side, which
    is E itself. The polarity is computed and checked but not used.
   */
  function BisectAngle(lineAB: Line, lineAC: Line, abLen: real, acLen: real,
                       angleAB: real, angleAC: real, pi: real, sin60: real): (r: Result<Line>)
    requires IsLength(lineAB, abLen) && IsLength(lineAC, acLen)
    requires pi > 0.0 && IsSin60(sin60)
    ensures r.Success? && r.value.start == lineAB.start
    ensures acLen > 0.0 ==>
              OnRay(r.value.end, lineAC) && 4.0 * Dist2(lineAC.start, r.value.end) == Len2(lineAB)
    ensures acLen == 0.0 ==> r.value.end == lineAC.start
  {
    var pointD := PointAlong(lineAB, abLen, 0.5 * abLen);
    var lineAD := Line(lineAB.start, pointD);
    HalfwayLength(lineAB, abLen);
    var pointE := CutCoincidentLineToLength(lineAC, lineAD, acLen, 0.5 * abLen);
    var polarity := PolarityCase(NormalizeAngle(angleAB, pi), NormalizeAngle(angleAC, pi), pi);
    if polarity.Unresolved? then
      Failure(UnresolvedPolarity)
    else
      var sides := EquilateralTriangle(Line(pointE, pointD), sin60);
      var lineFD := sides.0;
      assert lineFD.start == pointE;
      assert 4.0 * (0.5 * abLen * (0.5 * abLen)) == abLen * abLen;
      Success(Line(lineAB.start, lineFD.start))
  }

  /** The point half a length along a segment is its midpoint, at half the length from the start. */
  lemma HalfwayLength(l: Line, len: real)
    requires IsLength(l, len)
    ensures PointAlong(l, len, 0.5 * len) == Midpoint(l)
    ensures IsLength(Line(l.start, PointAlong(l, len, 0.5 * len)), 0.5 * len)
  {
    HalfwayIsMidpoint(l, len);
    MidpointDistance(l);
    assert (0.5 * len) * (0.5 * len) == 0.25 * (len * len);
  }

  lemma HalfwayIsMidpoint(l: Line, len: real)
    requires IsLength(l, len)
    ensures PointAlong(l, len, 0.5 * len) == Midpoint(l)
  {
    ZeroLength(l, len);
    if len == 0.0 {
      assert Midpoint(l) == l.start;
    } else {
      HalfwayOnProperSegment(l, len);
    }
  }

  lemma HalfwayOnProperSegment(l: Line, len: real)
    requires IsLength(l, len) && len > 0.0
    ensures PointAlong(l, len, 0.5 * len) == Midpoint(l)
  {
    var v := Vector(l);
    assert UnitVector(l, len) == Scale(v, 1.0 / len);
    HalfOfUnit(v, len);
    assert Add(l.start, Scale(v, 0.5)) == Midpoint(l);
  }

  lemma HalfOfUnit(v: Point, len: real)
    requires len != 0.0
    ensures Scale(Scale(v, 1.0 / len), 0.5 * len) == Scale(v, 0.5)
  {
    assert (0.5 * len) * (1.0 / len) == 0.5;
  }

  lemma MidpointDistance(l: Line)
    ensures 4.0 * Dist2(l.start, Midpoint(l)) == Len2(l)
  {
  }

  /**
    With both arms starting at A, as the code assumes, the returned segment
    runs along the second arm: it is collinear with AC, so it bisects the angle
    only when the angle is zero.
   */
  lemma BisectAngleFollowsSecondArm(lineAB: Line, lineAC: Line, abLen: real, acLen: real,
                                    angleAB: real, angleAC: real, pi: real, sin60: real)
    requires IsLength(lineAB, abLen) && IsLength(lineAC, acLen)
    requires pi > 0.0 && IsSin60(sin60)
    requires lineAB.start == lineAC.start && acLen > 0.0
    ensures var bisector := BisectAngle(lineAB, lineAC, abLen, acLen, angleAB, angleAC, pi, sin60).value;
            Cross(Vector(lineAC), Vector(bisector)) == 0.0 && Dot(Vector(lineAC), Vector(bisector)) >= 0.0
  {
  }
}
