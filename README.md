# ManimHelpers geometry and mark bookkeeping, in Dafny

ManimHelpers animates the straight-edge-and-compass constructions of Euclid's
*Elements*, Book I, and draws segments with congruence ticks and parallelism
arrows. This project models the logic underneath the animations:

- `geometry.dfy` (module `Geometry`): points, segments, squared lengths and
  manim's unit vector over exact reals. The code reads a segment's length with
  a square root. Here the caller passes that root as a parameter `r` with
  `r >= 0 && r * r == x`, and roots are unique. sin 60 is such a root of 3/4.
- `constructions.dfy` (module `Constructions`): the points that I.1, I.2, I.3
  (both variants) and I.9 compute. I.9 includes the angle normalisation and
  the polarity case split.
- `intersections.dfy` (module `Intersections`): the closed-form circle-line
  solver inside I.12 and the radius of the circle I.12 draws.
- `triangle.dfy` (module `Triangle`): the two-branch circle-circle solver
  inside I.22, and the apex and sides I.22 returns.
- `budget.dfy` (module `Budget`): the time accounting of all eleven
  constructions. A construction given time T charges dt = T/k per animation,
  where k is the count in its docstring. It hands each sub-construction a
  whole multiple of dt.
- `shapes.dfy` (module `Shapes`): the `MarkedLine` class. Its constructor
  splits the tick and arrow counts into tens, fives and ones. Six loops then
  add each mark's stroke lines at evenly spaced positions along the line.

Positions along a marked line are kept as fractions of the line. The code
keeps the vector `(end - start) * fraction` and adds `spacing * (end - start)`
at each step. Over exact reals the two are the same point (`MarkCentre`).

Some behaviours of the code are modelled as written:

- `bisect_angle` returns the segment from A to the start of the equilateral
  triangle's first side. That point is E, on the second arm (constructions.py:187-188).
  The result therefore runs along AC and is no bisector (`BisectAngleFollowsSecondArm`).
- The polarity of `bisect_angle` is computed and checked but never used.
- The six mark loops run `range(k)` times, which is zero for a negative count.
  The spacing, however, divides by the raw sum of the six counts.

## Model

| member | source | states |
|---|---|---|
| `Geometry.UnitVector` | constructions.py:113 | manim's unit vector: a vector of norm 1 that, scaled by the length, gives the segment; the zero vector for a zero-length segment |
| `Geometry.PointAlong` | constructions.py:138 | `start + unit * d` lies on the segment's line at distance \|d\|, on the ray for d >= 0 and on the segment for 0 <= d <= length; it is the start itself for a zero-length segment |
| `Constructions.EquilateralTriangle` | constructions.py:19-36 | the two new sides run A->C and C->B, meet at one apex, both have the base's squared length, and the apex is counterclockwise of the base |
| `Constructions.ApexAgrees` | constructions.py:28-31 | turning B by +60 degrees about A gives the same point as turning A by -60 degrees about B |
| `Constructions.EquilateralScenario` | constructions.py:28-36 | on the base (0,0)-(2,0) the apex is (1, sqrt 3) |
| `Constructions.PointToLine` | constructions.py:56-87 | the segment starts at A and has length \|BC\| when A differs from B; when A is B it has zero length |
| `Constructions.PointToLineLengthIsLength` | constructions.py:75 | the length that I.3 reads back from I.2's segment is \|BC\|, or zero when A is B |
| `Constructions.CutSeparateLineToLength` | constructions.py:108-115 | with distinct starts the point lies on greater's ray at distance \|lesser\| from its start, and on greater itself when \|lesser\| <= \|greater\|; with a common start it is greater's start |
| `Constructions.CutCoincidentLineToLength` | constructions.py:135-140 | the point lies on greater's ray at distance \|lesser\|, and within greater when \|lesser\| <= \|greater\| |
| `Constructions.SeparateCutAgreesWithCoincidentCut` | constructions.py:110-113 | for distinct starts the general I.3 path returns exactly the shortcut's point |
| `Constructions.SeparateCutDegeneratesOnCommonStart` | constructions.py:110-113 | for a common start and non-zero lengths the general path returns greater's start while the shortcut does not |
| `Constructions.NormalizeAngle` | constructions.py:170-172 | an angle of [-pi, pi] is mapped into [0, 2 pi) by adding 2 pi at most once, and non-negative angles are kept |
| `Constructions.PolarityCase` | constructions.py:173-185 | the case split always resolves the polarity, so the failure branch is unreachable |
| `Constructions.PolarityRule` | constructions.py:174-183 | both branches compute one rule: the polarity is true exactly when (angle_AB - angle_AC) mod 2 pi lies in (0, pi) |
| `Constructions.BisectAngle` | constructions.py:161-191 | the result always succeeds, starts at A and ends on AC's ray at half of \|AB\| from AC's start, or at AC's start when AC has zero length |
| `Constructions.HalfwayLength` | constructions.py:163-164 | D = start + unit * \|AB\|/2 is AB's midpoint and \|AD\| = \|AB\|/2 |
| `Constructions.BisectAngleFollowsSecondArm` | constructions.py:187-191 | with both arms starting at A, the returned segment is collinear with AC and points the same way |
| `Intersections.QuadraticFormula` | constructions.py:293-294 | (-B +- root)/2/A solve A x^2 + B x + C = 0 when root^2 = B^2 - 4AC |
| `Intersections.QuadraticOnlyRoots` | constructions.py:293-294 | every solution of the quadratic is one of those two |
| `Intersections.SlopeIntercept` | constructions.py:286-287 | y = m x + b with b = -m x0 + y0 passes through both ends of AB |
| `Intersections.OnLineThroughIsGraph` | constructions.py:286-287 | a point is on the line through AB exactly when y = m x + b |
| `Intersections.LineCircleIntersections` | constructions.py:286-296 | both computed points lie on y = m x + b and on the circle of radius r about C, and x_1 >= x_2 |
| `Intersections.LineCircleOnlyPoints` | constructions.py:293-296 | every common point of the line and the circle is one of the two computed points |
| `Intersections.ChordMidpointIsFoot` | constructions.py:298 | the midpoint of the chord G-E lies on the line and is the foot of the perpendicular from C |
| `Intersections.DropChord` | constructions.py:279-298 | the chord's ends lie on the line through AB and on the circle about C |
| `Intersections.DropCirclePoint` | constructions.py:279-280 | D, one unit past Z along CZ, is \|CZ\| + 1 from C; for C = Z it is C itself |
| `Intersections.ExtendByOne` | constructions.py:280 | stepping one unit vector past a segment's end lengthens it by one |
| `Intersections.ReachingCircleMeetsLine` | constructions.py:293 | a circle reaching some point of the line has a non-negative discriminant |
| `Intersections.DropCircleMeetsLine` | constructions.py:279-294 | with the radius \|CD\| that I.12 draws, the discriminant is never negative, so its square root is always defined |
| `Triangle.LevelIntersections` | constructions.py:360-364 | with centres at one height, both points share the abscissa kx, lie on both circles, and the upper one comes first |
| `Triangle.LevelOnlyPoints` | constructions.py:360-364 | every common point of the two level circles is one of the two computed points |
| `Triangle.RadicalLineBalance` | constructions.py:366-367 | a point is on y = m x + b exactly when its squared distances to the centres differ by r1^2 - r2^2 |
| `Triangle.QuadraticPoints` | constructions.py:368-374 | the points at (-B +- root)/2/A with A, B, C as the code forms them are the circle-line solver's points on the radical line |
| `Triangle.RadicalIntersections` | constructions.py:365-374 | the general branch is the circle-line solver applied to the first circle and the radical line |
| `Triangle.RadicalOnBothCircles` | constructions.py:365-374 | both points of the general branch lie on both circles, the larger abscissa first |
| `Triangle.RadicalOnlyPoints` | constructions.py:365-374 | every common point of the two circles is one of the general branch's points |
| `Triangle.CircleCircleIntersections` | constructions.py:353-374 | for distinct centres, both points K and L lie on both circles in either branch, with the branch's ordering |
| `Triangle.CircleCircleOnlyPoints` | constructions.py:353-374 | every common point of the two circles is K or L |
| `Triangle.SolverApex` | constructions.py:353-376 | the first point the solver returns for radii r1 about F and r2 about G is r1 from F and r2 from G |
| `Triangle.TriangleApexAsWritten` | constructions.py:353-376 | given all three lengths, the code hands the solver r2 = \|B\| (constructions.py:358), so the apex is \|A\| from F and \|B\| from G |
| `Triangle.AsWrittenApexMissesThirdSide` | constructions.py:350-358 | whenever \|B\| differs from \|C\|, the returned side KG does not have length \|C\| |
| `Triangle.AsWrittenScenario` | constructions.py:357-363 | for F = (3,0), G = (7,0) and lengths 3, 4, 5 the code's level branch has kx = 33/8 and discriminant 495/16 |
| `Triangle.TriangleApex` | constructions.py:347-376 | given all three lengths and handing the solver the radius \|C\| of the circle drawn about G, the apex is \|A\| from F and \|C\| from G |
| `Triangle.TriangleSides` | constructions.py:376-384 | the returned sides KF, FG, KG close up into a triangle with KF of length \|A\| and KG of length \|C\| |
| `Triangle.RightTriangleScenario` | constructions.py:347-376 | for F = (3,0), G = (7,0) and lengths 3, 5 the apex is (3,3), with a right angle at F |
| `Budget.Script` | constructions.py:19-471 | each construction's plays and calls in code order; every call goes to a shallower construction and is handed exactly the callee's own count |
| `Budget.ScriptChargesDocCount` | constructions.py:19-471 | the multiples of dt each construction charges add up to its docstring count: 5, 11, 13, 2, 10, 16, 9, 20, 47, 64, 68 |
| `Budget.RunIsUniform` | constructions.py:19-471 | a construction run with time T plays exactly its count of animations, over the whole call tree, each lasting T / count |
| `Budget.RunSpendsItsTime` | constructions.py:19-471 | a construction given time T spends exactly T across all its animations |
| `Shapes.Decompose` | shapes.py:41-47 | ten*10 + five*5 + one = n always; for n >= 0, ten = n / 10, five is 0 or 1 and one is between 0 and 4 |
| `Shapes.DecomposeNegative` | shapes.py:41-47 | for a negative count the split is the negation of the split of its magnitude |
| `Shapes.Plan` | shapes.py:60-156 | six loops, loop i placing marks of the i-th kind |
| `Shapes.MarkKindsRuns` | shapes.py:60-156 | the marks placed are the six runs of ten-ticks, five-ticks, one-ticks, ten-arrows, five-arrows and one-arrows, in that order |
| `Shapes.MarkKindsCount` | shapes.py:49-156 | for non-negative counts the loops place exactly num_marks marks |
| `Shapes.NoMarksExactly` | shapes.py:49-51 | for non-negative counts num_marks is zero exactly when both counts are zero |
| `Shapes.MarkKindsOrdered` | shapes.py:60-156 | the marks come in non-decreasing kind order ten-tick, five-tick, one-tick, ten-arrow, five-arrow, one-arrow |
| `Shapes.AdvanceStep` | shapes.py:76 | one step of the loop moves the position by exactly one spacing |
| `Shapes.AdvanceIncreasing` | shapes.py:53-58 | with a positive spacing later marks sit strictly further along the line |
| `Shapes.RunLength` | shapes.py:60-156 | a loop that places n marks of a kind adds n times that kind's stroke count |
| `Shapes.MarkStrokesConcat` | shapes.py:60-156 | the strokes of two runs placed one after the other are the first run's strokes then the second's, starting where the first stopped |
| `Shapes.MarkStrokeAt` | shapes.py:58-156 | stroke j of mark k follows the strokes of the earlier marks, has mark k's kind and sits k spacings past the first position |
| `Shapes.ChildCount` | shapes.py:37-156 | the children are 1 + 3 per ten-tick + 2 per five-tick + 1 per one-tick + 5 per ten-arrow + 4 per five-arrow + 2 per one-arrow |
| `Shapes.NoMarksNoStrokes` | shapes.py:37-51 | when num_marks is zero only the line is added, and no division happens |
| `Shapes.Centred` | shapes.py:53-58 | the first and last marks are symmetric about mark_origin, and their spread is width - spacing, less than the width |
| `Shapes.MarkWithinWidth` | shapes.py:53-58 | for a non-negative width, each of the n marks lies within half the layout width of mark_origin |
| `Shapes.LayoutCentred` | shapes.py:50-58 | in the children the constructor builds, the first stroke and the last stroke are symmetric about mark_origin and width - spacing apart |
| `Shapes.LayoutWithinWidth` | shapes.py:50-58 | for non-negative counts and width, the first child is the line and every later child is a stroke within half the layout width of mark_origin |
| `Shapes.LayoutStaysCentral` | shapes.py:27-58 | with the default origin 0.5 and width 0.25, every stroke the constructor adds lies within [0.375, 0.625] of the line |
| `Shapes.MarkOnLine` | shapes.py:58-63 | a mark at a fraction in [0, 1] is centred on the segment |
| `Shapes.Placed` | shapes.py:60-156 | placing a further run keeps the children equal to the line followed by the strokes of every mark placed so far |
| `Shapes.MarkedLine.constructor` | shapes.py:27-156 | the parameters are stored unchanged, and the children are the line followed by every mark's strokes in layout order |
| `Shapes.MarkedLine.PlaceMarks` | shapes.py:60-76 | one loop appends count marks' strokes, mark i at i spacings past the position, and returns the position count spacings on |
| `Shapes.MarkedLine.Length` | shapes.py:161-162 | the stored line's length, zero exactly when its ends coincide |
| `Shapes.MarkedLine.Start` | shapes.py:164-165 | the stored line's start |
| `Shapes.MarkedLine.End` | shapes.py:167-168 | the stored line's end |
| `Shapes.MarkedLine.Direction` | shapes.py:170-171 | the stored line's unit vector |

## Left out

- Animation: every `Scene` call (`play`, `Create`, `FadeOut`, `add`, `remove`), the colours, and the `Circle` and `Dot` objects. Only the points computed and the per-animation durations are modelled.
- Square roots, `get_angle`/atan2 and trigonometry are not computed. Lengths, discriminant roots and sin 60 are parameters tied to their squares. Angles are inputs in [-pi, pi], with pi an abstract positive constant.
- Floating point: coordinates, the time step dt = T / k and the durations handed to sub-constructions (`dt*5`, `13*dt` and so on) are exact reals. So `Budget.RunSpendsItsTime`'s "exactly T" and `Budget.ShareCancels` hold over reals; over Python floats the durations may be off by rounding. `np.sqrt` of a negative discriminant gives NaN in the code. The model requires a non-negative discriminant and a non-vertical line (a finite slope) instead.
- The composite wiring of I.10, I.11, I.12, I.22, I.23 and I.31 is left out. Returned points are used as lines, `get_center` is called without parentheses or twice, and `equal_angle` builds a line end that is not offset by A. These constructions take part only in the time budget. I.22's and I.12's solvers take their inputs (F, G, C, the line) as parameters.
- The point H that I.12 joins C to comes from `bisect_line`. It is not the chord's midpoint, so no perpendicularity is claimed for the returned segment.
- `Constructions.BisectAngle`: no bisection property, because the code returns a segment along the second arm.
- `Constructions.CutCoincidentLineToLength`: constructions.py:136 reads the radius of the drawn circle through `lesser_line.length()`, while every other length read in the code uses `get_length()`. The model reads it as `get_length()`, so it returns the point of constructions.py:138. It does not model the attribute error that manim's `Line` would raise there.
- `Constructions.BisectAngle`: it calls `cut_coincident_line_to_length` (constructions.py:165), so it inherits the `get_length()` reading of constructions.py:136 above. The same holds for `bisect_line` and the two perpendicular constructions, which take part only in the time budget.
- The stroke lines' own endpoints (rotations by `rot` of `length * RIGHT`), their stroke width, `angle_main_line` and `VMobject`'s keyword arguments are left out. A stroke is recorded by its mark kind, its number within the mark and its position.
- `Shapes.MarkedLine.Length`: the length is returned from a root parameter rather than computed.
- The `ManimHelpers.constant_suppliments` import is not part of this model.
- temp.py, a demo scene, is not part of this model.
- Python's `int(n / 10)` goes through a float division. Counts beyond 2^53 could round differently. The model truncates exactly.

## Findings

| source | as written | input that shows it | evidently intended | confidence | as-written member | corrected member |
|---|---|---|---|---|---|---|
| constructions.py:358 | the circle-circle solver is given r2 = \|B\|, but the circle drawn about G (constructions.py:350) has radius \|GH\| = \|C\| | F = (3,0), G = (7,0), \|A\| = 3, \|B\| = 4, \|C\| = 5: the code finds K at kx = 33/8, 4 from G, so KG is not 5 | r2 = \|C\|, giving the 3-4-5 triangle with apex (3,3) | not executed | `Triangle.AsWrittenApexMissesThirdSide` | `Triangle.TriangleSides` |
| constructions.py:110-113 | when both segments start at one point, I.2 copies the lesser segment onto a zero-length segment, so the circle has radius 0 and the cut point is greater's own start | greater = (0,0)-(4,0), lesser = (0,0)-(0,2): the code returns (0,0) instead of (2,0) | the point at \|lesser\| along greater, which the fast path (constructions.py:138) returns for the same segments | not executed | `Constructions.SeparateCutDegeneratesOnCommonStart` | `Constructions.CutCoincidentLineToLength` |
