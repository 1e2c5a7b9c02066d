/**
  A marked line: a segment drawn with congruence ticks and parallelism arrows
  laid out around a point of it.

  A tick count and an arrow count are each split into marks worth ten, five
  and one; the marks are spaced evenly over a window of the line centred on
  `markOrigin` and each mark adds a fixed number of short stroke lines as
  children of the marked line. Positions along the line are fractions of its
  length: fraction f is the point start + f (end - start).
 */
module Shapes {
  import opened Geometry

  /** The six kinds of mark, in the order they are laid out. */
  datatype MarkKind = TenTick | FiveTick | OneTick | TenArrow | FiveArrow | OneArrow

  /**
    A child line of the marked line: the copy of the line itself, or stroke
    number `stroke` of a mark of the given kind centred at fraction `position`.
    The strokes' own endpoints come from rotating a short vector and are not
    modelled.
   */
  datatype Child = MainLine(line: Line) | Stroke(kind: MarkKind, stroke: nat, position: real)

  /** The number of stroke lines each kind of mark draws. */
  function StrokeCount(kind: MarkKind): nat
  {
    match kind
    case TenTick => 3
    case FiveTick => 2
    case OneTick => 1
    case TenArrow => 5
    case FiveArrow => 4
    case OneArrow => 2
  }

  /** The position of a kind in the layout order. */
  function Rank(kind: MarkKind): nat
  {
    match kind
    case TenTick => 0
    case FiveTick => 1
    case OneTick => 2
    case TenArrow => 3
    case FiveArrow => 4
    case OneArrow => 5
  }

  /*
    Splitting a count into tens, fives and ones.
   */

  /** int(n / d) for a positive d: true division truncated toward zero. */
  function TruncDiv(n: int, d: int): int
    requires d > 0
  {
    if n >= 0 then n / d else -((-n) / d)
  }

  /**
    The numbers of marks worth ten, five and one for a count n. They always
    add back up to n; for a non-negative count there are n / 10 tens, at most
    one five and at most four ones.
   */
  function Decompose(n: int): (r: (int, int, int))
    ensures 10 * r.0 + 5 * r.1 + r.2 == n
    ensures n >= 0 ==> r.0 == n / 10 && 0 <= r.1 <= 1 && 0 <= r.2 <= 4
  {
    var tens := TruncDiv(n, 10);
    var fives := TruncDiv(n - 10 * tens, 5);
    (tens, fives, n - 10 * tens - 5 * fives)
  }

  /** Truncation makes the split of a negative count the mirror image of the split of its magnitude. */
  lemma DecomposeNegative(n: int)
    requires n > 0
    ensures var r, s := Decompose(-n), Decompose(n);
            r.0 == -s.0 && r.1 == -s.1 && r.2 == -s.2
  {
  }

  /** A loop over range(k) runs max(k, 0) times. */
  function Iterations(k: int): nat
  {
    if k < 0 then 0 else k
  }

  /** The total the code divides by: the six counts added up. */
  function NumMarks(congMarkNum: int, parrelMarkNum: int): int
  {
    var ticks, arrows := Decompose(congMarkNum), Decompose(parrelMarkNum);
    ticks.0 + ticks.1 + ticks.2 + arrows.0 + arrows.1 + arrows.2
  }

  function Repeat(kind: MarkKind, n: nat): (r: seq<MarkKind>)
    ensures |r| == n && forall i | 0 <= i < n :: r[i] == kind
  {
    seq(n, _ => kind)
  }

  /** One of the six loops: the kind of mark it places and how many times it runs. */
  datatype MarkRun = MarkRun(kind: MarkKind, count: nat)

  /** The six loops in the order the code runs them; run i places marks of rank i. */
  function Plan(congMarkNum: int, parrelMarkNum: int): (plan: seq<MarkRun>)
    ensures |plan| == 6
    ensures forall i | 0 <= i < 6 :: Rank(plan[i].kind) == i
  {
    var ticks, arrows := Decompose(congMarkNum), Decompose(parrelMarkNum);
    [MarkRun(TenTick, Iterations(ticks.0)), MarkRun(FiveTick, Iterations(ticks.1)),
     MarkRun(OneTick, Iterations(ticks.2)), MarkRun(TenArrow, Iterations(arrows.0)),
     MarkRun(FiveArrow, Iterations(arrows.1)), MarkRun(OneArrow, Iterations(arrows.2))]
  }

  /** The marks a sequence of runs places, in order. */
  function KindsOf(plan: seq<MarkRun>): seq<MarkKind>
  {
    if |plan| == 0 then []
    else KindsOf(plan[..|plan| - 1]) + Repeat(plan[|plan| - 1].kind, plan[|plan| - 1].count)
  }

  /** The marks in the order the six loops place them. */
  function MarkKinds(congMarkNum: int, parrelMarkNum: int): seq<MarkKind>
  {
    KindsOf(Plan(congMarkNum, parrelMarkNum))
  }

  /** Running one more loop appends its marks. */
  lemma KindsStep(plan: seq<MarkRun>, k: nat)
    requires k < |plan|
    ensures KindsOf(plan[..k + 1]) == KindsOf(plan[..k]) + Repeat(plan[k].kind, plan[k].count)
  {
    assert plan[..k + 1][..k] == plan[..k];
  }

  /** The marks of the six loops, one run after the other. */
  lemma MarkKindsRuns(congMarkNum: int, parrelMarkNum: int)
    ensures var ticks, arrows := Decompose(congMarkNum), Decompose(parrelMarkNum);
            MarkKinds(congMarkNum, parrelMarkNum)
            == [] + Repeat(TenTick, Iterations(ticks.0)) + Repeat(FiveTick, Iterations(ticks.1))
               + Repeat(OneTick, Iterations(ticks.2)) + Repeat(TenArrow, Iterations(arrows.0))
               + Repeat(FiveArrow, Iterations(arrows.1)) + Repeat(OneArrow, Iterations(arrows.2))
  {
    var plan := Plan(congMarkNum, parrelMarkNum);
    assert plan[..0] == [];
    KindsStep(plan, 0);
    KindsStep(plan, 1);
    KindsStep(plan, 2);
    KindsStep(plan, 3);
    KindsStep(plan, 4);
    KindsStep(plan, 5);
    assert plan[..6] == plan;
  }

  /** For non-negative counts the loops place exactly the number of marks the spacing was computed for. */
  lemma MarkKindsCount(congMarkNum: int, parrelMarkNum: int)
    requires congMarkNum >= 0 && parrelMarkNum >= 0
    ensures |MarkKinds(congMarkNum, parrelMarkNum)| == NumMarks(congMarkNum, parrelMarkNum)
  {
    var plan := Plan(congMarkNum, parrelMarkNum);
    assert plan[..0] == [];
    KindsStep(plan, 0);
    KindsStep(plan, 1);
    KindsStep(plan, 2);
    KindsStep(plan, 3);
    KindsStep(plan, 4);
    KindsStep(plan, 5);
    assert plan[..6] == plan;
  }

  /** With non-negative counts there are no marks exactly when both counts are zero. */
  lemma NoMarksExactly(congMarkNum: int, parrelMarkNum: int)
    requires congMarkNum >= 0 && parrelMarkNum >= 0
    ensures NumMarks(congMarkNum, parrelMarkNum) == 0 <==> congMarkNum == 0 && parrelMarkNum == 0
  {
  }

  /** The marks come in the fixed order ten-ticks, five-ticks, one-ticks, ten-arrows, five-arrows, one-arrows. */
  lemma MarkKindsOrdered(congMarkNum: int, parrelMarkNum: int)
    ensures forall i, j | 0 <= i < j < |MarkKinds(congMarkNum, parrelMarkNum)| ::
              Rank(MarkKinds(congMarkNum, parrelMarkNum)[i]) <= Rank(MarkKinds(congMarkNum, parrelMarkNum)[j])
  {
    var plan := Plan(congMarkNum, parrelMarkNum);
    KindsOfOrdered(plan);
  }

  /**
    Runs of strictly increasing rank place their marks in non-decreasing rank,
    none of them past the last run's rank.
   */
  lemma {:induction false} KindsOfOrdered(plan: seq<MarkRun>)
    requires forall i, j | 0 <= i < j < |plan| :: Rank(plan[i].kind) < Rank(plan[j].kind)
    ensures forall i, j | 0 <= i < j < |KindsOf(plan)| :: Rank(KindsOf(plan)[i]) <= Rank(KindsOf(plan)[j])
    ensures |plan| > 0 ==> forall i | 0 <= i < |KindsOf(plan)| :: Rank(KindsOf(plan)[i]) <= Rank(plan[|plan| - 1].kind)
  {
    if |plan| > 0 {
      var init, last := plan[..|plan| - 1], plan[|plan| - 1];
      KindsOfOrdered(init);
      var front, back := KindsOf(init), Repeat(last.kind, last.count);
      assert KindsOf(plan) == front + back;
      if |init| > 0 {
        assert Rank(plan[|init| - 1].kind) < Rank(last.kind);
        forall i | 0 <= i < |front|
          ensures Rank(front[i]) < Rank(last.kind)
        {
          assert forall i0 | 0 <= i0 < |KindsOf(init)| :: Rank(KindsOf(init)[i0]) <= Rank(init[|init| - 1].kind);
        }
      } else {
        assert front == [];
      }
      forall i, j | 0 <= i < j < |front + back|
        ensures Rank((front + back)[i]) <= Rank((front + back)[j])
      {
        if j < |front| {
          assert forall i0, j0 | 0 <= i0 < j0 < |KindsOf(init)| :: Rank(KindsOf(init)[i0]) <= Rank(KindsOf(init)[j0]);
          assert (front + back)[i] == front[i] && (front + back)[j] == front[j];
        } else if i < |front| {
          assert (front + back)[i] == front[i] && (front + back)[j] == last.kind;
        } else {
          assert (front + back)[i] == last.kind && (front + back)[j] == last.kind;
        }
      }
    }
  }

  /*
    Positions along the line.
   */

  /** The position k spacings past `first`. */
  function Advance(first: real, k: nat, spacing: real): real
  {
    first + k as real * spacing
  }

  lemma AdvanceStep(first: real, k: nat, spacing: real)
    ensures Advance(first, k, spacing) + spacing == Advance(first, k + 1, spacing)
  {
  }

  lemma AdvanceAdd(first: real, a: nat, b: nat, spacing: real)
    ensures Advance(Advance(first, a, spacing), b, spacing) == Advance(first, a + b, spacing)
  {
  }

  /** With a positive spacing, later marks sit strictly further along the line. */
  lemma AdvanceIncreasing(first: real, j: nat, k: nat, spacing: real)
    requires spacing > 0.0 && j < k
    ensures Advance(first, j, spacing) < Advance(first, k, spacing)
  {
    MulPositive((k - j) as real, spacing);
    assert Mul((k - j) as real, spacing) == Advance(first, k, spacing) - Advance(first, j, spacing);
  }

  /** The strokes of one mark centred at `position`. */
  function Strokes(kind: MarkKind, position: real): (r: seq<Child>)
    ensures |r| == StrokeCount(kind)
    ensures forall j | 0 <= j < |r| :: r[j] == Stroke(kind, j, position)
  {
    seq(StrokeCount(kind), j requires 0 <= j => Stroke(kind, j, position))
  }

  /** The strokes of a run of marks, mark k centred k spacings past `first`. */
  function MarkStrokes(kinds: seq<MarkKind>, first: real, spacing: real): seq<Child>
  {
    if |kinds| == 0 then []
    else MarkStrokes(kinds[..|kinds| - 1], first, spacing)
         + Strokes(kinds[|kinds| - 1], Advance(first, |kinds| - 1, spacing))
  }

  /** The spacing between marks: the layout width shared out over all marks. */
  function Spacing(congMarkNum: int, parrelMarkNum: int, markLayoutWidth: real): real
    requires NumMarks(congMarkNum, parrelMarkNum) != 0
  {
    MarkSpacing(NumMarks(congMarkNum, parrelMarkNum), markLayoutWidth)
  }

  /** The first mark's position: half the marks' spread before the origin. */
  function FirstPosition(congMarkNum: int, parrelMarkNum: int, markOrigin: real, markLayoutWidth: real): real
    requires NumMarks(congMarkNum, parrelMarkNum) != 0
  {
    FirstMark(NumMarks(congMarkNum, parrelMarkNum), markOrigin, markLayoutWidth)
  }

  /** The spacing of n marks sharing out the layout width. */
  function MarkSpacing(n: int, markLayoutWidth: real): real
    requires n != 0
  {
    markLayoutWidth / n as real
  }

  /** The first of n marks, half their spread before the origin. */
  function FirstMark(n: int, markOrigin: real, markLayoutWidth: real): real
    requires n != 0
  {
    markOrigin - MarkSpacing(n, markLayoutWidth) * (n - 1) as real / 2.0
  }

  /**
    The children of a marked line: the copy of the line, then, unless the
    counts add up to zero, the strokes of every mark in layout order.
   */
  function Layout(line: Line, congMarkNum: int, parrelMarkNum: int, markOrigin: real, markLayoutWidth: real): seq<Child>
  {
    [MainLine(line)]
    + if NumMarks(congMarkNum, parrelMarkNum) == 0 then []
      else MarkStrokes(MarkKinds(congMarkNum, parrelMarkNum),
                       FirstPosition(congMarkNum, parrelMarkNum, markOrigin, markLayoutWidth),
                       Spacing(congMarkNum, parrelMarkNum, markLayoutWidth))
  }

  /** Laying out two runs of marks one after the other. */
  lemma {:induction false} MarkStrokesConcat(a: seq<MarkKind>, b: seq<MarkKind>, first: real, spacing: real)
    ensures MarkStrokes(a + b, first, spacing)
         == MarkStrokes(a, first, spacing) + MarkStrokes(b, Advance(first, |a|, spacing), spacing)
    decreases |b|
  {
    if |b| > 0 {
      var b' := b[..|b| - 1];
      assert (a + b)[..|a + b| - 1] == a + b';
      MarkStrokesConcat(a, b', first, spacing);
      AdvanceAdd(first, |a|, |b'|, spacing);
    } else {
      assert a + b == a;
    }
  }

  /** A run of n marks of one kind draws n times that kind's strokes. */
  lemma {:induction false} RunLength(kind: MarkKind, n: nat, first: real, spacing: real)
    ensures |MarkStrokes(Repeat(kind, n), first, spacing)| == n * StrokeCount(kind)
  {
    if n > 0 {
      assert Repeat(kind, n)[..n - 1] == Repeat(kind, n - 1);
      RunLength(kind, n - 1, first, spacing);
    }
  }

  /**
    Stroke j of mark k follows the strokes of the marks before it: it has
    mark k's kind and sits exactly k spacings past the first position.
   */
  lemma {:induction false} MarkStrokeAt(kinds: seq<MarkKind>, first: real, spacing: real, k: nat, j: nat)
    requires k < |kinds| && j < StrokeCount(kinds[k])
    ensures |MarkStrokes(kinds[..k], first, spacing)| + j < |MarkStrokes(kinds, first, spacing)|
    ensures MarkStrokes(kinds, first, spacing)[|MarkStrokes(kinds[..k], first, spacing)| + j]
         == Stroke(kinds[k], j, Advance(first, k, spacing))
  {
    var init := kinds[..|kinds| - 1];
    if k == |kinds| - 1 {
      assert kinds[..k] == init;
    } else {
      assert init[..k] == kinds[..k];
      MarkStrokeAt(init, first, spacing, k, j);
    }
  }

  /**
    Running loop k of a plan appends its marks' strokes where the previous
    loops stopped, and moves the position on by the marks it placed.
   */
  lemma LayoutStep(plan: seq<MarkRun>, k: nat, first: real, spacing: real)
    requires k < |plan|
    ensures var before := Advance(first, |KindsOf(plan[..k])|, spacing);
            MarkStrokes(KindsOf(plan[..k + 1]), first, spacing)
            == MarkStrokes(KindsOf(plan[..k]), first, spacing)
               + MarkStrokes(Repeat(plan[k].kind, plan[k].count), before, spacing)
    ensures Advance(Advance(first, |KindsOf(plan[..k])|, spacing), plan[k].count, spacing)
         == Advance(first, |KindsOf(plan[..k + 1])|, spacing)
  {
    KindsStep(plan, k);
    MarkStrokesConcat(KindsOf(plan[..k]), Repeat(plan[k].kind, plan[k].count), first, spacing);
    AdvanceAdd(first, |KindsOf(plan[..k])|, plan[k].count, spacing);
  }

  /** The number of stroke lines one loop adds. */
  function RunStrokes(run: MarkRun): nat
  {
    run.count * StrokeCount(run.kind)
  }

  /** Loop k of a plan adds count times its kind's strokes to the children. */
  lemma LengthStep(plan: seq<MarkRun>, k: nat, first: real, spacing: real)
    requires k < |plan|
    ensures |MarkStrokes(KindsOf(plan[..k + 1]), first, spacing)|
         == |MarkStrokes(KindsOf(plan[..k]), first, spacing)| + RunStrokes(plan[k])
  {
    LayoutStep(plan, k, first, spacing);
    RunLength(plan[k].kind, plan[k].count, Advance(first, |KindsOf(plan[..k])|, spacing), spacing);
  }

  /** Six loops add the strokes of each loop in turn. */
  lemma SixLoopsLength(plan: seq<MarkRun>, first: real, spacing: real)
    requires |plan| == 6
    ensures |MarkStrokes(KindsOf(plan), first, spacing)|
         == RunStrokes(plan[0]) + RunStrokes(plan[1]) + RunStrokes(plan[2])
            + RunStrokes(plan[3]) + RunStrokes(plan[4]) + RunStrokes(plan[5])
  {
    assert plan[..0] == [];
    LengthStep(plan, 0, first, spacing);
    LengthStep(plan, 1, first, spacing);
    LengthStep(plan, 2, first, spacing);
    LengthStep(plan, 3, first, spacing);
    LengthStep(plan, 4, first, spacing);
    LengthStep(plan, 5, first, spacing);
    assert plan[..6] == plan;
  }

  /**
    The number of child lines: the line itself plus 3 per ten-tick, 2 per
    five-tick, 1 per one-tick, 5 per ten-arrow, 4 per five-arrow and 2 per
    one-arrow, counting only loops that run.
   */
  lemma ChildCount(line: Line, congMarkNum: int, parrelMarkNum: int, markOrigin: real, markLayoutWidth: real)
    requires NumMarks(congMarkNum, parrelMarkNum) != 0
    ensures var ticks, arrows := Decompose(congMarkNum), Decompose(parrelMarkNum);
            |Layout(line, congMarkNum, parrelMarkNum, markOrigin, markLayoutWidth)|
            == 1 + 3 * Iterations(ticks.0) + 2 * Iterations(ticks.1) + Iterations(ticks.2)
               + 5 * Iterations(arrows.0) + 4 * Iterations(arrows.1) + 2 * Iterations(arrows.2)
  {
    var plan := Plan(congMarkNum, parrelMarkNum);
    var first := FirstPosition(congMarkNum, parrelMarkNum, markOrigin, markLayoutWidth);
    var spacing := Spacing(congMarkNum, parrelMarkNum, markLayoutWidth);
    assert |Layout(line, congMarkNum, parrelMarkNum, markOrigin, markLayoutWidth)|
        == 1 + |MarkStrokes(KindsOf(plan), first, spacing)|;
    SixLoopsLength(plan, first, spacing);
  }

  /** When the counts add up to zero only the line itself is added, and nothing is divided by zero. */
  lemma NoMarksNoStrokes(line: Line, congMarkNum: int, parrelMarkNum: int, markOrigin: real, markLayoutWidth: real)
    requires NumMarks(congMarkNum, parrelMarkNum) == 0
    ensures Layout(line, congMarkNum, parrelMarkNum, markOrigin, markLayoutWidth) == [MainLine(line)]
  {
  }

  /**
    The first and last marks sit symmetrically about the origin, and they are
    spread over width (n - 1) / n of the line, less than the layout width.
   */
  lemma Centred(n: nat, spacing: real, markOrigin: real, markLayoutWidth: real, first: real)
    requires n > 0 && spacing * n as real == markLayoutWidth
    requires first == markOrigin - spacing * (n - 1) as real / 2.0
    ensures (first + Advance(first, n - 1, spacing)) / 2.0 == markOrigin
    ensures Advance(first, n - 1, spacing) - first == markLayoutWidth - spacing
    ensures markLayoutWidth > 0.0 ==> Advance(first, n - 1, spacing) - first < markLayoutWidth
  {
    if markLayoutWidth > 0.0 {
      assert spacing > 0.0 by {
        if spacing <= 0.0 {
          MulNonnegative(-spacing, n as real);
          assert false;
        }
      }
    }
  }

  /**
    Every mark sits within half the layout width of the origin; with the
    default origin 1/2 and width 1/4 that is the middle quarter of the line.
   */
  lemma MarkWithinWidth(n: nat, spacing: real, first: real, markOrigin: real, markLayoutWidth: real, k: nat)
    requires n > 0 && markLayoutWidth >= 0.0 && spacing * n as real == markLayoutWidth
    requires first == markOrigin - spacing * (n - 1) as real / 2.0
    requires k < n
    ensures markOrigin - markLayoutWidth / 2.0 <= Advance(first, k, spacing) <= markOrigin + markLayoutWidth / 2.0
  {
    assert spacing >= 0.0 by {
      if spacing < 0.0 {
        MulPositive(-spacing, n as real);
        assert false;
      }
    }
    MulNonnegative(spacing, k as real);
    MulNonnegative(spacing, (n - 1 - k) as real);
    assert Mul(spacing, k as real) + Mul(spacing, (n - 1 - k) as real) == spacing * (n - 1) as real;
  }

  /** Every stroke of a run of marks sits at one of the marks' positions, so within any bounds those keep. */
  lemma {:induction false} StrokesWithin(kinds: seq<MarkKind>, first: real, spacing: real, lo: real, hi: real)
    requires forall k | 0 <= k < |kinds| :: lo <= Advance(first, k, spacing) <= hi
    ensures forall i | 0 <= i < |MarkStrokes(kinds, first, spacing)| ::
              MarkStrokes(kinds, first, spacing)[i].Stroke?
              && lo <= MarkStrokes(kinds, first, spacing)[i].position <= hi
  {
    if |kinds| > 0 {
      var init := kinds[..|kinds| - 1];
      assert forall k | 0 <= k < |init| :: lo <= Advance(first, k, spacing) <= hi;
      StrokesWithin(init, first, spacing, lo, hi);
      var last := Strokes(kinds[|kinds| - 1], Advance(first, |kinds| - 1, spacing));
      assert MarkStrokes(kinds, first, spacing) == MarkStrokes(init, first, spacing) + last;
    }
  }

  /** The layout width shared out over n marks adds back up to the width. */
  lemma SpacingShares(markLayoutWidth: real, n: int)
    requires n != 0
    ensures (markLayoutWidth / n as real) * n as real == markLayoutWidth
  {
  }

  /**
    A layout of a run of marks about `markOrigin` over `markLayoutWidth`: its
    first stroke and its last stroke sit symmetrically about the origin.
   */
  lemma RunCentred(layout: seq<Child>, line: Line, kinds: seq<MarkKind>, n: int, first: real, spacing: real,
                   markOrigin: real, markLayoutWidth: real)
    requires n == |kinds| && n > 0 && spacing == MarkSpacing(n, markLayoutWidth)
    requires first == FirstMark(n, markOrigin, markLayoutWidth)
    requires layout == [MainLine(line)] + MarkStrokes(kinds, first, spacing)
    ensures |layout| >= 2 && layout[1].Stroke? && layout[|layout| - 1].Stroke?
    ensures (layout[1].position + layout[|layout| - 1].position) / 2.0 == markOrigin
    ensures layout[|layout| - 1].position - layout[1].position == markLayoutWidth - spacing
  {
    SpacingShares(markLayoutWidth, n);
    Centred(n, spacing, markOrigin, markLayoutWidth, first);
    assert kinds[..0] == [];
    MarkStrokeAt(kinds, first, spacing, 0, 0);
    var last := Strokes(kinds[n - 1], Advance(first, n - 1, spacing));
    assert layout == [MainLine(line)] + MarkStrokes(kinds[..n - 1], first, spacing) + last;
    assert layout[|layout| - 1] == last[|last| - 1];
  }

  /** The layout is the copy of the line followed by the strokes of MarkKinds. */
  lemma LayoutStrokes(line: Line, congMarkNum: int, parrelMarkNum: int, markOrigin: real, markLayoutWidth: real)
    requires NumMarks(congMarkNum, parrelMarkNum) != 0
    ensures Layout(line, congMarkNum, parrelMarkNum, markOrigin, markLayoutWidth)
         == [MainLine(line)] + MarkStrokes(MarkKinds(congMarkNum, parrelMarkNum),
                                           FirstPosition(congMarkNum, parrelMarkNum, markOrigin, markLayoutWidth),
                                           Spacing(congMarkNum, parrelMarkNum, markLayoutWidth))
  {
  }

  /**
    The layout the constructor builds is centred: the first stroke (of the
    first mark) and the last stroke (of the last mark) sit symmetrically about
    the origin, width - spacing apart.
   */
  lemma LayoutCentred(line: Line, congMarkNum: int, parrelMarkNum: int, markOrigin: real, markLayoutWidth: real)
    requires congMarkNum >= 0 && parrelMarkNum >= 0 && NumMarks(congMarkNum, parrelMarkNum) != 0
    ensures var layout := Layout(line, congMarkNum, parrelMarkNum, markOrigin, markLayoutWidth);
            |layout| >= 2 && layout[1].Stroke? && layout[|layout| - 1].Stroke?
            && (layout[1].position + layout[|layout| - 1].position) / 2.0 == markOrigin
            && layout[|layout| - 1].position - layout[1].position
               == markLayoutWidth - Spacing(congMarkNum, parrelMarkNum, markLayoutWidth)
  {
    var kinds := MarkKinds(congMarkNum, parrelMarkNum);
    var spacing := Spacing(congMarkNum, parrelMarkNum, markLayoutWidth);
    var first := FirstPosition(congMarkNum, parrelMarkNum, markOrigin, markLayoutWidth);
    MarkKindsCount(congMarkNum, parrelMarkNum);
    LayoutStrokes(line, congMarkNum, parrelMarkNum, markOrigin, markLayoutWidth);
    RunCentred(Layout(line, congMarkNum, parrelMarkNum, markOrigin, markLayoutWidth), line, kinds,
               NumMarks(congMarkNum, parrelMarkNum), first, spacing, markOrigin, markLayoutWidth);
  }

  /** Every stroke of a layout of a run lies within half the layout width of the origin. */
  lemma RunWithinWidth(layout: seq<Child>, line: Line, kinds: seq<MarkKind>, n: int, first: real, spacing: real,
                       markOrigin: real, markLayoutWidth: real)
    requires markLayoutWidth >= 0.0
    requires n == |kinds| && n > 0 && spacing == MarkSpacing(n, markLayoutWidth)
    requires first == FirstMark(n, markOrigin, markLayoutWidth)
    requires layout == [MainLine(line)] + MarkStrokes(kinds, first, spacing)
    ensures forall i | 1 <= i < |layout| ::
              layout[i].Stroke?
              && markOrigin - markLayoutWidth / 2.0 <= layout[i].position <= markOrigin + markLayoutWidth / 2.0
  {
    SpacingShares(markLayoutWidth, n);
    var lo, hi := markOrigin - markLayoutWidth / 2.0, markOrigin + markLayoutWidth / 2.0;
    forall k | 0 <= k < |kinds|
      ensures lo <= Advance(first, k, spacing) <= hi
    {
      MarkWithinWidth(n, spacing, first, markOrigin, markLayoutWidth, k);
    }
    StrokesWithin(kinds, first, spacing, lo, hi);
    var strokes := MarkStrokes(kinds, first, spacing);
    assert forall i | 1 <= i < |layout| :: layout[i] == strokes[i - 1];
  }

  /**
    Every child of the layout after the copy of the line is a stroke within
    half the layout width of the origin.
   */
  lemma LayoutWithinWidth(line: Line, congMarkNum: int, parrelMarkNum: int, markOrigin: real, markLayoutWidth: real)
    requires congMarkNum >= 0 && parrelMarkNum >= 0 && markLayoutWidth >= 0.0
    ensures Layout(line, congMarkNum, parrelMarkNum, markOrigin, markLayoutWidth)[0] == MainLine(line)
    ensures forall i | 1 <= i < |Layout(line, congMarkNum, parrelMarkNum, markOrigin, markLayoutWidth)| ::
              Layout(line, congMarkNum, parrelMarkNum, markOrigin, markLayoutWidth)[i].Stroke?
              && markOrigin - markLayoutWidth / 2.0
                 <= Layout(line, congMarkNum, parrelMarkNum, markOrigin, markLayoutWidth)[i].position
                 <= markOrigin + markLayoutWidth / 2.0
  {
    if NumMarks(congMarkNum, parrelMarkNum) != 0 {
      var kinds := MarkKinds(congMarkNum, parrelMarkNum);
      var spacing := Spacing(congMarkNum, parrelMarkNum, markLayoutWidth);
      var first := FirstPosition(congMarkNum, parrelMarkNum, markOrigin, markLayoutWidth);
        MarkKindsCount(congMarkNum, parrelMarkNum);
      LayoutStrokes(line, congMarkNum, parrelMarkNum, markOrigin, markLayoutWidth);
      RunWithinWidth(Layout(line, congMarkNum, parrelMarkNum, markOrigin, markLayoutWidth), line, kinds,
                     NumMarks(congMarkNum, parrelMarkNum), first, spacing, markOrigin, markLayoutWidth);
    }
  }

  /** With the default origin 1/2 and width 1/4, every stroke of the layout lies in [0.375, 0.625]. */
  lemma LayoutStaysCentral(line: Line, congMarkNum: int, parrelMarkNum: int, markOrigin: real, markLayoutWidth: real)
    requires congMarkNum >= 0 && parrelMarkNum >= 0 && markOrigin == 0.5 && markLayoutWidth == 0.25
    ensures forall i | 1 <= i < |Layout(line, congMarkNum, parrelMarkNum, markOrigin, markLayoutWidth)| ::
              Layout(line, congMarkNum, parrelMarkNum, markOrigin, markLayoutWidth)[i].Stroke?
              && 0.375 <= Layout(line, congMarkNum, parrelMarkNum, markOrigin, markLayoutWidth)[i].position <= 0.625
  {
    LayoutWithinWidth(line, congMarkNum, parrelMarkNum, markOrigin, markLayoutWidth);
  }

  /** The point at fraction f of a segment. */
  function MarkCentre(line: Line, f: real): Point
  {
    Add(line.start, Scale(Vector(line), f))
  }

  /** A mark at a fraction in [0, 1] is centred on the segment itself. */
  lemma MarkOnLine(line: Line, f: real)
    requires 0.0 <= f <= 1.0
    ensures OnSegment(MarkCentre(line, f), line)
  {
    var v := Vector(line);
    assert Sub(MarkCentre(line, f), line.start) == Scale(v, f);
    assert Sub(line.end, MarkCentre(line, f)) == Scale(v, 1.0 - f);
    assert Cross(v, Scale(v, f)) == 0.0;
    ScaledBetween(v, f);
  }

  /**
    If the children are the line followed by the strokes of the marks placed
    so far, placing a further run of marks keeps them so.
   */
  lemma Placed(line: Line, placed: seq<MarkKind>, run: seq<MarkKind>, first: real, spacing: real,
               before: seq<Child>, after: seq<Child>, next: real)
    requires before == [MainLine(line)] + MarkStrokes(placed, first, spacing)
    requires after == before + MarkStrokes(run, Advance(first, |placed|, spacing), spacing)
    requires next == Advance(Advance(first, |placed|, spacing), |run|, spacing)
    ensures after == [MainLine(line)] + MarkStrokes(placed + run, first, spacing)
    ensures next == Advance(first, |placed + run|, spacing)
  {
    MarkStrokesConcat(placed, run, first, spacing);
    AdvanceAdd(first, |placed|, |run|, spacing);
  }

  /** A segment with congruence ticks and parallelism arrows. */
  class MarkedLine {
    var congMarkNum: int
    var parrelMarkNum: int
    var markLength: real
    var markOrigin: real
    var markLayoutWidth: real
    var line: Line
    var children: seq<Child>

    /** Stores the parameters, adds the line, then lays out every mark's strokes. */
    constructor (line: Line, congMarkNum: int, parrelMarkNum: int, length: real, markOrigin: real, markLayoutWidth: real)
      ensures this.congMarkNum == congMarkNum && this.parrelMarkNum == parrelMarkNum
      ensures this.markLength == length && this.markOrigin == markOrigin && this.markLayoutWidth == markLayoutWidth
      ensures this.line == line
      ensures children == Layout(line, congMarkNum, parrelMarkNum, markOrigin, markLayoutWidth)
    {
      this.congMarkNum := congMarkNum;
      this.parrelMarkNum := parrelMarkNum;
      this.markLength := length;
      this.markOrigin := markOrigin;
      this.markLayoutWidth := markLayoutWidth;
      this.line := line;
      children := [MainLine(line)];
      new;
      var ticks, arrows := Decompose(congMarkNum), Decompose(parrelMarkNum);
      var numMarks := NumMarks(congMarkNum, parrelMarkNum);
      if numMarks != 0 {
        var spacing := Spacing(congMarkNum, parrelMarkNum, markLayoutWidth);
        var first := FirstPosition(congMarkNum, parrelMarkNum, markOrigin, markLayoutWidth);
        var position := first;
        ghost var placed: seq<MarkKind> := [];
        ghost var before := children;
        position := PlaceMarks(TenTick, ticks.0, position, spacing);
        Placed(line, placed, Repeat(TenTick, Iterations(ticks.0)), first, spacing, before, children, position);
        placed, before := placed + Repeat(TenTick, Iterations(ticks.0)), children;
        position := PlaceMarks(FiveTick, ticks.1, position, spacing);
        Placed(line, placed, Repeat(FiveTick, Iterations(ticks.1)), first, spacing, before, children, position);
        placed, before := placed + Repeat(FiveTick, Iterations(ticks.1)), children;
        position := PlaceMarks(OneTick, ticks.2, position, spacing);
        Placed(line, placed, Repeat(OneTick, Iterations(ticks.2)), first, spacing, before, children, position);
        placed, before := placed + Repeat(OneTick, Iterations(ticks.2)), children;
        position := PlaceMarks(TenArrow, arrows.0, position, spacing);
        Placed(line, placed, Repeat(TenArrow, Iterations(arrows.0)), first, spacing, before, children, position);
        placed, before := placed + Repeat(TenArrow, Iterations(arrows.0)), children;
        position := PlaceMarks(FiveArrow, arrows.1, position, spacing);
        Placed(line, placed, Repeat(FiveArrow, Iterations(arrows.1)), first, spacing, before, children, position);
        placed, before := placed + Repeat(FiveArrow, Iterations(arrows.1)), children;
        position := PlaceMarks(OneArrow, arrows.2, position, spacing);
        Placed(line, placed, Repeat(OneArrow, Iterations(arrows.2)), first, spacing, before, children, position);
        placed := placed + Repeat(OneArrow, Iterations(arrows.2));
        MarkKindsRuns(congMarkNum, parrelMarkNum);
      }
    }

    /**
      One of the six loops: `count` marks of one kind, each adding its strokes
      at the current position and moving it on by one spacing.
     */
    method PlaceMarks(kind: MarkKind, count: int, position: real, spacing: real) returns (next: real)
      modifies this`children
      ensures children == old(children) + MarkStrokes(Repeat(kind, Iterations(count)), position, spacing)
      ensures next == Advance(position, Iterations(count), spacing)
    {
      next := position;
      var i := 0;
      while i < count
        invariant 0 <= i <= Iterations(count)
        invariant children == old(children) + MarkStrokes(Repeat(kind, i), position, spacing)
        invariant next == Advance(position, i, spacing)
      {
        assert Repeat(kind, i + 1)[..i] == Repeat(kind, i);
        children := children + Strokes(kind, next);
        AdvanceStep(position, i, spacing);
        next := next + spacing;
        i := i + 1;
      }
    }

    /** The length of the stored line, given its square root. */
    function Length(root: real): (len: real)
      reads this
      requires IsRoot(root, Len2(line))
      ensures IsLength(line, len)
      ensures len == 0.0 <==> line.start == line.end
    {
      ZeroLength(line, root);
      root
    }

    function Start(): (p: Point)
      reads this
      ensures p == line.start
    {
      line.start
    }

    function End(): (p: Point)
      reads this
      ensures p == line.end
    {
      line.end
    }

    /** The stored line's unit vector, given its length. */
    function Direction(len: real): (u: Point)
      reads this
      requires IsLength(line, len)
      ensures len > 0.0 ==> Dot(u, u) == 1.0 && Scale(u, len) == Vector(line)
      ensures len == 0.0 ==> u == Origin
    {
      UnitVector(line, len)
    }
  }
}
