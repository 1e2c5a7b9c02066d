/**
  The time budget of the constructions. Each construction is given a total
  time T and its docstring promises a number k of operations; it charges
  dt = T / k for every animation it plays and hands each sub-construction it
  calls a whole multiple of dt. This module checks that accounting: the
  multiples charged add up to k, every sub-construction is handed exactly its
  own k times dt, and so every animation in the whole call tree runs for dt
  and together they take exactly T.
 */
module Budget {

  datatype Construction =
    | Equilateral       // equilateral_triangle, I.1
    | PointToLine       // point_to_line, I.2
    | CutSeparate       // cut_seperate_line_to_length, I.3
    | CutCoincident     // cut_coincident_line_to_length
    | BisectAngle       // bisect_angle, I.9
    | BisectLine        // bisect_line, I.10
    | PerpendicularOn   // perpendicular_from_point_on_line, I.11
    | PerpendicularOff  // perpendicular_from_point_off_line, I.12
    | Triangle          // triangle, I.22
    | EqualAngle        // equal_angle, I.23
    | Parallel          // parallel_line, I.31

  /** One step of a construction's script: an animation lasting one dt, or a call handed `share` dt. */
  datatype Step = Play | Call(callee: Construction, share: nat)

  /** The operation count each docstring promises, which is also the default time. */
  function DocCount(c: Construction): nat
  {
    match c
    case Equilateral => 5
    case PointToLine => 11
    case CutSeparate => 13
    case CutCoincident => 2
    case BisectAngle => 10
    case BisectLine => 16
    case PerpendicularOn => 9
    case PerpendicularOff => 20
    case Triangle => 47
    case EqualAngle => 64
    case Parallel => 68
  }

  /** The depth of a construction in the call tree; a construction calls only shallower ones. */
  function Level(c: Construction): nat
  {
    match c
    case Equilateral => 0
    case CutCoincident => 0
    case PointToLine => 1
    case BisectAngle => 1
    case PerpendicularOn => 1
    case CutSeparate => 2
    case BisectLine => 2
    case PerpendicularOff => 3
    case Triangle => 3
    case EqualAngle => 4
    case Parallel => 5
  }

  /** The number of dt a sequence of steps charges. */
  function Charged(steps: seq<Step>): nat
  {
    ChargedFrom(steps, 0)
  }

  function ChargedFrom(steps: seq<Step>, i: nat): nat
    decreases |steps| - i
  {
    if i >= |steps| then 0
    else (match steps[i] case Play => 1 case Call(_, share) => share) + ChargedFrom(steps, i + 1)
  }

  /**
    The plays and calls of each construction, in the order the code makes
    them. Every construction calls only shallower constructions and hands each
    callee its own count.
   */
  function Script(c: Construction): (steps: seq<Step>)
    ensures forall i | 0 <= i < |steps| :: steps[i].Call? ==> Level(steps[i].callee) < Level(c)
    ensures forall i | 0 <= i < |steps| :: steps[i].Call? ==> steps[i].share == DocCount(steps[i].callee)
  {
    match c
    case Equilateral => [Play, Play, Play, Play, Play]
    case PointToLine => [Play, Call(Equilateral, 5), Play, Play, Play, Play, Play]
    case CutSeparate => [Call(PointToLine, 11), Play, Play]
    case CutCoincident => [Play, Play]
    case BisectAngle => [Call(CutCoincident, 2), Play, Call(Equilateral, 5), Play, Play]
    case BisectLine => [Call(Equilateral, 5), Call(BisectAngle, 10), Play]
    case PerpendicularOn => [Call(CutCoincident, 2), Call(Equilateral, 5), Play, Play]
    case PerpendicularOff => [Play, Call(BisectLine, 16), Play, Play, Play]
    case Triangle =>
      [Call(CutSeparate, 13), Play, Call(CutSeparate, 13), Play, Call(CutSeparate, 13), Play, Play, Play, Play, Play, Play]
    case EqualAngle => [Play, Play, Call(CutSeparate, 13), Play, Call(Triangle, 47), Play]
    case Parallel => [Play, Play, Call(EqualAngle, 64), Play, Play]
  }

  /** Every construction charges exactly its docstring count. */
  lemma ScriptChargesDocCount(c: Construction)
    ensures Charged(Script(c)) == DocCount(c)
  {
    match c
    case Equilateral => assert Charged(Script(Equilateral)) == DocCount(Equilateral);
    case PointToLine => assert Charged(Script(PointToLine)) == DocCount(PointToLine);
    case CutSeparate => assert Charged(Script(CutSeparate)) == DocCount(CutSeparate);
    case CutCoincident => assert Charged(Script(CutCoincident)) == DocCount(CutCoincident);
    case BisectAngle => assert Charged(Script(BisectAngle)) == DocCount(BisectAngle);
    case BisectLine => assert Charged(Script(BisectLine)) == DocCount(BisectLine);
    case PerpendicularOn => assert Charged(Script(PerpendicularOn)) == DocCount(PerpendicularOn);
    case PerpendicularOff => assert Charged(Script(PerpendicularOff)) == DocCount(PerpendicularOff);
    case Triangle => assert Charged(Script(Triangle)) == DocCount(Triangle);
    case EqualAngle => assert Charged(Script(EqualAngle)) == DocCount(EqualAngle);
    case Parallel => assert Charged(Script(Parallel)) == DocCount(Parallel);
  }

  predicate CallsShallower(owner: Construction, steps: seq<Step>)
  {
    forall i | 0 <= i < |steps| :: steps[i].Call? ==> Level(steps[i].callee) < Level(owner)
  }

  predicate HandsOwnCount(steps: seq<Step>)
  {
    forall i | 0 <= i < |steps| :: steps[i].Call? ==> steps[i].share == DocCount(steps[i].callee)
  }

  /** dt = time / k, the duration a construction with count k charges per operation. */
  function TimeStep(t: real, k: nat): real
    requires k > 0
  {
    t / k as real
  }

  /** The time a construction hands to a callee charged n operations. */
  function Handed(n: nat, dt: real): real
  {
    n as real * dt
  }

  /** The durations of all animations, in order, when `c` is run with total time t. */
  function Run(c: Construction, t: real): seq<real>
    decreases Level(c), 2
  {
    RunSteps(c, Script(c), TimeStep(t, DocCount(c)))
  }

  /** The durations of all animations of the steps of `owner`'s script, with time step dt. */
  function RunSteps(owner: Construction, steps: seq<Step>, dt: real): seq<real>
    requires CallsShallower(owner, steps)
    decreases Level(owner), 1, |steps|
  {
    if |steps| == 0 then [] else RunStep(owner, steps[0], dt) + RunSteps(owner, steps[1..], dt)
  }

  /** The durations of the animations of one step: a single dt, or the whole run of the callee. */
  function RunStep(owner: Construction, step: Step, dt: real): seq<real>
    requires step.Call? ==> Level(step.callee) < Level(owner)
    decreases Level(owner), 0
  {
    match step
    case Play => [dt]
    case Call(callee, share) => Run(callee, Handed(share, dt))
  }

  function Total(durations: seq<real>): real
  {
    if |durations| == 0 then 0.0 else durations[0] + Total(durations[1..])
  }

  predicate AllEqual(durations: seq<real>, dt: real)
  {
    forall i | 0 <= i < |durations| :: durations[i] == dt
  }

  /**
    A construction run with time t plays exactly its docstring count of
    animations, each lasting t / count.
   */
  lemma {:induction false} RunIsUniform(c: Construction, t: real)
    ensures |Run(c, t)| == DocCount(c)
    ensures AllEqual(Run(c, t), TimeStep(t, DocCount(c)))
    decreases Level(c), 2
  {
    ScriptChargesDocCount(c);
    StepsAreUniform(c, Script(c), TimeStep(t, DocCount(c)));
  }

  lemma {:induction false} StepsAreUniform(owner: Construction, steps: seq<Step>, dt: real)
    requires CallsShallower(owner, steps) && HandsOwnCount(steps)
    ensures |RunSteps(owner, steps, dt)| == ChargedFrom(steps, 0)
    ensures AllEqual(RunSteps(owner, steps, dt), dt)
    decreases Level(owner), 1, |steps|
  {
    if |steps| > 0 {
      StepIsUniform(owner, steps[0], dt);
      StepsAreUniform(owner, steps[1..], dt);
      UniformConcat(RunStep(owner, steps[0], dt), RunSteps(owner, steps[1..], dt), dt);
      ChargedShift(steps);
    }
  }

  lemma {:induction false} StepIsUniform(owner: Construction, step: Step, dt: real)
    requires step.Call? ==> Level(step.callee) < Level(owner) && step.share == DocCount(step.callee)
    ensures |RunStep(owner, step, dt)| == (match step case Play => 1 case Call(_, share) => share)
    ensures AllEqual(RunStep(owner, step, dt), dt)
    decreases Level(owner), 0
  {
    match step
    case Play =>
    case Call(callee, share) =>
      RunIsUniform(callee, Handed(share, dt));
      ShareCancels(share, dt);
  }

  /** Charging from index 1 of a sequence is charging its tail from index 0. */
  lemma {:induction false} ChargedShift(steps: seq<Step>)
    requires |steps| > 0
    ensures ChargedFrom(steps, 0)
         == (match steps[0] case Play => 1 case Call(_, share) => share) + ChargedFrom(steps[1..], 0)
  {
    ChargedSuffix(steps, 1);
  }

  lemma {:induction false} ChargedSuffix(steps: seq<Step>, i: nat)
    requires 1 <= i <= |steps|
    ensures ChargedFrom(steps, i) == ChargedFrom(steps[1..], i - 1)
    decreases |steps| - i
  {
    if i < |steps| {
      ChargedSuffix(steps, i + 1);
    }
  }

  lemma UniformConcat(a: seq<real>, b: seq<real>, dt: real)
    requires AllEqual(a, dt) && AllEqual(b, dt)
    ensures AllEqual(a + b, dt)
  {
  }

  /** A callee handed n dt with a count of n runs with time step dt. */
  lemma ShareCancels(n: nat, dt: real)
    requires n > 0
    ensures TimeStep(Handed(n, dt), n) == dt
  {
  }

  /** k operations of time / k take the whole time. */
  lemma CountCancels(k: nat, t: real)
    requires k > 0
    ensures Handed(k, TimeStep(t, k)) == t
  {
  }

  /** A sequence of n equal durations dt totals n dt. */
  lemma {:induction false} UniformTotal(durations: seq<real>, dt: real)
    requires AllEqual(durations, dt)
    ensures Total(durations) == Handed(|durations|, dt)
  {
    if |durations| > 0 {
      UniformTotal(durations[1..], dt);
    }
  }

  /** A construction given time T spends exactly T across its animations. */
  lemma RunSpendsItsTime(c: Construction, t: real)
    ensures Total(Run(c, t)) == t
  {
    RunIsUniform(c, t);
    UniformTotal(Run(c, t), TimeStep(t, DocCount(c)));
    CountCancels(DocCount(c), t);
  }
}
