/** The ramp family: resize and rotate (animata.js) and set_depth (bit.js,
    hollow.js, platform.js). A ramp fixes its direction on its first tick and
    snaps its property to the goal on the tick that finds the goal passed. */
module Ramps {
  import opened Actions

  /** Whether the completion test admits equality: `>=` (resize) or `>` (rotate, set_depth). */
  datatype Boundary = Inclusive | Strict

  /** Apply an acceleration to a rate only if the rate stays positive. */
  function Accelerated(rate: real, acceleration: real): (r: real)
    ensures rate > 0.0 ==> r > 0.0
    ensures r > 0.0 || r == rate
    ensures r == rate || r == rate + acceleration
    ensures acceleration >= 0.0 ==> r >= rate
  {
    if rate + acceleration > 0.0 then rate + acceleration else rate
  }

  /** The first-tick initialisation: head down iff the property is above the goal. */
  function Initialize(r: Ramp, value: real): (q: Ramp)
    ensures q.initialized && q.goal == r.goal && q.rate == r.rate && q.acceleration == r.acceleration
    ensures r.initialized ==> q.direction == r.direction
    ensures !r.initialized && r.direction == 1 ==> (q.direction == -1 <==> value > r.goal)
    ensures r.direction in {-1, 1} ==> q.direction in {-1, 1}
  {
    if r.initialized then r
    else r.(direction := if value > r.goal then -1 else r.direction, initialized := true)
  }

  /** The completion test on the property's current value. */
  predicate Passed(value: real, goal: real, direction: int, b: Boundary) {
    var d := direction as real;
    match b
    case Inclusive => value * d >= goal * d
    case Strict => value * d > goal * d
  }

  datatype RampStep = RampStep(ramp: Ramp, value: real, done: bool)

  /** One tick of a ramp whose property currently has `value`: progress is
      first re-read from the property; if the goal is passed the property snaps
      to it, otherwise the (possibly accelerated) rate moves it one step. */
  function Tick(r: Ramp, value: real, b: Boundary, accelerate: bool): (s: RampStep)
    ensures s.ramp.initialized && s.ramp.goal == r.goal && s.ramp.acceleration == r.acceleration
    ensures r.initialized ==> s.ramp.direction == r.direction
    ensures !r.initialized && r.direction == 1 ==> (s.ramp.direction == -1 <==> value > r.goal)
    ensures r.direction in {-1, 1} ==> s.ramp.direction in {-1, 1}
    ensures s.done <==> Passed(value, r.goal, s.ramp.direction, b)
    ensures s.done ==> s.value == r.goal && s.ramp.progress == r.goal && s.ramp.rate == r.rate
    ensures !s.done ==> s.value == value + s.ramp.rate * (s.ramp.direction as real) && s.ramp.progress == s.value
    ensures !accelerate ==> s.ramp.rate == r.rate
    ensures accelerate && !s.done ==> s.ramp.rate == Accelerated(r.rate, r.acceleration)
  {
    var q := Initialize(r.(progress := value), value);
    if Passed(value, q.goal, q.direction, b) then
      RampStep(q.(progress := q.goal), q.goal, true)
    else
      var rate := if accelerate then Accelerated(q.rate, q.acceleration) else q.rate;
      var next := value + rate * (q.direction as real);
      RampStep(q.(rate := rate, progress := next), next, false)
  }

  /** A ramp never lets its rate reach zero or below once it is positive. */
  lemma TickKeepsRatePositive(r: Ramp, value: real, b: Boundary, accelerate: bool)
    requires r.rate > 0.0
    ensures Tick(r, value, b, accelerate).ramp.rate > 0.0
  {
  }

  /** A step that does not complete moves the property towards the goal by
      exactly the new rate. */
  lemma TickApproaches(r: Ramp, value: real, b: Boundary, accelerate: bool)
    requires r.direction in {-1, 1}
    ensures var s := Tick(r, value, b, accelerate);
      var d := s.ramp.direction as real;
      !s.done ==> (r.goal - s.value) * d == (r.goal - value) * d - s.ramp.rate
  {
    var s := Tick(r, value, b, accelerate);
    var d := s.ramp.direction as real;
    assert d * d == 1.0;
  }

  /** Up to n + 1 ticks of a ramp whose property nothing else changes;
      stops at the completing tick. */
  function Run(r: Ramp, value: real, b: Boundary, accelerate: bool, n: nat): RampStep
    decreases n
  {
    var s := Tick(r, value, b, accelerate);
    if s.done || n == 0 then s else Run(s.ramp, s.value, b, accelerate, n - 1)
  }

  /** The direction fixed by the first tick is never recomputed. */
  lemma {:induction false} RunKeepsDirection(r: Ramp, value: real, b: Boundary, accelerate: bool, n: nat)
    ensures var first := Tick(r, value, b, accelerate);
      Run(r, value, b, accelerate, n).ramp.direction == first.ramp.direction
    decreases n
  {
    var s := Tick(r, value, b, accelerate);
    if !s.done && n > 0 {
      RunKeepsDirection(s.ramp, s.value, b, accelerate, n - 1);
    }
  }

  /** An initialised ramp with a positive, non-decreasing rate completes within
      n + 1 ticks when n steps at the current rate cover the remaining distance;
      the property then equals the goal exactly. */
  lemma {:induction false} RunCompletes(r: Ramp, value: real, b: Boundary, accelerate: bool, n: nat)
    requires r.initialized && r.direction in {-1, 1} && r.rate > 0.0
    requires accelerate ==> r.acceleration >= 0.0
    requires (n as real) * r.rate > (r.goal - value) * (r.direction as real)
    ensures Run(r, value, b, accelerate, n).done
    ensures Run(r, value, b, accelerate, n).value == r.goal
    decreases n
  {
    var s := Tick(r, value, b, accelerate);
    var d := r.direction as real;
    if s.done {
    } else if n == 0 {
      assert d * d == 1.0;
      assert Passed(value, r.goal, r.direction, b);
    } else {
      TickApproaches(r, value, b, accelerate);
      assert s.ramp.rate >= r.rate;
      assert ((n - 1) as real) * s.ramp.rate >= ((n - 1) as real) * r.rate by {
        MulMono((n - 1) as real, r.rate, s.ramp.rate);
      }
      RunCompletes(s.ramp, s.value, b, accelerate, n - 1);
    }
  }

  lemma MulMono(k: real, a: real, b: real)
    requires k >= 0.0 && a <= b
    ensures k * a <= k * b
  {
  }

  /** Resize from 10 towards 30 at rate 5: the size reads 15, 20, 25, 30 after
      the first four ticks, and only the fifth tick reports completion, because
      the completion test runs before each step. */
  lemma ResizeScenario()
    ensures var r0 := NewRamp(30.0, 5.0);
      var s1 := Tick(r0, 10.0, Inclusive, false);
      var s2 := Tick(s1.ramp, s1.value, Inclusive, false);
      var s3 := Tick(s2.ramp, s2.value, Inclusive, false);
      var s4 := Tick(s3.ramp, s3.value, Inclusive, false);
      var s5 := Tick(s4.ramp, s4.value, Inclusive, false);
      && s1.value == 15.0 && s2.value == 20.0 && s3.value == 25.0 && s4.value == 30.0
      && !s4.done && s5.done && s5.value == 30.0
  {
  }

  /** The boundary matters only when the property sits exactly on the goal:
      an inclusive ramp completes there, a strict one takes one more step. */
  lemma BoundaryOnGoal(r: Ramp, accelerate: bool)
    requires r.initialized && r.direction in {-1, 1}
    ensures Tick(r, r.goal, Inclusive, accelerate).done
    ensures !Tick(r, r.goal, Strict, accelerate).done
  {
  }
}
