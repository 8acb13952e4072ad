/** The move, wait and text-display tick functions of animata.js. */
module Motion {
  import opened Wrappers
  import opened Actions

  /** The trigonometric split of a move's scalar velocity into its horizontal
      and vertical parts, from (velocity, |relative x|, |relative y|). */
  type Split = (real, real, real) -> (real, real)

  // ---------------------------------------------------------------------------
  // Move

  /** An axis is sound when its direction is a unit and a reached axis sits
      exactly on its relative goal. */
  predicate AxisOk(a: Axis) {
    a.direction in {-1, 1} && (a.reached ==> a.progress == a.relativeGoal)
  }

  /** A sound move: both axes sound, and before the first tick nothing has
      moved or been reached yet, as the constructor leaves it. */
  predicate TravelOk(t: Travel) {
    && AxisOk(t.x) && AxisOk(t.y)
    && (!t.initialized ==> !t.x.reached && !t.y.reached && t.x.progress == 0.0 && t.y.progress == 0.0)
  }

  /** The property tracks progress: position minus progress is the starting
      point, which is the destination minus the relative goal. */
  predicate Tracks(t: Travel, x: real, y: real) {
    t.initialized ==>
      x - t.x.progress == t.destX - t.x.relativeGoal && y - t.y.progress == t.destY - t.y.relativeGoal
  }

  /** The first-tick initialisation of one axis. */
  function StartAxis(a: Axis, dest: real, pos: real, velocity: real): (r: Axis)
    ensures !a.reached ==> AxisOk(r)
  {
    a.(relativeGoal := dest - pos, direction := if dest < pos then -1 else 1, velocity := velocity)
  }

  function Start(t: Travel, x: real, y: real, split: Split): (r: Travel)
    requires !t.initialized
    ensures r.initialized && r.destX == t.destX && r.destY == t.destY
    ensures r.x.relativeGoal == t.destX - x && r.y.relativeGoal == t.destY - y
    ensures r.x.direction == (if t.destX < x then -1 else 1) && r.y.direction == (if t.destY < y then -1 else 1)
    ensures TravelOk(t) ==> TravelOk(r) && Tracks(r, x, y)
  {
    var v := split(t.velocity, Abs(t.destX - x), Abs(t.destY - y));
    t.(x := StartAxis(t.x, t.destX, x, v.0), y := StartAxis(t.y, t.destY, y, v.1), initialized := true)
  }

  datatype AxisStep = AxisStep(axis: Axis, pos: real)

  /** The overshoot check of one axis: once progress has reached the relative
      goal, the excess is taken back off the position and the axis is marked
      reached. */
  function Settle(a: Axis, pos: real): (s: AxisStep)
    ensures AxisOk(a) ==> AxisOk(s.axis)
    ensures s.axis.relativeGoal == a.relativeGoal && s.axis.direction == a.direction && s.axis.velocity == a.velocity
    ensures a.reached && AxisOk(a) ==> s == AxisStep(a, pos)
    ensures a.reached ==> s.axis.reached
    ensures s.pos - s.axis.progress == pos - a.progress
  {
    var d := a.direction as real;
    if a.progress * d >= a.relativeGoal * d then
      var excess := a.progress - a.relativeGoal;
      AxisStep(a.(progress := a.relativeGoal, reached := true), pos - excess)
    else
      AxisStep(a, pos)
  }

  /** The per-tick advance of an axis not yet reached. */
  function Advance(a: Axis, pos: real): (s: AxisStep)
    ensures s.axis.reached == a.reached && s.axis.relativeGoal == a.relativeGoal && s.axis.direction == a.direction
    ensures a.reached ==> s == AxisStep(a, pos)
    ensures s.pos - s.axis.progress == pos - a.progress
    ensures AxisOk(a) ==> AxisOk(s.axis)
  {
    if a.reached then AxisStep(a, pos)
    else
      var step := a.velocity * (a.direction as real);
      AxisStep(a.(progress := a.progress + step), pos + step)
  }

  datatype MoveStep = MoveStep(travel: Travel, x: real, y: real, done: bool)

  /** One tick of a move: initialise on the first tick, settle both axes, and
      complete if both are reached, otherwise advance the axes not reached. */
  function MoveTick(t: Travel, x: real, y: real, split: Split): (s: MoveStep)
    ensures s.travel.initialized && s.travel.destX == t.destX && s.travel.destY == t.destY
    ensures t.initialized ==> s.travel.x.direction == t.x.direction && s.travel.y.direction == t.y.direction
    ensures t.initialized ==> s.travel.x.relativeGoal == t.x.relativeGoal && s.travel.y.relativeGoal == t.y.relativeGoal
    ensures s.done <==> s.travel.x.reached && s.travel.y.reached
    ensures TravelOk(t) ==> TravelOk(s.travel)
    ensures t.initialized && t.x.reached ==> s.travel.x.reached
    ensures t.initialized && t.y.reached ==> s.travel.y.reached
    ensures t.initialized && t.x.reached && AxisOk(t.x) ==> s.x == x
    ensures t.initialized && t.y.reached && AxisOk(t.y) ==> s.y == y
    ensures TravelOk(t) && Tracks(t, x, y) ==> Tracks(s.travel, s.x, s.y)
  {
    var u := if t.initialized then t else Start(t, x, y, split);
    var sx := Settle(u.x, x);
    var sy := Settle(u.y, y);
    if sx.axis.reached && sy.axis.reached then
      MoveStep(u.(x := sx.axis, y := sy.axis), sx.pos, sy.pos, true)
    else
      var ax := Advance(sx.axis, sx.pos);
      var ay := Advance(sy.axis, sy.pos);
      MoveStep(u.(x := ax.axis, y := ay.axis), ax.pos, ay.pos, false)
  }

  /** When a move that has tracked its position completes, the entity sits
      exactly on the destination. */
  lemma MoveLandsOnDestination(t: Travel, x: real, y: real, split: Split)
    requires TravelOk(t) && Tracks(t, x, y)
    ensures var s := MoveTick(t, x, y, split);
      s.done ==> s.x == t.destX && s.y == t.destY
  {
    var s := MoveTick(t, x, y, split);
    assert TravelOk(s.travel) && Tracks(s.travel, s.x, s.y);
  }

  /** The overshoot check as written: the excess is multiplied by the axis
      direction before it is taken off the position. */
  function SettleAsWritten(a: Axis, pos: real): (s: AxisStep)
    ensures a.direction == 1 ==> s == Settle(a, pos)
  {
    var d := a.direction as real;
    if a.progress * d >= a.relativeGoal * d then
      var excess := a.progress - a.relativeGoal;
      AxisStep(a.(progress := a.relativeGoal, reached := true), pos - excess * d)
    else
      AxisStep(a, pos)
  }

  /** The move tick as written, differing from `MoveTick` only in the settle step. */
  function MoveTickAsWritten(t: Travel, x: real, y: real, split: Split): (s: MoveStep)
    ensures s.done <==> s.travel.x.reached && s.travel.y.reached
  {
    var u := if t.initialized then t else Start(t, x, y, split);
    var sx := SettleAsWritten(u.x, x);
    var sy := SettleAsWritten(u.y, y);
    if sx.axis.reached && sy.axis.reached then
      MoveStep(u.(x := sx.axis, y := sy.axis), sx.pos, sy.pos, true)
    else
      var ax := Advance(sx.axis, sx.pos);
      var ay := Advance(sy.axis, sy.pos);
      MoveStep(u.(x := ax.axis, y := ay.axis), ax.pos, ay.pos, false)
  }

  /** Moving from (0, 0) to (-10, 0) at 4 per tick: after overshooting to -12
      the written correction lands on -14 instead of -10. */
  lemma MoveAsWrittenOvershootsLeft()
    ensures var t3 := Leftward(3.0);
      && TravelOk(t3) && Tracks(t3, -12.0, 0.0)
      && MoveTickAsWritten(t3, -12.0, 0.0, Flat).done && MoveTickAsWritten(t3, -12.0, 0.0, Flat).x == -14.0
      && MoveTick(t3, -12.0, 0.0, Flat).done && MoveTick(t3, -12.0, 0.0, Flat).x == -10.0
  {
  }

  /** A split that puts the whole velocity on the horizontal axis. */
  function Flat(v: real, ax: real, ay: real): (real, real) {
    (v, 0.0)
  }

  /** The leftward move after k ticks from rest at (0, 0), with its x position -4k. */
  function Leftward(k: real): Travel {
    Travel(-10.0, 0.0, 4.0, Axis(-4.0 * k, -10.0, -1, 4.0, false), Axis(0.0, 0.0, 1, 0.0, true), true)
  }

  /** The ticks before that state: the constructor's move reaches it in three
      ticks from rest at (0, 0), the horizontal axis not yet reached. */
  lemma MoveLeftConstructed()
    ensures New(Move, "slide", Pair(-10.0, 0.0), 4.0).state.travel == AtRest()
  {
  }

  /** A first tick is an ordinary tick of the move as `Start` initialises it:
      the initialisation happens once and the tick proceeds from there. */
  lemma FirstTickStartsMove(t: Travel, x: real, y: real, split: Split)
    requires !t.initialized
    ensures MoveTick(t, x, y, split) == MoveTick(Start(t, x, y, split), x, y, split)
  {
  }

  /** The leftward move once initialised, before it has moved. */
  function Started(): Travel {
    Travel(-10.0, 0.0, 4.0, Axis(0.0, -10.0, -1, 4.0, false), Axis(0.0, 0.0, 1, 0.0, false), true)
  }

  lemma StartLeftward()
    ensures Start(AtRest(), 0.0, 0.0, Flat) == Started()
  {
  }

  lemma MoveLeftStartedTick()
    ensures MoveTick(Started(), 0.0, 0.0, Flat) == MoveStep(Leftward(1.0), -4.0, 0.0, false)
  {
  }

  lemma MoveLeftFirstTick()
    ensures MoveTick(AtRest(), 0.0, 0.0, Flat) == MoveStep(Leftward(1.0), -4.0, 0.0, false)
  {
    StartLeftward();
    FirstTickStartsMove(AtRest(), 0.0, 0.0, Flat);
    MoveLeftStartedTick();
  }

  /** The constructor's leftward move, before its first tick. */
  function AtRest(): Travel {
    Travel(-10.0, 0.0, 4.0, Axis(0.0, 0.0, 1, 0.0, false), Axis(0.0, 0.0, 1, 0.0, false), false)
  }

  lemma MoveLeftLaterTicks()
    ensures MoveTick(Leftward(1.0), -4.0, 0.0, Flat) == MoveStep(Leftward(2.0), -8.0, 0.0, false)
    ensures MoveTick(Leftward(2.0), -8.0, 0.0, Flat) == MoveStep(Leftward(3.0), -12.0, 0.0, false)
  {
  }

  // ---------------------------------------------------------------------------
  // Wait

  datatype TimerStep = TimerStep(timer: Timer, done: bool)

  /** One tick of a wait action at time `now`. While the entity's wait
      condition is set (`gated`) nothing happens; on the first ungated tick the
      deadline is fixed at now + wait time; the wait completes once now reaches
      the deadline. */
  function WaitTick(t: Timer, gated: bool, now: real): (s: TimerStep)
    ensures gated ==> s == TimerStep(t, false)
    ensures !gated ==> s.timer.initialized && s.timer.waitTime == t.waitTime
    ensures !gated && !t.initialized ==> s.timer.goalTime == now + t.waitTime
    ensures t.initialized ==> s.timer.goalTime == t.goalTime
    ensures s.done <==> !gated && now >= s.timer.goalTime
  {
    if gated then TimerStep(t, false)
    else
      var p := t.(progress := now);
      var q := if p.initialized then p else p.(goalTime := now + t.waitTime, initialized := true);
      TimerStep(q, now >= q.goalTime)
  }

  /** A wait whose countdown began at `start` never completes before
      start + wait time, however the later ticks are timed. */
  lemma WaitNeverEarly(t: Timer, start: real, now: real)
    requires !t.initialized
    ensures var s1 := WaitTick(t, false, start);
      WaitTick(s1.timer, false, now).done ==> now >= start + t.waitTime
  {
  }

  // ---------------------------------------------------------------------------
  // Text display

  datatype ShowTextStep = ShowTextStep(loaded: bool, done: bool)

  /** The one-shot text display, with the overlay's `display` call reaching
      the overlay as intended. If the latch is not yet set, the overlay is
      shown, the latch is set and the action completes; that needs an overlay,
      and without one (`setText` never ran) the call fails (`None`). Once the
      latch is set the tick does nothing and the action never completes. */
  function ShowTextTick(loaded: bool, hasText: bool): (s: Option<ShowTextStep>)
    ensures s.None? <==> !loaded && !hasText
    ensures s.Some? ==> s.value.loaded && (s.value.done <==> !loaded)
  {
    if loaded then Some(ShowTextStep(true, false))
    else if hasText then Some(ShowTextStep(true, true))
    else None
  }

  /** Once the latch is set, no later text display can fire, whether or not
      an overlay is attached. */
  lemma ShowTextFiresOnce(loaded: bool, hasText: bool, later: bool)
    requires ShowTextTick(loaded, hasText).Some?
    ensures ShowTextTick(ShowTextTick(loaded, hasText).value.loaded, later) == Some(ShowTextStep(true, false))
  {
  }

  /** The display as written: without an overlay `this.text.display` reads a
      field of `undefined`, and with one the overlay's `display` names an
      undeclared `ths`. Either way the call throws before the latch is set,
      so a display fails whenever the latch is not set. */
  function ShowTextTickAsWritten(loaded: bool, hasText: bool): (s: Option<ShowTextStep>)
    ensures s.None? <==> !loaded
    ensures loaded ==> s == ShowTextTick(loaded, hasText)
  {
    if loaded then Some(ShowTextStep(true, false)) else None
  }

  /** As written no text display ever completes: on an entity with an overlay
      and an unset latch the intended display fires, while the display as
      written fails. */
  lemma ShowTextAsWrittenNeverFires(loaded: bool, hasText: bool)
    ensures ShowTextTickAsWritten(loaded, hasText).Some? ==> !ShowTextTickAsWritten(loaded, hasText).value.done
    ensures ShowTextTickAsWritten(false, true).None?
    ensures ShowTextTick(false, true) == Some(ShowTextStep(true, true))
  {
  }
}
