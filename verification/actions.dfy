/** One timed property transition (the `Action` record of action.js) and its constructor. */
module Actions {
  import opened Wrappers

  /** The kinds the constructor's `switch` recognises. */
  datatype Kind = DisplayText | Resize | Move | Rotate | Wait | Fill | Unfill | SetDepth | Transform

  /** The kind's name as callers spell it. */
  function KindName(k: Kind): string {
    match k
    case DisplayText => "display_text"
    case Resize => "resize"
    case Move => "move"
    case Rotate => "rotate"
    case Wait => "wait"
    case Fill => "fill"
    case Unfill => "unfill"
    case SetDepth => "set_depth"
    case Transform => "transform"
  }

  /** Recognise a kind name; anything else is the constructor's `default` case. */
  function ParseKind(name: string): (r: Option<Kind>)
    ensures r.Some? ==> KindName(r.value) == name
  {
    if name == "display_text" then Some(DisplayText)
    else if name == "resize" then Some(Resize)
    else if name == "move" then Some(Move)
    else if name == "rotate" then Some(Rotate)
    else if name == "wait" then Some(Wait)
    else if name == "fill" then Some(Fill)
    else if name == "unfill" then Some(Unfill)
    else if name == "set_depth" then Some(SetDepth)
    else if name == "transform" then Some(Transform)
    else None
  }

  /** Every kind is recognised under its own name, so the kind names are distinct. */
  lemma ParseKindName(k: Kind)
    ensures ParseKind(KindName(k)) == Some(k)
  {
  }

  /** The loosely typed `goal` argument: a number, an `[x, y]` pair, a shape name, or `null`. */
  datatype Goal = Num(v: real) | Pair(x: real, y: real) | Name(s: string) | NoGoal

  /** The kinds whose `goal` is read as a number. */
  predicate NumericGoal(k: Kind) {
    k in {DisplayText, Resize, Rotate, Wait, Fill, SetDepth}
  }

  /** State of a ramp (resize, rotate, set_depth). `direction` is +1 or -1;
      `acceleration` is 0 unless the intent that created the ramp sets one. */
  datatype Ramp = Ramp(goal: real, rate: real, direction: int, progress: real, initialized: bool, acceleration: real)

  /** One axis of a move: progress along the axis relative to the starting point. */
  datatype Axis = Axis(progress: real, relativeGoal: real, direction: int, velocity: real, reached: bool)

  /** State of a move; the per-axis fields are filled in on the first tick. */
  datatype Travel = Travel(destX: real, destY: real, velocity: real, x: Axis, y: Axis, initialized: bool)

  /** State of a wait: the delay, and the deadline computed once the wait condition clears. */
  datatype Timer = Timer(waitTime: real, goalTime: real, progress: real, initialized: bool)

  /** State of a fill: the accumulator's progress towards `destination`. */
  datatype Filler = Filler(progress: real, destination: real, rate: real, acceleration: real)

  /** State of an unfill: only a rate, applied to every fill layer of the bit. */
  datatype Drainer = Drainer(rate: real, acceleration: real)

  /** State of a text display: the final opacity and the fade rate handed to the overlay. */
  datatype Fade = Fade(level: real, rate: real)

  /** State of a shape transform; no updater exists for it. */
  datatype Morph = Morph(goal: Goal, rate: real, direction: int, initialized: bool)

  /** The kind-specific part of an action: a tagged union with one variant per kind. */
  datatype State =
    | FadeState(fade: Fade)
    | ResizeState(ramp: Ramp)
    | MoveState(travel: Travel)
    | RotateState(ramp: Ramp)
    | WaitState(timer: Timer)
    | FillState(filler: Filler)
    | UnfillState(drainer: Drainer)
    | DepthState(ramp: Ramp)
    | TransformState(morph: Morph)

  function KindOf(s: State): Kind {
    match s
    case FadeState(_) => DisplayText
    case ResizeState(_) => Resize
    case MoveState(_) => Move
    case RotateState(_) => Rotate
    case WaitState(_) => Wait
    case FillState(_) => Fill
    case UnfillState(_) => Unfill
    case DepthState(_) => SetDepth
    case TransformState(_) => Transform
  }

  /** An action: the fields every kind shares, plus its kind-specific state. */
  datatype Action = Action(id: string, paused: bool, isComplete: bool, carryover: bool, state: State)

  /** A newly constructed action: running, not complete, not carried over. */
  predicate Fresh(a: Action) {
    !a.paused && !a.isComplete && !a.carryover
  }

  function Abs(x: real): (r: real)
    ensures r >= 0.0 && (r == x || r == -x)
  {
    if x < 0.0 then -x else x
  }

  /** A ramp as the constructor leaves it: heading up, no progress, not initialised. */
  function NewRamp(goal: real, rate: real): (r: Ramp)
    ensures r.goal == goal && r.rate == Abs(rate) && r.rate >= 0.0
    ensures r.direction == 1 && r.progress == 0.0 && !r.initialized
    ensures r.acceleration == 0.0
  {
    Ramp(goal, Abs(rate), 1, 0.0, false, 0.0)
  }

  /** The number a numeric kind reads from its goal. */
  function GoalValue(g: Goal): real {
    if g.Num? then g.v else 0.0
  }

  /** The constructor for a recognised kind. */
  function New(k: Kind, id: string, goal: Goal, rate: real): (a: Action)
    requires NumericGoal(k) ==> goal.Num?
    ensures a.id == id && Fresh(a) && KindOf(a.state) == k
    ensures k in {Resize, Rotate, SetDepth} ==>
      a.state.ramp.goal == goal.v && a.state.ramp.rate == Abs(rate) &&
      a.state.ramp.direction == 1 && a.state.ramp.progress == 0.0 && !a.state.ramp.initialized
    ensures k == Move && goal.Pair? ==> a.state.travel.destX == goal.x && a.state.travel.destY == goal.y
    ensures k == Move && !goal.Pair? ==> a.state.travel.destX == 0.0 && a.state.travel.destY == 0.0
    ensures k == Move ==>
      a.state.travel.velocity == rate && !a.state.travel.initialized &&
      a.state.travel.x.progress == 0.0 && a.state.travel.y.progress == 0.0 &&
      !a.state.travel.x.reached && !a.state.travel.y.reached
    ensures k == Wait ==>
      a.state.timer.waitTime == goal.v && !a.state.timer.initialized
    ensures k == Fill ==>
      a.state.filler.progress == 0.0 && a.state.filler.destination == goal.v && a.state.filler.rate == rate
    ensures k == Unfill ==> a.state.drainer.rate == rate
    ensures k == DisplayText ==> a.state.fade == Fade(goal.v, rate)
    ensures k == Transform ==> a.state.morph.rate == rate * 0.01 && !a.state.morph.initialized
  {
    var state :=
      match k
      case DisplayText => FadeState(Fade(GoalValue(goal), rate))
      case Resize => ResizeState(NewRamp(GoalValue(goal), rate))
      case Move =>
        var dest := if goal.Pair? then goal else Pair(0.0, 0.0);
        var still := Axis(0.0, 0.0, 1, 0.0, false);
        MoveState(Travel(dest.x, dest.y, rate, still, still, false))
      case Rotate => RotateState(NewRamp(GoalValue(goal), rate))
      case Wait => WaitState(Timer(GoalValue(goal), 0.0, 0.0, false))
      case Fill => FillState(Filler(0.0, GoalValue(goal), rate, 0.0))
      case Unfill => UnfillState(Drainer(rate, 0.0))
      case SetDepth => DepthState(NewRamp(GoalValue(goal), rate))
      case Transform => TransformState(Morph(goal, rate * 0.01, 1, false));
    Action(id, false, false, false, state)
  }

  /** The constructor as callers reach it, by kind name: an unknown name is
      rejected with a message and produces no action. */
  function Make(kind: string, id: string, goal: Goal, rate: real): (r: Result<Action, string>)
    requires ParseKind(kind).Some? && NumericGoal(ParseKind(kind).value) ==> goal.Num?
    ensures r.Ok? <==> ParseKind(kind).Some?
    ensures r.Ok? ==> r.value.id == id && Fresh(r.value) && KindName(KindOf(r.value.state)) == kind
  {
    match ParseKind(kind)
    case Some(k) => Ok(New(k, id, goal, rate))
    case None => Err(id + ": '" + kind + "' is not a valid action")
  }

  /** `complete()`: mark the action complete; nothing else changes. */
  function Complete(a: Action): (r: Action)
    ensures r.isComplete
    ensures r.id == a.id && r.paused == a.paused && r.carryover == a.carryover && r.state == a.state
  {
    a.(isComplete := true)
  }

  /** Completing twice is the same as completing once. */
  lemma CompleteIdempotent(a: Action)
    ensures Complete(Complete(a)) == Complete(a)
  {
  }
}
