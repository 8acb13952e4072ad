/** An animated entity (the `Animata` of animata.js, and the Bit, Hollow and
    Platform that extend it): its staging of actions, its FIFO queue of action
    sets, per-kind dispatch, and the per-tick `update` pass with its carryover
    merge. */
module Entities {
  import opened Wrappers
  import opened Actions
  import opened ActionSets
  import opened Ramps
  import opened Motion
  import opened Fills

  /** The variant of an entity, with the fields only that variant has. */
  datatype Body =
    | Plain
    | Bit(depth: real, layers: Layers)
    | Hollow(depth: real)
    | Platform(depth: real)

  /** "Entity `target` has the action `action` in its current set." */
  datatype WaitCondition = WaitCondition(target: string, action: string)

  datatype Entity = Entity(
    id: string,
    body: Body,
    size: real,
    x: real,
    y: real,
    angle: real,
    terminated: bool,
    textLoaded: bool,
    hasText: bool,
    queue: seq<Option<ActionSet>>,
    current: Option<ActionSet>,
    build: Option<ActionSet>,
    hold: bool,
    waitCondition: Option<WaitCondition>)

  /** Why a tick cannot go on: the source throws at that point, which ends the
      whole animation loop. */
  datatype Fault =
    | Unsupported(entity: string, action: string)  // the variant's updater has no case for the kind
    | Missing(entity: string, action: string)      // an id with no action behind it
    | Absent(entity: string)                       // an animator queue id with no object behind it
    | NoText(entity: string)                       // the text overlay used before `setText` created it

  /** The maximum depths the intros default to. */
  const BitMaxDepth: real := 5.0
  const HollowMaxDepth: real := 9.0
  const PlatformMaxDepth: real := 9.0

  function NewAnimata(id: string, x: real, y: real, size: real): Entity {
    Entity(id, Plain, size, x, y, 0.0, false, false, false, [], None, None, false, None)
  }

  function NewBit(id: string, x: real, y: real, size: real): Entity {
    NewAnimata(id, x, y, size).(body := Bit(0.0, Layers([], map[], map[])))
  }

  /** Hollows and platforms take their size from their width. */
  function NewHollow(id: string, x: real, y: real, sizeX: real, sizeY: real): Entity {
    NewAnimata(id, x, y, sizeX).(body := Hollow(0.0))
  }

  function NewPlatform(id: string, x: real, y: real, sizeX: real, sizeY: real): Entity {
    NewAnimata(id, x, y, sizeX).(body := Platform(0.0))
  }

  // ---------------------------------------------------------------------------
  // Staging

  /** `newActionSet`: start composing a set for later; intents now go to it. */
  function NewActionSet(e: Entity): (r: Entity)
    ensures r.hold && r.build == Some(Empty)
    ensures r.current == e.current && r.queue == e.queue && r.waitCondition == e.waitCondition
  {
    e.(build := Some(Empty), hold := true)
  }

  /** `assignAction`: under a hold the action joins the set being composed
      (and is dropped, with an error, if there is none); otherwise it joins
      the current set, which is created if absent. */
  function Assign(e: Entity, a: Action): (r: Entity)
    ensures r.queue == e.queue && r.hold == e.hold && r.waitCondition == e.waitCondition && r.body == e.body
    ensures e.hold ==> r.current == e.current
    ensures e.hold && e.build.Some? ==> r.build == Some(Append(e.build.value, a))
    ensures e.hold && e.build.None? ==> r == e
    ensures !e.hold ==> r.build == e.build && r.current.Some?
    ensures !e.hold && e.current.None? ==> r.current.value.ids == [a.id] && r.current.value.actions == map[a.id := a]
    ensures !e.hold && e.current.Some? ==> r.current == Some(Append(e.current.value, a))
  {
    if e.hold then
      if e.build.Some? then e.(build := Some(Append(e.build.value, a))) else e
    else
      e.(current := Some(Append(e.current.GetOr(Empty), a)))
  }

  /** `closeActionSet`: push the composed set (the source pushes `undefined`
      when none was started) at the tail of the queue and end the hold. */
  function CloseActionSet(e: Entity): (r: Entity)
    ensures r.queue == e.queue + [e.build] && r.build.None? && !r.hold
    ensures r.current == e.current && r.waitCondition == e.waitCondition && r.body == e.body
  {
    e.(queue := e.queue + [e.build], build := None, hold := false)
  }

  /** Append a sequence of actions to a set in order. */
  function AppendSeq(s: ActionSet, actions: seq<Action>): ActionSet
    decreases |actions|
  {
    if |actions| == 0 then s else AppendSeq(Append(s, actions[0]), actions[1..])
  }

  function AssignSeq(e: Entity, actions: seq<Action>): Entity
    decreases |actions|
  {
    if |actions| == 0 then e else AssignSeq(Assign(e, actions[0]), actions[1..])
  }

  /** Composing a set (`newActionSet`, any intents, `closeActionSet`) pushes
      exactly one set, holding those actions, at the tail of the queue, leaves
      the current set alone and ends the hold. */
  lemma {:induction false} ComposePushesOneSet(e: Entity, actions: seq<Action>)
    ensures var r := CloseActionSet(AssignSeq(NewActionSet(e), actions));
      && r.queue == e.queue + [Some(AppendSeq(Empty, actions))]
      && r.current == e.current && !r.hold && r.build.None?
  {
    HeldAssignsBuild(NewActionSet(e), actions);
  }

  lemma {:induction false} HeldAssignsBuild(e: Entity, actions: seq<Action>)
    requires e.hold && e.build.Some?
    ensures var r := AssignSeq(e, actions);
      r.hold && r.build == Some(AppendSeq(e.build.value, actions)) && r.current == e.current && r.queue == e.queue
    decreases |actions|
  {
    if |actions| > 0 {
      HeldAssignsBuild(Assign(e, actions[0]), actions[1..]);
    }
  }

  /** `nextActionSet`: shift the head of the queue into the current slot (an
      empty queue leaves the slot empty). */
  function NextActionSet(e: Entity): (r: Entity)
    ensures |e.queue| > 0 ==> r.current == e.queue[0] && r.queue == e.queue[1..]
    ensures |e.queue| == 0 ==> r.current.None? && r.queue == []
    ensures r.build == e.build && r.hold == e.hold && r.waitCondition == e.waitCondition && r.body == e.body
  {
    if |e.queue| > 0 then e.(current := e.queue[0], queue := e.queue[1..])
    else e.(current := None)
  }

  /** `stop`: drop the current set and every queued set. */
  function Stop(e: Entity): (r: Entity)
    ensures r.current.None? && r.queue == []
    ensures r.build == e.build && r.hold == e.hold && r.waitCondition == e.waitCondition && r.body == e.body
  {
    e.(current := None, queue := [])
  }

  /** `clearWaitCondition`. */
  function ClearWaitCondition(e: Entity): (r: Entity)
    ensures r.waitCondition.None? && r == e.(waitCondition := None)
  {
    e.(waitCondition := None)
  }

  /** `setText`: attach a text overlay (its text, font and click handler are
      not modelled); an overlay already attached is replaced. */
  function SetText(e: Entity): (r: Entity)
    ensures r.hasText
    ensures r.(hasText := e.hasText) == e
  {
    e.(hasText := true)
  }

  /** `removeText`: detach the overlay; with none attached, `this.text.delete`
      reads a field of `undefined` and throws. */
  function RemoveText(e: Entity): (r: Result<Entity, Fault>)
    ensures r.Err? <==> !e.hasText
    ensures r.Ok? ==> !r.value.hasText && r.value.(hasText := true) == e
  {
    if e.hasText then Ok(e.(hasText := false)) else Err(NoText(e.id))
  }

  /** Attaching and then detaching an overlay leaves the entity without one
      and otherwise as it was; detaching twice fails the second time. */
  lemma RemoveSetText(e: Entity)
    ensures RemoveText(SetText(e)) == Ok(e.(hasText := false))
    ensures RemoveText(RemoveText(SetText(e)).value).Err?
  {
  }

  // ---------------------------------------------------------------------------
  // Intents of every animata

  /** The action an intent stages: a fresh action of the kind, running and
      not complete, with the caller's carryover choice and otherwise exactly
      as the constructor builds it. */
  function Staged(k: Kind, id: string, goal: Goal, rate: real, carryover: bool): (a: Action)
    requires NumericGoal(k) ==> goal.Num?
    ensures a.id == id && KindOf(a.state) == k && a.carryover == carryover
    ensures !a.paused && !a.isComplete
    ensures a.state == New(k, id, goal, rate).state
  {
    New(k, id, goal, rate).(carryover := carryover)
  }

  /** `resize`: a negative size is rejected and nothing changes; otherwise one
      resize action towards the size is staged. */
  function ResizeTo(e: Entity, id: string, newSize: real, rate: real, carryover: bool): (r: Entity)
    ensures newSize < 0.0 ==> r == e
    ensures newSize >= 0.0 ==> r == Assign(e, Staged(Resize, id, Num(newSize), rate, carryover))
  {
    if newSize < 0.0 then e else Assign(e, Staged(Resize, id, Num(newSize), rate, carryover))
  }

  /** `moveTo`: stage a move to an absolute position. */
  function MoveTo(e: Entity, id: string, goalX: real, goalY: real, velocity: real, carryover: bool): (r: Entity)
    ensures r.queue == e.queue && r.x == e.x && r.y == e.y
  {
    Assign(e, Staged(Move, id, Pair(goalX, goalY), velocity, carryover))
  }

  /** `moveBy`: stage a move to the current position plus the offsets. */
  function MoveBy(e: Entity, id: string, dx: real, dy: real, velocity: real, carryover: bool): (r: Entity)
    ensures r == MoveTo(e, id, e.x + dx, e.y + dy, velocity, carryover)
  {
    Assign(e, Staged(Move, id, Pair(e.x + dx, e.y + dy), velocity, carryover))
  }

  /** `rotate`: stage a rotation to the given angle. */
  function RotateTo(e: Entity, id: string, angle: real, rate: real, carryover: bool): (r: Entity)
    ensures r.queue == e.queue && r.angle == e.angle
  {
    Assign(e, Staged(Rotate, id, Num(angle), rate, carryover))
  }

  /** The id of the wait action `waitOn` stages. */
  function WaitingId(e: Entity): string {
    e.id + "_waiting"
  }

  /** `waitOn`: set the wait condition and stage a non-carryover wait action
      whose delay only starts once the condition clears. */
  function WaitOn(e: Entity, target: string, action: string, delay: real): (r: Entity)
    ensures r.waitCondition == Some(WaitCondition(target, action))
    ensures r == Assign(e.(waitCondition := Some(WaitCondition(target, action))), New(Wait, WaitingId(e), Num(delay), 1.0))
    ensures !New(Wait, WaitingId(e), Num(delay), 1.0).carryover
  {
    Assign(e.(waitCondition := Some(WaitCondition(target, action))), New(Wait, WaitingId(e), Num(delay), 1.0))
  }

  /** `displayText`: stage the one-shot fade-in of the text overlay. */
  function DisplayTextIntent(e: Entity, id: string, rate: real, opacity: real): (r: Entity)
    ensures r.queue == e.queue && r.textLoaded == e.textLoaded && r.hasText == e.hasText
  {
    Assign(e, New(DisplayText, id, Num(opacity), rate))
  }

  /** The action a direct (unheld) intent stages, when its id is new to the
      current set: it becomes the last id of the current set. */
  predicate StagedLast(r: Entity, a: Action) {
    && r.current.Some? && |r.current.value.ids| > 0
    && r.current.value.ids[|r.current.value.ids| - 1] == a.id
    && a.id in r.current.value.actions && r.current.value.actions[a.id] == a
  }

  /** An id the current set does not hold yet. */
  predicate NewToCurrent(e: Entity, id: string) {
    e.current.None? || id !in e.current.value.actions
  }

  /** `resize` outside a hold: a non-negative size joins the current set as
      the last action, a fresh ramp towards that size with the magnitude of
      the rate and the caller's carryover; the queue is untouched. */
  lemma ResizeStagesRamp(e: Entity, id: string, newSize: real, rate: real, carryover: bool)
    requires !e.hold && NewToCurrent(e, id) && newSize >= 0.0
    ensures var r := ResizeTo(e, id, newSize, rate, carryover);
      && r.current.Some? && id in r.current.value.actions
      && StagedLast(r, r.current.value.actions[id])
      && var a := r.current.value.actions[id];
      && a.state.ResizeState? && a.state.ramp.goal == newSize && a.state.ramp.rate == Abs(rate)
      && a.carryover == carryover && !a.paused && !a.isComplete
      && r.queue == e.queue && r.size == e.size
  {
  }

  /** `moveBy` outside a hold stages a move whose destination is the position
      at staging time plus the offsets. */
  lemma MoveByStagesOffset(e: Entity, id: string, dx: real, dy: real, velocity: real, carryover: bool)
    requires !e.hold && NewToCurrent(e, id)
    ensures var r := MoveBy(e, id, dx, dy, velocity, carryover);
      && r.current.Some? && id in r.current.value.actions
      && StagedLast(r, r.current.value.actions[id])
      && r.current.value.actions[id].state.MoveState?
      && var t := r.current.value.actions[id].state.travel;
      && t.destX == e.x + dx && t.destY == e.y + dy && t.velocity == velocity && !t.initialized
      && r.x == e.x && r.y == e.y
  {
  }

  /** `moveTo` outside a hold: the move joins the current set as the last
      action, heading for the absolute position at the given velocity with the
      caller's carryover; nothing moves yet. */
  lemma MoveToStagesMove(e: Entity, id: string, goalX: real, goalY: real, velocity: real, carryover: bool)
    requires !e.hold && NewToCurrent(e, id)
    ensures var r := MoveTo(e, id, goalX, goalY, velocity, carryover);
      && r.current.Some? && id in r.current.value.actions
      && StagedLast(r, r.current.value.actions[id])
      && var a := r.current.value.actions[id];
      && a.state.MoveState? && a.state.travel.destX == goalX && a.state.travel.destY == goalY
      && a.state.travel.velocity == velocity && !a.state.travel.initialized
      && a.carryover == carryover && !a.paused && !a.isComplete
      && r.queue == e.queue && r.x == e.x && r.y == e.y
  {
  }

  /** `rotate` outside a hold: a fresh rotation ramp to the angle, at the
      magnitude of the rate and with the caller's carryover, joins the current
      set last; the angle is untouched until the first tick. */
  lemma RotateStagesRamp(e: Entity, id: string, angle: real, rate: real, carryover: bool)
    requires !e.hold && NewToCurrent(e, id)
    ensures var r := RotateTo(e, id, angle, rate, carryover);
      && r.current.Some? && id in r.current.value.actions
      && StagedLast(r, r.current.value.actions[id])
      && var a := r.current.value.actions[id];
      && a.state.RotateState? && a.state.ramp.goal == angle && a.state.ramp.rate == Abs(rate)
      && !a.state.ramp.initialized
      && a.carryover == carryover && !a.paused && !a.isComplete
      && r.queue == e.queue && r.angle == e.angle
  {
  }

  /** `displayText` outside a hold: a fade to the opacity at the rate joins
      the current set last and is never carried over. */
  lemma DisplayTextStagesFade(e: Entity, id: string, rate: real, opacity: real)
    requires !e.hold && NewToCurrent(e, id)
    ensures var r := DisplayTextIntent(e, id, rate, opacity);
      && r.current.Some? && id in r.current.value.actions
      && StagedLast(r, r.current.value.actions[id])
      && var a := r.current.value.actions[id];
      && a.state == FadeState(Fade(opacity, rate))
      && !a.carryover && !a.paused && !a.isComplete
      && r.queue == e.queue
  {
  }

  /** The action a held intent stages, when its id is new to the build: it
      becomes the last action of the build, and the current set and the queue
      are left alone. */
  predicate BuiltLast(e: Entity, r: Entity, a: Action) {
    && r.current == e.current && r.queue == e.queue
    && r.build.Some? && |r.build.value.ids| > 0
    && r.build.value.ids[|r.build.value.ids| - 1] == a.id
    && a.id in r.build.value.actions && r.build.value.actions[a.id] == a
  }

  /** Under a hold, moveTo, rotate and displayText stage into the build only. */
  lemma HeldIntentsBuild(e: Entity, id: string, v: real, w: real, rate: real, carryover: bool)
    requires e.hold && e.build.Some? && id !in e.build.value.actions
    ensures BuiltLast(e, MoveTo(e, id, v, w, rate, carryover), Staged(Move, id, Pair(v, w), rate, carryover))
    ensures BuiltLast(e, RotateTo(e, id, v, rate, carryover), Staged(Rotate, id, Num(v), rate, carryover))
    ensures BuiltLast(e, DisplayTextIntent(e, id, rate, v), New(DisplayText, id, Num(v), rate))
  {
  }

  /** `waitOn` outside a hold sets the condition and stages a wait named after
      the entity, which never carries over and has not started counting. */
  lemma WaitOnStagesGatedWait(e: Entity, target: string, action: string, delay: real)
    requires !e.hold && NewToCurrent(e, WaitingId(e))
    ensures var r := WaitOn(e, target, action, delay);
      && r.waitCondition == Some(WaitCondition(target, action))
      && r.current.Some? && WaitingId(e) in r.current.value.actions
      && StagedLast(r, r.current.value.actions[WaitingId(e)])
      && var a := r.current.value.actions[WaitingId(e)];
      && a.state.WaitState? && a.state.timer.waitTime == delay && !a.state.timer.initialized
      && !a.carryover
  {
  }

  // ---------------------------------------------------------------------------
  // Per-kind dispatch

  /** The kinds each variant's `updateAction` can run: the animata's five, a
      bit's three local kinds only (its fallback calls an undefined `super`),
      and set_depth on top of the animata's five for hollows and platforms. */
  predicate Supported(b: Body, k: Kind) {
    match b
    case Plain => k in {DisplayText, Resize, Move, Rotate, Wait}
    case Bit(_, _) => k in {Fill, Unfill, SetDepth}
    case Hollow(_) => k in {DisplayText, Resize, Move, Rotate, Wait, SetDepth}
    case Platform(_) => k in {DisplayText, Resize, Move, Rotate, Wait, SetDepth}
  }

  predicate SameVariant(b: Body, c: Body) {
    (b.Plain? && c.Plain?) || (b.Bit? && c.Bit?) || (b.Hollow? && c.Hollow?) || (b.Platform? && c.Platform?)
  }

  /** Everything an updater must not touch: identity, staging, the wait
      condition and the text overlay. */
  predicate SameSchedule(e: Entity, f: Entity) {
    && f.id == e.id && f.terminated == e.terminated
    && f.queue == e.queue && f.current == e.current && f.build == e.build && f.hold == e.hold
    && f.waitCondition == e.waitCondition && f.hasText == e.hasText && SameVariant(e.body, f.body)
  }

  /** A tick of `a` on `e` cannot fail: the variant has an updater for the
      kind, and a text display that would fire has an overlay to show. */
  predicate Runnable(e: Entity, a: Action) {
    Supported(e.body, KindOf(a.state)) && (a.state.FadeState? && !e.textLoaded ==> e.hasText)
  }

  datatype Ticked = Ticked(entity: Entity, action: Action)

  /** Store a kind's new state, completing the action if the tick says so. */
  function Finish(a: Action, state: State, done: bool): (r: Action)
    ensures r.id == a.id && r.paused == a.paused && r.carryover == a.carryover && r.state == state
    ensures r.isComplete <==> a.isComplete || done
  {
    if done then Complete(a.(state := state)) else a.(state := state)
  }

  /** A tick keeps an action's id, pause and carryover flags and kind, and
      never un-completes it. */
  predicate Kept(a: Action, b: Action) {
    && b.id == a.id && b.paused == a.paused && b.carryover == a.carryover
    && KindOf(b.state) == KindOf(a.state) && (a.isComplete ==> b.isComplete)
  }

  /** The tick left `a` with state `state`, completing it iff it already was
      complete or the kind's own tick reported done. */
  predicate TickedTo(a: Action, b: Action, state: State, done: bool) {
    b.state == state && (b.isComplete <==> a.isComplete || done)
  }

  /** The animata's own updaters: a display fires the overlay once; a resize
      is an inclusive ramp of the size; a move is a move tick of the position;
      a rotation is a strict ramp of the angle; a wait counts down while the
      wait condition is clear. Each touches only its own property. */
  function BaseStep(e: Entity, a: Action, now: real, split: Split): (r: Result<Ticked, Fault>)
    ensures r.Ok? <==> KindOf(a.state) in {DisplayText, Resize, Move, Rotate, Wait} && (a.state.FadeState? && !e.textLoaded ==> e.hasText)
    ensures r.Ok? ==> r.value.entity.body == e.body && SameSchedule(e, r.value.entity)
    ensures r.Ok? ==> (e.textLoaded ==> r.value.entity.textLoaded) && r.value.entity.hasText == e.hasText
    ensures r.Ok? ==> Kept(a, r.value.action)
  {
    match a.state
    case FadeState(_) =>
      var s := ShowTextTick(e.textLoaded, e.hasText);
      if s.None? then Err(NoText(e.id))
      else Ok(Ticked(e.(textLoaded := s.value.loaded), Finish(a, a.state, s.value.done)))
    case ResizeState(ramp) =>
      var s := Tick(ramp, e.size, Inclusive, false);
      Ok(Ticked(e.(size := s.value), Finish(a, ResizeState(s.ramp), s.done)))
    case MoveState(t) =>
      var s := MoveTick(t, e.x, e.y, split);
      Ok(Ticked(e.(x := s.x, y := s.y), Finish(a, MoveState(s.travel), s.done)))
    case RotateState(ramp) =>
      var s := Tick(ramp, e.angle, Strict, false);
      Ok(Ticked(e.(angle := s.value), Finish(a, RotateState(s.ramp), s.done)))
    case WaitState(t) =>
      var s := WaitTick(t, e.waitCondition.Some?, now);
      Ok(Ticked(e, Finish(a, WaitState(s.timer), s.done)))
    case _ => Err(Unsupported(e.id, a.id))
  }

  /** `updateSetDepth`, the same in bit.js, hollow.js and platform.js: a strict
      ramp of the depth whose rate absorbs the action's acceleration. */
  function DepthStep(e: Entity, a: Action): (r: Ticked)
    requires !e.body.Plain? && a.state.DepthState?
    ensures r.entity == e.(body := r.entity.body) && SameVariant(e.body, r.entity.body)
    ensures var s := Tick(a.state.ramp, e.body.depth, Strict, true);
      && r.entity.body.depth == s.value
      && TickedTo(a, r.action, DepthState(s.ramp), s.done)
      && Kept(a, r.action)
    ensures e.body.Bit? ==> r.entity.body.layers == e.body.layers
  {
    var s := Tick(a.state.ramp, e.body.depth, Strict, true);
    Ticked(e.(body := e.body.(depth := s.value)), Finish(a, DepthState(s.ramp), s.done))
  }

  /** A bit's updaters: a fill grows the level of the layer named after the
      action, an unfill drains every layer, and set_depth is the depth ramp. */
  function BitStep(e: Entity, a: Action): (r: Result<Ticked, Fault>)
    requires e.body.Bit?
    ensures r.Ok? <==> KindOf(a.state) in {Fill, Unfill, SetDepth}
    ensures r.Ok? ==> r.value.entity == e.(body := r.value.entity.body) && r.value.entity.body.Bit?
    ensures r.Ok? ==> Kept(a, r.value.action)
  {
    var layers := e.body.layers;
    match a.state
    case FillState(f) =>
      var s := FillTick(f, a.id, layers.levels);
      Ok(Ticked(e.(body := e.body.(layers := layers.(levels := s.levels))), Finish(a, FillState(s.filler), s.done)))
    case UnfillState(d) =>
      var s := UnfillTick(d, layers.order, layers.levels);
      Ok(Ticked(e.(body := e.body.(layers := layers.(levels := s.levels))), Finish(a, UnfillState(s.drainer), s.done)))
    case DepthState(_) => Ok(DepthStep(e, a))
    case _ => Err(Unsupported(e.id, a.id))
  }

  /** What each of the animata's updaters does: a display fires the overlay
      once; a resize is an inclusive ramp of the size; a move is a move tick
      of the position; a rotation is a strict ramp of the angle; a wait counts
      down while the wait condition is clear. Each touches only its own
      property and completes the action iff its tick reports done. */
  lemma BaseStepTicks(e: Entity, a: Action, now: real, split: Split)
    ensures var r := BaseStep(e, a, now, split);
      a.state.FadeState? && r.Ok? ==>
        var s := ShowTextTick(e.textLoaded, e.hasText).value;
        r.value.entity == e.(textLoaded := s.loaded) && TickedTo(a, r.value.action, a.state, s.done)
    ensures var r := BaseStep(e, a, now, split);
      a.state.ResizeState? ==>
        var s := Tick(a.state.ramp, e.size, Inclusive, false);
        r.Ok? && r.value.entity == e.(size := s.value) && TickedTo(a, r.value.action, ResizeState(s.ramp), s.done)
    ensures var r := BaseStep(e, a, now, split);
      a.state.MoveState? ==>
        var s := MoveTick(a.state.travel, e.x, e.y, split);
        r.Ok? && r.value.entity == e.(x := s.x, y := s.y) && TickedTo(a, r.value.action, MoveState(s.travel), s.done)
    ensures var r := BaseStep(e, a, now, split);
      a.state.RotateState? ==>
        var s := Tick(a.state.ramp, e.angle, Strict, false);
        r.Ok? && r.value.entity == e.(angle := s.value) && TickedTo(a, r.value.action, RotateState(s.ramp), s.done)
    ensures var r := BaseStep(e, a, now, split);
      a.state.WaitState? ==>
        var s := WaitTick(a.state.timer, e.waitCondition.Some?, now);
        r.Ok? && r.value.entity == e && TickedTo(a, r.value.action, WaitState(s.timer), s.done)
  {
  }

  /** What each of a bit's updaters does: a fill grows the level of the
      layer named after the action, an unfill drains every layer, and
      set_depth is the depth ramp. */
  lemma BitStepTicks(e: Entity, a: Action)
    requires e.body.Bit?
    ensures var r := BitStep(e, a);
      a.state.FillState? ==>
        var s := FillTick(a.state.filler, a.id, e.body.layers.levels);
        && r.Ok? && r.value.entity.body == e.body.(layers := e.body.layers.(levels := s.levels))
        && TickedTo(a, r.value.action, FillState(s.filler), s.done)
    ensures var r := BitStep(e, a);
      a.state.UnfillState? ==>
        var s := UnfillTick(a.state.drainer, e.body.layers.order, e.body.layers.levels);
        && r.Ok? && r.value.entity.body == e.body.(layers := e.body.layers.(levels := s.levels))
        && TickedTo(a, r.value.action, UnfillState(s.drainer), s.done)
    ensures a.state.DepthState? ==> BitStep(e, a) == Ok(DepthStep(e, a))
  {
  }

  /** `updateAction`, dispatched on the entity's variant. A hollow or platform
      runs set_depth itself and hands every other kind to the animata's updater. */
  function Step(e: Entity, a: Action, now: real, split: Split): (r: Result<Ticked, Fault>)
    ensures r.Ok? <==> Runnable(e, a)
    ensures r.Ok? ==> SameSchedule(e, r.value.entity) && (e.textLoaded ==> r.value.entity.textLoaded)
    ensures r.Ok? ==> Kept(a, r.value.action)
  {
    match e.body
    case Plain => BaseStep(e, a, now, split)
    case Bit(_, _) => BitStep(e, a)
    case Hollow(_) => if a.state.DepthState? then Ok(DepthStep(e, a)) else BaseStep(e, a, now, split)
    case Platform(_) => if a.state.DepthState? then Ok(DepthStep(e, a)) else BaseStep(e, a, now, split)
  }

  /** Which updater each variant uses: the animata's own for a plain entity,
      the bit's for a bit, and for a hollow or platform the depth ramp for
      set_depth and the animata's updater for every other kind. */
  lemma StepDispatch(e: Entity, a: Action, now: real, split: Split)
    ensures e.body.Plain? ==> Step(e, a, now, split) == BaseStep(e, a, now, split)
    ensures e.body.Bit? ==> Step(e, a, now, split) == BitStep(e, a)
    ensures (e.body.Hollow? || e.body.Platform?) && a.state.DepthState? ==> Step(e, a, now, split) == Ok(DepthStep(e, a))
    ensures (e.body.Hollow? || e.body.Platform?) && !a.state.DepthState? ==> Step(e, a, now, split) == BaseStep(e, a, now, split)
  {
  }

  /** On its goal, a resize completes while a rotation or a depth change takes
      one more tick: the resize ramp is inclusive, the others strict. */
  lemma StepOnGoal(e: Entity, a: Action, now: real, split: Split)
    requires !a.isComplete && Runnable(e, a)
    requires a.state.ResizeState? || a.state.RotateState? || a.state.DepthState?
    requires a.state.ramp.initialized && a.state.ramp.direction in {-1, 1}
    requires a.state.ResizeState? ==> e.size == a.state.ramp.goal
    requires a.state.RotateState? ==> e.angle == a.state.ramp.goal
    requires a.state.DepthState? ==> e.body.depth == a.state.ramp.goal
    ensures Step(e, a, now, split).value.action.isComplete <==> a.state.ResizeState?
  {
    BoundaryOnGoal(a.state.ramp, a.state.DepthState?);
  }

  /** A wait action makes no progress while its entity's wait condition is set. */
  lemma WaitHeldWhileGated(e: Entity, a: Action, now: real, split: Split)
    requires e.waitCondition.Some? && a.state.WaitState? && !e.body.Bit?
    ensures Step(e, a, now, split) == Ok(Ticked(e, a))
  {
  }

  // ---------------------------------------------------------------------------
  // The per-tick update pass

  /** A tick never makes an action unrunnable for the entity the tick leaves:
      the variant and the overlay stay, and the latch is only ever set. */
  lemma RunnableKept(e: Entity, f: Entity, b: Action)
    requires SameSchedule(e, f) && (e.textLoaded ==> f.textLoaded)
    ensures Runnable(e, b) ==> Runnable(f, b)
  {
  }

  /** The pass's running state: the entity as the updaters leave it, the set's
      action map, the ids staged for removal, and the unanimity flag. */
  datatype PassState = PassState(entity: Entity, actions: map<string, Action>, disposal: seq<string>, carry: bool)

  /** The scan over the current set's ids in order: every action's carryover
      flag is read, every action not paused is advanced, and the ids of actions
      reporting complete are staged for removal. */
  function Pass(e: Entity, actions: map<string, Action>, ids: seq<string>, now: real, split: Split): (r: Result<PassState, Fault>)
    ensures r.Ok? ==> SameSchedule(e, r.value.entity)
    ensures r.Ok? ==> forall k :: k in ids ==> k in actions
    ensures r.Ok? ==> r.value.actions.Keys == actions.Keys
    ensures r.Ok? ==> forall k :: k in actions ==> Kept(actions[k], r.value.actions[k])
    decreases |ids|
  {
    if |ids| == 0 then Ok(PassState(e, actions, [], true))
    else
      var id := ids[0];
      if id !in actions then Err(Missing(e.id, id))
      else
        var a := actions[id];
        if a.paused then
          var rest :- Pass(e, actions, ids[1..], now, split);
          Ok(rest.(carry := rest.carry && a.carryover))
        else
          var t :- Step(e, a, now, split);
          var rest :- Pass(t.entity, actions[id := t.action], ids[1..], now, split);
          assert actions[id := t.action].Keys == actions.Keys;
          Ok(rest.(disposal := if t.action.isComplete then [id] + rest.disposal else rest.disposal,
                   carry := rest.carry && a.carryover))
  }

  /** The pass touches only the actions it runs: one whose id it does not
      scan, or that is paused, comes out exactly as it went in. */
  lemma {:induction false} PassFrame(e: Entity, actions: map<string, Action>, ids: seq<string>, now: real, split: Split)
    requires Pass(e, actions, ids, now, split).Ok?
    ensures var r := Pass(e, actions, ids, now, split).value;
      forall k :: k in actions && (k !in ids || actions[k].paused) ==> r.actions[k] == actions[k]
    decreases |ids|
  {
    if |ids| > 0 {
      var a := actions[ids[0]];
      if a.paused {
        PassFrame(e, actions, ids[1..], now, split);
      } else {
        var t := Step(e, a, now, split).value;
        PassFrame(t.entity, actions[ids[0] := t.action], ids[1..], now, split);
      }
    }
  }

  /** The pass reports carryover exactly when every action it scans, paused
      or not, opts into it. */
  lemma {:induction false} PassCarry(e: Entity, actions: map<string, Action>, ids: seq<string>, now: real, split: Split)
    requires Pass(e, actions, ids, now, split).Ok?
    ensures Pass(e, actions, ids, now, split).value.carry <==> forall k :: k in ids ==> actions[k].carryover
    decreases |ids|
  {
    if |ids| > 0 {
      var a := actions[ids[0]];
      if a.paused {
        PassCarry(e, actions, ids[1..], now, split);
      } else {
        var t := Step(e, a, now, split).value;
        var next := actions[ids[0] := t.action];
        PassCarry(t.entity, next, ids[1..], now, split);
        assert forall k :: k in ids[1..] ==> next[k].carryover == actions[k].carryover;
      }
    }
  }

  /** The ids staged for removal are exactly the scanned ids whose action was
      running and reports complete once the pass is over. */
  lemma {:induction false} PassDisposal(e: Entity, actions: map<string, Action>, ids: seq<string>, now: real, split: Split)
    requires Pass(e, actions, ids, now, split).Ok?
    ensures var r := Pass(e, actions, ids, now, split).value;
      && (forall k :: k in r.disposal ==> k in ids && !actions[k].paused && r.actions[k].isComplete)
      && (forall k :: k in ids && !actions[k].paused && r.actions[k].isComplete ==> k in r.disposal)
    decreases |ids|
  {
    if |ids| > 0 {
      var r := Pass(e, actions, ids, now, split).value;
      var a := actions[ids[0]];
      if a.paused {
        PassDisposal(e, actions, ids[1..], now, split);
      } else {
        var t := Step(e, a, now, split).value;
        var next := actions[ids[0] := t.action];
        PassDisposal(t.entity, next, ids[1..], now, split);
        PassFrame(t.entity, next, ids[1..], now, split);
        assert forall k :: k in ids[1..] && k != ids[0] ==> next[k] == actions[k];
      }
    }
  }

  /** The pass succeeds whenever every id names an action that is paused or
      that the entity can run. */
  lemma {:induction false} PassRunsWhenRunnable(e: Entity, actions: map<string, Action>, ids: seq<string>, now: real, split: Split)
    requires forall k :: k in ids ==> k in actions && (actions[k].paused || Runnable(e, actions[k]))
    ensures Pass(e, actions, ids, now, split).Ok?
    decreases |ids|
  {
    if |ids| > 0 {
      var a := actions[ids[0]];
      if a.paused {
        PassRunsWhenRunnable(e, actions, ids[1..], now, split);
      } else {
        var t := Step(e, a, now, split).value;
        var next := actions[ids[0] := t.action];
        forall k | k in ids[1..]
          ensures k in next && (next[k].paused || Runnable(t.entity, next[k]))
        {
          if k != ids[0] {
            RunnableKept(e, t.entity, actions[k]);
          }
        }
        PassRunsWhenRunnable(t.entity, next, ids[1..], now, split);
      }
    }
  }

  /** The entity as the pass hands it to the updater of `ids[i]`: each running
      action before it, in order, has had its tick on the entity as the
      previous tick left it. */
  function EntityBefore(e: Entity, actions: map<string, Action>, ids: seq<string>, i: nat, now: real, split: Split): Entity
    requires i <= |ids|
    decreases i
  {
    if i == 0 then e
    else
      var t := if ids[0] in actions && !actions[ids[0]].paused then Step(e, actions[ids[0]], now, split) else Err(Missing(e.id, ids[0]));
      EntityBefore(if t.Ok? then t.value.entity else e, actions, ids[1..], i - 1, now, split)
  }

  /** Only the actions named in `ids` matter to the threading. */
  lemma {:induction false} EntityBeforeFrame(e: Entity, m: map<string, Action>, n: map<string, Action>, ids: seq<string>, i: nat, now: real, split: Split)
    requires i <= |ids|
    requires forall k :: k in ids ==> (k in m <==> k in n) && (k in m ==> m[k] == n[k])
    ensures EntityBefore(e, m, ids, i, now, split) == EntityBefore(e, n, ids, i, now, split)
    decreases i
  {
    if i > 0 {
      var t := if ids[0] in m && !m[ids[0]].paused then Step(e, m[ids[0]], now, split) else Err(Missing(e.id, ids[0]));
      EntityBeforeFrame(if t.Ok? then t.value.entity else e, m, n, ids[1..], i - 1, now, split);
    }
  }

  /** The entity the pass returns is the one the last of its ticks left. */
  lemma {:induction false} PassThreadsEntity(e: Entity, actions: map<string, Action>, ids: seq<string>, now: real, split: Split)
    requires Distinct(ids)
    requires Pass(e, actions, ids, now, split).Ok?
    ensures Pass(e, actions, ids, now, split).value.entity == EntityBefore(e, actions, ids, |ids|, now, split)
    decreases |ids|
  {
    if |ids| > 0 {
      var a := actions[ids[0]];
      DistinctTail(ids);
      if a.paused {
        PassThreadsEntity(e, actions, ids[1..], now, split);
      } else {
        var t := Step(e, a, now, split).value;
        var next := actions[ids[0] := t.action];
        PassThreadsEntity(t.entity, next, ids[1..], now, split);
        EntityBeforeFrame(t.entity, next, actions, ids[1..], |ids| - 1, now, split);
      }
    }
  }

  /** The running action at position `i` ends the pass as the tick of its
      starting state on the entity as the ticks before it left it. */
  lemma {:induction false} PassTicksAt(e: Entity, actions: map<string, Action>, ids: seq<string>, i: nat, now: real, split: Split)
    requires Distinct(ids)
    requires Pass(e, actions, ids, now, split).Ok?
    requires i < |ids| && !actions[ids[i]].paused
    ensures var t := Step(EntityBefore(e, actions, ids, i, now, split), actions[ids[i]], now, split);
      t.Ok? && Pass(e, actions, ids, now, split).value.actions[ids[i]] == t.value.action
    decreases i
  {
    var a := actions[ids[0]];
    DistinctTail(ids);
    if a.paused {
      assert ids[i] == ids[1..][i - 1];
      PassTicksAt(e, actions, ids[1..], i - 1, now, split);
    } else {
      var t := Step(e, a, now, split).value;
      var next := actions[ids[0] := t.action];
      var rest := Pass(t.entity, next, ids[1..], now, split);
      assert Pass(e, actions, ids, now, split).value.actions == rest.value.actions;
      PassFrame(t.entity, next, ids[1..], now, split);
      if i > 0 {
        assert ids[i] == ids[1..][i - 1] && ids[i] != ids[0];
        PassTicksAt(t.entity, next, ids[1..], i - 1, now, split);
        EntityBeforeFrame(t.entity, next, actions, ids[1..], i - 1, now, split);
        assert EntityBefore(e, actions, ids, i, now, split) == EntityBefore(t.entity, actions, ids[1..], i - 1, now, split);
      }
    }
  }

  /** Within one pass each action not paused is advanced exactly once, in
      order: its final state is the tick of its starting state on the entity
      as the ticks before it left it, and the entity the pass returns is the
      one the last tick left. */
  lemma PassTicksEachOnce(e: Entity, actions: map<string, Action>, ids: seq<string>, now: real, split: Split)
    requires Distinct(ids)
    requires Pass(e, actions, ids, now, split).Ok?
    ensures var r := Pass(e, actions, ids, now, split).value;
      && r.entity == EntityBefore(e, actions, ids, |ids|, now, split)
      && forall i :: 0 <= i < |ids| && !actions[ids[i]].paused ==>
           var t := Step(EntityBefore(e, actions, ids, i, now, split), actions[ids[i]], now, split);
           t.Ok? && r.actions[ids[i]] == t.value.action
  {
    PassThreadsEntity(e, actions, ids, now, split);
    forall i | 0 <= i < |ids| && !actions[ids[i]].paused
      ensures var t := Step(EntityBefore(e, actions, ids, i, now, split), actions[ids[i]], now, split);
        t.Ok? && Pass(e, actions, ids, now, split).value.actions[ids[i]] == t.value.action
    {
      PassTicksAt(e, actions, ids, i, now, split);
    }
  }

  /** Remove every id of `ds` from the set, in order. */
  function RemoveAll(s: ActionSet, ds: seq<string>): (r: ActionSet)
    ensures r.actions == s.actions - Elems(ds)
    ensures Valid(s) ==> Valid(r) && r.ids == Filtered(s.ids, Elems(ds))
    decreases |ds|
  {
    if |ds| == 0 then
      FilteredNone(s.ids, {});
      s
    else
      var r := RemoveAll(Remove(s, ds[0]), ds[1..]);
      assert Elems(ds) == {ds[0]} + Elems(ds[1..]);
      FilteredTwice(s.ids, {ds[0]}, Elems(ds[1..]));
      r
  }

  /** Move the actions named by `ids` into `s`, in order. */
  function Transfer(owner: string, s: ActionSet, ids: seq<string>, actions: map<string, Action>): (r: Result<ActionSet, Fault>)
    ensures (forall k :: k in ids ==> k in actions) <==> r.Ok?
    ensures r.Ok? ==> |r.value.ids| >= |s.ids| && r.value.ids[..|s.ids|] == s.ids
    ensures r.Ok? && Valid(s) ==> Valid(r.value)
    decreases |ids|
  {
    if |ids| == 0 then Ok(s)
    else if ids[0] !in actions then Err(Missing(owner, ids[0]))
    else
      var r := Transfer(owner, Append(s, actions[ids[0]]), ids[1..], actions);
      assert r.Ok? ==> r.value.ids[..|s.ids|] == Append(s, actions[ids[0]]).ids[..|s.ids|];
      r
  }

  /** The transfer can append every action: `s` is well formed, the ids are
      distinct and new to `s`, and each action is filed under its own id. */
  predicate Fits(s: ActionSet, ids: seq<string>, actions: map<string, Action>) {
    && Valid(s) && Distinct(ids)
    && forall k :: k in ids ==> k !in s.actions && (k in actions ==> actions[k].id == k)
  }

  /** When the actions fit, the transfer appends exactly the named ids, in
      order, after the set's own, and files each named action under its id
      next to the set's own actions. */
  lemma {:induction false} TransferAppends(owner: string, s: ActionSet, ids: seq<string>, actions: map<string, Action>)
    ensures var r := Transfer(owner, s, ids, actions);
      r.Ok? && Fits(s, ids, actions) ==>
        && r.value.ids == s.ids + ids
        && (forall k :: k in r.value.actions <==> k in s.actions || k in ids)
        && (forall k :: k in r.value.actions ==> r.value.actions[k] == if k in ids then actions[k] else s.actions[k])
    decreases |ids|
  {
    var r := Transfer(owner, s, ids, actions);
    if |ids| > 0 && r.Ok? && Fits(s, ids, actions) {
      var s' := Append(s, actions[ids[0]]);
      DistinctTail(ids);
      assert Fits(s', ids[1..], actions);
      TransferAppends(owner, s', ids[1..], actions);
      assert s'.ids + ids[1..] == s.ids + ids;
    }
  }

  /** The current set's actions have ids the first queued set does not hold. */
  predicate Disjoint(c: ActionSet, head: ActionSet) {
    forall k :: k in c.ids ==> k !in head.actions
  }

  /** A map holding exactly the keys of `a` and `b`, with `b`'s value where
      both have one, is their union. */
  lemma MapUnion(r: map<string, Action>, a: map<string, Action>, b: map<string, Action>)
    requires forall k :: k in r <==> k in a || k in b
    requires forall k :: k in r ==> r[k] == if k in b then b[k] else a[k]
    ensures r == a + b
  {
    assert r.Keys == (a + b).Keys;
  }

  /** Carrying a well-formed set onto a disjoint well-formed one yields both
      sets' ids in order and exactly both sets' actions. */
  lemma CarryoverContent(owner: string, head: ActionSet, c: ActionSet)
    ensures var r := Transfer(owner, head, c.ids, c.actions);
      Valid(c) && Valid(head) && Disjoint(c, head) ==>
        r.Ok? && r.value.ids == head.ids + c.ids && r.value.actions == head.actions + c.actions
  {
    if Valid(c) && Valid(head) && Disjoint(c, head) {
      assert Fits(head, c.ids, c.actions);
      TransferAppends(owner, head, c.ids, c.actions);
      var r := Transfer(owner, head, c.ids, c.actions).value;
      assert forall k :: k in c.ids <==> k in c.actions;
      MapUnion(r.actions, head.actions, c.actions);
    }
  }

  /** `performCarryover`: append every action of the current set, in order, to
      the END of the first queued set, and discard the current set. */
  function Carryover(e: Entity): (r: Result<Entity, Fault>)
    requires e.current.Some? && |e.queue| > 0 && e.queue[0].Some?
    ensures r.Ok? ==> r.value.current.None? && |r.value.queue| == |e.queue| && r.value.queue[1..] == e.queue[1..]
    ensures r.Ok? ==>
      && r.value.queue[0].Some? && |r.value.queue[0].value.ids| >= |e.queue[0].value.ids|
      && r.value.queue[0].value.ids[..|e.queue[0].value.ids|] == e.queue[0].value.ids
    ensures r.Ok? ==> r.value == e.(current := None, queue := r.value.queue)
    ensures r.Ok? && Valid(e.queue[0].value) ==> Valid(r.value.queue[0].value)
    ensures Valid(e.current.value) ==> r.Ok?
    ensures var c := e.current.value; var head := e.queue[0].value;
      Valid(c) && Valid(head) && Disjoint(c, head) ==>
        && r.value.queue[0].value.ids == head.ids + c.ids
        && r.value.queue[0].value.actions == head.actions + c.actions
  {
    var cur := e.current.value;
    CarryoverContent(e.id, e.queue[0].value, cur);
    var next :- Transfer(e.id, e.queue[0].value, cur.ids, cur.actions);
    Ok(e.(queue := e.queue[0 := Some(next)], current := None))
  }

  /** The set `update` works on this tick: the current one, unless there is
      none or it is complete, in which case the head of the queue is promoted. */
  function Promote(e: Entity): (r: Entity)
    ensures e.current.None? || IsComplete(e.current.value) ==> r == NextActionSet(e)
    ensures e.current.Some? && !IsComplete(e.current.value) ==> r == e
  {
    if e.current.None? || IsComplete(e.current.value) then NextActionSet(e) else e
  }

  /** Every action of the set opts into carryover. */
  predicate AllCarry(s: ActionSet) {
    forall k :: k in s.ids ==> k in s.actions && s.actions[k].carryover
  }

  /** The merge condition checked after the sweep. */
  predicate Merges(p: Entity) {
    p.current.Some? && AllCarry(p.current.value) && |p.queue| > 0 && p.queue[0].Some?
  }

  /** What `update` has before deciding on the carryover: the entity as the
      updaters leave it, with the swept current set, and whether every action
      of the set opted into carryover. */
  datatype Swept = Swept(entity: Entity, carry: bool)

  /** The first part of `update`: promote if needed, run the pass over the
      current set and remove the staged ids. */
  function Sweep(e: Entity, now: real, split: Split): (r: Result<Swept, Fault>)
    ensures Promote(e).current.None? ==> r == Ok(Swept(Promote(e), false))
    ensures r.Ok? ==> SameSchedule(Promote(e), r.value.entity.(current := Promote(e).current))
    ensures r.Ok? ==> (r.value.entity.current.Some? <==> Promote(e).current.Some?)
    ensures r.Ok? ==> (r.value.carry <==> Promote(e).current.Some? && AllCarry(Promote(e).current.value))
  {
    var p := Promote(e);
    match p.current
    case None => Ok(Swept(p, false))
    case Some(running) =>
      var pass :- Pass(p, running.actions, running.ids, now, split);
      PassCarry(p, running.actions, running.ids, now, split);
      Ok(Swept(pass.entity.(current := Some(RemoveAll(ActionSet(running.ids, pass.actions), pass.disposal))), pass.carry))
  }

  /** `update`: the sweep, then the carryover of the swept set if every
      action opted in and a set is queued. */
  function Update(e: Entity, now: real, split: Split): (r: Result<Entity, Fault>)
  {
    var w :- Sweep(e, now, split);
    var after := w.entity;
    if w.carry && after.current.Some? && |after.queue| > 0 && after.queue[0].Some? then Carryover(after) else Ok(after)
  }

  /** Removing the staged ids from the set the pass ran over, when the staged
      ids are exactly the running actions that reported complete and paused
      actions came through unchanged, leaves a well-formed set holding the
      survivors in their order: every action still there is paused or
      incomplete, every paused action is still there unchanged, and every
      action removed was one that ran. */
  lemma SweptSet(s: ActionSet, acts: map<string, Action>, disposal: seq<string>)
    requires Valid(s) && acts.Keys == s.actions.Keys
    requires forall k :: k in s.actions ==> Kept(s.actions[k], acts[k])
    requires forall k :: k in s.actions && s.actions[k].paused ==> acts[k] == s.actions[k]
    requires forall k :: k in disposal ==> k in s.ids && !s.actions[k].paused && acts[k].isComplete
    requires forall k :: k in s.ids && !s.actions[k].paused && acts[k].isComplete ==> k in disposal
    ensures var c := RemoveAll(ActionSet(s.ids, acts), disposal);
      && Valid(c)
      && c.ids == Filtered(s.ids, Elems(s.ids) - Elems(c.ids))
      && (forall k :: k in c.ids ==> k in s.ids && (s.actions[k].paused || !c.actions[k].isComplete))
      && (forall k :: k in s.ids && s.actions[k].paused ==> k in c.ids && c.actions[k] == s.actions[k])
      && (forall k :: k in s.ids && k !in c.ids ==> !s.actions[k].paused)
  {
    var t := ActionSet(s.ids, acts);
    assert Valid(t) by {
      assert forall k :: k in acts ==> acts[k].id == s.actions[k].id;
    }
    var c := RemoveAll(t, disposal);
    assert c.ids == Filtered(s.ids, Elems(disposal)) && c.actions == acts - Elems(disposal);
    assert Elems(s.ids) - Elems(c.ids) == Elems(disposal) by {
      forall x | x in Elems(disposal) ensures x in s.ids && x !in c.ids { }
    }
    forall k | k in c.ids
      ensures k in s.ids && (s.actions[k].paused || !c.actions[k].isComplete)
    {
      assert k !in disposal;
    }
  }

  /** The set the sweep leaves current is the set the pass ran over with
      exactly the completed running actions removed, the rest in their order. */
  lemma SweepRemovesCompleted(e: Entity, now: real, split: Split)
    requires Promote(e).current.Some? && Valid(Promote(e).current.value)
    requires Sweep(e, now, split).Ok?
    ensures var s := Promote(e).current.value;
      var c := Sweep(e, now, split).value.entity.current.value;
      && Valid(c)
      && c.ids == Filtered(s.ids, Elems(s.ids) - Elems(c.ids))
      && (forall k :: k in c.ids ==> k in s.ids && (s.actions[k].paused || !c.actions[k].isComplete))
      && (forall k :: k in s.ids && s.actions[k].paused ==> k in c.ids && c.actions[k] == s.actions[k])
      && (forall k :: k in s.ids && k !in c.ids ==> !s.actions[k].paused)
  {
    var p := Promote(e);
    var s := p.current.value;
    var pass := Pass(p, s.actions, s.ids, now, split).value;
    PassDisposal(p, s.actions, s.ids, now, split);
    PassFrame(p, s.actions, s.ids, now, split);
    SweptSet(s, pass.actions, pass.disposal);
    assert Sweep(e, now, split).value.entity.current == Some(RemoveAll(ActionSet(s.ids, pass.actions), pass.disposal));
  }

  /** With nothing current and nothing queued, an update only promotes. */
  lemma UpdateIdle(e: Entity, now: real, split: Split)
    requires Promote(e).current.None?
    ensures Update(e, now, split) == Ok(Promote(e))
  {
  }

  /** An update changes nothing but the current set, the queue and what the
      updaters themselves touch: staging, the wait condition, the overlay,
      identity and the variant stay as they were. */
  lemma UpdateKeepsStaging(e: Entity, now: real, split: Split)
    requires Update(e, now, split).Ok?
    ensures var r := Update(e, now, split).value;
      && r.id == e.id && r.terminated == e.terminated && r.build == e.build && r.hold == e.hold
      && r.waitCondition == e.waitCondition && r.hasText == e.hasText && SameVariant(e.body, r.body)
  {
    var p := Promote(e);
    assert p.id == e.id && p.terminated == e.terminated && p.build == e.build && p.hold == e.hold
      && p.waitCondition == e.waitCondition && p.hasText == e.hasText && p.body == e.body;
    var w := Sweep(e, now, split).value;
    assert SameSchedule(p, w.entity.(current := p.current));
    if w.carry && w.entity.current.Some? && |w.entity.queue| > 0 && w.entity.queue[0].Some? {
      var c := Carryover(w.entity).value;
      assert c == w.entity.(current := None, queue := c.queue);
    }
  }

  /** The carryover merge happens exactly when every action present at the
      start of the pass (paused and just completed ones included) opted into
      carryover and a set is queued; either way the queue keeps its length,
      and without a merge the update leaves what the sweep left. */
  lemma UpdateMergesIff(e: Entity, now: real, split: Split)
    requires Promote(e).current.Some? && Update(e, now, split).Ok?
    ensures var p := Promote(e);
      var r := Update(e, now, split).value;
      && (r.current.None? <==> Merges(p))
      && |r.queue| == |p.queue|
      && (!Merges(p) ==> r.queue == p.queue && r == Sweep(e, now, split).value.entity)
  {
  }

  /** A merge appends the swept set to the first queued set: when their ids
      are disjoint and both are well formed, the head's ids are followed by
      the swept ids in order and the head holds exactly both sets' actions;
      the later queued sets stay and the current slot is emptied. */
  lemma UpdateMergeAppendsToHead(e: Entity, now: real, split: Split)
    requires Merges(Promote(e)) && Update(e, now, split).Ok?
    ensures var p := Promote(e);
      var r := Update(e, now, split).value;
      var head := p.queue[0].value;
      var c := Sweep(e, now, split).value.entity.current.value;
      && r.current.None?
      && r.queue[0].Some? && |r.queue[0].value.ids| >= |head.ids|
      && r.queue[0].value.ids[..|head.ids|] == head.ids
      && r.queue[1..] == p.queue[1..]
      && (Valid(head) ==> Valid(r.queue[0].value))
      && (Valid(head) && Valid(c) && Disjoint(c, head) ==>
            r.queue[0].value.ids == head.ids + c.ids && r.queue[0].value.actions == head.actions + c.actions)
  {
  }

  /** Without a merge, the set left current after an update is the swept set. */
  lemma UpdateSweepsCompleted(e: Entity, now: real, split: Split)
    requires Promote(e).current.Some? && Valid(Promote(e).current.value)
    requires Update(e, now, split).Ok? && !Merges(Promote(e))
    ensures var s := Promote(e).current.value;
      var r := Update(e, now, split).value;
      && r.current.Some? && Valid(r.current.value)
      && r.current.value.ids == Filtered(s.ids, Elems(s.ids) - Elems(r.current.value.ids))
      && (forall k :: k in r.current.value.ids ==>
            k in s.ids && (s.actions[k].paused || !r.current.value.actions[k].isComplete))
      && (forall k :: k in s.ids && s.actions[k].paused ==>
            k in r.current.value.ids && r.current.value.actions[k] == s.actions[k])
      && (forall k :: k in s.ids && k !in r.current.value.ids ==> !s.actions[k].paused)
  {
    UpdateMergesIff(e, now, split);
    SweepRemovesCompleted(e, now, split);
  }

  // ---------------------------------------------------------------------------
  // The entity invariant

  /** Every set the entity holds (current, being composed, or queued) is a
      valid action set. */
  predicate WellFormed(e: Entity) {
    && (e.current.Some? ==> Valid(e.current.value))
    && (e.build.Some? ==> Valid(e.build.value))
    && (forall i :: 0 <= i < |e.queue| && e.queue[i].Some? ==> Valid(e.queue[i].value))
  }

  /** A new entity holds no sets at all. */
  lemma NewEntitiesWellFormed(id: string, x: real, y: real, size: real, sizeY: real)
    ensures WellFormed(NewAnimata(id, x, y, size)) && WellFormed(NewBit(id, x, y, size))
    ensures WellFormed(NewHollow(id, x, y, size, sizeY)) && WellFormed(NewPlatform(id, x, y, size, sizeY))
  {
  }

  /** Staging, composing and stopping keep every held set valid. */
  lemma StagingKeepsWellFormed(e: Entity, a: Action)
    requires WellFormed(e)
    ensures WellFormed(NewActionSet(e)) && WellFormed(Assign(e, a)) && WellFormed(CloseActionSet(e))
    ensures WellFormed(Stop(e))
  {
    EmptyValid();
    var c := CloseActionSet(e);
    forall i | 0 <= i < |c.queue| && c.queue[i].Some? ensures Valid(c.queue[i].value) {
      if i < |e.queue| { assert c.queue[i] == e.queue[i]; }
    }
  }

  /** Promoting the head of the queue keeps every held set valid. */
  lemma PromoteKeepsWellFormed(e: Entity)
    requires WellFormed(e)
    ensures WellFormed(NextActionSet(e)) && WellFormed(Promote(e))
  {
    if |e.queue| > 0 {
      var n := NextActionSet(e);
      forall i | 0 <= i < |n.queue| && n.queue[i].Some? ensures Valid(n.queue[i].value) {
        assert n.queue[i] == e.queue[i + 1];
      }
    }
  }

  /** An update keeps every held set valid. */
  lemma UpdateKeepsWellFormed(e: Entity, now: real, split: Split)
    requires WellFormed(e) && Update(e, now, split).Ok?
    ensures WellFormed(Update(e, now, split).value)
  {
    PromoteKeepsWellFormed(e);
    var p := Promote(e);
    if p.current.Some? {
      UpdateKeepsStaging(e, now, split);
      if Merges(p) {
        MergeKeepsQueueValid(e, now, split);
      } else {
        UpdateSweepsCompleted(e, now, split);
        UpdateMergesIff(e, now, split);
      }
    }
  }

  lemma MergeKeepsQueueValid(e: Entity, now: real, split: Split)
    requires WellFormed(Promote(e)) && Merges(Promote(e)) && Update(e, now, split).Ok?
    ensures var r := Update(e, now, split).value;
      forall i :: 0 <= i < |r.queue| && r.queue[i].Some? ==> Valid(r.queue[i].value)
  {
    var p := Promote(e);
    var r := Update(e, now, split).value;
    UpdateMergeAppendsToHead(e, now, split);
    UpdateMergesIff(e, now, split);
    forall i | 0 <= i < |r.queue| && r.queue[i].Some? ensures Valid(r.queue[i].value) {
      if i > 0 { assert r.queue[i] == r.queue[1..][i - 1] == p.queue[1..][i - 1]; }
    }
  }

  /** On a well-formed entity, an update faults only when an action that is
      due to run has a kind the entity's variant cannot perform, or is a text
      fade with no overlay to show. */
  lemma UpdateRunsWhenSupported(e: Entity, now: real, split: Split)
    requires WellFormed(e)
    requires var p := Promote(e);
      p.current.Some? ==> forall k :: k in p.current.value.ids ==>
        p.current.value.actions[k].paused || Runnable(e, p.current.value.actions[k])
    ensures Update(e, now, split).Ok?
  {
    PromoteKeepsWellFormed(e);
    var p := Promote(e);
    if p.current.Some? {
      var s := p.current.value;
      forall k | k in s.ids ensures k in s.actions && (s.actions[k].paused || Runnable(p, s.actions[k])) {
        assert p.body == e.body && p.textLoaded == e.textLoaded && p.hasText == e.hasText;
      }
      PassRunsWhenRunnable(p, s.actions, s.ids, now, split);
      SweepRemovesCompleted(e, now, split);
    }
  }

  // ---------------------------------------------------------------------------
  // Waiting

  /** While the entity's wait condition is set, a pass leaves every wait
      action of the set exactly as it was. */
  lemma {:induction false} PassHoldsGatedWaits(e: Entity, actions: map<string, Action>, ids: seq<string>, now: real, split: Split)
    requires e.waitCondition.Some? && !e.body.Bit?
    requires Pass(e, actions, ids, now, split).Ok?
    ensures var r := Pass(e, actions, ids, now, split).value;
      && (forall k :: k in actions && actions[k].state.WaitState? ==> r.actions[k] == actions[k])
      && (forall k :: k in r.actions && r.actions[k].state.WaitState? ==> k in actions && r.actions[k] == actions[k])
    decreases |ids|
  {
    if |ids| > 0 {
      var a := actions[ids[0]];
      if a.paused {
        PassHoldsGatedWaits(e, actions, ids[1..], now, split);
      } else {
        var t := Step(e, a, now, split).value;
        if a.state.WaitState? {
          WaitHeldWhileGated(e, a, now, split);
          assert actions[ids[0] := t.action] == actions;
        }
        PassHoldsGatedWaits(t.entity, actions[ids[0] := t.action], ids[1..], now, split);
      }
    }
    var r := Pass(e, actions, ids, now, split).value;
    forall k | k in r.actions && r.actions[k].state.WaitState? ensures k in actions && r.actions[k] == actions[k] {
      assert KindOf(actions[k].state) == Wait;
    }
  }

  /** An update made while the wait condition is set leaves every wait action
      still current exactly as it was: the delay countdown cannot start on the
      tick the condition is still set. */
  lemma UpdateHoldsGatedWaits(e: Entity, now: real, split: Split)
    requires e.waitCondition.Some? && !e.body.Bit?
    requires Update(e, now, split).Ok? && Update(e, now, split).value.current.Some?
    ensures var s := Promote(e).current;
      var c := Update(e, now, split).value.current.value;
      && s.Some?
      && forall k :: k in c.actions && c.actions[k].state.WaitState? ==> k in s.value.actions && c.actions[k] == s.value.actions[k]
  {
    var p := Promote(e);
    assert p.current.Some?;
    var s := p.current.value;
    var c := UpdatedSet(e, now, split);
    var pass := Pass(p, s.actions, s.ids, now, split).value;
    assert p.waitCondition == e.waitCondition && p.body == e.body;
    PassHoldsGatedWaits(p, s.actions, s.ids, now, split);
    forall k | k in c.actions && c.actions[k].state.WaitState?
      ensures k in s.actions && c.actions[k] == s.actions[k]
    {
      assert k in pass.actions && c.actions[k] == pass.actions[k];
    }
  }

  /** Without a merge, the set left current is the pass's actions with the
      disposed ids removed. */
  lemma UpdatedSet(e: Entity, now: real, split: Split) returns (c: ActionSet)
    requires Update(e, now, split).Ok? && Update(e, now, split).value.current.Some?
    ensures Promote(e).current.Some?
    ensures var s := Promote(e).current.value;
      var pass := Pass(Promote(e), s.actions, s.ids, now, split);
      && pass.Ok?
      && c == Update(e, now, split).value.current.value
      && c.actions == pass.value.actions - (set k | k in pass.value.disposal)
  {
    var p := Promote(e);
    var s := p.current.value;
    var pass := Pass(p, s.actions, s.ids, now, split).value;
    c := RemoveAll(ActionSet(s.ids, pass.actions), pass.disposal);
  }
}
