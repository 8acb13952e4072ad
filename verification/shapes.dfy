/** The intents the Bit, Hollow and Platform add on top of the animata's:
    colour fills, depth changes, and the canned intro and outro sequences,
    plus the pruning a bit does each time it is drawn. */
module Shapes {
  import opened Wrappers
  import opened Actions
  import opened ActionSets
  import opened Fills
  import opened Entities

  /** The acceleration every fill and unfill action is given. */
  const FillAcceleration: real := 0.02

  /** The colour the bit's intro fills with. */
  const IntroColor: string := "rgb(126, 54, 80)"

  /** The acceleration a variant gives its set_depth actions: a bit slows its
      depth changes down, a hollow or platform speeds them up. */
  function DepthAcceleration(b: Body): (acc: real)
    requires !b.Plain?
    ensures b.Bit? ==> acc < 0.0
    ensures !b.Bit? ==> acc > 0.0
    ensures acc == -FillAcceleration || acc == FillAcceleration
  {
    if b.Bit? then -0.02 else 0.02
  }

  /** The default depth the intro recesses or raises a variant to. */
  function MaxDepth(b: Body): (d: real)
    requires !b.Plain?
    ensures d > 0.0
    ensures b.Bit? ==> d == BitMaxDepth
    ensures b.Hollow? ==> d == HollowMaxDepth
    ensures b.Platform? ==> d == PlatformMaxDepth
  {
    match b
    case Bit(_, _) => BitMaxDepth
    case Hollow(_) => HollowMaxDepth
    case Platform(_) => PlatformMaxDepth
  }

  /** The fill action `setColor` stages: it grows to twice the bit's size. */
  function FillAction(id: string, size: real, rate: real, carryover: bool): (a: Action)
    ensures a.id == id && a.carryover == carryover && !a.paused && !a.isComplete
    ensures a.state.FillState?
    ensures a.state.filler == Filler(0.0, 2.0 * size, rate, FillAcceleration)
  {
    var base := Staged(Fill, id, Num(size * 2.0), rate, carryover);
    base.(state := FillState(base.state.filler.(acceleration := FillAcceleration)))
  }

  /** The unfill action `removeColor` stages. */
  function UnfillAction(id: string, rate: real, carryover: bool): (a: Action)
    ensures a.id == id && a.carryover == carryover && !a.paused && !a.isComplete
    ensures a.state == UnfillState(Drainer(rate, FillAcceleration))
  {
    var base := Staged(Unfill, id, NoGoal, rate, carryover);
    base.(state := UnfillState(base.state.drainer.(acceleration := FillAcceleration)))
  }

  /** The set_depth action a variant stages. */
  function DepthAction(b: Body, id: string, depth: real, rate: real, carryover: bool): (a: Action)
    requires !b.Plain?
    ensures a.id == id && a.carryover == carryover && !a.paused && !a.isComplete
    ensures a.state.DepthState?
    ensures a.state.ramp == Ramp(depth, Abs(rate), 1, 0.0, false, DepthAcceleration(b))
  {
    var base := Staged(SetDepth, id, Num(depth), rate, carryover);
    base.(state := DepthState(base.state.ramp.(acceleration := DepthAcceleration(b))))
  }

  /** `setColor` on a bit: the new colour becomes the NEWEST layer (at the
      front of the order) at level 0 straight away, even when the fill is
      only being composed for later; a fill action for it is then staged. */
  function SetColor(e: Entity, id: string, color: string, rate: real, carryover: bool): (r: Entity)
    requires e.body.Bit?
    ensures r.body.Bit? && r.body.depth == e.body.depth
    ensures r.body.layers.order == [id] + e.body.layers.order
    ensures r.body.layers.colors == e.body.layers.colors[id := color]
    ensures r.body.layers.levels == e.body.layers.levels[id := 0.0]
    ensures r == Assign(e.(body := r.body), FillAction(id, e.size, rate, carryover))
  {
    var l := e.body.layers;
    var layered := e.(body := e.body.(layers := Layers([id] + l.order, l.colors[id := color], l.levels[id := 0.0])));
    Assign(layered, FillAction(id, e.size, rate, carryover))
  }

  /** `removeColor` on a bit: stage an unfill of every layer. The layers
      themselves are left alone until the unfill runs. */
  function RemoveColor(e: Entity, id: string, rate: real, carryover: bool): (r: Entity)
    requires e.body.Bit?
    ensures r.body == e.body && r.queue == e.queue && r.hold == e.hold
  {
    Assign(e, UnfillAction(id, rate, carryover))
  }

  /** `removeColor` outside a hold: an unfill draining at the rate with the
      fill acceleration joins the current set as its last action, with the
      caller's carryover; the layers and the queue are untouched. */
  lemma RemoveColorStagesUnfill(e: Entity, id: string, rate: real, carryover: bool)
    requires e.body.Bit? && !e.hold && NewToCurrent(e, id)
    ensures var r := RemoveColor(e, id, rate, carryover);
      && r.current.Some? && id in r.current.value.actions
      && StagedLast(r, r.current.value.actions[id])
      && var a := r.current.value.actions[id];
      && a.state == UnfillState(Drainer(rate, 0.02))
      && a.carryover == carryover && !a.paused && !a.isComplete
      && r.body.layers == e.body.layers && r.queue == e.queue
  {
  }

  /** `setDepth` on a bit, hollow or platform: a negative depth is refused and
      nothing changes; otherwise a set_depth action with the variant's
      acceleration is staged. */
  function SetDepthTo(e: Entity, id: string, depth: real, rate: real, carryover: bool): (r: Entity)
    requires !e.body.Plain?
    ensures depth < 0.0 ==> r == e
    ensures depth >= 0.0 ==> r == Assign(e, DepthAction(e.body, id, depth, rate, carryover))
  {
    if depth < 0.0 then e else Assign(e, DepthAction(e.body, id, depth, rate, carryover))
  }

  /** `intro`: a bit queues a recess to the depth, then a fill with the intro
      colour, both at half the rate; a hollow or platform queues one set
      changing its depth at a twentieth of the rate. */
  function Intro(e: Entity, rate: real, depth: real): (r: Entity)
    requires !e.body.Plain?
  {
    if e.body.Bit? then
      var recessed := CloseActionSet(SetDepthTo(NewActionSet(e), "intro_recess", depth, rate * 0.5, false));
      CloseActionSet(SetColor(NewActionSet(recessed), "intro_fill", IntroColor, rate * 0.5, false))
    else
      CloseActionSet(SetDepthTo(NewActionSet(e), "intro", depth, rate * 0.05, false))
  }

  /** `outro` of a bit: queue a return to depth 0, then an unfill. */
  function Outro(e: Entity, rate: real): (r: Entity)
    requires e.body.Bit?
  {
    var raised := CloseActionSet(SetDepthTo(NewActionSet(e), "outro_unrecess", 0.0, rate, false));
    CloseActionSet(RemoveColor(NewActionSet(raised), "outro_unfill", rate, false))
  }

  /** The one-action set a composed intent ends up as. */
  function Single(a: Action): (s: ActionSet)
    ensures Valid(s) && s.ids == [a.id] && s.actions == map[a.id := a]
  {
    Append(Empty, a)
  }

  /** A bit's intro appends two sets to the queue, the recess before the fill,
      leaves the current set alone, ends without a hold, and shows the intro
      layer, empty, as the newest layer. */
  lemma BitIntroQueuesRecessThenFill(e: Entity, rate: real, depth: real)
    requires e.body.Bit? && depth >= 0.0
    ensures var r := Intro(e, rate, depth);
      && r.queue == e.queue + [
           Some(Single(DepthAction(e.body, "intro_recess", depth, rate * 0.5, false))),
           Some(Single(FillAction("intro_fill", e.size, rate * 0.5, false)))]
      && r.current == e.current && !r.hold && r.build.None?
      && r.body.layers.order == ["intro_fill"] + e.body.layers.order
      && r.body.layers.levels["intro_fill"] == 0.0
      && r.body.layers.colors["intro_fill"] == IntroColor
  {
    var recessed := CloseActionSet(SetDepthTo(NewActionSet(e), "intro_recess", depth, rate * 0.5, false));
    assert recessed.queue == e.queue + [Some(Single(DepthAction(e.body, "intro_recess", depth, rate * 0.5, false)))];
  }

  /** Asking a bit's intro for a negative depth still queues two sets: the
      first is empty because the depth change was refused. */
  lemma BitIntroNegativeDepthQueuesEmptyRecess(e: Entity, rate: real, depth: real)
    requires e.body.Bit? && depth < 0.0
    ensures var r := Intro(e, rate, depth);
      && |r.queue| == |e.queue| + 2
      && r.queue[|e.queue|] == Some(Empty)
      && r.queue[|e.queue| + 1] == Some(Single(FillAction("intro_fill", e.size, rate * 0.5, false)))
  {
  }

  /** A hollow's or platform's intro appends one set holding a depth change
      with the variant's positive acceleration. */
  lemma RaisedIntroQueuesOneSet(e: Entity, rate: real, depth: real)
    requires (e.body.Hollow? || e.body.Platform?) && depth >= 0.0
    ensures var r := Intro(e, rate, depth);
      && r.queue == e.queue + [Some(Single(DepthAction(e.body, "intro", depth, rate * 0.05, false)))]
      && r.queue[|e.queue|].value.actions["intro"].state.ramp.acceleration == 0.02
      && r.current == e.current && r.body == e.body && !r.hold
  {
  }

  /** A bit's outro appends the return to depth 0 before the unfill. */
  lemma BitOutroQueuesUnrecessThenUnfill(e: Entity, rate: real)
    requires e.body.Bit?
    ensures var r := Outro(e, rate);
      && r.queue == e.queue + [
           Some(Single(DepthAction(e.body, "outro_unrecess", 0.0, rate, false))),
           Some(Single(UnfillAction("outro_unfill", rate, false)))]
      && r.current == e.current && r.body == e.body && !r.hold
  {
    var raised := CloseActionSet(SetDepthTo(NewActionSet(e), "outro_unrecess", 0.0, rate, false));
    assert raised.queue == e.queue + [Some(Single(DepthAction(e.body, "outro_unrecess", 0.0, rate, false)))];
  }

  /** Drawing a bit prunes the layers hidden under its newest full layer; a
      plain animata's drawing attaches its default "!" overlay; a hollow or
      platform is drawn without any change to the model. */
  function Draw(e: Entity): (r: Entity)
    ensures e.body.Plain? ==> r.hasText && r == e.(hasText := true)
    ensures e.body.Hollow? || e.body.Platform? ==> r == e
    ensures e.body.Bit? ==> r == e.(body := Bit(e.body.depth, Prune(e.body.layers, e.size)))
  {
    if e.body.Bit? then e.(body := e.body.(layers := Prune(e.body.layers, e.size)))
    else if e.body.Plain? then SetText(e)
    else e
  }

  /** Drawing twice in a row prunes nothing more the second time, provided
      layer ids are distinct. */
  lemma DrawIdempotent(e: Entity)
    requires e.body.Bit? ==> Distinct(e.body.layers.order)
    ensures Draw(Draw(e)) == Draw(e)
  {
    if e.body.Bit? {
      PruneIdempotent(e.body.layers, e.size);
    }
  }
}
