# tetron timed-action engine, modelled in Dafny

tetron animates objects on an HTML canvas. Every animated object is an
*animata*, or one of its variants: the *bit*, the *hollow* and the
*platform*. Each object runs *actions*, which are timed changes such as a
resize, a move, a rotation, a wait, a colour fill or a depth change. Actions
are batched into *action sets* that run concurrently. An object keeps one
current set and a FIFO queue of sets still to come. Once per animation frame
the *animator* visits every registered object in insertion order, draws it
and updates it. An update advances every running action of the current set
by one tick, removes the actions that completed, and may carry the survivors
over into the next queued set.

This project is a functional model of that engine:

- `wrappers.dfy`: `Option` and `Result`.
- `actions.dfy`: the `Action` record and its per-kind constructor (action.js).
- `action_sets.dfy`: the `ActionSet`, an insertion-ordered id sequence plus an id-to-action map (action.js).
- `ramps.dfy`: the ramp tick shared by resize, rotate and every `set_depth` updater.
- `motion.dfy`: the move tick with its per-axis overshoot correction, the wait countdown, and the one-shot text display (animata.js).
- `fills.dfy`: a bit's fill and unfill accumulators and the pruning of covered fill layers (bit.js).
- `entities.dfy`: the animata's staging, queue, per-variant dispatch, the update pass and the carryover merge (animata.js, with the dispatchers of bit.js, hollow.js and platform.js).
- `shapes.dfy`: the intents a bit, hollow or platform adds (`setColor`, `removeColor`, `setDepth`, `intro`, `outro`) and a bit's draw-time pruning.
- `animator.dfy`: the registry of animated objects and one frame of the animation loop (animator.js).

Everything is an immutable datatype, and every tick is a pure function over
`real`.

Where the source throws a TypeError, the model returns `Err(Fault)`. This
happens when a dispatcher has no case for an action's kind, when an id has no
action behind it, when a queued object is missing, or when a text display or
`removeText` reaches for an overlay that `setText` never attached. The exception escapes
`animate` before `requestAnimationFrame` re-arms the loop, so a fault ends the
frame and the animation.

Two things come from outside the engine and are parameters here:

- The clock (`performance.now()`) is the `now` argument of a frame.
- The trigonometric split of a move's velocity into per-axis components is the
  `split` argument, of type `Split`.

Where the source is defective, the model uses the evidently intended
behaviour. The behaviour as written is kept next to it, with a concrete
counterexample (see Findings).

The model follows the code where its behaviour is easy to misread:

- A resize from 10 to 30 at rate 5 completes on the fifth tick, not the
  fourth. The completion test runs before the step (`Ramps.ResizeScenario`).
- A rotation's completion test is strict (`>`), while a resize's is inclusive
  (`>=`). A rotation therefore spends one more tick on its goal.
- Carryover appends the surviving actions to the END of the first queued set.
- Unfill neither clamps levels at 0 nor prunes layers.
- A bit's `set_depth` acceleration is -0.02. Hollows and platforms use +0.02.
- A bit cannot run the animata's kinds. Its `updateAction` falls back to an
  undefined `this.super`, so a bit with a resize, move, rotate, wait or
  display_text action faults.
- A plain animata's `draw` attaches its default "!" overlay through
  `setText` (animata.js:57), so a drawn animata always has an overlay.
- A fill layer can lose its level while staying in the order. A colour id added
  twice is listed twice, and a prune then deletes the level of the id it keeps.
  `undefined <= 0` is false, so the unfill treats such a layer as live: it
  accelerates the rate for it and never completes. The source stores NaN as
  that layer's level; the model leaves the level absent.

## Model

| member | source | states |
|---|---|---|
| Actions.ParseKind | action.js:14-96 | a name is recognised only as the name of the kind it yields |
| Actions.ParseKindName | action.js:14-96 | every kind is recognised under its own name, so kind names are distinct |
| Actions.NewRamp | action.js:20-26 | a new resize, rotate or set_depth ramp heads up (+1), has no progress, is not initialised and runs at the magnitude of the given rate |
| Actions.New | action.js:7-92 | a new action is running, not complete and not carried over; each kind starts with the fields its case sets (a move without an `[x, y]` goal heads for (0, 0); a transform's rate is scaled by 0.01) |
| Actions.Make | action.js:94-96 | an unrecognised kind name yields no action; a recognised one yields a fresh action of that kind |
| Actions.Complete | action.js:115-117 | completing marks the action complete and changes nothing else |
| Actions.CompleteIdempotent | action.js:115-117 | completing twice equals completing once |
| ActionSets.EmptyValid | action.js:126-129 | a new action set is well formed |
| ActionSets.Append | action.js:133-137 | a new id goes to the end of the sequence, earlier ids keep their order, and the action is filed under its id; a held id leaves the set unchanged; well-formedness is kept |
| ActionSets.Remove | action.js:141-146 | removing a held id cuts exactly its first occurrence, the rest keep their order, and the map loses the id; an absent id leaves the sequence unchanged; on a duplicate-free sequence it is the filter dropping the id; well-formedness is kept |
| ActionSets.FilteredTwice | action.js:141-146 | filtering by one set of ids, then another, is filtering by both |
| ActionSets.RemoveAbsentIsNoop | action.js:141-146 | on a well-formed set, removing an absent id changes nothing |
| ActionSets.RemoveAppended | action.js:133-146 | removing a freshly appended action gives the original set back |
| ActionSets.IsComplete | action.js:150-155 | a set is complete iff its id sequence is empty |
| ActionSets.IsCompleteIffNoActions | action.js:150-155 | on a well-formed set, complete iff the action map is empty too |
| ActionSets.RemoveAsWritten | action.js:143-144 | as written, removing an absent id drops the last id |
| ActionSets.RemoveAsWrittenDropsLast | action.js:143-144 | counterexample: removing "gone" from ["grow", "spin"] loses "spin" from the sequence but not from the map |
| ActionSets.IsCompleteAsWritten | action.js:151 | as written, `action_ids == 0` holds on every complete set, and on an incomplete one exactly when its single id is spelled with zeros |
| ActionSets.IsCompleteAsWrittenMisreadsZero | action.js:151 | counterexample: a set holding the single running action "0" reads as complete |
| Ramps.Accelerated | hollow.js:141-143 | the acceleration is absorbed only if the rate stays positive, so a positive rate stays positive |
| Ramps.Initialize | animata.js:185-190 | on the first tick the direction becomes -1 iff the value is above the goal; once initialised the direction is never recomputed |
| Ramps.Tick | animata.js:182-203 | the completion test runs on the value before the step; on completion the property and progress snap to the goal exactly; otherwise the property moves by rate times direction and progress tracks it; only an accelerating ramp changes its rate |
| Ramps.TickKeepsRatePositive | bit.js:301-304 | no tick drives a positive rate to zero or below |
| Ramps.TickApproaches | animata.js:197-200 | a tick that does not complete moves the property towards the goal |
| Ramps.RunKeepsDirection | animata.js:185-190 | over any number of ticks the direction fixed by the first tick is kept |
| Ramps.RunCompletes | animata.js:192-196 | a ramp with a positive, non-decreasing rate completes, exactly on its goal, within a number of ticks that covers the distance |
| Ramps.ResizeScenario | animata.js:182-203 | resizing 10 to 30 at rate 5 reads 15, 20, 25, 30 and completes only on the fifth tick |
| Ramps.BoundaryOnGoal | animata.js:284 | on the goal an inclusive ramp completes but a strict one does not |
| Motion.Start | animata.js:209-230 | the first move tick fixes each axis's relative goal and direction (-1 iff the destination is below the position) and the split velocities |
| Motion.Settle | animata.js:233-245 | the overshoot check snaps a passed axis's progress to its relative goal, moves the position back by the excess, and marks the axis reached; a reached axis is left alone |
| Motion.Advance | animata.js:255-262 | an axis not yet reached advances position and progress together by its velocity times direction |
| Motion.MoveTick | animata.js:207-268 | a move completes iff both axes are reached; a reached axis stays reached and its position no longer changes; position minus progress stays the starting point |
| Motion.MoveLandsOnDestination | animata.js:233-254 | when a move completes, the entity sits exactly on the destination |
| Motion.SettleAsWritten | animata.js:233-238 | as written, the excess is multiplied by the direction; on a positive axis that equals the corrected form |
| Motion.MoveTickAsWritten | animata.js:207-268 | the move tick as written, completing iff both axes are reached |
| Motion.MoveAsWrittenOvershootsLeft | animata.js:236 | counterexample: a move from 0 to -10 at 4 per tick lands on -14 as written and on -10 when corrected |
| Motion.MoveLeftConstructed | action.js:28-43 | the constructor's move to (-10, 0) at velocity 4 starts at rest |
| Motion.FirstTickStartsMove | animata.js:209-230 | a first tick is an ordinary tick of the move as initialised |
| Motion.StartLeftward | animata.js:209-230 | the leftward move initialises with direction -1 and relative goal -10 |
| Motion.MoveLeftStartedTick | animata.js:255-262 | the initialised leftward move reaches -4 after one tick |
| Motion.MoveLeftFirstTick | animata.js:207-268 | the constructor's leftward move reaches -4 on its first tick |
| Motion.MoveLeftLaterTicks | animata.js:255-262 | the next two ticks reach -8 and -12 |
| Motion.WaitTick | animata.js:300-318 | while the wait condition is set nothing changes; on the first ungated tick the deadline becomes now plus the delay; the wait completes iff ungated and now has reached the deadline |
| Motion.WaitNeverEarly | animata.js:305-314 | a wait whose countdown started at some time completes at no earlier time than that time plus the delay |
| Motion.ShowTextTick | animata.js:170-178 | with the latch unset and no overlay the display faults; otherwise it sets the latch and completes iff the latch was unset |
| Motion.ShowTextFiresOnce | animata.js:170-178 | once the latch is set no later text display fires |
| Motion.ShowTextTickAsWritten | html_objects.js:70-71 | as written the display faults whenever the latch is unset, because the overlay's `display` reads an undefined `ths` |
| Motion.ShowTextAsWrittenNeverFires | html_objects.js:71 | counterexample: with an overlay and the latch unset the corrected display fires while the as-written one faults; as written no display ever completes |
| Fills.FillTick | bit.js:234-251 | the fill completes iff progress has reached the destination, snapping progress to it; otherwise the rate absorbs the acceleration if it stays positive and both progress and the layer's level grow by the rate |
| Fills.FillLevelTracksProgress | bit.js:247-248 | a layer whose level equals the fill's progress keeps pace with it |
| Fills.FillTickAsWritten | bit.js:237-248 | as written, the level update goes to the key `undefined`, so no real layer's level changes; the completing tick returns before it and changes no level at all |
| Fills.FillAsWrittenNeverGrows | bit.js:248 | counterexample: a fill tick from level 0 at rate 1 and acceleration 0.02 raises the layer to 1.02 when corrected but leaves it at 0 as written |
| Fills.Drain | bit.js:260-271 | the layer loop reports live iff some layer is not drained (a layer without a level is never drained), keeps the key set, and changes nothing when no layer is live |
| Fills.DrainLeavesIdle | bit.js:261-262 | layers at or below 0, and layers outside the list, keep their level |
| Fills.DrainLowersLive | bit.js:263-268 | with a positive rate every live layer ends lower |
| Fills.DrainAcceleratesPerLiveLayer | bit.js:261-267 | the rate absorbs the acceleration once per layer not drained, a layer without a level included |
| Fills.UnfillTick | bit.js:255-278 | the unfill completes iff every layer has a level and it is already at or below 0, and then changes no level; levels are neither clamped nor pruned |
| Fills.UnfillStallsOnMissingLevel | bit.js:259-275 | an unfill over a layer without a level never completes, for any number of ticks, and the layer never gains a level |
| Fills.FirstFull | bit.js:62-66 | the lowest index whose level reaches the bit's size, if any |
| Fills.DisposalIndex | bit.js:61-66 | the drawing loop's disposal index is one past the lowest full layer, or 0 if none is full |
| Fills.Prune | bit.js:74-83 | every layer after the lowest full one loses its order entry, colour and level; nothing else changes; nothing is pruned if no layer is full |
| Fills.PruneIdempotent | bit.js:61-83 | with distinct layer ids, pruning twice equals pruning once |
| Entities.NewActionSet | animata.js:374-377 | starting a build sets the hold with an empty build and leaves the current set and queue alone |
| Entities.Assign | animata.js:381-396 | under a hold the action joins only the build (and is dropped if there is none); otherwise it joins the current set, which is created if absent; the queue is never touched |
| Entities.CloseActionSet | animata.js:400-404 | closing pushes the build (possibly none) at the tail of the queue, clears the build and ends the hold |
| Entities.ComposePushesOneSet | animata.js:374-404 | composing a set pushes exactly one set holding the staged actions at the tail of the queue and leaves the current set alone |
| Entities.HeldAssignsBuild | animata.js:384-389 | under a hold every staged action goes to the build, in order |
| Entities.NextActionSet | animata.js:408-410 | promotion shifts the head of the queue into the current slot |
| Entities.Stop | animata.js:420-423 | after stop there is no current set and the queue is empty |
| Entities.ClearWaitCondition | animata.js:368-370 | clearing drops the wait condition and nothing else |
| Entities.Staged | animata.js:94-96 | an intent's action has the requested kind and id and the caller's carryover, and starts running and incomplete |
| Entities.ResizeTo | animata.js:88-97 | a negative size is refused and nothing changes |
| Entities.ResizeStagesRamp | animata.js:88-97 | outside a hold a non-negative resize joins the current set last, as a fresh ramp to the size at the rate's magnitude with the caller's carryover |
| Entities.MoveTo | animata.js:100-105 | moveTo leaves the queue and the position alone |
| Entities.MoveToStagesMove | animata.js:100-105 | outside a hold the move joins the current set last, heading for the absolute position at the velocity with the caller's carryover, not yet started; nothing moves at staging time |
| Entities.MoveBy | animata.js:109-116 | moveBy is moveTo of the current position plus the offsets |
| Entities.MoveByStagesOffset | animata.js:109-116 | the staged move's destination is the position at staging time plus the offsets, and nothing moves yet |
| Entities.RotateTo | animata.js:121-126 | rotate leaves the queue and the angle alone |
| Entities.RotateStagesRamp | animata.js:121-126 | outside a hold a fresh, uninitialised rotation ramp to the angle at the rate's magnitude, with the caller's carryover, joins the current set last |
| Entities.WaitOn | animata.js:131-136 | waitOn sets the condition and stages a wait that never carries over |
| Entities.WaitOnStagesGatedWait | animata.js:131-136 | the staged wait is named after the entity, carries the delay and has not started counting |
| Entities.DisplayTextIntent | animata.js:64-67 | displayText leaves the queue, the latch and the overlay alone |
| Entities.DisplayTextStagesFade | animata.js:64-67 | outside a hold a display fading to the opacity at the rate joins the current set last and is never carried over |
| Entities.HeldIntentsBuild | animata.js:64-126 | under a hold, moveTo, rotate and displayText append their action last to the build and leave the current set and the queue alone |
| Entities.SetText | animata.js:75-77 | attaching an overlay sets the overlay flag and changes nothing else |
| Entities.RemoveText | animata.js:81-84 | detaching faults iff no overlay is attached; otherwise it clears the flag and changes nothing else |
| Entities.RemoveSetText | animata.js:75-84 | attaching then detaching leaves the entity without an overlay and otherwise unchanged; a second detach faults |
| Entities.Finish | animata.js:192-196 | an updater's result keeps the action's id, pause and carryover flags and is complete iff it was or the tick completed it |
| Entities.BaseStep | animata.js:143-166 | the animata runs exactly its five kinds and faults on any other, and on a text display that would fire with no overlay; its updaters never touch the schedule or the variant's fields and never clear the latch |
| Entities.BaseStepTicks | animata.js:143-318 | display fires the latch and completes iff it fired; resize is an inclusive ramp of the size; move is a move tick of x and y; rotate is a strict ramp of the angle; wait counts down against the wait condition; each changes only its own property and completes the action iff its tick reports done |
| Entities.DepthStep | hollow.js:122-149 | a depth tick is a strict, accelerating ramp on the depth and changes nothing else |
| Entities.BitStep | bit.js:198-218 | a bit runs exactly fill, unfill and set_depth, faulting on everything else, and changes only its own fields |
| Entities.BitStepTicks | bit.js:198-278 | fill sets the levels to the fill tick's, unfill to the unfill tick's, and set_depth is the depth ramp; each completes the action iff its tick reports done |
| Entities.Step | platform.js:102-113 | each variant runs exactly its supported kinds, and a text display faults only when it would fire with no overlay; a tick keeps the entity's schedule and the action's id, flags and kind, never clears the latch and never un-completes an action |
| Entities.StepDispatch | hollow.js:108-118 | a plain entity uses the animata's updaters and a bit its own; a hollow or platform runs set_depth as the depth ramp and hands every other kind to the animata's updaters |
| Entities.StepOnGoal | animata.js:192 | on its goal an initialised resize completes on this tick, while a rotation or a depth change does not |
| Entities.RunnableKept | animata.js:330-349 | a tick never makes a later action of the set unrunnable on the entity it leaves |
| Entities.WaitHeldWhileGated | animata.js:300-301 | while the wait condition is set a wait tick changes nothing |
| Entities.Pass | animata.js:330-349 | the pass faults on an id with no action, keeps the entity's schedule and the map's keys, and keeps every action's id, flags and kind |
| Entities.PassFrame | animata.js:337-342 | paused actions and actions outside the scanned ids come through the pass unchanged |
| Entities.PassCarry | animata.js:330-336 | the pass reports carryover iff every scanned action, paused or not, opted in |
| Entities.PassDisposal | animata.js:340-345 | the ids staged for removal are exactly the scanned running actions that end the pass complete |
| Entities.PassRunsWhenRunnable | animata.js:330-349 | the pass succeeds whenever every scanned id names a paused action or one the entity can run |
| Entities.PassThreadsEntity | animata.js:340-342 | the entity the pass returns is the one the last of its ticks left |
| Entities.PassTicksAt | animata.js:340-342 | the running action at each position ends the pass as one tick of its starting state on the entity as the earlier ticks left it |
| Entities.PassTicksEachOnce | animata.js:340-342 | each running action ends the pass exactly one tick ahead of where it started, ticked on the entity as the earlier ticks left it, and the pass returns the entity the last tick left |
| Entities.RemoveAll | animata.js:352-354 | the sweep removes exactly the staged ids from a well-formed set, and the surviving ids keep their order |
| Entities.Transfer | animata.js:452-454 | the transfer faults iff an id has no action; the target set's ids stay first, and well-formedness is kept |
| Entities.TransferAppends | animata.js:452-454 | when the actions fit, the named ids follow the target's ids in order and each action is filed under its id beside the target's own |
| Entities.CarryoverContent | animata.js:451-456 | carrying a well-formed set onto a disjoint well-formed one gives the target's ids followed by the carried ids, and exactly both sets' actions |
| Entities.Carryover | animata.js:451-456 | the merge appends the current set's ids and actions to the end of the first queued set, keeps the queue length and the later queued sets, and discards the current set |
| Entities.Promote | animata.js:325-327 | the head of the queue is promoted only when there is no current set or it is complete |
| Entities.Sweep | animata.js:324-354 | with nothing to run the sweep only promotes; otherwise it keeps the schedule apart from the current set, keeps a current set, and reports carryover iff every action of the promoted set opted in |
| Entities.SweptSet | animata.js:352-354 | removing the staged ids leaves a well-formed set of the survivors in their order: paused actions unchanged and every running survivor incomplete |
| Entities.SweepRemovesCompleted | animata.js:340-354 | the swept set is the promoted set with exactly its completed running actions removed, the rest in their order |
| Entities.UpdateIdle | animata.js:324-329 | with nothing to run, an update only promotes |
| Entities.UpdateKeepsStaging | animata.js:324-361 | an update keeps the id, the terminated flag, the build, the hold, the wait condition, the overlay and the variant |
| Entities.UpdateMergesIff | animata.js:330-359 | the merge happens iff every action present at the start of the pass has carryover and a set is queued; the queue length never changes |
| Entities.UpdateMergeAppendsToHead | animata.js:451-456 | a merge empties the current slot and keeps the later queued sets; the first queued set's ids stay first, and for disjoint well-formed sets they are followed by the swept ids in order and the set holds exactly both sets' actions |
| Entities.UpdateSweepsCompleted | animata.js:340-354 | without a merge the set left is the promoted set filtered in order: every action left is paused or incomplete, every paused action is kept unchanged, and only running actions are removed |
| Entities.NewEntitiesWellFormed | animata.js:8-33 | a new object holds only well-formed sets |
| Entities.StagingKeepsWellFormed | animata.js:374-423 | staging, composing and stopping keep every held set well formed |
| Entities.PromoteKeepsWellFormed | animata.js:408-410 | promotion keeps every held set well formed |
| Entities.UpdateKeepsWellFormed | animata.js:324-361 | an update keeps every held set well formed |
| Entities.MergeKeepsQueueValid | animata.js:451-456 | a merge keeps every queued set well formed |
| Entities.UpdateRunsWhenSupported | animata.js:143-166 | on a well-formed object an update faults only if a running action has a kind the variant cannot run, or is a text display that would fire with no overlay |
| Entities.PassHoldsGatedWaits | animata.js:300-318 | while the condition is set, a pass leaves every wait action exactly as it was |
| Entities.UpdateHoldsGatedWaits | animata.js:300-318 | an update made while the condition is set leaves every current wait action unchanged, so the countdown has not started |
| Shapes.DepthAcceleration | bit.js:182 | a bit slows its depth changes (negative acceleration) and hollows and platforms speed theirs up, both by 0.02 |
| Shapes.MaxDepth | bit.js:24 | the default intro depth is 5 for a bit and 9 for a hollow or platform |
| Shapes.FillAction | bit.js:156-158 | the fill grows to twice the bit's size with acceleration 0.02 |
| Shapes.UnfillAction | bit.js:165-167 | the unfill runs at the rate with acceleration 0.02 |
| Shapes.DepthAction | hollow.js:98-100 | a set_depth action is a fresh ramp to the depth with the variant's acceleration |
| Shapes.SetColor | bit.js:151-160 | the new colour becomes the newest layer at level 0 at once, even under a hold, and its fill action is staged |
| Shapes.RemoveColor | bit.js:164-169 | removeColor leaves the layers, the queue and the hold alone |
| Shapes.RemoveColorStagesUnfill | bit.js:164-169 | outside a hold an unfill draining at the rate with acceleration 0.02 joins the current set last with the caller's carryover; the layers stay as they are |
| Shapes.SetDepthTo | bit.js:174-184 | a negative depth is refused and nothing changes; otherwise one set_depth action is staged |
| Shapes.BitIntroQueuesRecessThenFill | bit.js:118-129 | a bit's intro queues the recess set ahead of the fill set, both at half rate, and shows the intro layer empty and newest |
| Shapes.BitIntroNegativeDepthQueuesEmptyRecess | bit.js:118-123 | a refused intro depth still queues an empty first set |
| Shapes.RaisedIntroQueuesOneSet | hollow.js:82-86 | a hollow's or platform's intro queues one set holding one depth change at a twentieth of the rate, accelerating by 0.02 |
| Shapes.BitOutroQueuesUnrecessThenUnfill | bit.js:134-143 | a bit's outro queues the return to depth 0 ahead of the unfill |
| Shapes.Draw | bit.js:61-83 | drawing a bit prunes its covered layers; drawing a plain animata attaches its overlay; drawing a hollow or platform changes nothing |
| Shapes.DrawIdempotent | bit.js:61-83 | drawing twice prunes nothing more than drawing once |
| Animator.IdleValid | animator.js:7-10 | a new animator is well formed |
| Animator.Without | animator.js:67-69 | the first occurrence of the id is cut out; on a duplicate-free queue that is the filter dropping the id, the rest in order |
| Animator.WithoutAppended | animator.js:55-70 | cutting an id just appended to a queue that lacked it gives the queue back |
| Animator.RemoveObject | animator.js:66-70 | removal forgets the object and its id, keeps every other id, and leaves the queue alone for an unknown id |
| Animator.AddObject | animator.js:55-62 | after adding, the id is last in the queue with the new object and every other id keeps its registration; on a well-formed registry the queue is the old one with the id cut out, then the id |
| Animator.RemoveObjectAbsentIsNoop | animator.js:66-70 | on a well-formed registry, removing an unknown id changes nothing |
| Animator.RemoveAdded | animator.js:55-70 | adding a new object and removing it again restores the registry |
| Animator.ReAddReplaces | animator.js:55-62 | re-adding an id replaces its object, so the id is held once |
| Animator.RemoveObjectAsWritten | animator.js:68-69 | as written, removing an unknown id drops the last queued id |
| Animator.RemoveObjectAsWrittenDropsLast | animator.js:68-69 | counterexample: removing "gone" stops animating "right", which stays registered |
| Animator.CheckWait | animator.js:28-38 | the condition is cleared iff the target is registered and its current set holds the awaited action |
| Animator.ScanFrom | animator.js:19-39 | the scan visits the queued ids in order, draws then updates each exactly once, reads the terminated flag first, and succeeds whenever every queued object's own update does |
| Animator.RemoveObjects | animator.js:42-44 | the terminated ids are removed after the scan, the other ids keeping their order, and the registry stays well formed |
| Animator.FrameFaultsIff | animator.js:19-25 | a frame faults iff some queued object's own update faults |
| Animator.FrameRemovesTerminated | animator.js:18-44 | a frame removes exactly the objects terminated at its start, and every survivor was drawn, updated once and possibly released from its wait |
| Animator.FrameDefersCountdown | animator.js:24-36 | an object gated when the frame starts leaves the frame with its wait actions unchanged, so its countdown starts no earlier than the next frame |

## Left out

- Canvas drawing (`draw` of every variant apart from a bit's layer pruning): rendering side effects only.
- The HTML text overlay: modelled as whether one is attached and the `textLoaded` latch. Its text, font, click handler, fade and position sync are calls into code outside the model. The fade's arity mismatch (`display(action.rate, action.level)` against `display(level)`) is not modelled.
- `requestAnimationFrame` and the frame pacing: a frame is one call of `Frame`. `performance.now()` is the `now` parameter.
- The trigonometric velocity split of a move: floating point. It is the `split` parameter, and the proofs hold for every split.
- `pause`/`resume`: as written they set `pause` rather than `paused`, and the bulk forms call `forEach` on non-arrays. Only the `paused` flag that `update` reads is modelled.
- `Bit.transform` and the `transform` kind: the intent has an empty body and no variant can run the kind (a bit faults on it, and so does the animata's default case). Only the constructor's fields are modelled.
- `clearActionQueue`: not used by the engine's state transitions.
- Nothing in these files sets `terminated`. It is a field of the entity that callers set.
- tetrominos.js and tetron.js are not part of this model.
- ActionSets.Append: an id the set already holds leaves the set unchanged, so valid sets stay duplicate-free. The source pushes the id a second time and overwrites the map entry. A carryover onto a queued set that already holds one of the carried ids therefore makes the source tick the newer action twice per tick, through both copies of the id, while the model keeps the older action and drops the carried one.
- Motion.MoveLandsOnDestination: proved over exact reals. The source computes in IEEE doubles, where the landing position can differ from the destination by rounding.
- Ramps.ResizeScenario: the tick count is exact only in real arithmetic. With doubles, a rate that is not exactly representable can move the completing tick. Every other tick, ramp and fill in the model is likewise exact.
- NaN, `undefined` arithmetic and JavaScript's loose comparisons are not modelled. The exceptions are `ActionSets.IsCompleteAsWritten` and the comparison of a missing fill level with 0 in the unfill loop.
- ActionSets.IsCompleteAsWritten: recognises only ids made of the digit 0. JavaScript's `==` also accepts other spellings of zero, such as " 0" or "0.0".
- Entities.Update has no contract of its own. Its behaviour is stated by the `Update…` lemmas and `Entities.UpdateRunsWhenSupported`.
- Animator.Frame has no contract of its own. Its behaviour is stated by `Animator.FrameFaultsIff`, `Animator.FrameRemovesTerminated` and `Animator.FrameDefersCountdown`.
- Shapes.Intro and Shapes.Outro have no contracts of their own. Their queues are stated by the intro and outro lemmas.
- Animator.ScanFrom: the exact map against which each wait check is made is not exposed. `Animator.CheckWait` states the check, and `Animator.ScanFrom` states that each object ends either updated or updated-and-released.

## Findings

| source | as written | input that shows it | evidently intended | confidence | as-written member | corrected member |
|---|---|---|---|---|---|---|
| action.js:143-144 | `splice(indexOf(id), 1)` with an absent id removes the last id, because `indexOf` returns -1 | remove "gone" from a set holding "grow" and "spin" | removing an absent id is a no-op | high, not executed | ActionSets.RemoveAsWrittenDropsLast | ActionSets.RemoveAbsentIsNoop |
| action.js:151 | `this.action_ids == 0` compares an array with a number | a set whose only running action has id "0" | complete iff no ids are left | high, not executed | ActionSets.IsCompleteAsWrittenMisreadsZero | ActionSets.IsCompleteIffNoActions |
| animata.js:236 | after an overshoot the position is corrected by `excess * direction`, which has the wrong sign on a negative axis (also line 243) | move from x = 0 to -10 at velocity 4 (horizontal split): the fourth tick lands at -14 | the entity lands on the destination | high, not executed | Motion.MoveAsWrittenOvershootsLeft | Motion.MoveLandsOnDestination |
| bit.js:248 | the level update is keyed by `action.action_id`, a field that does not exist | one tick of a fill from level 0 towards 60 at rate 1, acceleration 0.02 | the layer's level grows with the fill's progress | high, not executed | Fills.FillAsWrittenNeverGrows | Fills.FillLevelTracksProgress |
| html_objects.js:71 | `display` appends `ths.div`, and no `ths` is in scope, so the call throws a ReferenceError | an object with an overlay whose latch is unset runs a display_text action | the overlay is shown once and the action completes | medium, not executed | Motion.ShowTextAsWrittenNeverFires | Motion.ShowTextFiresOnce |
| animator.js:68-69 | `splice(indexOf(id), 1)` with an unregistered id removes the last queued id | remove "gone" from an animator holding "left" and "right" | removing an unknown id is a no-op | high, not executed | Animator.RemoveObjectAsWrittenDropsLast | Animator.RemoveObjectAbsentIsNoop |
