/** The frame loop (animator.js): a registry of animated objects in insertion
    order, and one frame that draws and updates each of them in that order,
    releases wait conditions that have been met, and drops the objects that
    were marked terminated. */
module Animator {
  import opened Wrappers
  import opened ActionSets
  import opened Motion
  import opened Entities
  import opened Shapes

  /** The ids being animated, in order, and the objects filed under them. */
  datatype Registry = Registry(queue: seq<string>, objects: map<string, Entity>)

  /** `new Animator()`. */
  const Idle: Registry := Registry([], map[])

  /** Every queued id is unique and has an object; every object is queued. */
  predicate Valid(g: Registry) {
    && Distinct(g.queue)
    && (forall id :: id in g.queue ==> id in g.objects)
    && (forall id :: id in g.objects ==> id in g.queue)
  }

  lemma IdleValid()
    ensures Valid(Idle)
  {
  }

  /** The sequence with its first occurrence of `id` cut out (`indexOf`, then
      `splice(index, 1)`), or unchanged when it lacks `id`. */
  function Without(q: seq<string>, id: string): (r: seq<string>)
    ensures id !in q ==> r == q
    ensures id in q ==> |r| == |q| - 1
    ensures forall k :: k in r ==> k in q
    ensures forall k :: k != id && k in q ==> k in r
    ensures Distinct(q) ==> Distinct(r) && id !in r && r == Filtered(q, {id})
  {
    if id in q then
      var i := IndexOf(q, id);
      assert forall k :: k != id && k in q ==> k in q[..i] + q[i + 1..] by {
        forall k | k != id && k in q ensures k in q[..i] + q[i + 1..] {
          var j :| 0 <= j < |q| && q[j] == k;
          if j < i { assert q[..i][j] == k; } else { assert q[i + 1..][j - i - 1] == k; }
        }
      }
      assert Distinct(q) ==> q[..i] + q[i + 1..] == Filtered(q, {id}) by {
        if Distinct(q) { CutIsFiltered(q, id, i); FilteredDistinct(q, {id}); }
      }
      q[..i] + q[i + 1..]
    else
      assert Distinct(q) ==> q == Filtered(q, {id}) by {
        FilteredNone(q, {id});
      }
      q
  }

  /** Removing an id appended to a sequence that lacked it gives the sequence back. */
  lemma WithoutAppended(q: seq<string>, id: string)
    requires id !in q
    ensures Without(q + [id], id) == q
  {
    assert IndexOf(q + [id], id) == |q|;
    assert (q + [id])[..|q|] == q;
  }

  /** `removeObject`, in its intended form: forget the object and take its id
      out of the queue; an id that is not queued leaves the queue alone. */
  function RemoveObject(g: Registry, id: string): (r: Registry)
    ensures r.objects == g.objects - {id}
    ensures id !in g.queue ==> r.queue == g.queue
    ensures forall k :: k != id ==> (k in r.queue <==> k in g.queue)
    ensures Distinct(g.queue) ==> Distinct(r.queue) && id !in r.queue
    ensures Valid(g) ==> Valid(r)
  {
    Registry(Without(g.queue, id), g.objects - {id})
  }

  /** On a well-formed registry, removing an unknown id changes nothing. */
  lemma RemoveObjectAbsentIsNoop(g: Registry, id: string)
    requires Valid(g) && id !in g.queue
    ensures RemoveObject(g, id) == g
  {
  }

  /** `addObject`: an object already registered under the id is removed first,
      so the id always ends up at the END of the queue with the new object. */
  function AddObject(g: Registry, id: string, e: Entity): (r: Registry)
    ensures r.objects == g.objects[id := e]
    ensures |r.queue| > 0 && r.queue[|r.queue| - 1] == id
    ensures forall k :: k != id ==> (k in r.queue <==> k in g.queue)
    ensures Valid(g) ==> Valid(r) && r.queue == Without(g.queue, id) + [id]
  {
    var base := if id in g.objects then RemoveObject(g, id) else g;
    assert Valid(g) ==> id !in base.queue;
    Registry(base.queue + [id], base.objects[id := e])
  }

  /** Adding a new object and removing it again restores the registry. */
  lemma RemoveAdded(g: Registry, id: string, e: Entity)
    requires Valid(g) && id !in g.objects
    ensures RemoveObject(AddObject(g, id, e), id) == g
  {
    WithoutAppended(g.queue, id);
  }

  /** Re-adding an id replaces its object and moves it to the back: the
      registry holds one object per id, however often it is added. */
  lemma ReAddReplaces(g: Registry, id: string, e: Entity, f: Entity)
    requires Valid(g)
    ensures var r := AddObject(AddObject(g, id, e), id, f);
      && Valid(r) && r.objects == g.objects[id := f] && r.queue[|r.queue| - 1] == id
  {
    var once := AddObject(g, id, e);
    assert Valid(once);
    UpdateTwice(g.objects, id, e, f);
  }

  /** Filing a second object under a key overrides the first. */
  lemma UpdateTwice(m: map<string, Entity>, k: string, v: Entity, w: Entity)
    ensures m[k := v][k := w] == m[k := w]
  {
    assert m[k := v][k := w].Keys == m[k := w].Keys;
  }

  /** `removeObject` as written: `indexOf` yields -1 for an id that is not
      queued, and `splice(-1, 1)` then drops the LAST queued id. */
  function RemoveObjectAsWritten(g: Registry, id: string): (r: Registry)
    ensures id in g.queue ==> r == RemoveObject(g, id)
    ensures id !in g.queue && |g.queue| > 0 ==> r.queue == g.queue[..|g.queue| - 1]
    ensures r.objects == g.objects - {id}
  {
    if id in g.queue then RemoveObject(g, id)
    else if |g.queue| == 0 then Registry(g.queue, g.objects - {id})
    else Registry(g.queue[..|g.queue| - 1], g.objects - {id})
  }

  /** Removing an unknown id as written stops animating an unrelated object,
      which stays registered: the registry is no longer well formed. */
  lemma RemoveObjectAsWrittenDropsLast()
    ensures var g := Registry(["left", "right"], map["left" := NewBit("left", 0.0, 0.0, 10.0),
                                                     "right" := NewBit("right", 40.0, 0.0, 10.0)]);
      && Valid(g)
      && RemoveObjectAsWritten(g, "gone").queue == ["left"]
      && "right" in RemoveObjectAsWritten(g, "gone").objects
      && !Valid(RemoveObjectAsWritten(g, "gone"))
      && RemoveObject(g, "gone") == g
  {
    var g := Registry(["left", "right"], map["left" := NewBit("left", 0.0, 0.0, 10.0),
                                             "right" := NewBit("right", 40.0, 0.0, 10.0)]);
    assert "gone" !in g.queue;
    assert ["left", "right"][..1] == ["left"];
  }

  // ---------------------------------------------------------------------------
  // One frame

  /** The target entity exists and has the awaited action in its current set. */
  predicate Met(objects: map<string, Entity>, c: WaitCondition) {
    && c.target in objects
    && objects[c.target].current.Some?
    && c.action in objects[c.target].current.value.actions
  }

  /** The wait check made after an entity's update: the condition is cleared
      exactly when it is met against the objects as they are at that moment. */
  function CheckWait(objects: map<string, Entity>, e: Entity): (r: Entity)
    ensures r.waitCondition.None? <==> e.waitCondition.None? || Met(objects, e.waitCondition.value)
    ensures r == e || r == ClearWaitCondition(e)
  {
    match e.waitCondition
    case Some(c) => if Met(objects, c) then ClearWaitCondition(e) else e
    case None => e
  }

  /** What one frame does to one entity: it is drawn, updated, and possibly
      released from its wait condition. */
  predicate Visited(before: Entity, after: Entity, now: real, split: Split) {
    var u := Update(Draw(before), now, split);
    u.Ok? && (after == u.value || after == ClearWaitCondition(u.value))
  }

  /** The state the scan over the queue builds: the objects as updated so far
      and the ids found terminated, in queue order. */
  datatype Scan = Scan(objects: map<string, Entity>, terminated: seq<string>)

  /** The `forEach` over the queue. An entity's terminated flag is read
      before it is drawn and updated; the wait check sees every entity
      earlier in the queue already updated. A fault anywhere ends the frame. */
  function ScanFrom(objects: map<string, Entity>, ids: seq<string>, now: real, split: Split): (r: Result<Scan, Fault>)
    ensures r.Ok? ==> r.value.objects.Keys == objects.Keys
    ensures r.Ok? ==> forall k :: k in ids ==> k in objects
    ensures r.Ok? ==> forall k :: k in objects && k !in ids ==> r.value.objects[k] == objects[k]
    ensures r.Ok? ==> forall k :: k in r.value.terminated ==> k in ids
    ensures r.Ok? && Distinct(ids) ==> forall k :: k in ids ==>
      && (k in r.value.terminated <==> objects[k].terminated)
      && Visited(objects[k], r.value.objects[k], now, split)
    ensures Distinct(ids) && (forall k :: k in ids ==> k in objects && Update(Draw(objects[k]), now, split).Ok?) ==> r.Ok?
    decreases |ids|
  {
    if |ids| == 0 then Ok(Scan(objects, []))
    else
      var id := ids[0];
      if id !in objects then Err(Absent(id))
      else
        var e := objects[id];
        var updated :- Update(Draw(e), now, split);
        UpdateKeepsStaging(Draw(e), now, split);
        var checked := CheckWait(objects[id := updated], updated);
        var next := objects[id := checked];
        assert next.Keys == objects.Keys;
        DistinctTail(ids);
        var rest :- ScanFrom(next, ids[1..], now, split);
        Ok(Scan(rest.objects, if e.terminated then [id] + rest.terminated else rest.terminated))
  }

  /** Remove every id of `ids` from the registry, in order. */
  function RemoveObjects(g: Registry, ids: seq<string>): (r: Registry)
    ensures r.objects == g.objects - Elems(ids)
    ensures Distinct(g.queue) ==> r.queue == Filtered(g.queue, Elems(ids))
    ensures Valid(g) ==> Valid(r)
    decreases |ids|
  {
    if |ids| == 0 then
      FilteredNone(g.queue, {});
      g
    else
      assert Elems(ids) == {ids[0]} + Elems(ids[1..]);
      FilteredTwice(g.queue, {ids[0]}, Elems(ids[1..]));
      RemoveObjects(RemoveObject(g, ids[0]), ids[1..])
  }

  /** `animate`: one frame. The whole queue as it stands when the frame starts
      is scanned; objects found terminated are removed afterwards. */
  function Frame(g: Registry, now: real, split: Split): (r: Result<Registry, Fault>)
  {
    var scan :- ScanFrom(g.objects, g.queue, now, split);
    Ok(RemoveObjects(Registry(g.queue, scan.objects), scan.terminated))
  }

  /** On a well-formed registry a frame faults exactly when some queued
      entity's own update faults. */
  lemma FrameFaultsIff(g: Registry, now: real, split: Split)
    requires Valid(g)
    ensures Frame(g, now, split).Ok? <==> forall k :: k in g.queue ==> Update(Draw(g.objects[k]), now, split).Ok?
  {
    var s := ScanFrom(g.objects, g.queue, now, split);
    if s.Ok? {
      forall k | k in g.queue ensures Update(Draw(g.objects[k]), now, split).Ok? {
        assert Visited(g.objects[k], s.value.objects[k], now, split);
      }
    }
  }

  /** A frame keeps the registry well formed, removes exactly the objects that
      were terminated when it started, and leaves every survivor drawn,
      updated once, and possibly released from its wait. */
  lemma FrameRemovesTerminated(g: Registry, now: real, split: Split)
    requires Valid(g) && Frame(g, now, split).Ok?
    ensures var r := Frame(g, now, split).value;
      && Valid(r)
      && (forall k :: k in r.queue <==> k in g.queue && !g.objects[k].terminated)
      && (forall k :: k in r.queue ==> Visited(g.objects[k], r.objects[k], now, split))
  {
    var s := ScanFrom(g.objects, g.queue, now, split).value;
    var mid := Registry(g.queue, s.objects);
    assert Valid(mid);
    var r := RemoveObjects(mid, s.terminated);
    assert Frame(g, now, split).value == r;
    forall k | k in r.queue ensures Visited(g.objects[k], r.objects[k], now, split) {
      assert k !in Elems(s.terminated);
    }
  }

  /** A wait is never released before its entity has been updated in the
      frame, so an entity gated when a frame starts keeps every wait action
      of its current set exactly as it was after that frame: the delay only
      starts counting in a later frame. */
  lemma FrameDefersCountdown(g: Registry, now: real, split: Split, id: string)
    requires Valid(g) && Frame(g, now, split).Ok?
    requires id in g.queue && !g.objects[id].terminated
    requires g.objects[id].waitCondition.Some? && !g.objects[id].body.Bit?
    ensures var e := g.objects[id];
      var after := Frame(g, now, split).value.objects[id];
      after.current.Some? ==>
        && Promote(e).current.Some?
        && forall k :: k in after.current.value.actions && after.current.value.actions[k].state.WaitState? ==>
             k in Promote(e).current.value.actions && after.current.value.actions[k] == Promote(e).current.value.actions[k]
  {
    FrameRemovesTerminated(g, now, split);
    var e := g.objects[id];
    var d := Draw(e);
    assert d.waitCondition == e.waitCondition && d.body == e.body && d.current == e.current && d.queue == e.queue;
    assert Promote(d).current == Promote(e).current;
    var u := Update(d, now, split);
    var after := Frame(g, now, split).value.objects[id];
    assert after.current == u.value.current;
    if after.current.Some? {
      UpdateHoldsGatedWaits(d, now, split);
    }
  }
}
