/** The colour-fill machinery of a bit (bit.js): fill and unfill accumulators
    over the bit's fill layers, and the pruning of obscured layers done while
    drawing. Layers are ordered newest first; each has a colour and a level. */
module Fills {
  import opened Wrappers
  import opened Actions
  import opened ActionSets
  import opened Ramps

  datatype FillStep = FillStep(filler: Filler, levels: map<string, real>, done: bool)

  /** One tick of the fill action `id`: once progress reaches the destination
      it snaps there and the action completes; otherwise the rate absorbs the
      acceleration if it stays positive and both progress and the action's own
      layer grow by the rate. */
  function FillTick(f: Filler, id: string, levels: map<string, real>): (s: FillStep)
    ensures s.done <==> f.progress >= f.destination
    ensures s.done ==> s.filler == f.(progress := f.destination) && s.levels == levels
    ensures !s.done ==>
      && s.filler.rate == Accelerated(f.rate, f.acceleration)
      && s.filler.progress == f.progress + s.filler.rate
      && s.filler.destination == f.destination && s.filler.acceleration == f.acceleration
    ensures !s.done && id in levels ==> s.levels == levels[id := levels[id] + s.filler.rate]
    ensures id !in levels ==> s.levels == levels
    ensures s.levels.Keys == levels.Keys
  {
    if f.progress >= f.destination then
      FillStep(f.(progress := f.destination), levels, true)
    else
      var rate := Accelerated(f.rate, f.acceleration);
      var grown := if id in levels then levels[id := levels[id] + rate] else levels;
      FillStep(f.(rate := rate, progress := f.progress + rate), grown, false)
  }

  /** While a fill runs, its layer's level keeps pace with its progress. */
  lemma FillLevelTracksProgress(f: Filler, id: string, levels: map<string, real>)
    requires id in levels && levels[id] == f.progress
    ensures var s := FillTick(f, id, levels);
      !s.done ==> s.levels[id] == s.filler.progress
  {
  }

  /** The fill tick as written: the level update is keyed by `action.action_id`,
      a field no action has, so it lands under the key "undefined" (as NaN,
      which this model does not represent) and the action's own layer never grows. */
  function FillTickAsWritten(f: Filler, id: string, levels: map<string, real>): (s: FillStep)
    ensures s.filler == FillTick(f, id, levels).filler && s.done == FillTick(f, id, levels).done
    ensures s.done ==> s.levels == levels
    ensures s.levels.Keys <= levels.Keys
    ensures id != "undefined" && id in s.levels ==> s.levels[id] == levels[id]
  {
    var s := FillTick(f, id, levels);
    FillStep(s.filler, if s.done then levels else levels - {"undefined"}, s.done)
  }

  /** As written, a fill tick that grows the layer by 1.02 when corrected
      leaves the layer's level at 0. */
  lemma FillAsWrittenNeverGrows()
    ensures var f := Filler(0.0, 60.0, 1.0, 0.02);
      var levels := map["intro_fill" := 0.0];
      && !FillTick(f, "intro_fill", levels).done
      && FillTick(f, "intro_fill", levels).levels["intro_fill"] == 1.02
      && FillTickAsWritten(f, "intro_fill", levels).levels["intro_fill"] == 0.0
  {
  }

  // ---------------------------------------------------------------------------
  // Unfill

  /** The rate after `k` accelerations, each kept only if the rate stays positive. */
  function AcceleratedTimes(rate: real, acceleration: real, k: nat): real
    decreases k
  {
    if k == 0 then rate else AcceleratedTimes(Accelerated(rate, acceleration), acceleration, k - 1)
  }

  /** A layer is drained when it has a level and that level is at or below 0.
      A layer without a level never is: its level reads as `undefined`, and
      `undefined <= 0` is false. */
  predicate Drained(levels: map<string, real>, id: string) {
    id in levels && levels[id] <= 0.0
  }

  /** The number of layers in `layers` that are not drained. */
  function LiveCount(layers: seq<string>, levels: map<string, real>): nat {
    if |layers| == 0 then 0
    else (if Drained(levels, layers[0]) then 0 else 1) + LiveCount(layers[1..], levels)
  }

  datatype DrainStep = DrainStep(rate: real, levels: map<string, real>, live: bool)

  /** The layer loop of `updateUnfill`: each layer not drained makes the rate
      absorb the acceleration (if it stays positive) and is lowered by the rate;
      drained layers are passed over. Nothing is clamped or removed. A layer
      without a level stays without one (the source stores NaN there). */
  function Drain(layers: seq<string>, levels: map<string, real>, rate: real, acceleration: real): (s: DrainStep)
    ensures s.live <==> exists i :: 0 <= i < |layers| && !Drained(levels, layers[i])
    ensures s.levels.Keys == levels.Keys
    ensures !s.live ==> s.levels == levels && s.rate == rate
    decreases |layers|
  {
    if |layers| == 0 then DrainStep(rate, levels, false)
    else
      var id := layers[0];
      if Drained(levels, id) then
        var rest := Drain(layers[1..], levels, rate, acceleration);
        assert rest.live ==> exists i :: 1 <= i < |layers| && !Drained(levels, layers[i]) by {
          if rest.live {
            var i :| 0 <= i < |layers[1..]| && !Drained(levels, layers[1..][i]);
            assert layers[i + 1] == layers[1..][i];
          }
        }
        assert !rest.live ==> forall i :: 1 <= i < |layers| ==> Drained(levels, layers[i]) by {
          if !rest.live {
            forall i | 1 <= i < |layers| ensures Drained(levels, layers[i]) {
              assert layers[i] == layers[1..][i - 1];
            }
          }
        }
        rest
      else
        var r := Accelerated(rate, acceleration);
        var rest := Drain(layers[1..], Lowered(levels, id, r), r, acceleration);
        DrainStep(rest.rate, rest.levels, true)
  }

  /** The level of `id` lowered by `r`, when it has one. */
  function Lowered(levels: map<string, real>, id: string, r: real): map<string, real> {
    if id in levels then levels[id := levels[id] - r] else levels
  }

  /** Layers outside the list, and layers already at or below 0, keep their level. */
  lemma {:induction false} DrainLeavesIdle(layers: seq<string>, levels: map<string, real>, rate: real, acceleration: real, k: string)
    requires Distinct(layers)
    requires k in levels && (k !in layers || levels[k] <= 0.0)
    ensures Drain(layers, levels, rate, acceleration).levels[k] == levels[k]
    decreases |layers|
  {
    if |layers| > 0 {
      DistinctTail(layers);
      var id := layers[0];
      if Drained(levels, id) {
        DrainLeavesIdle(layers[1..], levels, rate, acceleration, k);
      } else {
        var r := Accelerated(rate, acceleration);
        assert k != id;
        DrainLeavesIdle(layers[1..], Lowered(levels, id, r), r, acceleration, k);
      }
    }
  }

  /** With a positive rate, every layer above 0 ends lower than it started. */
  lemma {:induction false} DrainLowersLive(layers: seq<string>, levels: map<string, real>, rate: real, acceleration: real, k: string)
    requires Distinct(layers) && rate > 0.0
    requires k in levels && k in layers && levels[k] > 0.0
    ensures Drain(layers, levels, rate, acceleration).levels[k] < levels[k]
    decreases |layers|
  {
    DistinctTail(layers);
    var id := layers[0];
    var r := Accelerated(rate, acceleration);
    if id == k {
      assert k !in layers[1..];
      DrainLeavesIdle(layers[1..], Lowered(levels, id, r), r, acceleration, k);
    } else if Drained(levels, id) {
      DrainLowersLive(layers[1..], levels, rate, acceleration, k);
    } else {
      DrainLowersLive(layers[1..], Lowered(levels, id, r), r, acceleration, k);
    }
  }

  /** The rate absorbs the acceleration once per layer not drained, including
      a layer without a level. */
  lemma {:induction false} DrainAcceleratesPerLiveLayer(layers: seq<string>, levels: map<string, real>, rate: real, acceleration: real)
    requires Distinct(layers)
    ensures Drain(layers, levels, rate, acceleration).rate == AcceleratedTimes(rate, acceleration, LiveCount(layers, levels))
    decreases |layers|
  {
    if |layers| > 0 {
      DistinctTail(layers);
      var id := layers[0];
      if Drained(levels, id) {
        DrainAcceleratesPerLiveLayer(layers[1..], levels, rate, acceleration);
      } else {
        var r := Accelerated(rate, acceleration);
        assert id !in layers[1..];
        if id in levels {
          LiveCountIgnores(layers[1..], levels, id, levels[id] - r);
        }
        DrainAcceleratesPerLiveLayer(layers[1..], Lowered(levels, id, r), r, acceleration);
      }
    }
  }

  /** Changing the level of a layer outside the list does not change its live count. */
  lemma {:induction false} LiveCountIgnores(layers: seq<string>, levels: map<string, real>, id: string, v: real)
    requires id !in layers
    ensures LiveCount(layers, levels[id := v]) == LiveCount(layers, levels)
    decreases |layers|
  {
    if |layers| > 0 {
      LiveCountIgnores(layers[1..], levels, id, v);
    }
  }

  datatype UnfillStep = UnfillStep(drainer: Drainer, levels: map<string, real>, done: bool)

  /** One tick of an unfill: the action completes only on a tick where every
      layer had a level at or below 0 (with no layers, on its first tick). A
      layer without a level therefore keeps the unfill running for ever. */
  function UnfillTick(d: Drainer, layers: seq<string>, levels: map<string, real>): (s: UnfillStep)
    ensures s.done <==> forall i :: 0 <= i < |layers| ==> layers[i] in levels && levels[layers[i]] <= 0.0
    ensures s.done ==> s.levels == levels
    ensures s.levels.Keys == levels.Keys
    ensures s.drainer.acceleration == d.acceleration
  {
    var r := Drain(layers, levels, d.rate, d.acceleration);
    UnfillStep(d.(rate := r.rate), r.levels, !r.live)
  }

  /** The unfill run for `n + 1` ticks, or until the tick on which it completes. */
  function UnfillAfter(d: Drainer, layers: seq<string>, levels: map<string, real>, n: nat): UnfillStep
    decreases n
  {
    var s := UnfillTick(d, layers, levels);
    if n == 0 || s.done then s else UnfillAfter(s.drainer, layers, s.levels, n - 1)
  }

  /** An unfill over a layer without a level never completes, however many
      ticks it runs, and the layer never gains a level. */
  lemma {:induction false} UnfillStallsOnMissingLevel(d: Drainer, layers: seq<string>, levels: map<string, real>, n: nat, k: string)
    requires k in layers && k !in levels
    ensures !UnfillAfter(d, layers, levels, n).done
    ensures k !in UnfillAfter(d, layers, levels, n).levels
    decreases n
  {
    var s := UnfillTick(d, layers, levels);
    var i :| 0 <= i < |layers| && layers[i] == k;
    assert !s.done;
    if n > 0 {
      UnfillStallsOnMissingLevel(s.drainer, layers, s.levels, n - 1, k);
    }
  }

  // ---------------------------------------------------------------------------
  // Pruning of obscured layers (done while drawing)

  /** A layer whose level has reached the bit's size covers everything older. */
  predicate Full(levels: map<string, real>, id: string, size: real) {
    id in levels && levels[id] >= size
  }

  /** The lowest index of a full layer. */
  function FirstFull(layers: seq<string>, levels: map<string, real>, size: real): (r: Option<nat>)
    ensures r.Some? ==> r.value < |layers| && Full(levels, layers[r.value], size)
    ensures r.Some? ==> forall j :: 0 <= j < r.value ==> !Full(levels, layers[j], size)
    ensures r.None? ==> forall j :: 0 <= j < |layers| ==> !Full(levels, layers[j], size)
    decreases |layers|
  {
    if |layers| == 0 then None
    else if Full(levels, layers[0], size) then Some(0)
    else
      match FirstFull(layers[1..], levels, size)
      case None => None
      case Some(i) => Some(i + 1)
  }

  /** The drawing loop walks the layers oldest first and remembers one past the
      last full layer it sees: that is one past the newest full layer, or 0. */
  method DisposalIndex(layers: seq<string>, levels: map<string, real>, size: real) returns (k: nat)
    ensures k == match FirstFull(layers, levels, size) case None => 0 case Some(i) => i + 1
  {
    k := 0;
    var i := |layers|;
    while i > 0
      invariant 0 <= i <= |layers|
      invariant k == 0 ==> forall j :: i <= j < |layers| ==> !Full(levels, layers[j], size)
      invariant k > 0 ==> i < k <= |layers| && Full(levels, layers[k - 1], size)
      invariant k > 0 ==> forall j :: i <= j < k - 1 ==> !Full(levels, layers[j], size)
    {
      i := i - 1;
      if Full(levels, layers[i], size) {
        k := i + 1;
      }
    }
  }

  datatype Layers = Layers(order: seq<string>, colors: map<string, string>, levels: map<string, real>)

  /** Pruning: every layer after the newest full one is removed from the order,
      the colours and the levels; nothing else changes. Nothing is pruned when
      no layer is full or the newest full layer is the oldest layer. */
  function Prune(l: Layers, size: real): (r: Layers)
    ensures FirstFull(l.order, l.levels, size).None? ==> r == l
    ensures FirstFull(l.order, l.levels, size).Some? ==>
      var i := FirstFull(l.order, l.levels, size).value;
      var gone := Elems(l.order[i + 1..]);
      && r.order == l.order[..i + 1]
      && r.colors == l.colors - gone
      && r.levels == l.levels - gone
  {
    match FirstFull(l.order, l.levels, size)
    case None => l
    case Some(i) =>
      if i + 1 < |l.order| then
        var gone := Elems(l.order[i + 1..]);
        Layers(l.order[..i + 1], l.colors - gone, l.levels - gone)
      else
        l
  }

  /** On distinct layer ids, pruning twice is pruning once: after a prune the
      newest full layer, if any, is the oldest layer left. */
  lemma PruneIdempotent(l: Layers, size: real)
    requires Distinct(l.order)
    ensures Prune(Prune(l, size), size) == Prune(l, size)
  {
    var f := FirstFull(l.order, l.levels, size);
    if f.Some? {
      var i := f.value;
      var r := Prune(l, size);
      var gone := Elems(l.order[i + 1..]);
      assert l.order[i] !in gone;
      forall j | 0 <= j < i ensures !Full(r.levels, r.order[j], size) {
        assert r.order[j] == l.order[j];
      }
      assert Full(r.levels, r.order[i], size);
      assert FirstFull(r.order, r.levels, size) == Some(i);
      assert r.order[..i + 1] == r.order;
    }
  }
}
