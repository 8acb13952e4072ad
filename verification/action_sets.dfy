/** A batch of concurrently running actions (the `ActionSet` of action.js):
    an insertion-ordered id sequence plus an id-to-action map. */
module ActionSets {
  import opened Actions

  datatype ActionSet = ActionSet(ids: seq<string>, actions: map<string, Action>)

  /** `new ActionSet()`. */
  const Empty: ActionSet := ActionSet([], map[])

  predicate Distinct(s: seq<string>) {
    forall i, j :: 0 <= i < j < |s| ==> s[i] != s[j]
  }

  /** A sequence without its head is still duplicate-free, and lacks the head. */
  lemma DistinctTail(s: seq<string>)
    requires |s| > 0
    ensures Distinct(s) ==> Distinct(s[1..]) && s[0] !in s[1..]
  {
    if Distinct(s) {
      forall i, j | 0 <= i < j < |s[1..]| ensures s[1..][i] != s[1..][j] {
        assert s[1..][i] == s[i + 1] && s[1..][j] == s[j + 1];
      }
    }
  }

  /** The ids a sequence holds. */
  function Elems(s: seq<string>): (r: set<string>)
    ensures forall x :: x in r <==> x in s
    decreases |s|
  {
    if |s| == 0 then {} else {s[0]} + Elems(s[1..])
  }

  /** The ids of `q` that are not in `ds`, in their order in `q`. */
  function Filtered(q: seq<string>, ds: set<string>): (r: seq<string>)
    ensures forall k :: k in r <==> k in q && k !in ds
    ensures |r| <= |q|
    decreases |q|
  {
    if |q| == 0 then [] else (if q[0] in ds then [] else [q[0]]) + Filtered(q[1..], ds)
  }

  /** Filtering out ids the sequence does not hold changes nothing. */
  lemma {:induction false} FilteredNone(q: seq<string>, ds: set<string>)
    requires forall k :: k in q ==> k !in ds
    ensures Filtered(q, ds) == q
    decreases |q|
  {
    if |q| > 0 {
      FilteredNone(q[1..], ds);
      assert [q[0]] + q[1..] == q;
    }
  }

  /** Filtering twice is filtering once by both sets. */
  lemma {:induction false} FilteredTwice(q: seq<string>, a: set<string>, b: set<string>)
    ensures Filtered(Filtered(q, a), b) == Filtered(q, a + b)
    decreases |q|
  {
    if |q| > 0 {
      FilteredTwice(q[1..], a, b);
      var f := Filtered(q, a);
      if q[0] !in a {
        assert f == [q[0]] + Filtered(q[1..], a);
        assert f[0] == q[0] && f[1..] == Filtered(q[1..], a);
        assert Filtered(f, b) == (if q[0] in b then [] else [q[0]]) + Filtered(Filtered(q[1..], a), b);
      } else {
        assert f == Filtered(q[1..], a);
      }
    }
  }

  /** A filtered duplicate-free sequence is duplicate-free. */
  lemma {:induction false} FilteredDistinct(q: seq<string>, ds: set<string>)
    requires Distinct(q)
    ensures Distinct(Filtered(q, ds))
    decreases |q|
  {
    if |q| > 0 {
      DistinctTail(q);
      FilteredDistinct(q[1..], ds);
      var rest := Filtered(q[1..], ds);
      var r := Filtered(q, ds);
      if q[0] !in ds {
        assert r == [q[0]] + rest;
        forall i, j | 0 <= i < j < |r| ensures r[i] != r[j] {
          assert r[j] == rest[j - 1];
          if i > 0 { assert r[i] == rest[i - 1]; }
        }
      }
    }
  }

  /** Cutting the only occurrence of `d` out of a duplicate-free sequence is
      filtering `d` out. */
  lemma {:induction false} CutIsFiltered(q: seq<string>, d: string, i: nat)
    requires Distinct(q) && i < |q| && q[i] == d
    ensures q[..i] + q[i + 1..] == Filtered(q, {d})
    decreases i
  {
    DistinctTail(q);
    if i == 0 {
      FilteredNone(q[1..], {d});
    } else {
      CutIsFiltered(q[1..], d, i - 1);
      assert q[..i] + q[i + 1..] == [q[0]] + (q[1..][..i - 1] + q[1..][i..]);
    }
  }

  /** Well-formed set: ids are unique, the sequence and the map hold the same
      ids, and every action is filed under its own id. */
  predicate Valid(s: ActionSet) {
    && Distinct(s.ids)
    && (forall id :: id in s.actions ==> id in s.ids)
    && (forall id :: id in s.ids ==> id in s.actions)
    && (forall id :: id in s.actions ==> s.actions[id].id == id)
  }

  lemma EmptyValid()
    ensures Valid(Empty)
  {
  }

  /** `appendAction`: the id goes to the end of the sequence and the action is
      filed under it. An id the set already holds is rejected (the set is
      returned unchanged), so the set stays well formed. */
  function Append(s: ActionSet, a: Action): (r: ActionSet)
    ensures a.id in s.actions ==> r == s
    ensures a.id !in s.actions ==>
      && |r.ids| == |s.ids| + 1
      && r.ids[..|s.ids|] == s.ids
      && r.ids[|s.ids|] == a.id
      && a.id in r.actions && r.actions[a.id] == a
      && (forall k :: k != a.id ==> (k in r.actions <==> k in s.actions))
      && (forall k :: k != a.id && k in s.actions ==> r.actions[k] == s.actions[k])
    ensures Valid(s) ==> Valid(r)
  {
    if a.id in s.actions then s
    else ActionSet(s.ids + [a.id], s.actions[a.id := a])
  }

  /** The position of the first occurrence of `id` in `ids`. */
  function IndexOf(ids: seq<string>, id: string): (i: nat)
    requires id in ids
    ensures i < |ids| && ids[i] == id && id !in ids[..i]
  {
    if ids[0] == id then 0 else 1 + IndexOf(ids[1..], id)
  }

  /** `removeAction`: drop the first occurrence of the id from the sequence and
      the entry from the map; an absent id leaves the set unchanged. */
  function Remove(s: ActionSet, id: string): (r: ActionSet)
    ensures id !in s.ids ==> r.ids == s.ids
    ensures id in s.ids ==>
      exists i :: 0 <= i < |s.ids| && i <= |r.ids| && id !in s.ids[..i] && s.ids == r.ids[..i] + [id] + r.ids[i..]
    ensures id !in r.actions && r.actions == s.actions - {id}
    ensures Valid(s) ==> Valid(r) && id !in r.ids
    ensures Distinct(s.ids) ==> r.ids == Filtered(s.ids, {id})
  {
    if id in s.ids then
      var i := IndexOf(s.ids, id);
      CutFacts(s, id, i);
      assert Distinct(s.ids) ==> s.ids[..i] + s.ids[i + 1..] == Filtered(s.ids, {id}) by {
        if Distinct(s.ids) { CutIsFiltered(s.ids, id, i); }
      }
      ActionSet(s.ids[..i] + s.ids[i + 1..], s.actions - {id})
    else
      FilteredNone(s.ids, {id});
      ActionSet(s.ids, s.actions - {id})
  }

  /** Cutting position `i` out of an id sequence keeps the rest in order. */
  lemma CutFacts(s: ActionSet, id: string, i: nat)
    requires i < |s.ids| && s.ids[i] == id && id !in s.ids[..i]
    ensures var r := ActionSet(s.ids[..i] + s.ids[i + 1..], s.actions - {id});
      && s.ids == r.ids[..i] + [id] + r.ids[i..]
      && (Valid(s) ==> Valid(r) && id !in r.ids)
  {
    var r := ActionSet(s.ids[..i] + s.ids[i + 1..], s.actions - {id});
    assert r.ids[..i] == s.ids[..i] && r.ids[i..] == s.ids[i + 1..];
    assert s.ids == s.ids[..i] + [id] + s.ids[i + 1..];
    if Valid(s) {
      CutIsFiltered(s.ids, id, i);
      FilteredDistinct(s.ids, {id});
    }
  }

  /** On a well-formed set, removing an absent id changes nothing at all. */
  lemma RemoveAbsentIsNoop(s: ActionSet, id: string)
    requires Valid(s) && id !in s.ids
    ensures Remove(s, id) == s
  {
  }

  /** `isComplete`, in its intended form: the set has no actions left. */
  function IsComplete(s: ActionSet): (b: bool)
    ensures b <==> |s.ids| == 0
  {
    s.ids == []
  }

  /** A well-formed set is complete exactly when its map is empty too. */
  lemma IsCompleteIffNoActions(s: ActionSet)
    requires Valid(s)
    ensures IsComplete(s) <==> s.actions == map[]
  {
    if !IsComplete(s) {
      assert s.ids[0] in s.actions;
    }
  }

  /** Appending then removing a fresh action gives back the original set. */
  lemma {:induction false} RemoveAppended(s: ActionSet, a: Action)
    requires Valid(s) && a.id !in s.actions
    ensures Remove(Append(s, a), a.id) == s
  {
    var t := Append(s, a);
    assert t.ids == s.ids + [a.id] && t.actions == s.actions[a.id := a] by {
      assert a.id !in s.ids;
    }
    assert IndexOf(t.ids, a.id) == |s.ids|;
    assert t.ids[..|s.ids|] + t.ids[|s.ids| + 1..] == s.ids;
    assert t.actions - {a.id} == s.actions;
  }

  // ---------------------------------------------------------------------------
  // The two ActionSet operations as the source writes them.

  /** `removeAction` as written: `indexOf` yields -1 for an absent id and
      `splice(-1, 1)` then drops the LAST id (nothing when the sequence is empty). */
  function RemoveAsWritten(s: ActionSet, id: string): (r: ActionSet)
    ensures id in s.ids ==> r == Remove(s, id)
    ensures id !in s.ids && |s.ids| > 0 ==> r.ids == s.ids[..|s.ids| - 1]
  {
    if id in s.ids then Remove(s, id)
    else if |s.ids| == 0 then ActionSet(s.ids, s.actions - {id})
    else ActionSet(s.ids[..|s.ids| - 1], s.actions - {id})
  }

  /** Removing an absent id as written loses an unrelated, still running action
      from the id sequence while its map entry stays behind. */
  lemma RemoveAsWrittenDropsLast()
    ensures var s := ActionSet(["grow", "spin"], map["grow" := New(Resize, "grow", Num(30.0), 5.0),
                                                  "spin" := New(Rotate, "spin", Num(90.0), 1.0)]);
            && Valid(s)
            && RemoveAsWritten(s, "gone").ids == ["grow"]
            && !Valid(RemoveAsWritten(s, "gone"))
            && Remove(s, "gone") == s
  {
    var s := ActionSet(["grow", "spin"], map["grow" := New(Resize, "grow", Num(30.0), 5.0),
                                            "spin" := New(Rotate, "spin", Num(90.0), 1.0)]);
    assert Valid(s) by {
      assert s.actions["grow"].id == "grow" && s.actions["spin"].id == "spin";
    }
    assert "gone" !in s.ids;
    RemoveAbsentIsNoop(s, "gone");
    assert "spin" in RemoveAsWritten(s, "gone").actions;
    assert "spin" !in RemoveAsWritten(s, "gone").ids;
  }

  /** The strings a JavaScript `Number(...)` conversion reads as zero, restricted
      to the empty string and strings of the digit 0. */
  predicate ZeroNumeral(s: string) {
    forall i :: 0 <= i < |s| ==> s[i] == '0'
  }

  /** `isComplete` as written: `this.action_ids == 0` compares an array with a
      number, which joins the ids with "," and converts the result to a number. */
  function IsCompleteAsWritten(s: ActionSet): (b: bool)
    ensures IsComplete(s) ==> b
    ensures b && !IsComplete(s) <==> |s.ids| == 1 && ZeroNumeral(s.ids[0])
  {
    |s.ids| == 0 || (|s.ids| == 1 && ZeroNumeral(s.ids[0]))
  }

  /** A set still running the single action "0" is taken for finished as written. */
  lemma IsCompleteAsWrittenMisreadsZero()
    ensures var s := ActionSet(["0"], map["0" := New(Wait, "0", Num(200.0), 1.0)]);
            Valid(s) && IsCompleteAsWritten(s) && !IsComplete(s)
  {
  }
}
