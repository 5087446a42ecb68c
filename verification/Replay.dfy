/** What a series of updates does to one id of a table, and that doing it twice is doing it once. */
module Replay {
  import opened Wrappers
  import opened Events
  import opened EventList
  import opened Tables

  function At(t: Table, id: int): Option<Event> {
    if id in t then Some(t[id]) else None
  }

  /** Updates leave of an event what they make of it, or something that does not depend on it. */
  datatype Effect = Patch(diff: Diff) | Replace(evt: Option<Event>)

  function Outcome(effect: Effect, evt: Option<Event>): Option<Event> {
    match effect
    case Patch(diff) => (match evt case None => None case Some(e) => Some(Patched(e, diff)))
    case Replace(e) => e
  }

  function Then(effect: Effect, id: int, update: Update): Effect {
    match update
    case NewEvent(evt) => if evt.id == id then Replace(Some(Blank(evt))) else effect
    case EventDelete(i) => if i == id then Replace(None) else effect
    case EventDiff(i, diff, _) =>
      if i != id then effect
      else
        match effect
        case Patch(before) => Patch(before + diff)
        case Replace(None) => effect
        case Replace(Some(e)) => Replace(Some(Patched(e, diff)))
  }

  function EffectAt(updates: seq<Update>, id: int): Effect {
    if updates == [] then Patch(map[]) else Then(EffectAt(updates[..|updates| - 1], id), id, updates[|updates| - 1])
  }

  predicate ProperDiff(diff: Diff) {
    "share" in diff ==> diff["share"].Num?
  }

  predicate ProperEffect(effect: Effect) {
    effect.Patch? ==> ProperDiff(effect.diff)
  }

  /** Two patches amount to one by both diffs. */
  lemma PatchTwice(evt: Event, a: Diff, b: Diff)
    requires ProperDiff(a) && ProperDiff(b)
    ensures Patched(Patched(evt, a), b) == Patched(evt, a + b)
  {
    assert evt.fields + (a - {"share"}) + (b - {"share"}) == evt.fields + ((a + b) - {"share"});
  }

  lemma PatchByNothing(evt: Event)
    ensures Patched(evt, map[]) == evt
  {
    var none: Diff := map[];
    assert none - {"share"} == none && evt.fields + none == evt.fields;
  }

  lemma ApplyAt(t: Table, id: int, update: Update, effect: Effect, evt: Option<Event>)
    requires ProperEffect(effect) && Proper(update) && At(t, id) == Outcome(effect, evt)
    ensures ProperEffect(Then(effect, id, update))
    ensures At(Apply(t, update), id) == Outcome(Then(effect, id, update), evt)
  {
    if update.EventDiff? && update.id == id && effect.Patch? && evt.Some? {
      PatchTwice(evt.value, effect.diff, update.diff);
    }
  }

  /** What updates make of an id depends only on what was there. */
  lemma {:induction false} ApplyAllAt(t: Table, updates: seq<Update>, id: int)
    requires forall update | update in updates :: Proper(update)
    ensures ProperEffect(EffectAt(updates, id))
    ensures At(ApplyAll(t, updates), id) == Outcome(EffectAt(updates, id), At(t, id))
  {
    if updates == [] {
      if id in t {
        PatchByNothing(t[id]);
      }
    } else {
      var front, last := updates[..|updates| - 1], updates[|updates| - 1];
      assert updates == front + [last];
      ApplyAllAt(t, front, id);
      ApplyAppend(t, front, [last]);
      assert ApplyAll(ApplyAll(t, front), [last]) == Apply(ApplyAll(t, front), last) by {
        assert [last][1..] == [];
      }
      ApplyAt(ApplyAll(t, front), id, last, EffectAt(front, id), At(t, id));
    }
  }

  lemma TakeTwice(effect: Effect, evt: Option<Event>)
    requires ProperEffect(effect)
    ensures Outcome(effect, Outcome(effect, evt)) == Outcome(effect, evt)
  {
    if effect.Patch? && evt.Some? {
      PatchTwice(evt.value, effect.diff, effect.diff);
      assert effect.diff + effect.diff == effect.diff;
    }
  }

  lemma SameTables(t: Table, t': Table)
    requires forall id :: At(t, id) == At(t', id)
    ensures t == t'
  {
    forall id ensures id in t <==> id in t'
      ensures id in t ==> t[id] == t'[id]
    {
      assert At(t, id) == At(t', id);
    }
    SameMap(t, t');
  }

  /** Applying a series of updates to a table they were applied to changes nothing. */
  lemma ReplayChangesNothing(t: Table, updates: seq<Update>)
    requires forall update | update in updates :: Proper(update)
    ensures ApplyAll(ApplyAll(t, updates), updates) == ApplyAll(t, updates)
  {
    forall id ensures At(ApplyAll(ApplyAll(t, updates), updates), id) == At(ApplyAll(t, updates), id) {
      ApplyAllAt(t, updates, id);
      ApplyAllAt(ApplyAll(t, updates), updates, id);
      TakeTwice(EffectAt(updates, id), At(t, id));
    }
    SameTables(ApplyAll(ApplyAll(t, updates), updates), ApplyAll(t, updates));
  }

  /** Tables that have the same at an id have the same there after the same updates. */
  lemma ApplyAllPointwise(t: Table, t': Table, updates: seq<Update>, id: int)
    requires forall update | update in updates :: Proper(update)
    requires At(t, id) == At(t', id)
    ensures At(ApplyAll(t, updates), id) == At(ApplyAll(t', updates), id)
  {
    ApplyAllAt(t, updates, id);
    ApplyAllAt(t', updates, id);
  }
}
