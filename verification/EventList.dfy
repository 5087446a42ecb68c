/** Event lists, newest first. The server's history is read in this order and the client keeps its
    list in it; either is a table from event id to event. */
module EventList {
  import opened Events

  /** Strictly descending ids: newest first, no duplicates. */
  predicate Descending(events: seq<Event>) {
    forall i, j :: 0 <= i < j < |events| ==> events[i].id > events[j].id
  }

  predicate PositiveIds(events: seq<Event>) {
    forall evt | evt in events :: evt.id > 0
  }

  /** The list as a table by id. */
  function Index(events: seq<Event>): map<int, Event> {
    if events == [] then map[] else Index(events[1..])[events[0].id := events[0]]
  }

  lemma SameMap<K, V>(m: map<K, V>, m': map<K, V>)
    requires m.Keys == m'.Keys
    requires forall k | k in m :: m[k] == m'[k]
    ensures m == m'
  {
  }

  predicate HasId(events: seq<Event>, id: int) {
    exists evt :: evt in events && evt.id == id
  }

  lemma {:induction false} IndexKeys(events: seq<Event>)
    ensures forall id :: id in Index(events) <==> HasId(events, id)
  {
    if events != [] {
      IndexKeys(events[1..]);
      assert events == [events[0]] + events[1..];
      forall id ensures id in Index(events) <==> HasId(events, id) {
        assert events[0] in events;
        if HasId(events[1..], id) {
          var evt :| evt in events[1..] && evt.id == id;
          assert evt in events;
        }
      }
    }
  }

  lemma DescendingTail(events: seq<Event>)
    requires Descending(events) && events != []
    ensures Descending(events[1..])
    ensures forall evt | evt in events[1..] :: evt.id < events[0].id
    ensures !HasId(events[1..], events[0].id)
  {
  }

  lemma ConsDescending(head: Event, tail: seq<Event>)
    requires Descending(tail)
    requires forall evt | evt in tail :: evt.id < head.id
    ensures Descending([head] + tail)
  {
  }

  /** Looking an id up in a descending list finds the one event that has it. */
  lemma {:induction false} IndexLookup(events: seq<Event>)
    requires Descending(events)
    ensures forall evt | evt in events :: evt.id in Index(events) && Index(events)[evt.id] == evt
    ensures forall id | id in Index(events) :: Index(events)[id] in events && Index(events)[id].id == id
  {
    if events != [] {
      DescendingTail(events);
      IndexLookup(events[1..]);
      assert events == [events[0]] + events[1..];
    }
  }

  /** A descending list is determined by its members. */
  lemma {:induction false} SameMembersSameList(a: seq<Event>, b: seq<Event>)
    requires Descending(a) && Descending(b)
    requires forall evt :: evt in a <==> evt in b
    ensures a == b
  {
    assert b != [] ==> b[0] in b;
    if a != [] {
      assert a[0] in b;
      assert b[0] in a;
      assert a[0] == b[0];
      DescendingTail(a);
      DescendingTail(b);
      assert a == [a[0]] + a[1..] && b == [b[0]] + b[1..];
      forall evt ensures evt in a[1..] <==> evt in b[1..] {
        assert evt in a <==> evt in b;
        assert a[0] !in a[1..] && b[0] !in b[1..];
      }
      SameMembersSameList(a[1..], b[1..]);
    }
  }

  /** A descending list is determined by its table. */
  lemma SameIndexSameList(a: seq<Event>, b: seq<Event>)
    requires Descending(a) && Descending(b)
    requires Index(a) == Index(b)
    ensures a == b
  {
    IndexLookup(a);
    IndexLookup(b);
    SameMembersSameList(a, b);
  }

  /** Array.filter over a list of events. */
  function Filter(events: seq<Event>, keep: Event -> bool): (kept: seq<Event>)
    ensures forall evt :: evt in kept <==> evt in events && keep(evt)
  {
    if events == [] then []
    else
      assert events == [events[0]] + events[1..];
      (if keep(events[0]) then [events[0]] else []) + Filter(events[1..], keep)
  }

  lemma {:induction false} FilterDescending(events: seq<Event>, keep: Event -> bool)
    requires Descending(events)
    ensures Descending(Filter(events, keep))
  {
    if events != [] {
      DescendingTail(events);
      FilterDescending(events[1..], keep);
      ConsDescending(events[0], Filter(events[1..], keep));
    }
  }

  /** Filtering a descending list filters its table. */
  lemma FilterIndex(events: seq<Event>, keep: Event -> bool)
    requires Descending(events)
    ensures Descending(Filter(events, keep))
    ensures Index(Filter(events, keep)) == map id | id in Index(events) && keep(Index(events)[id]) :: Index(events)[id]
  {
    FilterDescending(events, keep);
    var kept := Filter(events, keep);
    IndexLookup(events);
    IndexLookup(kept);
    forall id ensures id in Index(kept) <==> id in Index(events) && keep(Index(events)[id])
      ensures id in Index(kept) ==> Index(kept)[id] == Index(events)[id]
    {
      if id in Index(events) && keep(Index(events)[id]) {
        assert Index(events)[id] in kept;
      }
      if id in Index(kept) {
        assert Index(kept)[id] in events;
      }
    }
  }

  /** Array.map over a list of events. */
  function MapEvents(events: seq<Event>, f: Event -> Event): (mapped: seq<Event>)
    ensures |mapped| == |events|
    ensures forall i | 0 <= i < |events| :: mapped[i] == f(events[i])
  {
    if events == [] then [] else [f(events[0])] + MapEvents(events[1..], f)
  }

  /** A table with a function applied to every value. */
  function MapTable<V>(m: map<int, V>, f: V -> V): map<int, V> {
    map k | k in m :: f(m[k])
  }

  lemma MapTableUpdate<V>(m: map<int, V>, f: V -> V, k: int, v: V)
    ensures MapTable(m[k := v], f) == MapTable(m, f)[k := f(v)]
  {
  }

  /** Mapping a list by a function that keeps ids maps its table. */
  lemma {:induction false} MapIndex(events: seq<Event>, f: Event -> Event)
    requires Descending(events)
    requires forall evt | evt in events :: f(evt).id == evt.id
    ensures Descending(MapEvents(events, f))
    ensures Index(MapEvents(events, f)) == MapTable(Index(events), f)
  {
    assert forall i | 0 <= i < |events| :: events[i] in events;
    if events != [] {
      DescendingTail(events);
      assert events == [events[0]] + events[1..];
      MapIndex(events[1..], f);
      assert MapEvents(events, f)[1..] == MapEvents(events[1..], f);
      MapTableUpdate(Index(events[1..]), f, events[0].id, events[0]);
    }
  }

  /** The client's merge: both lists newest first, the new one winning on equal ids. As in the source,
      ids are compared for equality only when they are truthy, that is, not 0. */
  function Merge(oldEvents: seq<Event>, newEvents: seq<Event>): seq<Event>
    decreases |oldEvents| + |newEvents|
  {
    if oldEvents == [] then newEvents
    else if newEvents == [] then oldEvents
    else if newEvents[0].id != 0 && oldEvents[0].id != 0 && newEvents[0].id == oldEvents[0].id then
      [newEvents[0]] + Merge(oldEvents[1..], newEvents[1..])
    else if newEvents[0].id > oldEvents[0].id then
      [newEvents[0]] + Merge(oldEvents, newEvents[1..])
    else
      [oldEvents[0]] + Merge(oldEvents[1..], newEvents)
  }

  method AppendEvents(oldEvents: seq<Event>, newEvents: seq<Event>) returns (events: seq<Event>)
    ensures events == Merge(oldEvents, newEvents)
  {
    events := [];
    var oldIx, newIx := 0, 0;
    while true
      invariant 0 <= oldIx <= |oldEvents| && 0 <= newIx <= |newEvents|
      invariant Merge(oldEvents, newEvents) == events + Merge(oldEvents[oldIx..], newEvents[newIx..])
      decreases |oldEvents| - oldIx + |newEvents| - newIx
    {
      if oldIx >= |oldEvents| {
        events := events + newEvents[newIx..];
        break;
      }
      if newIx >= |newEvents| {
        events := events + oldEvents[oldIx..];
        break;
      }
      var oldEvent, newEvent := oldEvents[oldIx], newEvents[newIx];
      assert oldEvents[oldIx..][1..] == oldEvents[oldIx + 1..];
      assert newEvents[newIx..][1..] == newEvents[newIx + 1..];
      if newEvent.id != 0 && oldEvent.id != 0 && newEvent.id == oldEvent.id {
        events := events + [newEvent];
        newIx, oldIx := newIx + 1, oldIx + 1;
      } else if newEvent.id > oldEvent.id {
        events := events + [newEvent];
        newIx := newIx + 1;
      } else {
        events := events + [oldEvent];
        oldIx := oldIx + 1;
      }
    }
  }

  /** A merged list holds the new events and the old ones whose ids the new ones do not have. */
  lemma {:induction false} MergeMembers(a: seq<Event>, b: seq<Event>)
    requires Descending(a) && Descending(b)
    requires PositiveIds(a) || PositiveIds(b)
    ensures Descending(Merge(a, b))
    ensures forall evt :: evt in Merge(a, b) <==> evt in b || (evt in a && !HasId(b, evt.id))
    decreases |a| + |b|
  {
    if a != [] && b != [] {
      DescendingTail(a);
      DescendingTail(b);
      assert a[0] in a && b[0] in b;
      assert a == [a[0]] + a[1..] && b == [b[0]] + b[1..];
      if b[0].id == a[0].id {
        MergeMembers(a[1..], b[1..]);
        ConsDescending(b[0], Merge(a[1..], b[1..]));
      } else if b[0].id > a[0].id {
        MergeMembers(a, b[1..]);
        ConsDescending(b[0], Merge(a, b[1..]));
      } else {
        MergeMembers(a[1..], b);
        ConsDescending(a[0], Merge(a[1..], b));
      }
    }
  }

  /** The merge loop refines a table update: the result is again strictly descending and, as a table,
      is the old one overridden by the new one. */
  lemma MergeRefinesOverride(a: seq<Event>, b: seq<Event>)
    requires Descending(a) && Descending(b)
    requires PositiveIds(a) || PositiveIds(b)
    ensures Descending(Merge(a, b))
    ensures Index(Merge(a, b)) == Index(a) + Index(b)
  {
    MergeMembers(a, b);
    var merged := Merge(a, b);
    forall id
      ensures id in Index(merged) <==> id in Index(a) || id in Index(b)
      ensures id in Index(merged) ==> Index(merged)[id] == (Index(a) + Index(b))[id]
    {
      MergeLookup(a, b, merged, id);
    }
    SameMap(Index(merged), Index(a) + Index(b));
  }

  lemma MergeLookup(a: seq<Event>, b: seq<Event>, merged: seq<Event>, id: int)
    requires Descending(a) && Descending(b) && Descending(merged)
    requires forall evt :: evt in merged <==> evt in b || (evt in a && !HasId(b, evt.id))
    ensures id in Index(merged) <==> id in Index(a) || id in Index(b)
    ensures id in Index(b) ==> Index(merged)[id] == Index(b)[id]
    ensures id in Index(a) && id !in Index(b) ==> Index(merged)[id] == Index(a)[id]
  {
    IndexLookup(a);
    IndexLookup(b);
    IndexLookup(merged);
    IndexKeys(b);
    if id in Index(b) {
      assert Index(b)[id] in merged;
    } else if id in Index(a) {
      assert Index(a)[id] in merged;
    }
  }

  /** Id 0 is not compared for equality, so two lists that both have it merge into one with a duplicate;
      for lists of non-negative ids that is the only way to lose strict order. */
  lemma {:induction false} MergeStaysDescendingIff(a: seq<Event>, b: seq<Event>)
    requires Descending(a) && Descending(b)
    requires forall evt | evt in a || evt in b :: evt.id >= 0
    ensures Descending(Merge(a, b)) <==> !(HasId(a, 0) && HasId(b, 0))
  {
    if !HasId(a, 0) {
      assert forall evt | evt in a :: evt.id != 0;
      MergeRefinesOverride(a, b);
    } else if !HasId(b, 0) {
      assert forall evt | evt in b :: evt.id != 0;
      MergeRefinesOverride(a, b);
    } else {
      MergeDuplicatesZero(a, b);
    }
  }

  lemma {:induction false} MergeDuplicatesZero(a: seq<Event>, b: seq<Event>)
    requires Descending(a) && Descending(b)
    requires forall evt | evt in a || evt in b :: evt.id >= 0
    requires HasId(a, 0) && HasId(b, 0)
    ensures !Descending(Merge(a, b))
    decreases |a| + |b|
  {
    DescendingTail(a);
    DescendingTail(b);
    assert a == [a[0]] + a[1..] && b == [b[0]] + b[1..];
    assert a[1..] != [] ==> a[1..][0] in a[1..];
    if a[0].id == 0 && b[0].id == 0 {
      var merged := Merge(a, b);
      assert forall evt | evt in a[1..] :: evt.id < 0 && evt in a;
      assert a[1..] == [];
      assert Merge(a[1..], b) == b;
      assert merged == [a[0]] + b;
      assert merged[1] == b[0];
    } else {
      var rest :=
        if b[0].id == a[0].id then Merge(a[1..], b[1..])
        else if b[0].id > a[0].id then Merge(a, b[1..])
        else Merge(a[1..], b);
      if b[0].id == a[0].id {
        MergeDuplicatesZero(a[1..], b[1..]);
      } else if b[0].id > a[0].id {
        MergeDuplicatesZero(a, b[1..]);
      } else {
        MergeDuplicatesZero(a[1..], b);
      }
      assert Merge(a, b)[1..] == rest;
      if Descending(Merge(a, b)) {
        DescendingTail(Merge(a, b));
      }
    }
  }

  lemma OverrideCommutes<K, V>(m: map<K, V>, p: map<K, V>, q: map<K, V>)
    requires forall k | k in p && k in q :: p[k] == q[k]
    ensures m + p + q == m + q + p
  {
  }

  /** Merging a page twice changes nothing the second time. */
  lemma MergeIdempotent(events: seq<Event>, page: seq<Event>)
    requires Descending(events) && Descending(page) && PositiveIds(page)
    ensures Merge(Merge(events, page), page) == Merge(events, page)
  {
    MergeRefinesOverride(events, page);
    MergeRefinesOverride(Merge(events, page), page);
    SameIndexSameList(Merge(Merge(events, page), page), Merge(events, page));
  }

  /** Overlapping pages of one history merge to the same list in either order. */
  lemma MergePagesCommute(history: seq<Event>, events: seq<Event>, p: seq<Event>, q: seq<Event>)
    requires Descending(history) && Descending(events) && Descending(p) && Descending(q)
    requires PositiveIds(p) && PositiveIds(q)
    requires forall evt | evt in p || evt in q :: evt in history
    ensures Merge(Merge(events, p), q) == Merge(Merge(events, q), p)
  {
    MergeRefinesOverride(events, p);
    MergeRefinesOverride(events, q);
    MergeRefinesOverride(Merge(events, p), q);
    MergeRefinesOverride(Merge(events, q), p);
    forall id | id in Index(p) && id in Index(q) ensures Index(p)[id] == Index(q)[id] {
      IndexLookup(history);
      IndexLookup(p);
      IndexLookup(q);
    }
    OverrideCommutes(Index(events), Index(p), Index(q));
    SameIndexSameList(Merge(Merge(events, p), q), Merge(Merge(events, q), p));
  }
}
