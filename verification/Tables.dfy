/** Event tables without edit times: what a player sees of a history, and what an update does to it. */
module Tables {
  import opened Events
  import opened EventList
  import opened Channels
  import opened ClientReducer

  type Table = map<int, Event>

  /** Share changes do not carry the edit time to the client, so views are compared without it. */
  function Blank(evt: Event): Event {
    evt.(edit := 0)
  }

  function Blanked(table: Table): Table {
    MapTable(table, Blank)
  }

  predicate Sees(seat: Seat, evt: Event) {
    PlayerCanSeeEvent(seat.player, seat.isGM, evt)
  }

  function Seer(seat: Seat): Event -> bool {
    (e: Event) => Sees(seat, e)
  }

  /** The events of a list a seat may see, in order. */
  function VisibleList(events: seq<Event>, seat: Seat): seq<Event> {
    Filter(events, Seer(seat))
  }

  /** The part of a history's table a seat may see. */
  function Visible(table: Table, seat: Seat): Table {
    map id | id in table && Sees(seat, table[id]) :: Blank(table[id])
  }

  function Patched(evt: Event, diff: Diff): Event {
    evt.(
      share := if "share" in diff && diff["share"].Num? then ParseMode(diff["share"].n) else evt.share,
      fields := if evt.ty == PlayerJoin then evt.fields else evt.fields + (diff - {"share"})
    )
  }

  /** The meaning of an update for a table of events. */
  function Apply(table: Table, update: Update): Table {
    match update
    case NewEvent(evt) => table[evt.id := Blank(evt)]
    case EventDelete(id) => table - {id}
    case EventDiff(id, diff, _) => if id in table then table[id := Patched(table[id], diff)] else table
  }

  function ApplyAll(table: Table, updates: seq<Update>): Table
    decreases |updates|
  {
    if updates == [] then table else ApplyAll(Apply(table, updates[0]), updates[1..])
  }

  lemma {:induction false} ApplyAppend(table: Table, a: seq<Update>, b: seq<Update>)
    ensures ApplyAll(table, a + b) == ApplyAll(ApplyAll(table, a), b)
    decreases |a|
  {
    if a == [] {
      assert a + b == b;
    } else {
      assert (a + b)[1..] == a[1..] + b;
      ApplyAppend(Apply(table, a[0]), a[1..], b);
    }
  }

  /** The updates the server sends: positive ids, in-game player joins, and diffs that touch neither
      the id nor the edit time. */
  predicate Proper(update: Update) {
    match update
    case NewEvent(evt) => evt.id > 0 && (evt.ty == PlayerJoin ==> evt.share == InGame)
    case EventDelete(_) => true
    case EventDiff(_, diff, _) => "id" !in diff && "edit" !in diff && ("share" in diff ==> diff["share"].Num?)
  }

  lemma BlankModified(evt: Event, id: int, edit: int, diff: Diff)
    requires "id" !in diff && "edit" !in diff && "share" !in diff
    ensures Blank(Modified(evt, id, edit, diff)) == if evt.id == id then Patched(Blank(evt), diff) else Blank(evt)
  {
    assert diff - {"id", "edit"} == diff == diff - {"share"};
  }

  /** Two maps over a table, the first of which amounts to a patch at one key. */
  lemma MapTableAt<V>(m: map<int, V>, f: V -> V, g: V -> V, id: int, patch: V -> V)
    requires forall k | k in m :: g(f(m[k])) == if k == id then patch(g(m[k])) else g(m[k])
    ensures MapTable(MapTable(m, f), g)
         == if id in m then MapTable(m, g)[id := patch(MapTable(m, g)[id])] else MapTable(m, g)
  {
  }

  /** Patching each event of a list by its id patches the table. */
  lemma PatchRefines(events: seq<Event>, f: Event -> Event, id: int, diff: Diff, edit: int)
    requires Descending(events)
    requires forall evt | evt in events :: Blank(f(evt)) == if evt.id == id then Patched(Blank(evt), diff) else Blank(evt)
    ensures Blanked(Index(MapEvents(events, f))) == Apply(Blanked(Index(events)), EventDiff(id, diff, edit))
  {
    forall evt | evt in events ensures f(evt).id == evt.id {
      assert Blank(f(evt)).id == f(evt).id;
    }
    MapIndex(events, f);
    IndexLookup(events);
    MapTableAt(Index(events), f, Blank, id, (e: Event) => Patched(e, diff));
  }

  lemma ModifyRefines(events: seq<Event>, id: int, edit: int, diff: Diff)
    requires Descending(events) && "id" !in diff && "edit" !in diff && "share" !in diff
    ensures Blanked(Index(MapEvents(events, (e: Event) => Modified(e, id, edit, diff))))
         == Apply(Blanked(Index(events)), EventDiff(id, diff, edit))
  {
    forall evt ensures Blank(Modified(evt, id, edit, diff)) == if evt.id == id then Patched(Blank(evt), diff) else Blank(evt) {
      BlankModified(evt, id, edit, diff);
    }
    PatchRefines(events, (e: Event) => Modified(e, id, edit, diff), id, diff, edit);
  }

  lemma BlankReshared(evt: Event, id: int, value: Value)
    requires value.Num?
    ensures Blank(WithShare(evt, id, ParseMode(value.n)))
         == if evt.id == id then Patched(Blank(evt), map["share" := value]) else Blank(evt)
  {
    var shareOnly: Diff := map["share" := value];
    assert shareOnly - {"share"} == map[];
    assert evt.fields + map[] == evt.fields;
  }

  lemma ReshareRefines(events: seq<Event>, id: int, edit: int, value: Value)
    requires Descending(events) && value.Num?
    ensures Blanked(Index(MapEvents(events, (e: Event) => WithShare(e, id, ParseMode(value.n)))))
         == Apply(Blanked(Index(events)), EventDiff(id, map["share" := value], edit))
  {
    var diff: Diff := map["share" := value];
    forall evt
      ensures Blank(WithShare(evt, id, ParseMode(value.n))) == if evt.id == id then Patched(Blank(evt), diff) else Blank(evt)
    {
      BlankReshared(evt, id, value);
    }
    PatchRefines(events, (e: Event) => WithShare(e, id, ParseMode(value.n)), id, diff, edit);
  }

  lemma PatchInTwo(evt: Event, diff: Diff)
    requires "share" in diff && diff["share"].Num?
    ensures Patched(Patched(evt, map["share" := diff["share"]]), diff - {"share"}) == Patched(evt, diff)
  {
    var shareOnly: Diff := map["share" := diff["share"]];
    assert shareOnly - {"share"} == map[];
    assert evt.fields + map[] == evt.fields;
    assert diff - {"share"} - {"share"} == diff - {"share"};
  }

  /** A share change and the rest of a diff, one after the other, make up the whole diff. */
  lemma DiffInTwo(table: Table, id: int, diff: Diff, edit: int)
    requires "share" in diff && diff["share"].Num?
    ensures Apply(Apply(table, EventDiff(id, map["share" := diff["share"]], edit)), EventDiff(id, diff - {"share"}, edit))
         == Apply(table, EventDiff(id, diff, edit))
  {
    if id in table {
      PatchInTwo(table[id], diff);
    }
  }

  lemma DeleteRefines(events: seq<Event>, id: int)
    requires Descending(events)
    ensures Blanked(Index(Filter(events, (e: Event) => e.id != id))) == Blanked(Index(events)) - {id}
  {
    var keep := (e: Event) => e.id != id;
    FilterIndex(events, keep);
    IndexLookup(events);
    var table := Index(events);
    forall k ensures k in Index(Filter(events, keep)) <==> k in table && k != id {
      assert k in table ==> table[k].id == k;
    }
    SameMap(Blanked(Index(Filter(events, keep))), Blanked(table) - {id});
  }

  lemma EmptyDiff(table: Table, id: int, edit: int)
    ensures Apply(table, EventDiff(id, map[], edit)) == table
  {
    var none: Diff := map[];
    assert none - {"share"} == none;
    if id in table {
      assert table[id].fields + none == table[id].fields;
    }
  }

  lemma OverrideByOne<V>(m: map<int, V>, k: int, v: V)
    ensures m + map[k := v] == m[k := v]
  {
  }

  lemma NewRefines(state: State, evt: Event, now: int)
    requires Ordered(state) && Proper(NewEvent(evt))
    ensures var state' := Reduce(state, AddEvent(ParseEvent(evt), now));
            Ordered(state') && Blanked(Index(state'.events)) == Apply(Blanked(Index(state.events)), NewEvent(evt))
  {
    var added := ParseEvent(evt);
    ReduceKeepsOrder(state, AddEvent(added, 1));
    MergeRefinesOverride(state.events, [added]);
    assert Index([added]) == map[added.id := added];
    OverrideByOne(Index(state.events), added.id, added);
    MapTableUpdate(Index(state.events), Blank, added.id, added);
  }

  lemma DiffRefines(state: State, id: int, diff: Diff, edit: int, now: int)
    requires Ordered(state) && Proper(EventDiff(id, diff, edit))
    ensures var state' := ReduceAll(state, UpdateActions(EventDiff(id, diff, edit), now));
            Ordered(state') && Blanked(Index(state'.events)) == Apply(Blanked(Index(state.events)), EventDiff(id, diff, edit))
  {
    ReduceAtMostTwo(state, UpdateActions(EventDiff(id, diff, edit), now));
    var rest := diff - {"share"};
    var middle := state;
    if "share" in diff {
      var reshare := ModifyShare(id, edit, ParseMode(diff["share"].n));
      middle := Reduce(state, reshare);
      ReduceKeepsOrder(state, reshare);
      ReshareRefines(state.events, id, edit, diff["share"]);
      DiffInTwo(Blanked(Index(state.events)), id, diff, edit);
    } else {
      assert rest == diff;
    }
    if rest != map[] {
      ReduceKeepsOrder(middle, ModifyEvent(id, edit, rest));
      ModifyRefines(middle.events, id, edit, rest);
    } else {
      EmptyDiff(Blanked(Index(middle.events)), id, edit);
    }
  }

  /** The client refines the table: handling the text of an update keeps its list strictly newest
      first and does to it, as a table, what the update means. */
  lemma HandleRefinesApply(codec: Codec, state: State, text: string, now: int)
    requires Ordered(state)
    requires codec.parse(text).Some? && Proper(codec.parse(text).value)
    ensures var state' := HandleText(codec, state, text, now);
            && Ordered(state')
            && Blanked(Index(state'.events)) == Apply(Blanked(Index(state.events)), codec.parse(text).value)
  {
    var update := codec.parse(text).value;
    match update
    case NewEvent(evt) =>
      ReduceAtMostTwo(state, UpdateActions(update, now));
      NewRefines(state, evt, now);
    case EventDelete(id) =>
      ReduceAtMostTwo(state, UpdateActions(update, now));
      ReduceKeepsOrder(state, DeleteEvent(id));
      DeleteRefines(state.events, id);
    case EventDiff(id, diff, edit) =>
      DiffRefines(state, id, diff, edit, now);
  }
}
