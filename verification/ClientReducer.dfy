/** The client's event state: from an update text to reducer actions to a new event list
    (web/src/sseStream/index.ts, web/src/event/index.ts). */
module ClientReducer {
  import opened Wrappers
  import opened Events
  import opened EventList

  datatype FetchState = Ready | Fetching | Finished

  /** The client's event state. editing is the id of the event being edited, if any. */
  datatype State = State(events: seq<Event>, historyFetch: FetchState, editing: Option<int>)

  datatype Action =
    | SetHistoryFetch(state: FetchState)
    | AddEvent(event: Event, now: int)
    | MergeEvents(events: seq<Event>)
    | ClearEvents
    | SelectEdit(target: int)
    | ClearEdit
    | ModifyEvent(id: int, edit: int, diff: Diff)
    | ModifyShare(id: int, edit: int, share: Share)
    | DeleteEvent(id: int)
    | SeizeInitiative(id: int, edit: int)
    | Reroll(id: int, edit: int, reroll: seq<int>)

  /** { ...evt, edit, ...diff }: the diff's own id or edit, if it has one, wins. */
  function Spread(evt: Event, edit: int, diff: Diff): Event {
    evt.(
      id := if "id" in diff && diff["id"].Num? then diff["id"].n else evt.id,
      edit := if "edit" in diff && diff["edit"].Num? then diff["edit"].n else edit,
      fields := evt.fields + (diff - {"id", "edit"})
    )
  }

  function WithId(evt: Event, now: int): Event {
    if evt.id == 0 then evt.(id := now) else evt
  }

  function Modified(evt: Event, id: int, edit: int, diff: Diff): Event {
    if evt.id == id && evt.ty != PlayerJoin then Spread(evt, edit, diff) else evt
  }

  function WithShare(evt: Event, id: int, share: Share): Event {
    if evt.id == id then evt.(share := share) else evt
  }

  function Seized(evt: Event, id: int, edit: int): Event {
    if evt.id == id && evt.ty == InitiativeRoll then evt.(edit := edit, fields := evt.fields["seized" := Flag(true)]) else evt
  }

  /** A roll turned into a reroll: its dice become the second of two rounds. */
  function Rerolled(evt: Event, id: int, reroll: seq<int>): Event {
    if evt.id == id && evt.ty == Roll then
      var dice := if "dice" in evt.fields && evt.fields["dice"].Dice? then evt.fields["dice"].dice else [];
      var kept := map key | key in evt.fields && key in {"title", "glitchy"} :: evt.fields[key];
      evt.(ty := RerollFailures, edit := 0, fields := kept["rounds" := Rounds([reroll, dice])]["rollID" := Num(id)])
    else evt
  }

  function Reduce(state: State, action: Action): State {
    match action
    case SetHistoryFetch(fetch) => state.(historyFetch := fetch)
    case AddEvent(evt, now) => state.(events := Merge(state.events, [WithId(evt, now)]))
    case MergeEvents(events) => state.(events := Merge(state.events, events))
    case ClearEvents => state.(events := [])
    case DeleteEvent(id) => state.(events := Filter(state.events, (e: Event) => e.id != id))
    case ModifyEvent(id, edit, diff) => state.(events := MapEvents(state.events, (e: Event) => Modified(e, id, edit, diff)))
    case ModifyShare(id, edit, share) => state.(events := MapEvents(state.events, (e: Event) => WithShare(e, id, share)))
    case SeizeInitiative(id, edit) => state.(events := MapEvents(state.events, (e: Event) => Seized(e, id, edit)))
    case Reroll(id, edit, reroll) => state.(events := MapEvents(state.events, (e: Event) => Rerolled(e, id, reroll)))
    case SelectEdit(evt) => state.(editing := Some(evt))
    case ClearEdit => state.(editing := None)
  }

  function ReduceAll(state: State, actions: seq<Action>): State
    decreases |actions|
  {
    if actions == [] then state else ReduceAll(Reduce(state, actions[0]), actions[1..])
  }

  /** Actions whose diffs leave the id alone, whose new events have or get positive ids, and whose
      pages are newest first. */
  predicate LeavesIds(action: Action) {
    match action
    case AddEvent(evt, now) => evt.id >= 0 && now > 0
    case MergeEvents(events) => Descending(events) && PositiveIds(events)
    case ModifyEvent(_, _, diff) => "id" !in diff
    case _ => true
  }

  predicate Ordered(state: State) {
    Descending(state.events) && PositiveIds(state.events)
  }

  lemma MapKeepsOrder(events: seq<Event>, f: Event -> Event)
    requires Descending(events) && PositiveIds(events)
    requires forall evt :: f(evt).id == evt.id
    ensures Descending(MapEvents(events, f)) && PositiveIds(MapEvents(events, f))
  {
    forall evt | evt in MapEvents(events, f) ensures evt.id > 0 {
      var i :| 0 <= i < |events| && MapEvents(events, f)[i] == evt;
      assert events[i] in events;
    }
  }

  lemma ReduceKeepsOrder(state: State, action: Action)
    requires Ordered(state) && LeavesIds(action)
    ensures Ordered(Reduce(state, action))
  {
    match action
    case AddEvent(evt, now) =>
      MergeMembers(state.events, [WithId(evt, now)]);
    case MergeEvents(events) =>
      MergeMembers(state.events, events);
    case DeleteEvent(id) =>
      FilterDescending(state.events, (e: Event) => e.id != id);
    case ModifyEvent(id, edit, diff) =>
      MapKeepsOrder(state.events, (e: Event) => Modified(e, id, edit, diff));
    case ModifyShare(id, edit, share) =>
      MapKeepsOrder(state.events, (e: Event) => WithShare(e, id, share));
    case SeizeInitiative(id, edit) =>
      MapKeepsOrder(state.events, (e: Event) => Seized(e, id, edit));
    case Reroll(id, edit, reroll) =>
      MapKeepsOrder(state.events, (e: Event) => Rerolled(e, id, reroll));
    case _ =>
  }

  /** Every run of actions that leave ids alone keeps the list strictly newest first. */
  lemma {:induction false} RunsKeepOrder(state: State, actions: seq<Action>)
    requires Ordered(state)
    requires forall action | action in actions :: LeavesIds(action)
    ensures Ordered(ReduceAll(state, actions))
    decreases |actions|
  {
    if actions != [] {
      ReduceKeepsOrder(state, actions[0]);
      RunsKeepOrder(Reduce(state, actions[0]), actions[1..]);
    }
  }

  /** server.parseEvent on the event of a create update: player joins are always read as in-game. */
  function ParseEvent(evt: Event): Event {
    if evt.ty == PlayerJoin then evt.(share := InGame, edit := 0) else evt
  }

  /** The actions a parsed update is dispatched as. */
  function UpdateActions(update: Update, now: int): seq<Action> {
    match update
    case NewEvent(evt) => [AddEvent(ParseEvent(evt), now)]
    case EventDelete(id) => [DeleteEvent(id)]
    case EventDiff(id, diff, edit) =>
      var rest := diff - {"share"};
      (if "share" in diff && diff["share"].Num? then [ModifyShare(id, edit, ParseMode(diff["share"].n))] else [])
      + (if rest != map[] then [ModifyEvent(id, edit, rest)] else [])
  }

  /** The client's reaction to one text of its stream; an unparseable text changes nothing. */
  function HandleText(codec: Codec, state: State, text: string, now: int): State {
    match codec.parse(text)
    case None => state
    case Some(update) => ReduceAll(state, UpdateActions(update, now))
  }

  /** The client of one browser tab. */
  class Client {
    const codec: Codec
    var state: State

    constructor (codec: Codec)
      ensures this.codec == codec && state == State([], Ready, None)
    {
      this.codec := codec;
      state := State([], Ready, None);
    }

    method Dispatch(action: Action)
      modifies this
      ensures state == Reduce(old(state), action)
    {
      match action {
        case AddEvent(evt, now) =>
          var events := AppendEvents(state.events, [WithId(evt, now)]);
          state := state.(events := events);
        case MergeEvents(newEvents) =>
          var events := AppendEvents(state.events, newEvents);
          state := state.(events := events);
        case _ =>
          state := Reduce(state, action);
      }
    }

    /** handleUpdate: parses one text of the stream and dispatches its actions in order. */
    method HandleUpdate(text: string, now: int)
      modifies this
      ensures state == HandleText(codec, old(state), text, now)
    {
      var parsed := codec.parse(text);
      if parsed.None? {
        return;
      }
      ghost var before := state;
      ReduceAtMostTwo(before, UpdateActions(parsed.value, now));
      match parsed.value {
        case NewEvent(evt) =>
          Dispatch(AddEvent(ParseEvent(evt), now));
        case EventDelete(id) =>
          Dispatch(DeleteEvent(id));
        case EventDiff(id, eventDiff, edit) =>
          var diff := eventDiff;
          if "share" in diff && diff["share"].Num? {
            Dispatch(ModifyShare(id, edit, ParseMode(diff["share"].n)));
          }
          diff := diff - {"share"};
          if diff != map[] {
            Dispatch(ModifyEvent(id, edit, diff));
          }
      }
    }
  }

  lemma ReduceAtMostTwo(state: State, actions: seq<Action>)
    requires |actions| <= 2
    ensures ReduceAll(state, actions)
         == if actions == [] then state
            else if |actions| == 1 then Reduce(state, actions[0])
            else Reduce(Reduce(state, actions[0]), actions[1])
  {
    if |actions| == 2 {
      var next := Reduce(state, actions[0]);
      assert actions[1..] == [actions[1]] && actions[1..][1..] == [];
      assert ReduceAll(next, actions[1..]) == ReduceAll(Reduce(next, actions[1]), []);
    } else if |actions| == 1 {
      assert actions[1..] == [];
    }
  }
}
