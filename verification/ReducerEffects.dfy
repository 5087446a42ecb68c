/** What each action of the client does, event by event (web/src/event/index.ts). */
module ReducerEffects {
  import opened Wrappers
  import opened Events
  import opened EventList
  import opened Channels
  import opened ClientReducer
  import opened Tables
  import Paging

  /** Actions on the list leave the rest of the state alone, and the other actions leave the list alone. */
  lemma ActionsAreSeparate(state: State, action: Action)
    ensures !action.SetHistoryFetch? ==> Reduce(state, action).historyFetch == state.historyFetch
    ensures !action.SelectEdit? && !action.ClearEdit? ==> Reduce(state, action).editing == state.editing
    ensures action.SetHistoryFetch? || action.SelectEdit? || action.ClearEdit? ==> Reduce(state, action).events == state.events
  {
  }

  /** The edit selected is the one last selected and not cleared since. */
  lemma Selections(state: State, id: int)
    ensures Reduce(state, SelectEdit(id)).editing == Some(id)
    ensures Reduce(state, ClearEdit).editing == None
  {
  }

  lemma FetchStates(state: State, fetch: FetchState)
    ensures Reduce(state, SetHistoryFetch(fetch)).historyFetch == fetch
  {
  }

  /** Clearing leaves no event of the game before. */
  lemma ClearingForgets(state: State)
    ensures Reduce(state, ClearEvents).events == []
  {
  }

  /** Logging in after clearing shows what a fresh client would show, whatever was shown before. */
  lemma LoginAfterClearing(history: seq<Event>, pageSize: nat, seat: Seat, before: State, blank: State)
    requires blank.events == []
    ensures var cleared := Reduce(Reduce(before, ClearEvents), SetHistoryFetch(Fetching));
            && Paging.FirstLoad(history, pageSize, seat, cleared).events == Paging.FirstLoad(history, pageSize, seat, blank).events
            && Paging.FirstLoad(history, pageSize, seat, cleared).historyFetch
               == Paging.FirstLoad(history, pageSize, seat, blank).historyFetch
  {
    var cleared := Reduce(Reduce(before, ClearEvents), SetHistoryFetch(Fetching));
    var response := Paging.EventRange(history, None, None, pageSize, seat);
    Paging.LoadedEvents(cleared, response);
    Paging.LoadedEvents(blank, response);
  }


  /** Seizing sets seized, and the edit time, on exactly the initiative roll with the id. */
  lemma SeizeEffect(state: State, id: int, edit: int, i: nat)
    requires i < |state.events|
    ensures var evt := state.events[i];
            var events := Reduce(state, SeizeInitiative(id, edit)).events;
            && |events| == |state.events|
            && (evt.id == id && evt.ty == InitiativeRoll ==>
                  && events[i].fields == evt.fields["seized" := Flag(true)] && events[i].edit == edit
                  && events[i].(fields := evt.fields, edit := evt.edit) == evt)
            && (!(evt.id == id && evt.ty == InitiativeRoll) ==> events[i] == evt)
  {
  }

  /** A reroll makes of exactly the roll with the id a second chance of two rounds: the reroll, and the dice
      rolled first. */
  lemma RerollEffect(state: State, id: int, edit: int, reroll: seq<int>, i: nat)
    requires i < |state.events|
    ensures var evt := state.events[i];
            var events := Reduce(state, Reroll(id, edit, reroll)).events;
            && |events| == |state.events|
            && (evt.id == id && evt.ty == EventType.Roll && "dice" in evt.fields && evt.fields["dice"].Dice? ==>
                  && events[i].ty == RerollFailures && events[i].id == id && events[i].edit == 0
                  && events[i].share == evt.share && events[i].playerID == evt.playerID && events[i].playerName == evt.playerName
                  && events[i].fields.Keys == (evt.fields.Keys * {"title", "glitchy"}) + {"rounds", "rollID"}
                  && events[i].fields["rounds"] == Rounds([reroll, evt.fields["dice"].dice])
                  && events[i].fields["rollID"] == Num(id)
                  && (forall key | key in {"title", "glitchy"} && key in evt.fields :: events[i].fields[key] == evt.fields[key]))
            && (!(evt.id == id && evt.ty == EventType.Roll) ==> events[i] == evt)
  {
  }

  /** A modification changes exactly the event with the id, unless it is a player join: each field is that of
      the diff, or else as it was, and the edit time is the action's. */
  lemma ModifyEffect(state: State, id: int, edit: int, diff: Diff, i: nat)
    requires i < |state.events| && "id" !in diff && "edit" !in diff
    ensures var evt := state.events[i];
            var events := Reduce(state, ModifyEvent(id, edit, diff)).events;
            && |events| == |state.events|
            && (evt.id == id && evt.ty != PlayerJoin ==>
                  && events[i].edit == edit && events[i].(fields := evt.fields, edit := evt.edit) == evt
                  && (forall key :: key in events[i].fields <==> key in diff || key in evt.fields)
                  && (forall key | key in diff :: events[i].fields[key] == diff[key])
                  && (forall key | key in evt.fields && key !in diff :: events[i].fields[key] == evt.fields[key]))
            && (!(evt.id == id && evt.ty != PlayerJoin) ==> events[i] == evt)
  {
    assert diff - {"id", "edit"} == diff;
  }

  /** An id or edit time in the diff itself wins over the event's and the action's. */
  lemma ModifyOverrides(state: State, id: int, edit: int, diff: Diff, i: nat)
    requires i < |state.events| && state.events[i].id == id && state.events[i].ty != PlayerJoin
    ensures var evt := Reduce(state, ModifyEvent(id, edit, diff)).events[i];
            && evt.id == (if "id" in diff && diff["id"].Num? then diff["id"].n else id)
            && evt.edit == (if "edit" in diff && diff["edit"].Num? then diff["edit"].n else edit)
  {
  }

  /** So a diff with an id can break the order of the list. */
  lemma IdInDiffBreaksOrder(state: State, newer: Event, older: Event, edit: int)
    requires state.events == [newer, older] && newer.id > older.id > 0 && newer.ty != PlayerJoin
    ensures Ordered(state)
    ensures !Ordered(Reduce(state, ModifyEvent(newer.id, edit, map["id" := Num(older.id)])))
  {
    var diff: Diff := map["id" := Num(older.id)];
    var events := Reduce(state, ModifyEvent(newer.id, edit, diff)).events;
    ModifyOverrides(state, newer.id, edit, diff, 0);
    assert diff["id"] == Num(older.id) && events[1] == older;
  }

  /** A share modification changes exactly the share of the event with the id. */
  lemma ShareEffect(state: State, id: int, edit: int, share: Share, i: nat)
    requires i < |state.events|
    ensures var evt := state.events[i];
            var events := Reduce(state, ModifyShare(id, edit, share)).events;
            && |events| == |state.events|
            && events[i] == if evt.id == id then evt.(share := share) else evt
  {
  }

  /** A delete keeps exactly the events with other ids. */
  lemma DeleteEffect(state: State, id: int, evt: Event)
    ensures evt in Reduce(state, DeleteEvent(id)).events <==> evt in state.events && evt.id != id
  {
  }

  function GivenId(added: Event, now: int): int {
    if added.id == 0 then now else added.id
  }

  /** A new event is added, with the current id when it has none, and replaces one that has its id. */
  lemma AddEffect(state: State, added: Event, now: int, evt: Event)
    requires Ordered(state) && added.id >= 0 && now > 0
    ensures evt in Reduce(state, AddEvent(added, now)).events
       <==> evt == added.(id := GivenId(added, now)) || (evt in state.events && evt.id != GivenId(added, now))
  {
    MergeMembers(state.events, [WithId(added, now)]);
    assert [WithId(added, now)][0] == WithId(added, now);
  }

  /** Share numbers survive being sent, and any other number reads as in the game. */
  lemma ShareNumbers(share: Share, n: int)
    ensures ParseMode(ShareNumber(share)) == share
    ensures n != 1 && n != 2 ==> ParseMode(n) == InGame
    ensures ParseMode(1) == Private && ParseMode(2) == GMs
  {
  }

  /** A create update puts the event as it was sent in the list, edit time and all; a player join has none and is
      in the game. */
  lemma CreateEffect(codec: Codec, state: State, text: string, now: int, evt: Event)
    requires Ordered(state) && codec.parse(text) == Some(NewEvent(evt)) && evt.id > 0
    ensures evt.ty != PlayerJoin ==> evt in HandleText(codec, state, text, now).events
    ensures evt.ty == PlayerJoin ==> evt.(share := InGame, edit := 0) in HandleText(codec, state, text, now).events
  {
    ReduceAtMostTwo(state, UpdateActions(NewEvent(evt), now));
    MergeMembers(state.events, [ParseEvent(evt)]);
    assert [ParseEvent(evt)][0] == ParseEvent(evt);
  }

  /** A diff update that has more than a share sets the edit time of its event to its own, unless the event is a
      player join; one that has only a share leaves edit times alone. */
  lemma DiffEffect(codec: Codec, state: State, text: string, now: int, id: int, diff: Diff, time: int, i: nat)
    requires codec.parse(text) == Some(EventDiff(id, diff, time)) && "id" !in diff && "edit" !in diff
    requires i < |state.events|
    ensures var evt := state.events[i];
            var events := HandleText(codec, state, text, now).events;
            && |events| == |state.events|
            && events[i].edit
               == if evt.id == id && evt.ty != PlayerJoin && diff - {"share"} != map[] then time else evt.edit
  {
    ReduceAtMostTwo(state, UpdateActions(EventDiff(id, diff, time), now));
  }

  /** A text that is no update changes nothing. */
  lemma UnparseableTextIsIgnored(codec: Codec, state: State, text: string, now: int)
    requires codec.parse(text).None?
    ensures HandleText(codec, state, text, now) == state
  {
  }
}
