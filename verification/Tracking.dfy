/** What always holds of a client, in sync or not and however much of a history it has loaded: it tracks
    the history from a cursor on, up to the fields of events an edit misled it about. */
module Tracking {
  import opened Events
  import opened EventList
  import opened Channels
  import opened Packets
  import opened EventStore
  import opened EditRoutes
  import opened ClientReducer
  import opened Tables
  import opened Convergence
  import Paging

  /** An event without its fields. */
  function Bare(evt: Event): Event {
    evt.(fields := map[])
  }

  /** A table has nothing but events of another, and all of those with ids from a cursor on; stale ones may
      differ in their fields. */
  ghost predicate AgreeFrom(t: Table, v: Table, cursor: int, stale: set<int>) {
    && (forall id | id in t :: id in v && Bare(t[id]) == Bare(v[id]) && (id !in stale ==> t[id] == v[id]))
    && (forall id | id in v && id >= cursor :: id in t)
  }

  /** An event announced anew or deleted is no longer stale. */
  function Refreshed(stale: set<int>, update: Update): set<int> {
    match update
    case NewEvent(evt) => stale - {evt.id}
    case EventDelete(id) => stale - {id}
    case EventDiff(_, _, _) => stale
  }

  function RefreshedAll(stale: set<int>, updates: seq<Update>): set<int>
    decreases |updates|
  {
    if updates == [] then stale else RefreshedAll(Refreshed(stale, updates[0]), updates[1..])
  }

  /** An update never makes two tables agree less, wherever the cursor is. */
  lemma ApplyKeepsAgreement(t: Table, v: Table, cursor: int, stale: set<int>, update: Update)
    requires AgreeFrom(t, v, cursor, stale)
    ensures AgreeFrom(Apply(t, update), Apply(v, update), cursor, Refreshed(stale, update))
  {
  }

  lemma {:induction false} ApplyAllKeepsAgreement(t: Table, v: Table, cursor: int, stale: set<int>, updates: seq<Update>)
    requires AgreeFrom(t, v, cursor, stale)
    ensures AgreeFrom(ApplyAll(t, updates), ApplyAll(v, updates), cursor, RefreshedAll(stale, updates))
    decreases |updates|
  {
    if updates != [] {
      ApplyKeepsAgreement(t, v, cursor, stale, updates[0]);
      ApplyAllKeepsAgreement(Apply(t, updates[0]), Apply(v, updates[0]), cursor, Refreshed(stale, updates[0]), updates[1..]);
    }
  }

  lemma AgreementChains(t: Table, u: Table, v: Table, cursor: int, stale: set<int>, id: int)
    requires AgreeFrom(t, u, cursor, stale) && AgreeFrom(u, v, cursor, {id})
    ensures AgreeFrom(t, v, cursor, stale + {id})
  {
  }

  /** A subscriber tracks a history from a cursor on. */
  ghost predicate Tracks(codec: Codec, history: seq<Event>, s: Subscriber, cursor: int, stale: set<int>) {
    Sound(codec, s) && AgreeFrom(Settled(codec, s), Visible(Index(history), s.seat), cursor, stale)
  }

  ghost predicate TracksGame(codec: Codec, w: World, i: nat, cursor: int, stale: set<int>)
    requires i < |w.subscribers|
  {
    Tracks(codec, w.History(w.subscribers[i].seat.game), w.subscribers[i], cursor, stale)
  }

  /** A subscriber in sync tracks from any cursor, with nothing stale. */
  lemma SyncedTracks(codec: Codec, history: seq<Event>, s: Subscriber, cursor: int)
    requires Synced(codec, history, s)
    ensures Tracks(codec, history, s, cursor, {})
  {
  }

  /** The events stale for a seat after a server step: an event is stale from an edit that misleads the
      seat on, until it is announced anew or deleted. */
  function StaleAfter(w: World, step: Step, seat: Seat, stale: set<int>): set<int> {
    match ServerChange(w, step)
    case None => stale
    case Some(change) =>
      if Misled(w, step, seat) then stale + {step.id} else RefreshedAll(stale, Addressed(change.packets, seat))
  }

  /** Told or not, right or wrong, a seat's table after an edit is right but for the event's fields. */
  lemma EditDrift(history: seq<Event>, evt: Event, newEvent: Event, stored: Diff, diff: Diff, heard: bool, seat: Seat, cursor: int)
    requires WellFormedHistory(history) && evt.ty != PlayerJoin && "share" !in diff
    requires evt.id in Index(history) && Index(history)[evt.id] == evt
    requires newEvent == evt.(edit := newEvent.edit, fields := evt.fields + stored)
    requires heard ==> Sees(seat, evt)
    ensures AgreeFrom(
              ApplyAll(Visible(Index(history), seat), EditNews(newEvent, diff, heard)),
              Visible(Index(Insert(Remove(history, evt.id), newEvent)), seat), cursor, {evt.id})
  {
    var seen := Visible(Index(history), seat);
    ReplaceIndex(history, newEvent);
    VisibleAt(Index(history), evt, seat);
    VisibleWith(Index(history), newEvent, seat);
    ApplyOne(seen, ForEventDiff(newEvent, diff));
    PatchedFields(evt, diff);
  }

  lemma EditRefreshesNothing(stale: set<int>, newEvent: Event, diff: Diff, heard: bool)
    ensures RefreshedAll(stale, EditNews(newEvent, diff, heard)) == stale
  {
    if heard {
      assert [ForEventDiff(newEvent, diff)][1..] == [];
    }
  }

  /** News that leave a table right but for one event's fields leave a table that agrees with it right but
      for those and what was stale. */
  lemma DriftKeepsAgreement(t: Table, v: Table, v': Table, cursor: int, stale: set<int>, news: seq<Update>, id: int)
    requires AgreeFrom(t, v, cursor, stale) && RefreshedAll(stale, news) == stale
    requires AgreeFrom(ApplyAll(v, news), v', cursor, {id})
    ensures AgreeFrom(ApplyAll(t, news), v', cursor, stale + {id})
  {
    ApplyAllKeepsAgreement(t, v, cursor, stale, news);
    AgreementChains(ApplyAll(t, news), ApplyAll(v, news), v', cursor, stale, id);
  }

  lemma EditChangeKeepsAgreement(
      history: seq<Event>, evt: Event, newEvent: Event, stored: Diff, diff: Diff, heard: bool, change: Change, seat: Seat,
      t: Table, cursor: int, stale: set<int>)
    requires WellFormedHistory(history) && evt.ty != PlayerJoin && "share" !in diff
    requires evt.id in Index(history) && Index(history)[evt.id] == evt
    requires newEvent == evt.(edit := newEvent.edit, fields := evt.fields + stored)
    requires heard ==> Sees(seat, evt)
    requires change.history == Insert(Remove(history, evt.id), newEvent)
    requires Addressed(change.packets, seat) == EditNews(newEvent, diff, heard)
    requires AgreeFrom(t, Visible(Index(history), seat), cursor, stale)
    ensures AgreeFrom(ApplyAll(t, Addressed(change.packets, seat)), Visible(Index(change.history), seat), cursor, stale + {evt.id})
  {
    EditDrift(history, evt, newEvent, stored, diff, heard, seat, cursor);
    EditRefreshesNothing(stale, newEvent, diff, heard);
    DriftKeepsAgreement(t, Visible(Index(history), seat), Visible(Index(change.history), seat),
                        cursor, stale, EditNews(newEvent, diff, heard), evt.id);
  }

  lemma EditNewsProper(newEvent: Event, diff: Diff, heard: bool)
    requires "id" !in diff && "edit" !in diff && "share" !in diff
    ensures forall update | update in EditNews(newEvent, diff, heard) :: Proper(update)
  {
  }

  lemma EditKeepsTrack(
      game: string, history: seq<Event>, evt: Event, diff: Diff, time: int, seat: Seat, t: Table, cursor: int, stale: set<int>)
    requires WellFormedHistory(history) && WellFormedEvent(evt) && Accepts(evt, diff)
    requires evt.id in Index(history) && Index(history)[evt.id] == evt
    requires ValidGameID(game) && seat.Valid() && seat.game == game
    requires AgreeFrom(t, Visible(Index(history), seat), cursor, stale)
    ensures var change := AnnouncedEdit(game, history, evt, diff, time);
            && (forall update | update in Addressed(change.packets, seat) :: Proper(update))
            && AgreeFrom(ApplyAll(t, Addressed(change.packets, seat)), Visible(Index(change.history), seat), cursor, stale + {evt.id})
  {
    var newEvent := EditedEvent(evt, diff, time);
    var heard := Sees(seat, evt) && !Unheard(evt, seat);
    EditAddressed(game, history, evt, diff, time, seat);
    EditNewsProper(newEvent, diff, heard);
    EditChangeKeepsAgreement(history, evt, newEvent, Stored(diff), diff, heard, AnnouncedEdit(game, history, evt, diff, time), seat,
                             t, cursor, stale);
  }

  /** A change of a seat's game keeps every table that agrees with what the seat sees in agreement. */
  lemma ChangeKeepsAgreement(w: World, step: Step, seat: Seat, t: Table, cursor: int, stale: set<int>)
    requires WellFormed(w) && ValidStep(w, step) && seat.Valid()
    requires ServerChange(w, step).Some? && step.game == seat.game
    requires AgreeFrom(t, Visible(Index(w.History(step.game)), seat), cursor, stale)
    ensures var change := ServerChange(w, step).value;
            && (forall update | update in Addressed(change.packets, seat) :: Proper(update))
            && AgreeFrom(ApplyAll(t, Addressed(change.packets, seat)), Visible(Index(change.history), seat), cursor,
                         StaleAfter(w, step, seat, stale))
  {
    if Misled(w, step, seat) {
      HistoryWellFormed(w, step.game);
      EditKeepsTrack(
        step.game, w.History(step.game), Index(w.History(step.game))[step.id], step.diff, step.time, seat, t, cursor, stale);
    } else {
      StepAnnouncedIff(w, step, seat);
      ApplyAllKeepsAgreement(
        t, Visible(Index(w.History(step.game)), seat), cursor, stale, Addressed(ServerChange(w, step).value.packets, seat));
    }
  }

  lemma NotifiedSound(codec: Codec, s: Subscriber, packets: seq<Packet>)
    requires codec.Faithful() && s.seat.Valid() && Sound(codec, s)
    requires forall packet | packet in packets :: WellFiltered(packet.filter) && codec.carries(packet.update)
    requires forall update | update in Addressed(packets, s.seat) :: Proper(update)
    ensures Sound(codec, Notified(codec, s, packets))
    ensures Settled(codec, Notified(codec, s, packets)) == ApplyAll(Settled(codec, s), Addressed(packets, s.seat))
  {
    NotifiedPending(codec, s, packets);
  }

  lemma ServerStepKeepsTrack(codec: Codec, w: World, step: Step, i: nat, cursor: int, stale: set<int>)
    requires codec.Faithful() && WellFormed(w) && ValidStep(w, step) && Carried(codec, w, step)
    requires i < |w.subscribers| && TracksGame(codec, w, i, cursor, stale)
    requires ServerChange(w, step).Some?
    ensures Next(codec, w, step).subscribers[i].seat == w.subscribers[i].seat
    ensures TracksGame(codec, Next(codec, w, step), i, cursor, StaleAfter(w, step, w.subscribers[i].seat, stale))
  {
    var s, change := w.subscribers[i], ServerChange(w, step).value;
    NextAfterChange(codec, w, step, i);
    PacketsWellFiltered(w, step);
    if step.game == s.seat.game {
      ChangeKeepsAgreement(w, step, s.seat, Settled(codec, s), cursor, stale);
    } else {
      OtherGamesUntouched(w, step, s.seat);
    }
    NotifiedSound(codec, s, change.packets);
  }

  /** One step of any kind keeps a subscriber tracking its game. */
  lemma StepKeepsTrack(codec: Codec, w: World, step: Step, i: nat, cursor: int, stale: set<int>)
    requires codec.Faithful() && WellFormed(w) && ValidStep(w, step) && Carried(codec, w, step)
    requires i < |w.subscribers| && TracksGame(codec, w, i, cursor, stale)
    ensures Next(codec, w, step).subscribers[i].seat == w.subscribers[i].seat
    ensures TracksGame(codec, Next(codec, w, step), i, cursor, StaleAfter(w, step, w.subscribers[i].seat, stale))
  {
    if step.RelayNext? || step.Receive? {
      DeliveryKeepsSettled(codec, w, step, i);
    } else if ServerChange(w, step).Some? {
      ServerStepKeepsTrack(codec, w, step, i, cursor, stale);
    }
  }

  function StaleAfterRun(codec: Codec, w: World, steps: seq<Step>, seat: Seat, stale: set<int>): set<int>
    decreases |steps|
  {
    if steps == [] then stale
    else StaleAfterRun(codec, Next(codec, w, steps[0]), steps[1..], seat, StaleAfter(w, steps[0], seat, stale))
  }

  /** Over every run, misleading edits and all, a subscriber tracks its game from its cursor on: it will
      settle on exactly the visible ids, on events equal but for fields, and on equal events wherever no
      edit misled it since the event was last announced anew. */
  lemma {:induction false} RunKeepsTrack(codec: Codec, w: World, steps: seq<Step>, i: nat, cursor: int, stale: set<int>)
    requires codec.Faithful() && WellFormed(w) && ValidRun(codec, w, steps)
    requires i < |w.subscribers| && TracksGame(codec, w, i, cursor, stale)
    ensures |Run(codec, w, steps).subscribers| == |w.subscribers|
    ensures Run(codec, w, steps).subscribers[i].seat == w.subscribers[i].seat
    ensures TracksGame(codec, Run(codec, w, steps), i, cursor, StaleAfterRun(codec, w, steps, w.subscribers[i].seat, stale))
    decreases |steps|
  {
    if steps != [] {
      var seat := w.subscribers[i].seat;
      StepKeepsWellFormed(codec, w, steps[0]);
      StepKeepsTrack(codec, w, steps[0], i, cursor, stale);
      RunKeepsTrack(codec, Next(codec, w, steps[0]), steps[1..], i, cursor, StaleAfter(w, steps[0], seat, stale));
    }
  }

  /** What a client shows is what its player may see of a history, from a cursor on and but for the fields of
      stale events; below the cursor it shows less, never more. */
  ghost predicate Shows(client: State, history: seq<Event>, seat: Seat, cursor: int, stale: set<int>) {
    AgreeFrom(Blanked(Index(client.events)), Visible(Index(history), seat), cursor, stale)
  }

  lemma {:induction false} RunKeepsWellFormed(codec: Codec, w: World, steps: seq<Step>)
    requires WellFormed(w) && ValidRun(codec, w, steps)
    ensures WellFormed(Run(codec, w, steps))
    decreases |steps|
  {
    if steps != [] {
      StepKeepsWellFormed(codec, w, steps[0]);
      RunKeepsWellFormed(codec, Next(codec, w, steps[0]), steps[1..]);
    }
  }

  /** After any run, misleading edits and all, what a drained client shows is what its player may see,
      from the cursor on and but for the fields of stale events. */
  lemma DrainedRunTracks(codec: Codec, w: World, steps: seq<Step>, i: nat, cursor: int, stale: set<int>)
    requires codec.Faithful() && WellFormed(w) && ValidRun(codec, w, steps)
    requires i < |w.subscribers| && TracksGame(codec, w, i, cursor, stale)
    ensures |Run(codec, w, steps).subscribers| == |w.subscribers|
    ensures var s := Run(codec, w, steps).subscribers[i];
            s.inbox == [] && s.stream == [] ==>
              Shows(s.client, Run(codec, w, steps).History(s.seat.game), s.seat, cursor,
                    StaleAfterRun(codec, w, steps, w.subscribers[i].seat, stale))
  {
    RunKeepsTrack(codec, w, steps, i, cursor, stale);
    var s := Run(codec, w, steps).subscribers[i];
    if s.inbox == [] && s.stream == [] {
      assert Pending(codec, s) == [];
    }
  }

  lemma {:induction false} RefreshedShrinks(stale: set<int>, updates: seq<Update>)
    ensures RefreshedAll(stale, updates) <= stale
    decreases |updates|
  {
    if updates != [] {
      RefreshedShrinks(Refreshed(stale, updates[0]), updates[1..]);
    }
  }

  /** Nothing becomes stale for a seat that is never misled. */
  lemma {:induction false} NeverMisledNothingStale(codec: Codec, w: World, steps: seq<Step>, seat: Seat)
    requires NeverMisled(codec, w, steps, seat)
    ensures StaleAfterRun(codec, w, steps, seat, {}) == {}
    decreases |steps|
  {
    if steps != [] {
      if ServerChange(w, steps[0]).Some? {
        RefreshedShrinks({}, Addressed(ServerChange(w, steps[0]).value.packets, seat));
      }
      assert StaleAfter(w, steps[0], seat, {}) == {};
      NeverMisledNothingStale(codec, Next(codec, w, steps[0]), steps[1..], seat);
    }
  }

  // ---- From what is loaded ----

  /** In a descending list the ids from that of an index on are those of the elements up to it. */
  lemma IdsToIndex(history: seq<Event>, c: nat, evt: Event)
    requires Descending(history) && c < |history|
    ensures evt in history[..c + 1] <==> evt in history && evt.id >= history[c].id
  {
    if evt in history {
      var k :| 0 <= k < |history| && history[k] == evt;
      if k <= c {
        assert history[..c + 1][k] == evt;
      }
    }
  }

  lemma PrefixTable(history: seq<Event>, c: nat, id: int)
    requires Descending(history) && c < |history|
    ensures id in Index(history[..c + 1]) <==> id in Index(history) && id >= history[c].id
    ensures id in Index(history[..c + 1]) ==> Index(history[..c + 1])[id] == Index(history)[id]
  {
    Paging.PrefixDescending(history, 0, c + 1);
    assert history[0..c + 1] == history[..c + 1];
    IndexLookup(history[..c + 1]);
    IndexLookup(history);
    if id in Index(history[..c + 1]) {
      IdsToIndex(history, c, Index(history[..c + 1])[id]);
    }
    if id in Index(history) {
      IdsToIndex(history, c, Index(history)[id]);
    }
  }

  /** What is visible of a list down to an index is what is visible of all of it from that index's id on. */
  lemma PrefixAgrees(history: seq<Event>, c: nat, seat: Seat)
    requires Descending(history) && c < |history|
    ensures AgreeFrom(Visible(Index(history[..c + 1]), seat), Visible(Index(history), seat), history[c].id, {})
  {
    forall id
      ensures id in Index(history[..c + 1]) <==> id in Index(history) && id >= history[c].id
      ensures id in Index(history[..c + 1]) ==> Index(history[..c + 1])[id] == Index(history)[id]
    {
      PrefixTable(history, c, id);
    }
  }

  /** A drained client that holds what is visible down to an index tracks from that index's id on. */
  lemma PrefixTracks(codec: Codec, history: seq<Event>, s: Subscriber, c: nat)
    requires WellFormedHistory(history) && s.inbox == [] && s.stream == [] && c < |history|
    requires s.client.events == VisibleList(history[..c + 1], s.seat)
    ensures Tracks(codec, history, s, history[c].id, {})
  {
    Paging.PrefixDescending(history, 0, c + 1);
    assert history[0..c + 1] == history[..c + 1];
    FullViewInSync(codec, history[..c + 1], s);
    PrefixAgrees(history, c, s.seat);
  }

  /** The client has loaded everything visible down to some event. */
  ghost predicate LoadedFar(history: seq<Event>, seat: Seat, state: State) {
    exists c: nat, m: nat :: Paging.LoadedTo(history, seat, state, c, m)
  }

  lemma LoadMoreStaysLoaded(history: seq<Event>, pageSize: nat, seat: Seat, state: State)
    requires Descending(history) && PositiveIds(history) && pageSize > 0
    requires LoadedFar(history, seat, state)
    ensures LoadedFar(history, seat, Paging.LoadMore(history, pageSize, seat, state))
  {
    var c: nat, m: nat :| Paging.LoadedTo(history, seat, state, c, m);
    if state.historyFetch == Ready {
      var c', m' := Paging.LoadMoreReaches(history, pageSize, seat, state, c, m);
    }
  }

  /** However many loads after logging in, the client holds everything visible down to some event. */
  lemma AfterReaches(history: seq<Event>, pageSize: nat, seat: Seat, loads: nat)
    requires Descending(history) && PositiveIds(history) && pageSize > 0
    requires VisibleList(history[..Paging.Min(pageSize, |history|)], seat) != []
    ensures LoadedFar(history, seat, Paging.After(history, pageSize, seat, loads))
  {
    var c, m := Paging.FirstLoadReaches(history, pageSize, seat);
    forall state | LoadedFar(history, seat, state) ensures LoadedFar(history, seat, Paging.LoadMore(history, pageSize, seat, state)) {
      LoadMoreStaysLoaded(history, pageSize, seat, state);
    }
    Paging.IterateInvariant(
      Paging.Loader(history, pageSize, seat), Paging.After(history, pageSize, seat, 0), loads,
      (state: State) => LoadedFar(history, seat, state));
  }

  /** The client of a player who has logged in and loaded more any number of times, as long as the first
      page showed something. */
  predicate LoggedIn(history: seq<Event>, pageSize: nat, loads: nat, s: Subscriber) {
    && pageSize > 0 && VisibleList(history[..Paging.Min(pageSize, |history|)], s.seat) != []
    && s.client == Paging.After(history, pageSize, s.seat, loads) && s.inbox == [] && s.stream == []
  }

  lemma LoggedInTracks(codec: Codec, history: seq<Event>, pageSize: nat, loads: nat, s: Subscriber)
    requires WellFormedHistory(history) && LoggedIn(history, pageSize, loads, s)
    ensures var events := s.client.events;
            events != [] && Tracks(codec, history, s, events[|events| - 1].id, {})
  {
    AfterReaches(history, pageSize, s.seat, loads);
    var c: nat, m: nat :| Paging.LoadedTo(history, s.seat, s.client, c, m);
    Paging.NothingBeyond(history, s.seat, c, m);
    Paging.LastLoaded(history, s.seat, c);
    PrefixTracks(codec, history, s, c);
  }

  /** However little of its game's history a client has loaded, it tracks the game over every run from
      the oldest event it held on. */
  lemma LoggedInTracksRun(codec: Codec, w: World, steps: seq<Step>, i: nat, pageSize: nat, loads: nat)
    requires codec.Faithful() && WellFormed(w) && ValidRun(codec, w, steps)
    requires i < |w.subscribers| && LoggedIn(w.History(w.subscribers[i].seat.game), pageSize, loads, w.subscribers[i])
    ensures |Run(codec, w, steps).subscribers| == |w.subscribers|
    ensures var events := w.subscribers[i].client.events;
            && events != []
            && TracksGame(codec, Run(codec, w, steps), i, events[|events| - 1].id,
                          StaleAfterRun(codec, w, steps, w.subscribers[i].seat, {}))
  {
    var s := w.subscribers[i];
    HistoryWellFormed(w, s.seat.game);
    LoggedInTracks(codec, w.History(s.seat.game), pageSize, loads, s);
    RunKeepsTrack(codec, w, steps, i, s.client.events[|s.client.events| - 1].id, {});
  }
}
