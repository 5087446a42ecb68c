/** What each server operation does to the world: the history it leaves and the news it sends, stated of the
    step as a whole. */
module Operations {
  import opened Wrappers
  import opened Text
  import opened Events
  import opened EventList
  import opened Channels
  import opened Packets
  import opened EventStore
  import opened EditRoutes
  import opened Tables
  import opened Convergence

  // ---- Changes ----

  /** A post adds its event and nothing else, and each seat of the game that sees it is told of it once. */
  lemma PostEffect(game: string, history: seq<Event>, evt: Event, seat: Seat)
    requires WellFormedHistory(history) && WellFormedEvent(evt) && !HasId(history, evt.id)
    requires ValidGameID(game) && seat.Valid()
    ensures Index(Posted(game, history, evt).history) == Index(history)[evt.id := evt]
    ensures Addressed(Posted(game, history, evt).packets, seat)
         == if seat.game == game && Sees(seat, evt) then [NewEvent(evt)] else []
  {
    InsertIndex(history, evt);
    CreateOrDeleteExactness(game, evt, ForNewEvent(evt), seat);
  }

  /** A delete removes its event and nothing else, and each seat of the game that saw it is told once. */
  lemma DeleteEffect(game: string, history: seq<Event>, evt: Event, seat: Seat)
    requires WellFormedHistory(history) && WellFormedEvent(evt)
    requires ValidGameID(game) && seat.Valid()
    ensures Index(Deleted(game, history, evt).history) == Index(history) - {evt.id}
    ensures Addressed(Deleted(game, history, evt).packets, seat)
         == if seat.game == game && Sees(seat, evt) then [EventDelete(evt.id)] else []
  {
    RemoveIndex(history, evt.id);
    CreateOrDeleteExactness(game, evt, ForEventDelete(evt.id), seat);
  }

  /** A share change stores the event with the new share, and tells each seat of the game what became of it:
      gone, new, or changed. */
  lemma ReshareEffect(game: string, history: seq<Event>, evt: Event, newShare: Share, seat: Seat)
    requires WellFormedHistory(history) && WellFormedEvent(evt)
    requires ValidGameID(game) && seat.Valid() && seat.game == game && evt.share != newShare
    ensures Reshared(game, history, evt, newShare).Some?
    ensures var change, changed := Reshared(game, history, evt, newShare).value, evt.(share := newShare);
            && Index(change.history) == Index(history)[evt.id := changed]
            && Addressed(change.packets, seat)
               == (if Sees(seat, evt) && !Sees(seat, changed) then [EventDelete(evt.id)]
                   else if !Sees(seat, evt) && Sees(seat, changed) then [NewEvent(changed)]
                   else if !Sees(seat, evt) then []
                   else [EventDiff(evt.id, map["share" := Num(ShareNumber(newShare))], evt.edit)])
  {
    ReshareChange(game, history, evt, newShare, seat);
    ReplaceIndex(history, evt.(share := newShare));
  }

  /** An edit stores the event with its fields and edit time changed, and tells each seat that hears of it the
      diff as it was sent. */
  lemma EditEffect(game: string, history: seq<Event>, evt: Event, diff: Diff, time: int, seat: Seat)
    requires WellFormedHistory(history) && WellFormedEvent(evt) && Accepts(evt, diff)
    requires ValidGameID(game) && seat.Valid() && seat.game == game
    ensures var change := AnnouncedEdit(game, history, evt, diff, time);
            && Index(change.history) == Index(history)[evt.id := evt.(edit := time, fields := evt.fields + Stored(diff))]
            && Addressed(change.packets, seat)
               == if Sees(seat, evt) && !(evt.share == GMs && seat.player == evt.playerID && !seat.isGM)
                  then [EventDiff(evt.id, diff, time)] else []
  {
    EditAddressed(game, history, evt, diff, time, seat);
    ReplaceIndex(history, EditedEvent(evt, diff, time));
  }

  // ---- Steps ----

  /** A step is refused exactly when it names no event, or a player join, would not change a share, or has a
      diff the routes do not accept; deliveries change nothing on the server. */
  lemma RefusedIff(w: World, step: Step)
    ensures ServerChange(w, step).None?
       <==> match step
            case Post(_, _) => false
            case Delete(game, id) => Editable(w.History(game), id).None?
            case ChangeShare(game, id, newShare, _) =>
              Editable(w.History(game), id).None? || Editable(w.History(game), id).value.share == newShare
            case Edit(game, id, diff, _) =>
              Editable(w.History(game), id).None? || !Accepts(Editable(w.History(game), id).value, diff)
            case _ => true
  {
    if step.ChangeShare? && Editable(w.History(step.game), step.id).Some? {
      var edited := Editable(w.History(step.game), step.id).value.(edit := step.time);
      SharePacketsPanicIff(step.game, edited, step.newShare);
    }
  }

  /** An event may be edited if and only if the history has it and it is no player join. */
  lemma EditableIff(history: seq<Event>, id: int, evt: Event)
    requires Descending(history)
    ensures Editable(history, id) == Some(evt) <==> evt in history && evt.id == id && evt.ty != PlayerJoin
  {
    IndexLookup(history);
  }

  /** The table of a game after a step. */
  function TableOf(w: World, game: string): Table {
    Index(w.History(game))
  }

  /** What a step does to the table of its game. */
  function TableAfter(t: Table, step: Step): Table {
    match step
    case Post(_, evt) => t[evt.id := evt]
    case Delete(_, id) => t - {id}
    case ChangeShare(_, id, newShare, time) => if id in t then t[id := t[id].(share := newShare, edit := time)] else t
    case Edit(_, id, diff, time) =>
      if id in t then t[id := t[id].(edit := time, fields := t[id].fields + Stored(diff))] else t
    case _ => t
  }

  /** A step of the server leaves exactly that table in its game, and every other game alone. */
  lemma StepTables(codec: Codec, w: World, step: Step, game: string)
    requires WellFormed(w) && ValidStep(w, step) && ServerChange(w, step).Some?
    ensures TableOf(Next(codec, w, step), game)
         == if game == step.game then TableAfter(TableOf(w, game), step) else TableOf(w, game)
  {
    if game == step.game {
      HistoryWellFormed(w, game);
      StepTable(w, step);
    }
  }

  lemma StepTable(w: World, step: Step)
    requires WellFormed(w) && ValidStep(w, step) && ServerChange(w, step).Some?
    ensures Index(ServerChange(w, step).value.history) == TableAfter(TableOf(w, step.game), step)
  {
    HistoryWellFormed(w, step.game);
    var history := w.History(step.game);
    match step
    case Post(game, evt) =>
      InsertIndex(history, evt);
    case Delete(game, id) =>
      RemoveIndex(history, id);
    case ChangeShare(game, id, newShare, time) =>
      var edited := Index(history)[id].(edit := time);
      SharePacketsPanicIff(game, edited, newShare);
      SharePacketsWellFiltered(game, edited, newShare);
      ReplaceIndex(history, edited.(share := newShare));
    case Edit(game, id, diff, time) =>
      ReplaceIndex(history, EditedEvent(Index(history)[id], diff, time));
  }

  /** A delivery leaves every table alone, and so does a refused step. */
  lemma RefusedChangesNothing(codec: Codec, w: World, step: Step)
    requires ServerChange(w, step).None?
    ensures Next(codec, w, step).histories == w.histories
    ensures !step.RelayNext? && !step.Receive? ==> Next(codec, w, step) == w
  {
  }

  /** A step of the server puts behind everything on its way to a client the news its seat is addressed, and
      touches nothing else of the subscriber. */
  lemma StepNews(codec: Codec, w: World, step: Step, i: nat)
    requires codec.Faithful() && WellFormed(w) && ValidStep(w, step) && Carried(codec, w, step)
    requires ServerChange(w, step).Some? && i < |w.subscribers|
    ensures var s, s' := w.subscribers[i], Next(codec, w, step).subscribers[i];
            && s'.seat == s.seat && s'.stream == s.stream && s'.client == s.client
            && Pending(codec, s') == Pending(codec, s) + Addressed(ServerChange(w, step).value.packets, s.seat)
  {
    NextAfterChange(codec, w, step, i);
    PacketsWellFiltered(w, step);
    NotifiedPending(codec, w.subscribers[i], ServerChange(w, step).value.packets);
  }

  /** So a post is on its way to exactly the subscribers of its game that see the event. */
  lemma PostIsOnItsWay(codec: Codec, w: World, game: string, evt: Event, i: nat)
    requires codec.Faithful() && WellFormed(w) && ValidStep(w, Post(game, evt)) && Carried(codec, w, Post(game, evt))
    requires i < |w.subscribers|
    ensures var s, s' := w.subscribers[i], Next(codec, w, Post(game, evt)).subscribers[i];
            Pending(codec, s') == Pending(codec, s) + if s.seat.game == game && Sees(s.seat, evt) then [NewEvent(evt)] else []
  {
    HistoryWellFormed(w, game);
    StepNews(codec, w, Post(game, evt), i);
    PostEffect(game, w.History(game), evt, w.subscribers[i].seat);
  }
}
