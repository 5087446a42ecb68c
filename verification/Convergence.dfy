/** The event-visibility protocol as a step system: histories on the server, and for every connected
    player an inbox, a stream and a client state. Every server operation is one atomic step; deliveries
    interleave with them in any order. */
module Convergence {
  import opened Wrappers
  import opened Text
  import opened Events
  import opened EventList
  import opened Channels
  import opened Packets
  import opened Subscription
  import opened EventStore
  import opened EditRoutes
  import opened ClientReducer
  import opened Tables
  import Paging

  datatype Subscriber = Subscriber(seat: Seat, inbox: seq<string>, stream: seq<string>, client: State)

  datatype World = World(histories: map<string, seq<Event>>, subscribers: seq<Subscriber>) {
    function History(game: string): seq<Event> {
      if game in histories then histories[game] else []
    }
  }

  datatype Step =
    | Post(game: string, evt: Event)
    | Delete(game: string, id: int)
    | ChangeShare(game: string, id: int, newShare: Share, time: int)
    | Edit(game: string, id: int, diff: Diff, time: int)
    | RelayNext(subscriber: nat)
    | Receive(subscriber: nat, now: int)

  /** The event of a route's request; None when it does not exist or may not be changed. */
  function Editable(history: seq<Event>, id: int): Option<Event> {
    if id in Index(history) && Index(history)[id].ty != PlayerJoin then Some(Index(history)[id]) else None
  }

  /** An edit of a route: what is stored, and the announced diff. */
  function AnnouncedEdit(game: string, history: seq<Event>, evt: Event, diff: Diff, time: int): Change {
    Edited(game, history, EditedEvent(evt, diff, time), ForEventDiff(EditedEvent(evt, diff, time), diff))
  }

  /** The updates an edit has for a seat that hears of it, or does not. */
  function EditNews(newEvent: Event, diff: Diff, heard: bool): seq<Update> {
    if heard then [ForEventDiff(newEvent, diff)] else []
  }

  /** The change a server step makes to its game; None when the request is refused or is no server step. */
  function ServerChange(w: World, step: Step): Option<Change> {
    match step
    case Post(game, evt) => Some(Posted(game, w.History(game), evt))
    case Delete(game, id) =>
      (match Editable(w.History(game), id)
       case None => None
       case Some(evt) => Some(Deleted(game, w.History(game), evt)))
    case ChangeShare(game, id, newShare, time) =>
      (match Editable(w.History(game), id)
       case None => None
       case Some(evt) => Reshared(game, w.History(game), evt.(edit := time), newShare))
    case Edit(game, id, diff, time) =>
      (match Editable(w.History(game), id)
       case None => None
       case Some(evt) =>
         if Accepts(evt, diff) then Some(AnnouncedEdit(game, w.History(game), evt, diff, time)) else None)
    case _ => None
  }

  function Notified(codec: Codec, s: Subscriber, packets: seq<Packet>): Subscriber {
    s.(inbox := s.inbox + Inbox(WireAll(codec, packets), s.seat))
  }

  function NotifyAll(codec: Codec, subscribers: seq<Subscriber>, packets: seq<Packet>): (r: seq<Subscriber>)
    ensures |r| == |subscribers|
  {
    seq(|subscribers|, i requires 0 <= i < |subscribers| => Notified(codec, subscribers[i], packets))
  }

  /** A connection's turn: the front of the inbox is relayed or skipped. */
  function Relayed(s: Subscriber): Subscriber {
    if s.inbox == [] then s
    else s.(inbox := s.inbox[1..], stream := s.stream + Relay([s.inbox[0]], s.seat))
  }

  /** The client handles the front of its stream. */
  function Received(codec: Codec, s: Subscriber, now: int): Subscriber {
    if s.stream == [] then s
    else s.(stream := s.stream[1..], client := HandleText(codec, s.client, s.stream[0], now))
  }

  function Next(codec: Codec, w: World, step: Step): (w': World)
    ensures |w'.subscribers| == |w.subscribers|
  {
    match step
    case RelayNext(i) =>
      if i < |w.subscribers| then w.(subscribers := w.subscribers[i := Relayed(w.subscribers[i])]) else w
    case Receive(i, now) =>
      if i < |w.subscribers| then w.(subscribers := w.subscribers[i := Received(codec, w.subscribers[i], now)]) else w
    case _ =>
      match ServerChange(w, step)
      case None => w
      case Some(change) =>
        World(w.histories[step.game := change.history], NotifyAll(codec, w.subscribers, change.packets))
  }

  predicate WellFormedEvent(evt: Event) {
    evt.id > 0 && ValidPlayerID(evt.playerID) && (evt.ty == PlayerJoin ==> evt.share == InGame)
  }

  predicate WellFormedHistory(history: seq<Event>) {
    Descending(history) && forall evt | evt in history :: WellFormedEvent(evt)
  }

  predicate WellFormed(w: World) {
    && (forall game | game in w.histories :: ValidGameID(game) && WellFormedHistory(w.histories[game]))
    && (forall s | s in w.subscribers :: s.seat.Valid())
  }

  /** What the server's callers guarantee: new events are well formed and have fresh ids. */
  predicate ValidStep(w: World, step: Step) {
    match step
    case Post(game, evt) => ValidGameID(game) && WellFormedEvent(evt) && !HasId(w.History(game), evt.id)
    case _ => true
  }

  /** The codec carries every update that a step announces. */
  predicate Carried(codec: Codec, w: World, step: Step) {
    match ServerChange(w, step)
    case None => true
    case Some(change) => forall packet | packet in change.packets :: codec.carries(packet.update)
  }

  lemma HistoryWellFormed(w: World, game: string)
    requires WellFormed(w)
    ensures WellFormedHistory(w.History(game))
    ensures forall id | id in Index(w.History(game)) ::
              && Index(w.History(game))[id].id == id
              && WellFormedEvent(Index(w.History(game))[id])
              && ValidGameID(game)
  {
    IndexLookup(w.History(game));
    if game !in w.histories {
      assert Index(w.History(game)) == map[];
    }
  }

  // ---- What is on its way to a client ----

  /** The update in a text, if it is one. */
  function Front(codec: Codec, text: string): seq<Update> {
    match codec.parse(text) case None => [] case Some(u) => [u]
  }

  /** The updates in a series of texts. */
  function Updates(codec: Codec, texts: seq<string>): seq<Update> {
    if texts == [] then []
    else Front(codec, texts[0]) + Updates(codec, texts[1..])
  }

  lemma {:induction false} UpdatesAppend(codec: Codec, a: seq<string>, b: seq<string>)
    ensures Updates(codec, a + b) == Updates(codec, a) + Updates(codec, b)
  {
    if a == [] {
      assert a + b == b;
    } else {
      assert (a + b)[1..] == a[1..] + b;
      UpdatesAppend(codec, a[1..], b);
    }
  }

  lemma {:induction false} UpdatesOfMarshalled(codec: Codec, updates: seq<Update>)
    requires codec.Faithful() && forall update | update in updates :: codec.carries(update)
    ensures Updates(codec, MarshalAll(codec, updates)) == updates
  {
    if updates != [] {
      assert MarshalAll(codec, updates)[1..] == MarshalAll(codec, updates[1..]);
      UpdatesOfMarshalled(codec, updates[1..]);
      assert updates[0] in updates;
      assert codec.parse(codec.marshal(updates[0])) == Some(updates[0]);
    }
  }

  /** Everything the client has yet to handle: its stream, then what its inbox will add to it. */
  function Pending(codec: Codec, s: Subscriber): seq<Update> {
    Updates(codec, s.stream + Relay(s.inbox, s.seat))
  }

  /** The client's table once everything pending is handled. */
  function Settled(codec: Codec, s: Subscriber): Table {
    ApplyAll(Blanked(Index(s.client.events)), Pending(codec, s))
  }

  /** The client's list is in order and what is pending is sound. */
  predicate Sound(codec: Codec, s: Subscriber) {
    Ordered(s.client) && forall update | update in Pending(codec, s) :: Proper(update)
  }

  /** A subscriber in sync with a history: it is sound, and handling everything pending would leave the
      client with exactly what its player may see. */
  predicate Synced(codec: Codec, history: seq<Event>, s: Subscriber) {
    && Sound(codec, s)
    && Settled(codec, s) == Visible(Index(history), s.seat)
  }

  predicate InSync(codec: Codec, w: World, i: nat)
    requires i < |w.subscribers|
  {
    Synced(codec, w.History(w.subscribers[i].seat.game), w.subscribers[i])
  }

  // ---- Deliveries ----

  lemma RelayKeepsPending(codec: Codec, s: Subscriber)
    ensures Pending(codec, Relayed(s)) == Pending(codec, s)
  {
    if s.inbox != [] {
      FlatMapStep(s.inbox, Relayer(s.seat));
      ConcatAssociates(s.stream, Relay([s.inbox[0]], s.seat), Relay(s.inbox[1..], s.seat));
    }
  }

  lemma ReceivePending(codec: Codec, s: Subscriber, now: int)
    requires s.stream != []
    ensures Pending(codec, s) == Front(codec, s.stream[0]) + Pending(codec, Received(codec, s, now))
  {
    var texts := s.stream + Relay(s.inbox, s.seat);
    assert texts[0] == s.stream[0] && texts[1..] == s.stream[1..] + Relay(s.inbox, s.seat);
  }

  /** Handling the front of the stream changes the client and what is pending, never their sum. */
  lemma ReceiveKeepsSettled(codec: Codec, s: Subscriber, now: int)
    requires Sound(codec, s)
    ensures Sound(codec, Received(codec, s, now)) && Settled(codec, Received(codec, s, now)) == Settled(codec, s)
  {
    if s.stream != [] {
      var s' := Received(codec, s, now);
      ReceivePending(codec, s, now);
      ApplyAppend(Blanked(Index(s.client.events)), Front(codec, s.stream[0]), Pending(codec, s'));
      assert forall update | update in Pending(codec, s') :: update in Pending(codec, s);
      if codec.parse(s.stream[0]).Some? {
        var update := codec.parse(s.stream[0]).value;
        assert Pending(codec, s)[0] == update;
        HandleRefinesApply(codec, s.client, s.stream[0], now);
        ApplyOne(Blanked(Index(s.client.events)), update);
      }
    }
  }

  lemma ReceiveKeepsSync(codec: Codec, history: seq<Event>, s: Subscriber, now: int)
    requires Synced(codec, history, s)
    ensures Synced(codec, history, Received(codec, s, now))
  {
    ReceiveKeepsSettled(codec, s, now);
  }

  lemma RelayKeepsSettled(codec: Codec, s: Subscriber)
    requires Sound(codec, s)
    ensures Sound(codec, Relayed(s)) && Settled(codec, Relayed(s)) == Settled(codec, s)
  {
    RelayKeepsPending(codec, s);
  }

  /** What a subscriber is after a delivery. */
  function Delivered(codec: Codec, s: Subscriber, step: Step, here: bool): Subscriber {
    if !here then s
    else
      match step
      case RelayNext(_) => Relayed(s)
      case Receive(_, now) => Received(codec, s, now)
      case _ => s
  }

  lemma DeliveredNext(codec: Codec, w: World, step: Step, i: nat)
    requires (step.RelayNext? || step.Receive?) && i < |w.subscribers|
    ensures Next(codec, w, step).histories == w.histories
    ensures Next(codec, w, step).subscribers[i] == Delivered(codec, w.subscribers[i], step, step.subscriber == i)
  {
  }

  lemma DeliveredKeepsSettled(codec: Codec, s: Subscriber, step: Step, here: bool)
    requires Sound(codec, s)
    ensures var s' := Delivered(codec, s, step, here);
            s'.seat == s.seat && Sound(codec, s') && Settled(codec, s') == Settled(codec, s)
  {
    if here && step.RelayNext? {
      RelayKeepsSettled(codec, s);
    } else if here && step.Receive? {
      ReceiveKeepsSettled(codec, s, step.now);
    }
  }

  /** A delivery, to this subscriber or another, changes neither histories nor what the subscriber's
      client will have settled to. */
  lemma DeliveryKeepsSettled(codec: Codec, w: World, step: Step, i: nat)
    requires step.RelayNext? || step.Receive?
    requires i < |w.subscribers| && Sound(codec, w.subscribers[i])
    ensures var s' := Next(codec, w, step).subscribers[i];
            && s'.seat == w.subscribers[i].seat && Next(codec, w, step).histories == w.histories
            && Sound(codec, s') && Settled(codec, s') == Settled(codec, w.subscribers[i])
  {
    DeliveredNext(codec, w, step, i);
    DeliveredKeepsSettled(codec, w.subscribers[i], step, step.subscriber == i);
  }

  // ---- Server steps ----

  lemma PendingAppend(codec: Codec, s: Subscriber, added: seq<string>)
    ensures Pending(codec, s.(inbox := s.inbox + added)) == Pending(codec, s) + Updates(codec, Relay(added, s.seat))
  {
    var texts := Relay(s.inbox, s.seat);
    FlatMapAppend(s.inbox, added, Relayer(s.seat));
    ConcatAssociates(s.stream, texts, Relay(added, s.seat));
    UpdatesAppend(codec, s.stream + texts, Relay(added, s.seat));
  }

  lemma AddressedFromPackets(packets: seq<Packet>, seat: Seat, update: Update)
    requires update in Addressed(packets, seat)
    ensures exists packet :: packet in packets && packet.update == update
  {
    var packet := FlatMapMember(packets, Addresser(seat), update);
  }

  /** A notified subscriber has the updates addressed to it pending, after everything else. */
  lemma NotifiedPending(codec: Codec, s: Subscriber, packets: seq<Packet>)
    requires codec.Faithful() && s.seat.Valid()
    requires forall packet | packet in packets :: WellFiltered(packet.filter)
    requires forall packet | packet in packets :: codec.carries(packet.update)
    ensures Pending(codec, Notified(codec, s, packets)) == Pending(codec, s) + Addressed(packets, s.seat)
    ensures Settled(codec, Notified(codec, s, packets)) == ApplyAll(Settled(codec, s), Addressed(packets, s.seat))
  {
    PendingAppend(codec, s, Inbox(WireAll(codec, packets), s.seat));
    PublishedPacketsRelayed(codec, packets, s.seat);
    forall update | update in Addressed(packets, s.seat) ensures codec.carries(update) {
      AddressedFromPackets(packets, s.seat, update);
    }
    UpdatesOfMarshalled(codec, Addressed(packets, s.seat));
    ApplyAppend(Blanked(Index(s.client.events)), Pending(codec, s), Addressed(packets, s.seat));
  }

  /** The seat belongs to the owner, without the GM role, of an event shared with GMs: edits of it are
      announced where the seat does not listen. */
  predicate Unheard(evt: Event, seat: Seat) {
    evt.share == GMs && evt.playerID == seat.player && !seat.isGM
  }

  /** An edit misleads a seat that does not hear of a change, or that hears of it when what is stored is
      not what is announced. */
  predicate Misleads(evt: Event, diff: Diff, seat: Seat) {
    if Unheard(evt, seat) then evt.fields + Stored(diff) != evt.fields
    else Sees(seat, evt) && !Exact(diff)
  }

  /** The server step is an edit that misleads this seat. */
  predicate Misled(w: World, step: Step, seat: Seat) {
    && step.Edit? && step.game == seat.game
    && (match Editable(w.History(step.game), step.id)
        case None => false
        case Some(evt) => Accepts(evt, step.diff) && Misleads(evt, step.diff, seat))
  }

  /** A change is faithfully announced to a seat: the updates addressed to it are sound and turn what
      it could see of the old history into what it can see of the new one. */
  predicate Announced(history: seq<Event>, change: Change, seat: Seat) {
    && (forall update | update in Addressed(change.packets, seat) :: Proper(update))
    && ApplyAll(Visible(Index(history), seat), Addressed(change.packets, seat)) == Visible(Index(change.history), seat)
  }

  lemma ApplyOne(table: Table, update: Update)
    ensures ApplyAll(table, [update]) == Apply(table, update)
  {
    assert ApplyAll(Apply(table, update), [update][1..]) == Apply(table, update);
  }

  lemma VisibleWithout(table: Table, id: int, seat: Seat)
    ensures Visible(table - {id}, seat) == Visible(table, seat) - {id}
  {
    SameMap(Visible(table - {id}, seat), Visible(table, seat) - {id});
  }

  /** Putting an event in a table shows it to a seat that sees it and hides it from one that does not. */
  lemma VisibleWith(table: Table, evt: Event, seat: Seat)
    ensures Visible(table[evt.id := evt], seat)
         == if Sees(seat, evt) then Visible(table, seat)[evt.id := Blank(evt)] else Visible(table, seat) - {evt.id}
  {
    if Sees(seat, evt) {
      SameMap(Visible(table[evt.id := evt], seat), Visible(table, seat)[evt.id := Blank(evt)]);
    } else {
      SameMap(Visible(table[evt.id := evt], seat), Visible(table, seat) - {evt.id});
    }
  }

  lemma WithoutAbsent<V>(m: map<int, V>, id: int)
    requires id !in m
    ensures m - {id} == m
  {
  }

  lemma VisibleAt(table: Table, evt: Event, seat: Seat)
    requires evt.id in table && table[evt.id] == evt
    ensures evt.id in Visible(table, seat) <==> Sees(seat, evt)
    ensures Sees(seat, evt) ==> Visible(table, seat)[evt.id] == Blank(evt)
  {
  }

  lemma PostTables(history: seq<Event>, evt: Event, seat: Seat)
    requires WellFormedHistory(history) && !HasId(history, evt.id)
    ensures ApplyAll(Visible(Index(history), seat), if Sees(seat, evt) then [ForNewEvent(evt)] else [])
         == Visible(Index(Insert(history, evt)), seat)
  {
    var seen := Visible(Index(history), seat);
    InsertIndex(history, evt);
    IndexKeys(history);
    VisibleWith(Index(history), evt, seat);
    WithoutAbsent(seen, evt.id);
    ApplyOne(seen, ForNewEvent(evt));
  }

  lemma PostAnnounced(game: string, history: seq<Event>, evt: Event, seat: Seat)
    requires WellFormedHistory(history) && WellFormedEvent(evt) && !HasId(history, evt.id)
    requires ValidGameID(game) && seat.Valid() && seat.game == game
    ensures Announced(history, Posted(game, history, evt), seat)
  {
    CreateOrDeleteExactness(game, evt, ForNewEvent(evt), seat);
    PostTables(history, evt, seat);
  }

  lemma DeleteTables(history: seq<Event>, evt: Event, seat: Seat)
    requires WellFormedHistory(history)
    requires evt.id in Index(history) && Index(history)[evt.id] == evt
    ensures ApplyAll(Visible(Index(history), seat), if Sees(seat, evt) then [ForEventDelete(evt.id)] else [])
         == Visible(Index(Remove(history, evt.id)), seat)
  {
    var seen := Visible(Index(history), seat);
    RemoveIndex(history, evt.id);
    VisibleWithout(Index(history), evt.id, seat);
    VisibleAt(Index(history), evt, seat);
    ApplyOne(seen, ForEventDelete(evt.id));
    if !Sees(seat, evt) {
      WithoutAbsent(seen, evt.id);
    }
  }

  lemma DeleteAnnounced(game: string, history: seq<Event>, evt: Event, seat: Seat)
    requires WellFormedHistory(history) && WellFormedEvent(evt)
    requires evt.id in Index(history) && Index(history)[evt.id] == evt
    requires ValidGameID(game) && seat.Valid() && seat.game == game
    ensures Announced(history, Deleted(game, history, evt), seat)
  {
    CreateOrDeleteExactness(game, evt, ForEventDelete(evt.id), seat);
    DeleteTables(history, evt, seat);
  }

  lemma PatchedShare(evt: Event, newShare: Share)
    ensures Patched(Blank(evt), map["share" := Num(ShareNumber(newShare))]) == Blank(evt.(share := newShare))
  {
    var diff: Diff := map["share" := Num(ShareNumber(newShare))];
    assert diff - {"share"} == map[];
    assert evt.fields + map[] == evt.fields;
  }

  /** The update a seat gets of a share change turns what it saw into what it sees. */
  lemma ShareNewsApplied(seen: Table, evt: Event, changed: Event, after: bool)
    requires changed.id == evt.id && Blank(changed) == Blank(evt.(share := changed.share))
    requires evt.id in seen ==> seen[evt.id] == Blank(evt)
    ensures ApplyAll(seen, ShareNews(changed, evt.id in seen, after))
         == if after then seen[evt.id := Blank(changed)] else seen - {evt.id}
  {
    var news := ShareNews(changed, evt.id in seen, after);
    if news == [] {
      WithoutAbsent(seen, evt.id);
    } else {
      ApplyOne(seen, news[0]);
      PatchedShare(evt, changed.share);
    }
  }

  lemma ReshareTables(history: seq<Event>, evt: Event, changed: Event, seat: Seat)
    requires WellFormedHistory(history)
    requires evt.id in Index(history) && Index(history)[evt.id] == evt
    requires changed.id == evt.id && Blank(changed) == Blank(evt.(share := changed.share))
    ensures ApplyAll(Visible(Index(history), seat), ShareNews(changed, Sees(seat, evt), Sees(seat, changed)))
         == Visible(Index(Insert(Remove(history, evt.id), changed)), seat)
  {
    ReplaceIndex(history, changed);
    VisibleAt(Index(history), evt, seat);
    VisibleWith(Index(history), changed, seat);
    ShareNewsApplied(Visible(Index(history), seat), evt, changed, Sees(seat, changed));
  }

  lemma ShareNewsProper(changed: Event, before: bool, after: bool)
    requires changed.id > 0 && changed.ty != PlayerJoin
    ensures forall update | update in ShareNews(changed, before, after) :: Proper(update)
  {
  }

  lemma ReshareChange(game: string, history: seq<Event>, edited: Event, newShare: Share, seat: Seat)
    requires ValidPlayerID(edited.playerID) && edited.share != newShare
    requires ValidGameID(game) && seat.Valid() && seat.game == game
    ensures Reshared(game, history, edited, newShare).Some?
    ensures var changed := edited.(share := newShare);
            var change := Reshared(game, history, edited, newShare).value;
            && change.history == Insert(Remove(history, edited.id), changed)
            && Addressed(change.packets, seat) == ShareNews(changed, Sees(seat, edited), Sees(seat, changed))
  {
    ShareChangeExactness(game, edited, newShare, seat);
    SharePacketsWellFiltered(game, edited, newShare);
  }

  lemma ReshareAnnounced(history: seq<Event>, evt: Event, changed: Event, change: Change, seat: Seat)
    requires WellFormedHistory(history) && WellFormedEvent(evt) && evt.ty != PlayerJoin
    requires evt.id in Index(history) && Index(history)[evt.id] == evt
    requires changed == evt.(edit := changed.edit, share := changed.share)
    requires change.history == Insert(Remove(history, evt.id), changed)
    requires Addressed(change.packets, seat) == ShareNews(changed, Sees(seat, evt), Sees(seat, changed))
    ensures Announced(history, change, seat)
  {
    ReshareTables(history, evt, changed, seat);
    ShareNewsProper(changed, Sees(seat, evt), Sees(seat, changed));
  }

  lemma PatchedFields(evt: Event, diff: Diff)
    requires evt.ty != PlayerJoin && "share" !in diff
    ensures Patched(Blank(evt), diff) == Blank(evt.(fields := evt.fields + diff))
  {
    assert diff - {"share"} == diff;
  }

  lemma SetAsIs<V>(m: map<int, V>, id: int, v: V)
    requires id in m
    ensures m[id := v] == m <==> m[id] == v
  {
    if m[id := v] == m {
      assert m[id := v][id] == v;
    }
  }

  /** An edit that stores one diff and announces another keeps a seat's table right exactly when the seat
      hears of it and the diffs are the same, or it need not hear. */
  lemma EditTables(history: seq<Event>, evt: Event, newEvent: Event, stored: Diff, diff: Diff, heard: bool, seat: Seat)
    requires WellFormedHistory(history) && evt.ty != PlayerJoin && "share" !in diff
    requires evt.id in Index(history) && Index(history)[evt.id] == evt
    requires newEvent == evt.(edit := newEvent.edit, fields := evt.fields + stored)
    requires heard ==> Sees(seat, evt)
    ensures ApplyAll(Visible(Index(history), seat), EditNews(newEvent, diff, heard))
         == Visible(Index(Insert(Remove(history, evt.id), newEvent)), seat)
       <==> !Sees(seat, evt) || evt.fields + stored == if heard then evt.fields + diff else evt.fields
  {
    var seen := Visible(Index(history), seat);
    ReplaceIndex(history, newEvent);
    VisibleAt(Index(history), evt, seat);
    VisibleWith(Index(history), newEvent, seat);
    ApplyOne(seen, ForEventDiff(newEvent, diff));
    PatchedFields(evt, diff);
    if Sees(seat, evt) {
      var told := if heard then Blank(evt.(fields := evt.fields + diff)) else Blank(evt);
      SetTwice(seen, evt.id, told, Blank(newEvent));
      SetAsIs(seen, evt.id, Blank(evt));
    } else {
      WithoutAbsent(seen, evt.id);
    }
  }

  lemma SetTwice<V>(m: map<int, V>, id: int, v: V, v': V)
    ensures m[id := v] == m[id := v'] <==> v == v'
  {
    assert m[id := v][id] == v && m[id := v'][id] == v';
  }

  /** What a seat is told of an edit. */
  lemma EditAddressed(game: string, history: seq<Event>, evt: Event, diff: Diff, time: int, seat: Seat)
    requires WellFormedEvent(evt) && ValidGameID(game) && seat.Valid() && seat.game == game
    ensures Addressed(AnnouncedEdit(game, history, evt, diff, time).packets, seat)
         == EditNews(EditedEvent(evt, diff, time), diff, Sees(seat, evt) && !Unheard(evt, seat))
  {
    var newEvent := EditedEvent(evt, diff, time);
    EditReachesViewersIff(game, newEvent, ForEventDiff(newEvent, diff), seat);
  }

  /** A change whose packets tell a seat of an edit, or do not, announces it faithfully exactly when the
      seat need not know, or what it is told is what is stored. */
  lemma EditChangeAnnouncedIff(
      history: seq<Event>, evt: Event, newEvent: Event, stored: Diff, diff: Diff, heard: bool, change: Change, seat: Seat)
    requires WellFormedHistory(history) && evt.ty != PlayerJoin && Proper(ForEventDiff(newEvent, diff)) && "share" !in diff
    requires evt.id in Index(history) && Index(history)[evt.id] == evt
    requires newEvent == evt.(edit := newEvent.edit, fields := evt.fields + stored)
    requires heard ==> Sees(seat, evt)
    requires change.history == Insert(Remove(history, evt.id), newEvent)
    requires Addressed(change.packets, seat) == EditNews(newEvent, diff, heard)
    ensures Announced(history, change, seat)
       <==> !Sees(seat, evt) || evt.fields + stored == if heard then evt.fields + diff else evt.fields
  {
    EditTables(history, evt, newEvent, stored, diff, heard, seat);
  }

  lemma MisleadsIff(evt: Event, diff: Diff, seat: Seat)
    requires Accepts(evt, diff)
    ensures Misleads(evt, diff, seat)
       <==> Sees(seat, evt) && evt.fields + Stored(diff) != if Unheard(evt, seat) then evt.fields else evt.fields + diff
  {
    StoredAsAnnouncedIff(evt, diff);
    SameFieldsIff(evt.fields, Stored(diff), diff);
  }

  /** An edit is faithfully announced to a seat of its game except, exactly, when it misleads the seat. */
  lemma EditAnnouncedIff(game: string, history: seq<Event>, evt: Event, diff: Diff, time: int, seat: Seat)
    requires WellFormedHistory(history) && WellFormedEvent(evt) && Accepts(evt, diff)
    requires evt.id in Index(history) && Index(history)[evt.id] == evt
    requires ValidGameID(game) && seat.Valid() && seat.game == game
    ensures Announced(history, AnnouncedEdit(game, history, evt, diff, time), seat) <==> !Misleads(evt, diff, seat)
  {
    var heard := Sees(seat, evt) && !Unheard(evt, seat);
    EditAddressed(game, history, evt, diff, time, seat);
    MisleadsIff(evt, diff, seat);
    EditChangeAnnouncedIff(
      history, evt, EditedEvent(evt, diff, time), Stored(diff), diff, heard, AnnouncedEdit(game, history, evt, diff, time), seat);
  }

  /** A server step reaches no seat of another game. */
  lemma OtherGamesUntouched(w: World, step: Step, seat: Seat)
    requires WellFormed(w) && ValidStep(w, step) && seat.Valid()
    requires ServerChange(w, step).Some? && step.game != seat.game
    ensures Addressed(ServerChange(w, step).value.packets, seat) == []
  {
    HistoryWellFormed(w, step.game);
    match step
    case Post(game, evt) =>
      CreateOrDeleteExactness(game, evt, ForNewEvent(evt), seat);
    case Delete(game, id) =>
      CreateOrDeleteExactness(game, Index(w.History(game))[id], ForEventDelete(id), seat);
    case ChangeShare(game, id, newShare, time) =>
      SharePacketsPanicIff(game, Index(w.History(game))[id].(edit := time), newShare);
      ShareChangeExactness(game, Index(w.History(game))[id].(edit := time), newShare, seat);
    case Edit(game, id, diff, time) =>
      var newEvent := EditedEvent(Index(w.History(game))[id], diff, time);
      EditStaysInGame(game, newEvent, ForEventDiff(newEvent, diff), seat);
  }

  lemma PacketsWellFiltered(w: World, step: Step)
    requires WellFormed(w) && ValidStep(w, step) && ServerChange(w, step).Some?
    ensures forall packet | packet in ServerChange(w, step).value.packets :: WellFiltered(packet.filter)
  {
    HistoryWellFormed(w, step.game);
    if step.ChangeShare? {
      var evt := Index(w.History(step.game))[step.id].(edit := step.time);
      SharePacketsPanicIff(step.game, evt, step.newShare);
      SharePacketsWellFiltered(step.game, evt, step.newShare);
    }
  }

  /** Every server step is faithfully announced to every seat of its game, except an edit that misleads the seat. */
  lemma StepAnnouncedIff(w: World, step: Step, seat: Seat)
    requires WellFormed(w) && ValidStep(w, step) && seat.Valid()
    requires ServerChange(w, step).Some? && step.game == seat.game
    ensures Announced(w.History(step.game), ServerChange(w, step).value, seat) <==> !Misled(w, step, seat)
  {
    HistoryWellFormed(w, step.game);
    var history := w.History(step.game);
    match step
    case Post(game, evt) =>
      PostAnnounced(game, history, evt, seat);
    case Delete(game, id) =>
      DeleteAnnounced(game, history, Index(history)[id], seat);
    case ChangeShare(game, id, newShare, time) =>
      var evt := Index(history)[id];
      var edited := evt.(edit := time);
      SharePacketsPanicIff(game, edited, newShare);
      ReshareChange(game, history, edited, newShare, seat);
      assert Sees(seat, evt) == Sees(seat, edited);
      ReshareAnnounced(history, evt, edited.(share := newShare), ServerChange(w, step).value, seat);
    case Edit(game, id, diff, time) =>
      EditAnnouncedIff(game, history, Index(history)[id], diff, time, seat);
  }

  // ---- Steps and runs ----

  lemma {:induction false} ReplaceWellFormed(history: seq<Event>, evt: Event)
    requires WellFormedHistory(history) && WellFormedEvent(evt)
    ensures WellFormedHistory(Insert(Remove(history, evt.id), evt))
  {
    RemoveIndex(history, evt.id);
    InsertMembers(Remove(history, evt.id), evt);
  }

  lemma ChangeWellFormed(w: World, step: Step)
    requires WellFormed(w) && ValidStep(w, step) && ServerChange(w, step).Some?
    ensures ValidGameID(step.game) && WellFormedHistory(ServerChange(w, step).value.history)
  {
    HistoryWellFormed(w, step.game);
    var history := w.History(step.game);
    match step
    case Post(game, evt) =>
      InsertMembers(history, evt);
    case Delete(game, id) =>
      RemoveIndex(history, id);
    case ChangeShare(game, id, newShare, time) =>
      var edited := Index(history)[id].(edit := time);
      SharePacketsPanicIff(game, edited, newShare);
      SharePacketsWellFiltered(game, edited, newShare);
      ReplaceWellFormed(history, edited.(share := newShare));
    case Edit(game, id, diff, time) =>
      ReplaceWellFormed(history, EditedEvent(Index(history)[id], diff, time));
  }

  lemma StepKeepsWellFormed(codec: Codec, w: World, step: Step)
    requires WellFormed(w) && ValidStep(w, step)
    ensures WellFormed(Next(codec, w, step))
  {
    if ServerChange(w, step).Some? {
      ChangeWellFormed(w, step);
    }
  }

  lemma NextAfterChange(codec: Codec, w: World, step: Step, i: nat)
    requires ServerChange(w, step).Some? && i < |w.subscribers|
    ensures var s, change := w.subscribers[i], ServerChange(w, step).value;
            && Next(codec, w, step).subscribers[i] == Notified(codec, s, change.packets)
            && Next(codec, w, step).History(s.seat.game)
               == if step.game == s.seat.game then change.history else w.History(s.seat.game)
  {
  }

  /** What a change of its game makes of a subscriber in sync. */
  lemma ChangeSyncIff(codec: Codec, w: World, step: Step, s: Subscriber)
    requires codec.Faithful() && WellFormed(w) && ValidStep(w, step) && Carried(codec, w, step) && s.seat.Valid()
    requires ServerChange(w, step).Some? && step.game == s.seat.game
    requires Synced(codec, w.History(step.game), s)
    ensures var change := ServerChange(w, step).value;
            Synced(codec, change.history, Notified(codec, s, change.packets)) <==> !Misled(w, step, s.seat)
  {
    PacketsWellFiltered(w, step);
    NotifiedPending(codec, s, ServerChange(w, step).value.packets);
    StepAnnouncedIff(w, step, s.seat);
    if Misled(w, step, s.seat) {
      HistoryWellFormed(w, step.game);
      EditAddressed(step.game, w.History(step.game), Index(w.History(step.game))[step.id], step.diff, step.time, s.seat);
    }
  }

  /** A change of another game leaves a subscriber as it was. */
  lemma OtherChangeKeepsSync(codec: Codec, w: World, step: Step, history: seq<Event>, s: Subscriber)
    requires codec.Faithful() && WellFormed(w) && ValidStep(w, step) && Carried(codec, w, step) && s.seat.Valid()
    requires ServerChange(w, step).Some? && step.game != s.seat.game
    requires Synced(codec, history, s)
    ensures Synced(codec, history, Notified(codec, s, ServerChange(w, step).value.packets))
  {
    OtherGamesUntouched(w, step, s.seat);
    PacketsWellFiltered(w, step);
    NotifiedPending(codec, s, ServerChange(w, step).value.packets);
  }

  lemma ServerStepSyncIff(codec: Codec, w: World, step: Step, i: nat)
    requires codec.Faithful() && WellFormed(w) && ValidStep(w, step) && Carried(codec, w, step)
    requires i < |w.subscribers| && InSync(codec, w, i)
    requires !step.RelayNext? && !step.Receive?
    ensures Next(codec, w, step).subscribers[i].seat == w.subscribers[i].seat
    ensures InSync(codec, Next(codec, w, step), i) <==> !Misled(w, step, w.subscribers[i].seat)
  {
    var s := w.subscribers[i];
    if ServerChange(w, step).Some? {
      NextAfterChange(codec, w, step, i);
      if step.game == s.seat.game {
        ChangeSyncIff(codec, w, step, s);
      } else {
        OtherChangeKeepsSync(codec, w, step, w.History(s.seat.game), s);
      }
    }
  }

  /** One step of any kind keeps a subscriber in sync exactly when it is not an edit that misleads the subscriber. */
  lemma StepKeepsSyncIff(codec: Codec, w: World, step: Step, i: nat)
    requires codec.Faithful() && WellFormed(w) && ValidStep(w, step) && Carried(codec, w, step)
    requires i < |w.subscribers| && InSync(codec, w, i)
    ensures |Next(codec, w, step).subscribers| == |w.subscribers|
    ensures Next(codec, w, step).subscribers[i].seat == w.subscribers[i].seat
    ensures InSync(codec, Next(codec, w, step), i) <==> !Misled(w, step, w.subscribers[i].seat)
  {
    if step.RelayNext? || step.Receive? {
      DeliveryKeepsSettled(codec, w, step, i);
    } else {
      ServerStepSyncIff(codec, w, step, i);
    }
  }

  function Run(codec: Codec, w: World, steps: seq<Step>): World
    decreases |steps|
  {
    if steps == [] then w else Run(codec, Next(codec, w, steps[0]), steps[1..])
  }

  predicate ValidRun(codec: Codec, w: World, steps: seq<Step>)
    decreases |steps|
  {
    steps != [] ==> ValidStep(w, steps[0]) && Carried(codec, w, steps[0]) && ValidRun(codec, Next(codec, w, steps[0]), steps[1..])
  }

  /** No step of the run is an edit that misleads this seat. */
  predicate NeverMisled(codec: Codec, w: World, steps: seq<Step>, seat: Seat)
    decreases |steps|
  {
    steps != [] ==> !Misled(w, steps[0], seat) && NeverMisled(codec, Next(codec, w, steps[0]), steps[1..], seat)
  }

  /** Over every run, with posts, deletes, share changes and edits in any games interleaved in any way
      with deliveries, a subscriber that is never misled stays in sync. */
  lemma {:induction false} Convergence(codec: Codec, w: World, steps: seq<Step>, i: nat)
    requires codec.Faithful() && WellFormed(w) && ValidRun(codec, w, steps)
    requires i < |w.subscribers| && InSync(codec, w, i)
    requires NeverMisled(codec, w, steps, w.subscribers[i].seat)
    ensures WellFormed(Run(codec, w, steps))
    ensures |Run(codec, w, steps).subscribers| == |w.subscribers|
    ensures Run(codec, w, steps).subscribers[i].seat == w.subscribers[i].seat
    ensures InSync(codec, Run(codec, w, steps), i)
    decreases |steps|
  {
    if steps != [] {
      StepKeepsWellFormed(codec, w, steps[0]);
      StepKeepsSyncIff(codec, w, steps[0], i);
      Convergence(codec, Next(codec, w, steps[0]), steps[1..], i);
    }
  }

  /** A client that is in sync before the run and after every step of it. */
  predicate SyncedThroughout(codec: Codec, w: World, steps: seq<Step>, i: nat)
    requires i < |w.subscribers|
    decreases |steps|
  {
    InSync(codec, w, i) && (steps != [] ==> SyncedThroughout(codec, Next(codec, w, steps[0]), steps[1..], i))
  }

  /** Over every run, exactly the subscribers that are never misled stay in sync throughout. */
  lemma {:induction false} SyncedThroughoutIff(codec: Codec, w: World, steps: seq<Step>, i: nat)
    requires codec.Faithful() && WellFormed(w) && ValidRun(codec, w, steps)
    requires i < |w.subscribers| && InSync(codec, w, i)
    ensures SyncedThroughout(codec, w, steps, i) <==> NeverMisled(codec, w, steps, w.subscribers[i].seat)
    decreases |steps|
  {
    if steps != [] {
      StepKeepsWellFormed(codec, w, steps[0]);
      StepKeepsSyncIff(codec, w, steps[0], i);
      if InSync(codec, Next(codec, w, steps[0]), i) {
        SyncedThroughoutIff(codec, Next(codec, w, steps[0]), steps[1..], i);
      }
    }
  }

  /** The server step is an edit that misleads someone: one that is not stored as announced, or that
      changes an event shared with GMs. */
  predicate Misleading(w: World, step: Step) {
    && step.Edit?
    && (match Editable(w.History(step.game), step.id)
        case None => false
        case Some(evt) =>
          Accepts(evt, step.diff) && (!Exact(step.diff) || (evt.share == GMs && evt.fields + Stored(step.diff) != evt.fields)))
  }

  predicate NothingMisleading(codec: Codec, w: World, steps: seq<Step>)
    decreases |steps|
  {
    steps != [] ==> !Misleading(w, steps[0]) && NothingMisleading(codec, Next(codec, w, steps[0]), steps[1..])
  }

  /** An edit is misleading if and only if some seat, the owner's with or without the GM role, is misled. */
  lemma MisleadingIff(w: World, step: Step)
    requires WellFormed(w)
    ensures Misleading(w, step) <==> exists seat: Seat :: seat.Valid() && Misled(w, step, seat)
  {
    if step.Edit? {
      HistoryWellFormed(w, step.game);
      if Misleading(w, step) {
        var evt := Index(w.History(step.game))[step.id];
        var seat := Seat(step.game, evt.playerID, !Exact(step.diff));
        assert seat.Valid() && Misled(w, step, seat);
      }
      if seat: Seat :| seat.Valid() && Misled(w, step, seat) {
        assert Misleading(w, step);
      }
    }
  }

  /** In a run without misleading edits nobody is misled; a run that misleads nobody has none. */
  lemma {:induction false} NobodyMisledIff(codec: Codec, w: World, steps: seq<Step>)
    requires WellFormed(w) && ValidRun(codec, w, steps)
    ensures NothingMisleading(codec, w, steps)
       <==> forall seat: Seat | seat.Valid() :: NeverMisled(codec, w, steps, seat)
    decreases |steps|
  {
    if steps != [] {
      MisleadingIff(w, steps[0]);
      StepKeepsWellFormed(codec, w, steps[0]);
      NobodyMisledIff(codec, Next(codec, w, steps[0]), steps[1..]);
    }
  }

  /** GMs hear of every edit, so a run of edits that are stored as announced never misleads them. */
  lemma {:induction false} GMsNeverMisled(codec: Codec, w: World, steps: seq<Step>, seat: Seat)
    requires seat.isGM && forall step | step in steps && step.Edit? :: Exact(step.diff)
    ensures NeverMisled(codec, w, steps, seat)
    decreases |steps|
  {
    if steps != [] {
      assert steps[0] in steps && forall step | step in steps[1..] :: step in steps;
      GMsNeverMisled(codec, Next(codec, w, steps[0]), steps[1..], seat);
    }
  }

  lemma BlankedVisibleList(history: seq<Event>, seat: Seat)
    requires Descending(history)
    ensures Descending(MapEvents(VisibleList(history, seat), Blank))
    ensures Index(MapEvents(VisibleList(history, seat), Blank)) == Visible(Index(history), seat)
  {
    FilterIndex(history, Seer(seat));
    MapIndex(VisibleList(history, seat), Blank);
    IndexLookup(history);
    SameMap(Index(MapEvents(VisibleList(history, seat), Blank)), Visible(Index(history), seat));
  }

  /** The client shows, event by event and in order, the history filtered by what its player can see. */
  predicate Agrees(w: World, i: nat)
    requires i < |w.subscribers|
  {
    var s := w.subscribers[i];
    MapEvents(s.client.events, Blank) == MapEvents(VisibleList(w.History(s.seat.game), s.seat), Blank)
  }

  /** A drained client in sync agrees with the server. */
  lemma DrainedAgrees(codec: Codec, w: World, i: nat)
    requires WellFormed(w) && i < |w.subscribers| && InSync(codec, w, i)
    requires w.subscribers[i].inbox == [] && w.subscribers[i].stream == []
    ensures Agrees(w, i)
  {
    var s := w.subscribers[i];
    var history := w.History(s.seat.game);
    HistoryWellFormed(w, s.seat.game);
    assert Pending(codec, s) == [];
    MapIndex(s.client.events, Blank);
    BlankedVisibleList(history, s.seat);
    SameIndexSameList(MapEvents(s.client.events, Blank), MapEvents(VisibleList(history, s.seat), Blank));
  }

  /** Convergence end to end: after any run in which its client is never misled, a drained subscriber
      agrees exactly with the server. */
  lemma DrainedRunAgrees(codec: Codec, w: World, steps: seq<Step>, i: nat)
    requires codec.Faithful() && WellFormed(w) && ValidRun(codec, w, steps)
    requires i < |w.subscribers| && InSync(codec, w, i)
    requires NeverMisled(codec, w, steps, w.subscribers[i].seat)
    ensures |Run(codec, w, steps).subscribers| == |w.subscribers|
    ensures Run(codec, w, steps).subscribers[i].inbox == [] && Run(codec, w, steps).subscribers[i].stream == [] ==>
      Agrees(Run(codec, w, steps), i)
  {
    Convergence(codec, w, steps, i);
    var s := Run(codec, w, steps).subscribers[i];
    if s.inbox == [] && s.stream == [] {
      DrainedAgrees(codec, Run(codec, w, steps), i);
    }
  }

  /** A drained client that holds everything its player may see is in sync. */
  lemma FullViewInSync(codec: Codec, history: seq<Event>, s: Subscriber)
    requires WellFormedHistory(history)
    requires s.client.events == VisibleList(history, s.seat) && s.inbox == [] && s.stream == []
    ensures Synced(codec, history, s)
  {
    FilterDescending(history, Seer(s.seat));
    MapIndex(VisibleList(history, s.seat), Blank);
    BlankedVisibleList(history, s.seat);
    assert Pending(codec, s) == [];
  }

  /** A client that pages until finished, through a history without gaps, is in sync from then on. */
  lemma PagedClientInSync(codec: Codec, history: seq<Event>, pageSize: nat, seat: Seat)
    requires WellFormedHistory(history)
    requires VisibleList(history, seat) == []
             || (!Paging.BlindStart(history, pageSize, seat) && Paging.NoGaps(history, pageSize, seat))
    ensures exists loads: nat ::
              Synced(codec, history, Subscriber(seat, [], [], Paging.After(history, pageSize, seat, loads)))
  {
    Paging.PagingCompleteIff(history, pageSize, seat);
    var loads: nat :| Paging.Complete(history, seat, Paging.After(history, pageSize, seat, loads));
    FullViewInSync(codec, history, Subscriber(seat, [], [], Paging.After(history, pageSize, seat, loads)));
  }
}
