/** Loading older events while the game goes on. A load fetches a page of the history as it is now and merges
    it, with updates about it still on their way. */
module Following {
  import opened Wrappers
  import opened Events
  import opened EventList
  import opened Channels
  import opened Packets
  import opened EventStore
  import opened ClientReducer
  import opened Tables
  import opened Convergence
  import opened Tracking
  import opened Replay
  import P = Paging

  /** What can happen: a server step or delivery, or a subscriber that loads more. */
  datatype Move = Take(step: Step) | Load(subscriber: nat)

  function LoadedMore(w: World, pageSize: nat, s: Subscriber): Subscriber {
    s.(client := P.LoadMore(w.History(s.seat.game), pageSize, s.seat, s.client))
  }

  function Moved(codec: Codec, w: World, pageSize: nat, move: Move): (w': World)
    ensures |w'.subscribers| == |w.subscribers|
  {
    match move
    case Take(step) => Next(codec, w, step)
    case Load(i) =>
      if i < |w.subscribers| then w.(subscribers := w.subscribers[i := LoadedMore(w, pageSize, w.subscribers[i])]) else w
  }

  // ---- What a page covers ----

  function Oldest(events: seq<Event>): int
    requires events != []
  {
    events[|events| - 1].id
  }

  function PageAt(history: seq<Event>, pageSize: nat, newest: int): seq<Event> {
    P.GetBetween(history, Some(newest), None, pageSize)
  }

  /** The id down to which a page covers the history; 0 when it reaches the end. */
  function Covered(page: seq<Event>, pageSize: nat): int {
    if page == [] || |page| < pageSize then 0 else Oldest(page)
  }

  /** The visible events of a page are events of the history, all of those it covers. */
  lemma PageCovers(history: seq<Event>, pageSize: nat, newest: int, evt: Event)
    requires Descending(history) && PositiveIds(history) && pageSize > 0
    ensures var page := PageAt(history, pageSize, newest);
            && (evt in page ==> evt in history && evt.id <= newest)
            && (evt in history && Covered(page, pageSize) <= evt.id <= newest ==> evt in page)
  {
    var between := Filter(history, P.InRange(Some(newest), None));
    FilterDescending(history, P.InRange(Some(newest), None));
    var page := PageAt(history, pageSize, newest);
    assert forall k | 0 <= k < |page| :: page[k] == between[k];
    if evt in between {
      var k :| 0 <= k < |between| && between[k] == evt;
      assert k < |page| ==> page[k] == evt;
    }
  }

  lemma PageIsOlder(history: seq<Event>, pageSize: nat, newest: int, seat: Seat)
    ensures forall evt | evt in VisibleList(PageAt(history, pageSize, newest), seat) :: evt.id <= newest
  {
    var between := Filter(history, P.InRange(Some(newest), None));
    assert forall evt | evt in PageAt(history, pageSize, newest) :: evt in between;
  }

  lemma PageDescending(history: seq<Event>, pageSize: nat, newest: int, seat: Seat)
    requires Descending(history) && PositiveIds(history)
    ensures var shown := VisibleList(PageAt(history, pageSize, newest), seat);
            Descending(shown) && PositiveIds(shown)
  {
    FilterDescending(history, P.InRange(Some(newest), None));
    FilterDescending(PageAt(history, pageSize, newest), Seer(seat));
  }

  /** The table of what a page shows. */
  function PageTable(history: seq<Event>, pageSize: nat, newest: int, seat: Seat): Table {
    Blanked(Index(VisibleList(PageAt(history, pageSize, newest), seat)))
  }

  /** A page shows what is visible of the history, all of it in what the page covers. */
  lemma PageShows(history: seq<Event>, pageSize: nat, newest: int, seat: Seat, id: int)
    requires Descending(history) && PositiveIds(history) && pageSize > 0
    ensures var shown, seen := PageTable(history, pageSize, newest, seat), Visible(Index(history), seat);
            && (id in shown ==> id in seen && shown[id] == seen[id])
            && (id in seen && Covered(PageAt(history, pageSize, newest), pageSize) <= id <= newest ==> id in shown)
  {
    var page := PageAt(history, pageSize, newest);
    var shown := VisibleList(page, seat);
    PageDescending(history, pageSize, newest, seat);
    IndexLookup(shown);
    IndexLookup(history);
    if id in Index(shown) {
      PageCovers(history, pageSize, newest, Index(shown)[id]);
    }
    if id in Index(history) {
      PageCovers(history, pageSize, newest, Index(history)[id]);
    }
  }

  /** How many events within bounds are newer than an event. */
  function NewerWithin(history: seq<Event>, newest: Option<int>, oldest: Option<int>, evt: Event): nat {
    |Filter(history, (e: Event) => P.InRange(newest, oldest)(e) && e.id > evt.id)|
  }

  lemma {:induction false} NewerInPrefix(between: seq<Event>, k: nat)
    requires Descending(between) && k < |between|
    ensures |Filter(between, (e: Event) => e.id > between[k].id)| == k
  {
    var newer := Filter(between, (e: Event) => e.id > between[k].id);
    FilterDescending(between, (e: Event) => e.id > between[k].id);
    P.PrefixDescending(between, 0, k);
    assert between[0..k] == between[..k];
    forall e ensures e in newer <==> e in between[..k] {
      if e in newer {
        var i :| 0 <= i < |between| && between[i] == e;
        assert between[..k][i] == e;
      }
    }
    SameMembersSameList(newer, between[..k]);
  }

  lemma {:induction false} FilterTwice(events: seq<Event>, p: Event -> bool, q: Event -> bool, both: Event -> bool)
    requires forall e :: both(e) <==> p(e) && q(e)
    ensures Filter(Filter(events, p), q) == Filter(events, both)
  {
    if events != [] {
      FilterTwice(events[1..], p, q, both);
      var tail := Filter(events[1..], p);
      if p(events[0]) {
        assert Filter(events, p) == [events[0]] + tail && ([events[0]] + tail)[1..] == tail;
      } else {
        assert Filter(events, p) == tail;
      }
    }
  }

  /** A page within bounds holds exactly the events of the history there that fewer than a page are newer than. */
  lemma BoundedPage(history: seq<Event>, newest: Option<int>, oldest: Option<int>, pageSize: nat, evt: Event)
    requires Descending(history)
    ensures evt in P.GetBetween(history, newest, oldest, pageSize)
       <==> evt in history && P.InRange(newest, oldest)(evt) && NewerWithin(history, newest, oldest, evt) < pageSize
  {
    var between := Filter(history, P.InRange(newest, oldest));
    var page := P.GetBetween(history, newest, oldest, pageSize);
    FilterDescending(history, P.InRange(newest, oldest));
    assert forall k | 0 <= k < |page| :: page[k] == between[k];
    if evt in between {
      var k :| 0 <= k < |between| && between[k] == evt;
      NewerInPrefix(between, k);
      FilterTwice(history, P.InRange(newest, oldest), (e: Event) => e.id > evt.id,
                  (e: Event) => P.InRange(newest, oldest)(e) && e.id > evt.id);
      assert k < |page| ==> page[k] == evt;
      if evt in page {
        var i :| 0 <= i < |page| && page[i] == evt;
        assert between[i].id == between[k].id;
      }
    }
  }

  /** A response within bounds holds the visible events of that page; its last id is that of the oldest event
      in it, or 0 when it has none, and it announces more exactly when it shows something and the page is full. */
  lemma BoundedResponse(history: seq<Event>, newest: Option<int>, oldest: Option<int>, pageSize: nat, seat: Seat, evt: Event)
    requires Descending(history)
    ensures var response := P.EventRange(history, newest, oldest, pageSize, seat);
            && (evt in response.events
                <==> && evt in history && Sees(seat, evt)
                     && (newest.Some? ==> evt.id <= newest.value) && (oldest.Some? ==> oldest.value <= evt.id)
                     && NewerWithin(history, newest, oldest, evt) < pageSize)
            && (evt in response.events ==> response.lastID <= evt.id)
            && (response.events == [] ==> response.lastID == 0 && !response.more)
            && (response.events != [] ==> HasId(response.events, response.lastID))
            && Descending(response.events)
  {
    var page := P.GetBetween(history, newest, oldest, pageSize);
    BoundedPage(history, newest, oldest, pageSize, evt);
    FilterDescending(history, P.InRange(newest, oldest));
    FilterDescending(page, Seer(seat));
    ResponseTo(history, newest, oldest, pageSize, seat, page, VisibleList(page, seat));
    ShownOfPage(page, seat, evt);
  }

  lemma ShownOfPage(page: seq<Event>, seat: Seat, evt: Event)
    ensures evt in VisibleList(page, seat) <==> evt in page && Sees(seat, evt)
  {
  }

  lemma ResponseTo(
      history: seq<Event>, newest: Option<int>, oldest: Option<int>, pageSize: nat, seat: Seat, page: seq<Event>, shown: seq<Event>)
    requires page == P.GetBetween(history, newest, oldest, pageSize) && shown == VisibleList(page, seat) && Descending(shown)
    ensures var response := P.EventRange(history, newest, oldest, pageSize, seat);
            && response.events == shown && response.more == (shown != [] && |page| == pageSize)
            && (shown == [] ==> response.lastID == 0) && (shown != [] ==> HasId(shown, response.lastID))
            && (forall e | e in shown :: response.lastID <= e.id)
  {
    if shown != [] {
      OldestIsLeast(shown);
      assert shown[|shown| - 1] in shown;
    }
  }

  /** Loading more at a row asks for the page from the event above the row and merges what it shows; it does
      nothing unless the client is ready and there is such an event. */
  lemma LoadMoreAtEffect(history: seq<Event>, pageSize: nat, seat: Seat, client: State, row: int, evt: Event)
    requires Descending(history) && PositiveIds(history) && Ordered(client)
    ensures var client' := P.LoadMoreAt(history, pageSize, seat, client, row);
            if client.historyFetch != Ready || row <= 0 || row > |client.events| then client' == client
            else
              var page := PageAt(history, pageSize, client.events[row - 1].id);
              var shown := VisibleList(page, seat);
              && (evt in client'.events <==> evt in shown || (evt in client.events && !HasId(shown, evt.id)))
              && Ordered(client') && client'.editing == client.editing
              && client'.historyFetch == if shown != [] && |page| == pageSize then Ready else Finished
  {
    if client.historyFetch == Ready && 0 < row <= |client.events| {
      var x := client.events[row - 1].id;
      LoadMoreIs(history, pageSize, seat, client, row);
      PageDescending(history, pageSize, x, seat);
      MergeMembers(client.events, VisibleList(PageAt(history, pageSize, x), seat));
    }
  }

  /** What a client is after a response: the events shown merged, and ready for more or finished. */
  function Merged(client: State, shown: seq<Event>, more: bool): State {
    client.(events := Merge(client.events, shown), historyFetch := if more then Ready else Finished)
  }

  lemma LoadMoreIs(history: seq<Event>, pageSize: nat, seat: Seat, client: State, row: int)
    requires client.historyFetch == Ready && 0 < row <= |client.events|
    ensures var page := PageAt(history, pageSize, client.events[row - 1].id);
            var shown := VisibleList(page, seat);
            P.LoadMoreAt(history, pageSize, seat, client, row) == Merged(client, shown, shown != [] && |page| == pageSize)
  {
    var fetching := client.(historyFetch := Fetching);
    var response := P.EventRange(history, Some(client.events[row - 1].id), None, pageSize, seat);
    assert P.LoadMoreAt(history, pageSize, seat, client, row) == P.Loaded(fetching, response);
    ResponseMerged(fetching, response);
  }

  lemma ResponseMerged(client: State, response: P.Response)
    ensures P.Loaded(client, response) == Merged(client, response.events, response.more)
  {
    P.LoadedState(client, response);
  }

  // ---- A load ----

  /** The cursor after a load: down to where the page covers the history, when the page starts where the
      client has everything. */
  function CursorAfterLoad(history: seq<Event>, pageSize: nat, client: State, cursor: int): int {
    if client.historyFetch != Ready || client.events == [] || Oldest(client.events) < cursor then cursor
    else P.Min(cursor, Covered(PageAt(history, pageSize, Oldest(client.events)), pageSize))
  }

  /** A load puts what the page shows over what the client has. */
  lemma LoadMoreTable(history: seq<Event>, pageSize: nat, seat: Seat, client: State)
    requires Descending(history) && PositiveIds(history) && Ordered(client)
    requires client.historyFetch == Ready && client.events != []
    ensures var client' := P.LoadMore(history, pageSize, seat, client);
            && Ordered(client')
            && Blanked(Index(client'.events)) == Blanked(Index(client.events)) + PageTable(history, pageSize, Oldest(client.events), seat)
  {
    var shown := VisibleList(PageAt(history, pageSize, Oldest(client.events)), seat);
    LoadMoreIs(history, pageSize, seat, client, |client.events|);
    PageDescending(history, pageSize, Oldest(client.events), seat);
    MergeRefinesOverride(client.events, shown);
    MergeMembers(client.events, shown);
    BlankedOverride(Index(client.events), Index(shown));
  }

  lemma BlankedOverride(t: Table, t': Table)
    ensures Blanked(t + t') == Blanked(t) + Blanked(t')
  {
  }

  /** Whatever updates have made a table what is visible now, applying them to what is visible now gives
      that again. */
  lemma ReplayAgrees(base: Table, seen: Table, updates: seq<Update>, stale: set<int>)
    requires forall update | update in updates :: Proper(update)
    requires AgreeFrom(ApplyAll(base, updates), seen, 0, stale) && forall id | id in seen :: id > 0
    ensures AgreeFrom(ApplyAll(seen, updates), seen, 0, stale)
  {
    var now := ApplyAll(base, updates);
    assert AgreeFrom(seen, now, 0, stale);
    ApplyAllKeepsAgreement(seen, now, 0, stale, updates);
    RefreshedShrinks(stale, updates);
    ReplayChangesNothing(base, updates);
  }

  /** What becomes of one id when a page is put over a table: what becomes of the page's event, or of the
      table's. */
  lemma OverrideAt(t: Table, shown: Table, seen: Table, updates: seq<Update>, id: int)
    requires forall update | update in updates :: Proper(update)
    requires id in shown ==> id in seen && shown[id] == seen[id]
    ensures At(ApplyAll(t + shown, updates), id) == At(ApplyAll(if id in shown then seen else t, updates), id)
  {
    ApplyAllPointwise(t + shown, if id in shown then seen else t, updates, id);
  }

  /** A page put over a table that agrees with what is seen from a cursor on gives one that agrees from
      lower down, when every id seen between is on the page. */
  lemma OverrideAgrees(t: Table, shown: Table, seen: Table, updates: seq<Update>, cursor: int, cursor': int, stale: set<int>)
    requires forall update | update in updates :: Proper(update)
    requires AgreeFrom(ApplyAll(t, updates), seen, cursor, stale) && AgreeFrom(ApplyAll(seen, updates), seen, 0, stale)
    requires forall id | id in shown :: id in seen && shown[id] == seen[id]
    requires forall id | id in seen :: id > 0 && (cursor' <= id < cursor ==> id in shown)
    ensures AgreeFrom(ApplyAll(t + shown, updates), seen, cursor', stale)
  {
    var t' := ApplyAll(t + shown, updates);
    forall id
      ensures id in t' ==> id in seen && Bare(t'[id]) == Bare(seen[id]) && (id !in stale ==> t'[id] == seen[id])
      ensures id in seen && id >= cursor' ==> id in t'
    {
      OverrideAt(t, shown, seen, updates, id);
      var was := ApplyAll(if id in shown then seen else t, updates);
      assert At(t', id) == At(was, id);
    }
  }

  /** Some table the updates on their way make what is visible now. */
  ghost predicate Backed(codec: Codec, history: seq<Event>, s: Subscriber, stale: set<int>) {
    exists base: Table :: AgreeFrom(ApplyAll(base, Pending(codec, s)), Visible(Index(history), s.seat), 0, stale)
  }

  /** A subscriber that tracks a history and can load more of it. */
  ghost predicate Follows(codec: Codec, history: seq<Event>, s: Subscriber, cursor: int, stale: set<int>) {
    Tracks(codec, history, s, cursor, stale) && Backed(codec, history, s, stale)
  }

  ghost predicate FollowsGame(codec: Codec, w: World, i: nat, cursor: int, stale: set<int>)
    requires i < |w.subscribers|
  {
    Follows(codec, w.History(w.subscribers[i].seat.game), w.subscribers[i], cursor, stale)
  }

  lemma VisiblePositive(history: seq<Event>, seat: Seat)
    requires WellFormedHistory(history)
    ensures forall id | id in Visible(Index(history), seat) :: id > 0
  {
    IndexLookup(history);
  }

  /** A load keeps a subscriber following, and moves its cursor. */
  lemma LoadKeepsFollowing(codec: Codec, history: seq<Event>, pageSize: nat, s: Subscriber, cursor: int, stale: set<int>)
    requires WellFormedHistory(history) && pageSize > 0 && Follows(codec, history, s, cursor, stale)
    ensures Follows(codec, history, s.(client := P.LoadMore(history, pageSize, s.seat, s.client)),
                    CursorAfterLoad(history, pageSize, s.client, cursor), stale)
  {
    var s' := s.(client := P.LoadMore(history, pageSize, s.seat, s.client));
    assert Pending(codec, s') == Pending(codec, s);
    if s.client.historyFetch == Ready && s.client.events != [] {
      LoadKeepsTrack(codec, history, pageSize, s, cursor, stale);
    } else {
      assert s' == s;
    }
  }

  lemma LoadKeepsTrack(codec: Codec, history: seq<Event>, pageSize: nat, s: Subscriber, cursor: int, stale: set<int>)
    requires WellFormedHistory(history) && pageSize > 0 && Follows(codec, history, s, cursor, stale)
    requires s.client.historyFetch == Ready && s.client.events != []
    ensures Tracks(codec, history, s.(client := P.LoadMore(history, pageSize, s.seat, s.client)),
                   CursorAfterLoad(history, pageSize, s.client, cursor), stale)
  {
    var x, seen, updates := Oldest(s.client.events), Visible(Index(history), s.seat), Pending(codec, s);
    var base: Table :| AgreeFrom(ApplyAll(base, updates), seen, 0, stale);
    VisiblePositive(history, s.seat);
    ReplayAgrees(base, seen, updates, stale);
    LoadMoreTable(history, pageSize, s.seat, s.client);
    forall id ensures var shown := PageTable(history, pageSize, x, s.seat);
                      && (id in shown ==> id in seen && shown[id] == seen[id])
                      && (id in seen && Covered(PageAt(history, pageSize, x), pageSize) <= id <= x ==> id in shown)
    {
      PageShows(history, pageSize, x, s.seat, id);
    }
    OverrideAgrees(Blanked(Index(s.client.events)), PageTable(history, pageSize, x, s.seat), seen, updates, cursor,
                   CursorAfterLoad(history, pageSize, s.client, cursor), stale);
  }

  // ---- Steps and deliveries ----

  lemma ReceiveKeepsBacked(codec: Codec, history: seq<Event>, s: Subscriber, now: int, stale: set<int>)
    requires Backed(codec, history, s, stale) && s.stream != []
    ensures Backed(codec, history, Received(codec, s, now), stale)
  {
    var base: Table :| AgreeFrom(ApplyAll(base, Pending(codec, s)), Visible(Index(history), s.seat), 0, stale);
    ReceivePending(codec, s, now);
    ApplyAppend(base, Front(codec, s.stream[0]), Pending(codec, Received(codec, s, now)));
    var base' := ApplyAll(base, Front(codec, s.stream[0]));
    assert AgreeFrom(ApplyAll(base', Pending(codec, Received(codec, s, now))), Visible(Index(history), s.seat), 0, stale);
  }

  lemma DeliveryKeepsBacked(codec: Codec, history: seq<Event>, s: Subscriber, step: Step, here: bool, stale: set<int>)
    requires Backed(codec, history, s, stale)
    ensures Backed(codec, history, Delivered(codec, s, step, here), stale)
  {
    if here && step.RelayNext? {
      RelayKeepsPending(codec, s);
    } else if here && step.Receive? && s.stream != [] {
      ReceiveKeepsBacked(codec, history, s, step.now, stale);
    }
  }

  lemma ChangeKeepsBacked(codec: Codec, w: World, step: Step, s: Subscriber, stale: set<int>)
    requires codec.Faithful() && WellFormed(w) && ValidStep(w, step) && Carried(codec, w, step) && s.seat.Valid()
    requires ServerChange(w, step).Some? && step.game == s.seat.game
    requires Backed(codec, w.History(step.game), s, stale)
    ensures var change := ServerChange(w, step).value;
            Backed(codec, change.history, Notified(codec, s, change.packets), StaleAfter(w, step, s.seat, stale))
  {
    var change := ServerChange(w, step).value;
    var base: Table :| AgreeFrom(ApplyAll(base, Pending(codec, s)), Visible(Index(w.History(step.game)), s.seat), 0, stale);
    ChangeKeepsAgreement(w, step, s.seat, ApplyAll(base, Pending(codec, s)), 0, stale);
    PacketsWellFiltered(w, step);
    NotifiedPending(codec, s, change.packets);
    ApplyAppend(base, Pending(codec, s), Addressed(change.packets, s.seat));
    assert AgreeFrom(ApplyAll(base, Pending(codec, Notified(codec, s, change.packets))),
                     Visible(Index(change.history), s.seat), 0, StaleAfter(w, step, s.seat, stale));
  }

  lemma OtherChangeKeepsBacked(codec: Codec, w: World, step: Step, history: seq<Event>, s: Subscriber, stale: set<int>)
    requires codec.Faithful() && WellFormed(w) && ValidStep(w, step) && Carried(codec, w, step) && s.seat.Valid()
    requires ServerChange(w, step).Some? && step.game != s.seat.game
    requires Backed(codec, history, s, stale)
    ensures Backed(codec, history, Notified(codec, s, ServerChange(w, step).value.packets), StaleAfter(w, step, s.seat, stale))
  {
    OtherGamesUntouched(w, step, s.seat);
    PacketsWellFiltered(w, step);
    NotifiedPending(codec, s, ServerChange(w, step).value.packets);
    assert Pending(codec, s) + [] == Pending(codec, s);
  }

  lemma StepKeepsBacked(codec: Codec, w: World, step: Step, i: nat, stale: set<int>)
    requires codec.Faithful() && WellFormed(w) && ValidStep(w, step) && Carried(codec, w, step) && i < |w.subscribers|
    requires Backed(codec, w.History(w.subscribers[i].seat.game), w.subscribers[i], stale)
    ensures var w', s := Next(codec, w, step), w.subscribers[i];
            w'.subscribers[i].seat == s.seat
            && Backed(codec, w'.History(s.seat.game), w'.subscribers[i], StaleAfter(w, step, s.seat, stale))
  {
    var s := w.subscribers[i];
    if step.RelayNext? || step.Receive? {
      DeliveredNext(codec, w, step, i);
      DeliveryKeepsBacked(codec, w.History(s.seat.game), s, step, step.subscriber == i, stale);
    } else if ServerChange(w, step).Some? {
      NextAfterChange(codec, w, step, i);
      if step.game == s.seat.game {
        ChangeKeepsBacked(codec, w, step, s, stale);
      } else {
        OtherChangeKeepsBacked(codec, w, step, w.History(s.seat.game), s, stale);
      }
    }
  }

  // ---- Runs with loads ----

  predicate ValidMove(codec: Codec, w: World, move: Move) {
    move.Take? ==> ValidStep(w, move.step) && Carried(codec, w, move.step)
  }

  function StaleAfterMove(w: World, move: Move, seat: Seat, stale: set<int>): set<int> {
    match move
    case Take(step) => StaleAfter(w, step, seat, stale)
    case Load(_) => stale
  }

  function CursorAfterMove(w: World, pageSize: nat, move: Move, i: nat, cursor: int): int
    requires i < |w.subscribers|
  {
    if move.Load? && move.subscriber == i then
      CursorAfterLoad(w.History(w.subscribers[i].seat.game), pageSize, w.subscribers[i].client, cursor)
    else cursor
  }

  /** Every move keeps the world well formed and a subscriber following its game. */
  lemma MoveKeepsFollowing(codec: Codec, w: World, pageSize: nat, move: Move, i: nat, cursor: int, stale: set<int>)
    requires codec.Faithful() && WellFormed(w) && ValidMove(codec, w, move) && pageSize > 0
    requires i < |w.subscribers| && FollowsGame(codec, w, i, cursor, stale)
    ensures WellFormed(Moved(codec, w, pageSize, move))
    ensures Moved(codec, w, pageSize, move).subscribers[i].seat == w.subscribers[i].seat
    ensures FollowsGame(codec, Moved(codec, w, pageSize, move), i, CursorAfterMove(w, pageSize, move, i, cursor),
                        StaleAfterMove(w, move, w.subscribers[i].seat, stale))
  {
    match move
    case Take(step) =>
      StepMoveKeepsFollowing(codec, w, step, i, cursor, stale);
    case Load(j) =>
      LoadMoveKeepsFollowing(codec, w, pageSize, j, i, cursor, stale);
  }

  lemma LoadMoved(codec: Codec, w: World, pageSize: nat, j: nat, i: nat)
    requires WellFormed(w) && i < |w.subscribers|
    ensures WellFormed(Moved(codec, w, pageSize, Load(j))) && Moved(codec, w, pageSize, Load(j)).histories == w.histories
    ensures Moved(codec, w, pageSize, Load(j)).subscribers[i]
         == if i == j then LoadedMore(w, pageSize, w.subscribers[i]) else w.subscribers[i]
  {
    if j < |w.subscribers| {
      var s' := LoadedMore(w, pageSize, w.subscribers[j]);
      assert s'.seat == w.subscribers[j].seat && w.subscribers[j] in w.subscribers;
    }
  }

  lemma LoadMoveKeepsFollowing(codec: Codec, w: World, pageSize: nat, j: nat, i: nat, cursor: int, stale: set<int>)
    requires WellFormed(w) && pageSize > 0
    requires i < |w.subscribers| && FollowsGame(codec, w, i, cursor, stale)
    ensures WellFormed(Moved(codec, w, pageSize, Load(j)))
    ensures Moved(codec, w, pageSize, Load(j)).subscribers[i].seat == w.subscribers[i].seat
    ensures FollowsGame(codec, Moved(codec, w, pageSize, Load(j)), i, CursorAfterMove(w, pageSize, Load(j), i, cursor), stale)
  {
    HistoryWellFormed(w, w.subscribers[i].seat.game);
    LoadMoved(codec, w, pageSize, j, i);
    if j == i {
      LoadKeepsFollowing(codec, w.History(w.subscribers[i].seat.game), pageSize, w.subscribers[i], cursor, stale);
    }
  }

  lemma StepMoveKeepsFollowing(codec: Codec, w: World, step: Step, i: nat, cursor: int, stale: set<int>)
    requires codec.Faithful() && WellFormed(w) && ValidStep(w, step) && Carried(codec, w, step)
    requires i < |w.subscribers| && FollowsGame(codec, w, i, cursor, stale)
    ensures WellFormed(Next(codec, w, step)) && Next(codec, w, step).subscribers[i].seat == w.subscribers[i].seat
    ensures FollowsGame(codec, Next(codec, w, step), i, cursor, StaleAfter(w, step, w.subscribers[i].seat, stale))
  {
    StepKeepsWellFormed(codec, w, step);
    StepKeepsTrack(codec, w, step, i, cursor, stale);
    StepKeepsBacked(codec, w, step, i, stale);
  }

  predicate ValidMoves(codec: Codec, w: World, pageSize: nat, moves: seq<Move>)
    decreases |moves|
  {
    moves != [] ==> ValidMove(codec, w, moves[0]) && ValidMoves(codec, Moved(codec, w, pageSize, moves[0]), pageSize, moves[1..])
  }

  function MovedAll(codec: Codec, w: World, pageSize: nat, moves: seq<Move>): (w': World)
    ensures |w'.subscribers| == |w.subscribers|
    decreases |moves|
  {
    if moves == [] then w else MovedAll(codec, Moved(codec, w, pageSize, moves[0]), pageSize, moves[1..])
  }

  function StaleAfterMoves(codec: Codec, w: World, pageSize: nat, moves: seq<Move>, seat: Seat, stale: set<int>): set<int>
    decreases |moves|
  {
    if moves == [] then stale
    else StaleAfterMoves(codec, Moved(codec, w, pageSize, moves[0]), pageSize, moves[1..], seat, StaleAfterMove(w, moves[0], seat, stale))
  }

  function CursorAfterMoves(codec: Codec, w: World, pageSize: nat, moves: seq<Move>, i: nat, cursor: int): int
    requires i < |w.subscribers|
    decreases |moves|
  {
    if moves == [] then cursor
    else CursorAfterMoves(codec, Moved(codec, w, pageSize, moves[0]), pageSize, moves[1..], i, CursorAfterMove(w, pageSize, moves[0], i, cursor))
  }

  /** Over every run, with loads by any subscribers among server steps and deliveries in any order, a
      subscriber follows its game, and each load of its own that starts where it has everything moves its
      cursor down to where the page ends. */
  lemma {:induction false} RunKeepsFollowing(
      codec: Codec, w: World, pageSize: nat, moves: seq<Move>, i: nat, cursor: int, stale: set<int>)
    requires codec.Faithful() && WellFormed(w) && ValidMoves(codec, w, pageSize, moves) && pageSize > 0
    requires i < |w.subscribers| && FollowsGame(codec, w, i, cursor, stale)
    ensures WellFormed(MovedAll(codec, w, pageSize, moves))
    ensures MovedAll(codec, w, pageSize, moves).subscribers[i].seat == w.subscribers[i].seat
    ensures FollowsGame(codec, MovedAll(codec, w, pageSize, moves), i, CursorAfterMoves(codec, w, pageSize, moves, i, cursor),
                        StaleAfterMoves(codec, w, pageSize, moves, w.subscribers[i].seat, stale))
    decreases |moves|
  {
    if moves != [] {
      var w' := Moved(codec, w, pageSize, moves[0]);
      MoveKeepsFollowing(codec, w, pageSize, moves[0], i, cursor, stale);
      RunKeepsFollowing(codec, w', pageSize, moves[1..], i, CursorAfterMove(w, pageSize, moves[0], i, cursor),
                        StaleAfterMove(w, moves[0], w.subscribers[i].seat, stale));
    }
  }

  /** A player who has just logged in follows the game from the oldest event shown on. */
  lemma LoggedInFollows(codec: Codec, history: seq<Event>, pageSize: nat, loads: nat, s: Subscriber)
    requires WellFormedHistory(history) && LoggedIn(history, pageSize, loads, s)
    ensures s.client.events != [] && Follows(codec, history, s, Oldest(s.client.events), {})
  {
    LoggedInTracks(codec, history, pageSize, loads, s);
    var seen := Visible(Index(history), s.seat);
    assert Pending(codec, s) == [];
    assert AgreeFrom(ApplyAll(seen, Pending(codec, s)), seen, 0, {});
  }

  /** A subscriber whose cursor has reached the end, with nothing stale, is in sync. */
  lemma FollowedToTheEnd(codec: Codec, history: seq<Event>, s: Subscriber, cursor: int)
    requires WellFormedHistory(history) && Follows(codec, history, s, cursor, {}) && cursor <= 1
    ensures Synced(codec, history, s)
  {
    VisiblePositive(history, s.seat);
    FullAgreement(Settled(codec, s), Visible(Index(history), s.seat), cursor);
  }

  lemma FullAgreement(t: Table, v: Table, cursor: int)
    requires AgreeFrom(t, v, cursor, {}) && cursor <= 1 && forall id | id in v :: id > 0
    ensures t == v
  {
    forall id ensures At(t, id) == At(v, id) {
      assert id in v ==> id >= cursor;
    }
    SameTables(t, v);
  }

  // ---- The gap a reshared event leaves ----

  lemma OldestIsLeast(events: seq<Event>)
    requires Descending(events) && events != []
    ensures events[|events| - 1] in events
    ensures forall evt | evt in events :: Oldest(events) <= evt.id
  {
  }

  /** Merging events that are no newer than the oldest of a list brings nothing newer and keeps or lowers the
      oldest. */
  lemma MergeOlder(events: seq<Event>, older: seq<Event>)
    requires Descending(events) && Descending(older) && PositiveIds(events) && events != []
    requires forall evt | evt in older :: evt.id <= Oldest(events)
    ensures Descending(Merge(events, older)) && Merge(events, older) != []
    ensures Oldest(Merge(events, older)) <= Oldest(events)
    ensures forall evt | evt in Merge(events, older) && evt.id > Oldest(events) :: evt in events
  {
    MergeMembers(events, older);
    var last := events[|events| - 1];
    if HasId(older, last.id) {
      var twin :| twin in older && twin.id == last.id;
      assert twin in Merge(events, older);
    } else {
      assert last in Merge(events, older);
    }
    OldestIsLeast(Merge(events, older));
  }

  /** Loading brings no event newer than the oldest the client has. */
  lemma LoadsNothingNewer(history: seq<Event>, pageSize: nat, seat: Seat, client: State, evt: Event)
    requires Descending(history) && PositiveIds(history) && Ordered(client) && client.events != []
    requires evt.id > Oldest(client.events)
    ensures var events := P.LoadMore(history, pageSize, seat, client).events;
            events != [] && Oldest(events) <= Oldest(client.events) && (evt in events ==> evt in client.events)
    ensures Ordered(P.LoadMore(history, pageSize, seat, client))
  {
    if client.historyFetch == Ready {
      var x := Oldest(client.events);
      var shown := VisibleList(PageAt(history, pageSize, x), seat);
      PageDescending(history, pageSize, x, seat);
      P.LoadedEvents(client.(historyFetch := Fetching), P.EventRange(history, Some(x), None, pageSize, seat));
      PageIsOlder(history, pageSize, x, seat);
      MergeOlder(client.events, shown);
      MergeMembers(client.events, shown);
    }
  }

  /** The client holds an event or an older one, and not one that is newer. */
  predicate Skips(client: State, announced: Event, skipped: Event) {
    Ordered(client) && client.events != [] && Oldest(client.events) <= announced.id && skipped !in client.events
  }

  lemma AddSkips(client: State, announced: Event, skipped: Event, now: int)
    requires Ordered(client) && client.events != [] && 0 < announced.id < skipped.id < Oldest(client.events)
    ensures Skips(Reduce(client, AddEvent(announced, now)), announced, skipped)
  {
    MergeMembers(client.events, [announced]);
    OldestIsLeast(client.events);
    var events := Merge(client.events, [announced]);
    assert [announced][0] == announced && announced in events;
    OldestIsLeast(events);
  }

  /** When a share change announces to a client an event older than all it has loaded, the client asks from
      that event on, and whatever lies between is never loaded, however often it loads more. */
  lemma AnnouncedOldEventHidesBetween(
      history: seq<Event>, pageSize: nat, seat: Seat, client: State, announced: Event, skipped: Event, now: int, loads: nat)
    requires Descending(history) && PositiveIds(history)
    requires Ordered(client) && client.events != [] && 0 < announced.id < skipped.id < Oldest(client.events)
    ensures skipped !in P.Iterate(P.Loader(history, pageSize, seat), Reduce(client, AddEvent(announced, now)), loads).events
  {
    AddSkips(client, announced, skipped, now);
    forall state | Skips(state, announced, skipped) ensures Skips(P.LoadMore(history, pageSize, seat, state), announced, skipped) {
      LoadsNothingNewer(history, pageSize, seat, state, skipped);
    }
    P.IterateInvariant(
      P.Loader(history, pageSize, seat), Reduce(client, AddEvent(announced, now)), loads, (state: State) => Skips(state, announced, skipped));
  }
}
