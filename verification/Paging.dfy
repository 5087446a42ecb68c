/** Paging through a history: the server's /events route and the client's loading of older events
    (server/routes/game.go, server/event/event.go, web/src/history/LoadingEventList.tsx). */
module Paging {
  import opened Wrappers
  import opened Events
  import opened EventList
  import opened Channels
  import opened ClientReducer
  import opened Tables

  function InRange(newest: Option<int>, oldest: Option<int>): Event -> bool {
    (e: Event) => (newest.Some? ==> e.id <= newest.value) && (oldest.Some? ==> oldest.value <= e.id)
  }

  /** ZREVRANGEBYSCORE newest oldest LIMIT 0 count; None is an infinite bound. */
  function GetBetween(history: seq<Event>, newest: Option<int>, oldest: Option<int>, count: nat): seq<Event> {
    var between := Filter(history, InRange(newest, oldest));
    if |between| <= count then between else between[..count]
  }

  datatype Response = Response(events: seq<Event>, lastID: int, more: bool)

  /** The answer of the /events route: the visible part of one page, and whether the page was full. */
  function EventRange(history: seq<Event>, newest: Option<int>, oldest: Option<int>, pageSize: nat, seat: Seat): Response {
    var page := GetBetween(history, newest, oldest, pageSize);
    var parsed := VisibleList(page, seat);
    if parsed == [] then Response([], 0, false)
    else Response(parsed, parsed[|parsed| - 1].id, |page| == pageSize)
  }

  method HandleEvents(history: seq<Event>, newest: Option<int>, oldest: Option<int>, pageSize: nat, seat: Seat)
    returns (eventRange: Response)
    ensures eventRange == EventRange(history, newest, oldest, pageSize, seat)
  {
    var events := GetBetween(history, newest, oldest, pageSize);
    if |events| == 0 {
      eventRange := Response([], 0, false);
    } else {
      var parsed: seq<Event> := [];
      for i := 0 to |events|
        invariant parsed == VisibleList(events[..i], seat)
      {
        FilterSnoc(events[..i], events[i], Seer(seat));
        assert events[..i + 1] == events[..i] + [events[i]];
        if !Sees(seat, events[i]) {
          continue;
        }
        parsed := parsed + [events[i]];
      }
      assert events[..|events|] == events;
      if |parsed| == 0 {
        eventRange := Response([], 0, false);
      } else {
        eventRange := Response(parsed, parsed[|parsed| - 1].id, |events| == pageSize);
      }
    }
  }

  lemma {:induction false} FilterSnoc(events: seq<Event>, evt: Event, keep: Event -> bool)
    ensures Filter(events + [evt], keep) == Filter(events, keep) + if keep(evt) then [evt] else []
  {
    if events == [] {
      assert [evt][1..] == [];
      assert events + [evt] == [evt];
    } else {
      assert (events + [evt])[1..] == events[1..] + [evt];
      FilterSnoc(events[1..], evt, keep);
    }
  }

  /** What a response does to the client: the fetch state first, then the merge. */
  function Loaded(state: State, response: Response): State {
    ReduceAll(state, [SetHistoryFetch(if response.more then Ready else Finished), MergeEvents(response.events)])
  }

  /** Logging in fetches the newest page. */
  function FirstLoad(history: seq<Event>, pageSize: nat, seat: Seat, state: State): State {
    Loaded(state, EventRange(history, None, None, pageSize, seat))
  }

  /** loadMoreItems for the row at oldestIx: fetches from the event above it, unless already fetching
      or finished, or when there is no such event. */
  function LoadMoreAt(history: seq<Event>, pageSize: nat, seat: Seat, state: State, oldestIx: int): State {
    if state.historyFetch != Ready || !(0 <= oldestIx - 1 < |state.events|) then state
    else
      var fetching := Reduce(state, SetHistoryFetch(Fetching));
      Loaded(fetching, EventRange(history, Some(state.events[oldestIx - 1].id), None, pageSize, seat))
  }

  /** Loading at the end of the list, where the first row not loaded is. */
  function LoadMore(history: seq<Event>, pageSize: nat, seat: Seat, state: State): State {
    LoadMoreAt(history, pageSize, seat, state, |state.events|)
  }

  method LoadMoreItems(client: Client, oldestIx: int, history: seq<Event>, pageSize: nat, seat: Seat)
    modifies client
    ensures client.state == LoadMoreAt(history, pageSize, seat, old(client.state), oldestIx)
  {
    if client.state.historyFetch == Fetching || client.state.historyFetch == Finished {
      return;
    }
    if !(0 <= oldestIx - 1 < |client.state.events|) {
      return;
    }
    var event := client.state.events[oldestIx - 1];
    client.Dispatch(SetHistoryFetch(Fetching));
    var response := HandleEvents(history, Some(event.id), None, pageSize, seat);
    LoadedState(client.state, response);
    client.Dispatch(SetHistoryFetch(if response.more then Ready else Finished));
    client.Dispatch(MergeEvents(response.events));
  }

  lemma LoadedState(state: State, response: Response)
    ensures Loaded(state, response)
         == Reduce(Reduce(state, SetHistoryFetch(if response.more then Ready else Finished)), MergeEvents(response.events))
  {
    ReduceAtMostTwo(state, [SetHistoryFetch(if response.more then Ready else Finished), MergeEvents(response.events)]);
  }

  function Iterate<T>(f: T -> T, x: T, n: nat): T {
    if n == 0 then x else f(Iterate(f, x, n - 1))
  }

  lemma {:induction false} IterateInvariant<T(!new)>(f: T -> T, x: T, n: nat, p: T -> bool)
    requires p(x) && forall y | p(y) :: p(f(y))
    ensures p(Iterate(f, x, n))
  {
    if n > 0 {
      IterateInvariant(f, x, n - 1, p);
    }
  }

  function Loader(history: seq<Event>, pageSize: nat, seat: Seat): State -> State {
    (state: State) => LoadMore(history, pageSize, seat, state)
  }

  /** The client after logging in and asking for more a number of times. */
  function After(history: seq<Event>, pageSize: nat, seat: Seat, loads: nat): State {
    Iterate(Loader(history, pageSize, seat), FirstLoad(history, pageSize, seat, State([], Fetching, None)), loads)
  }

  lemma LoadedEvents(state: State, response: Response)
    ensures Loaded(state, response).events == Merge(state.events, response.events)
    ensures Loaded(state, response).historyFetch == if response.more then Ready else Finished
  {
    ReduceAtMostTwo(state, [SetHistoryFetch(if response.more then Ready else Finished), MergeEvents(response.events)]);
  }

  // ---- The walk over the history's indices ----

  function Min(a: int, b: int): int {
    if a <= b then a else b
  }

  predicate VisibleAtIndex(history: seq<Event>, seat: Seat, k: int) {
    0 <= k < |history| && Sees(seat, history[k])
  }

  /** A full page from a visible event that shows nothing older: asking for it again and again gets
      nowhere. */
  predicate Gap(history: seq<Event>, pageSize: nat, seat: Seat, k: int) {
    && VisibleAtIndex(history, seat, k)
    && k + pageSize <= |history|
    && forall j | k < j < k + pageSize :: !VisibleAtIndex(history, seat, j)
  }

  ghost predicate NoGaps(history: seq<Event>, pageSize: nat, seat: Seat) {
    forall k :: !Gap(history, pageSize, seat, k)
  }

  /** A full newest page that shows nothing at all. */
  predicate BlindStart(history: seq<Event>, pageSize: nat, seat: Seat) {
    pageSize <= |history| && forall j | 0 <= j < pageSize :: !VisibleAtIndex(history, seat, j)
  }

  lemma PageFrom(history: seq<Event>, c: nat, pageSize: nat)
    requires Descending(history) && c < |history|
    ensures GetBetween(history, Some(history[c].id), None, pageSize) == history[c..Min(c + pageSize, |history|)]
  {
    var keep := InRange(Some(history[c].id), None);
    FilterDescending(history, keep);
    forall evt ensures evt in Filter(history, keep) <==> evt in history[c..] {
      if evt in Filter(history, keep) {
        var i :| 0 <= i < |history| && history[i] == evt;
        assert i >= c;
        assert history[c..][i - c] == evt;
      }
    }
    SameMembersSameList(Filter(history, keep), history[c..]);
  }

  lemma {:induction false} FilterAll(events: seq<Event>, keep: Event -> bool)
    requires forall evt | evt in events :: keep(evt)
    ensures Filter(events, keep) == events
  {
    if events != [] {
      assert events == [events[0]] + events[1..];
      FilterAll(events[1..], keep);
    }
  }

  lemma FirstPage(history: seq<Event>, pageSize: nat)
    ensures GetBetween(history, None, None, pageSize) == history[..Min(pageSize, |history|)]
  {
    FilterAll(history, InRange(None, None));
  }

  lemma VisibleListSplit(events: seq<Event>, k: nat, seat: Seat)
    requires k <= |events|
    ensures VisibleList(events, seat) == VisibleList(events[..k], seat) + VisibleList(events[k..], seat)
    decreases k
  {
    if k == 0 {
      assert events[..0] == [] && events[0..] == events;
    } else {
      assert events[..k] == events[..k - 1] + [events[k - 1]];
      assert events[k - 1..][1..] == events[k..];
      FilterSnoc(events[..k - 1], events[k - 1], Seer(seat));
      VisibleListSplit(events, k - 1, seat);
    }
  }

  lemma NothingVisible(events: seq<Event>, seat: Seat)
    ensures VisibleList(events, seat) == [] <==> forall j :: !VisibleAtIndex(events, seat, j)
  {
    if VisibleList(events, seat) != [] {
      var evt := VisibleList(events, seat)[0];
      assert evt in VisibleList(events, seat);
      var j :| 0 <= j < |events| && events[j] == evt;
      assert VisibleAtIndex(events, seat, j);
    }
    forall j | VisibleAtIndex(events, seat, j) ensures VisibleList(events, seat) != [] {
      assert events[j] in VisibleList(events, seat);
    }
  }

  /** The client has loaded everything visible among the newest m events, the oldest of which is at c. */
  predicate LoadedTo(history: seq<Event>, seat: Seat, state: State, c: nat, m: nat) {
    && c < m <= |history|
    && VisibleAtIndex(history, seat, c)
    && (forall j | c < j < m :: !VisibleAtIndex(history, seat, j))
    && state.events == VisibleList(history[..m], seat)
    && state.historyFetch in {Ready, Finished}
    && (state.historyFetch == Finished ==> m == |history|)
  }

  /** The last visible index below m. */
  lemma {:induction false} LastVisible(history: seq<Event>, seat: Seat, m: nat) returns (c: nat)
    requires m <= |history| && VisibleList(history[..m], seat) != []
    ensures c < m && VisibleAtIndex(history, seat, c)
    ensures forall j | c < j < m :: !VisibleAtIndex(history, seat, j)
    decreases m
  {
    assert m > 0;
    if Sees(seat, history[m - 1]) {
      c := m - 1;
    } else {
      assert history[..m] == history[..m - 1] + [history[m - 1]];
      FilterSnoc(history[..m - 1], history[m - 1], Seer(seat));
      c := LastVisible(history, seat, m - 1);
    }
  }

  /** The visible events of a stretch past the last visible one are none. */
  lemma NothingBeyond(history: seq<Event>, seat: Seat, c: nat, m: nat)
    requires c < m <= |history|
    requires forall j | c < j < m :: !VisibleAtIndex(history, seat, j)
    ensures VisibleList(history[..m], seat) == VisibleList(history[..c + 1], seat)
  {
    VisibleListSplit(history[..m], c + 1, seat);
    assert history[..m][..c + 1] == history[..c + 1];
    var rest := history[..m][c + 1..];
    forall j ensures !VisibleAtIndex(rest, seat, j) {
      if 0 <= j < |rest| {
        assert rest[j] == history[c + 1 + j];
        assert !VisibleAtIndex(history, seat, c + 1 + j);
      }
    }
    NothingVisible(rest, seat);
  }

  lemma LastLoaded(history: seq<Event>, seat: Seat, c: nat)
    requires VisibleAtIndex(history, seat, c)
    ensures var events := VisibleList(history[..c + 1], seat);
            events != [] && events[|events| - 1] == history[c]
  {
    assert history[..c + 1] == history[..c] + [history[c]];
    FilterSnoc(history[..c], history[c], Seer(seat));
  }

  lemma {:induction false} PrefixDescending(history: seq<Event>, a: nat, b: nat)
    requires Descending(history) && a <= b <= |history|
    ensures Descending(history[a..b])
  {
  }

  /** Merging two descending sublists that cover a list gives the list. */
  lemma MergeCovers(a: seq<Event>, b: seq<Event>, all: seq<Event>)
    requires Descending(a) && Descending(b) && Descending(all) && PositiveIds(all)
    requires forall evt :: evt in all <==> evt in a || evt in b
    ensures Merge(a, b) == all
  {
    MergeMembers(a, b);
    IndexLookup(all);
    forall evt ensures evt in Merge(a, b) <==> evt in all {
      if evt in a && HasId(b, evt.id) {
        var twin :| twin in b && twin.id == evt.id;
        assert Index(all)[evt.id] == evt && Index(all)[twin.id] == twin;
      }
    }
    SameMembersSameList(Merge(a, b), all);
  }

  /** Merging the visible events of two stretches that share an index gives those of their union. */
  lemma MergeStretches(history: seq<Event>, seat: Seat, c: nat, m: nat)
    requires Descending(history) && PositiveIds(history) && c < m <= |history|
    ensures Merge(VisibleList(history[..c + 1], seat), VisibleList(history[c..m], seat)) == VisibleList(history[..m], seat)
  {
    PrefixDescending(history, 0, c + 1);
    PrefixDescending(history, c, m);
    PrefixDescending(history, 0, m);
    FilterDescending(history[..c + 1], Seer(seat));
    FilterDescending(history[c..m], Seer(seat));
    FilterDescending(history[..m], Seer(seat));
    assert history[..m] == history[..c] + history[c..m];
    assert history[..c + 1] == history[..c] + [history[c]];
    assert history[c..m][0] == history[c];
    MergeCovers(VisibleList(history[..c + 1], seat), VisibleList(history[c..m], seat), VisibleList(history[..m], seat));
  }

  // ---- Loading ----

  /** Logging in leaves the client having loaded what the first page shows, if it shows anything. */
  lemma FirstLoadReaches(history: seq<Event>, pageSize: nat, seat: Seat) returns (c: nat, m: nat)
    requires VisibleList(history[..Min(pageSize, |history|)], seat) != []
    ensures LoadedTo(history, seat, After(history, pageSize, seat, 0), c, m)
    ensures m == Min(pageSize, |history|)
    ensures After(history, pageSize, seat, 0).historyFetch == if pageSize <= |history| then Ready else Finished
  {
    m := Min(pageSize, |history|);
    FirstPage(history, pageSize);
    LoadedEvents(State([], Fetching, None), EventRange(history, None, None, pageSize, seat));
    c := LastVisible(history, seat, m);
  }

  lemma BlindFirstLoad(history: seq<Event>, pageSize: nat, seat: Seat)
    requires VisibleList(history[..Min(pageSize, |history|)], seat) == []
    ensures After(history, pageSize, seat, 0) == State([], Finished, None)
  {
    FirstPage(history, pageSize);
    var loaded := After(history, pageSize, seat, 0);
    LoadedEvents(State([], Fetching, None), EventRange(history, None, None, pageSize, seat));
    assert loaded == Reduce(Reduce(State([], Fetching, None), SetHistoryFetch(Finished)), MergeEvents([])) by {
      ReduceAtMostTwo(State([], Fetching, None), [SetHistoryFetch(Finished), MergeEvents([])]);
    }
  }

  /** The response to a request from a visible event: what the page from it shows. */
  lemma PageResponse(history: seq<Event>, c: nat, pageSize: nat, seat: Seat)
    requires Descending(history) && pageSize > 0 && VisibleAtIndex(history, seat, c)
    ensures var response := EventRange(history, Some(history[c].id), None, pageSize, seat);
            var m := Min(c + pageSize, |history|);
            response.events == VisibleList(history[c..m], seat) && response.more == (m - c == pageSize)
  {
    PageFrom(history, c, pageSize);
    assert history[c..Min(c + pageSize, |history|)][0] == history[c];
    assert history[c] in VisibleList(history[c..Min(c + pageSize, |history|)], seat);
  }

  /** One more load leaves the client with everything visible up to the end of the page from c. */
  lemma LoadMoreState(history: seq<Event>, pageSize: nat, seat: Seat, state: State, c: nat, m: nat)
    requires Descending(history) && PositiveIds(history) && pageSize > 0
    requires LoadedTo(history, seat, state, c, m) && state.historyFetch == Ready
    ensures var m' := Min(c + pageSize, |history|);
            && LoadMore(history, pageSize, seat, state).events == VisibleList(history[..m'], seat)
            && LoadMore(history, pageSize, seat, state).historyFetch == if m' - c == pageSize then Ready else Finished
  {
    NothingBeyond(history, seat, c, m);
    LastLoaded(history, seat, c);
    assert LoadMore(history, pageSize, seat, state)
        == Loaded(state.(historyFetch := Fetching), EventRange(history, Some(history[c].id), None, pageSize, seat));
    LoadedEvents(state.(historyFetch := Fetching), EventRange(history, Some(history[c].id), None, pageSize, seat));
    PageResponse(history, c, pageSize, seat);
    MergeStretches(history, seat, c, Min(c + pageSize, |history|));
  }

  lemma ShowsSomething(history: seq<Event>, seat: Seat, c: nat, m: nat)
    requires c < m <= |history| && VisibleAtIndex(history, seat, c)
    ensures VisibleList(history[..m], seat) != []
  {
    assert history[..m][c] == history[c];
    assert history[c] in VisibleList(history[..m], seat);
  }

  /** One more load moves the last loaded index to the last visible one of the page from it. */
  lemma LoadMoreReaches(history: seq<Event>, pageSize: nat, seat: Seat, state: State, c: nat, m: nat)
    returns (c': nat, m': nat)
    requires Descending(history) && PositiveIds(history) && pageSize > 0
    requires LoadedTo(history, seat, state, c, m) && state.historyFetch == Ready
    ensures LoadedTo(history, seat, LoadMore(history, pageSize, seat, state), c', m')
    ensures m' == Min(c + pageSize, |history|) && c <= c' < c + pageSize
    ensures LoadMore(history, pageSize, seat, state).historyFetch == if c + pageSize <= |history| then Ready else Finished
  {
    m' := Min(c + pageSize, |history|);
    LoadMoreState(history, pageSize, seat, state, c, m);
    ShowsSomething(history, seat, c, m');
    c' := LastVisible(history, seat, m');
  }

  predicate Complete(history: seq<Event>, seat: Seat, state: State) {
    state.historyFetch == Finished && state.events == VisibleList(history, seat)
  }

  /** With no gap to get stuck in, loading more finishes with everything visible; each load moves the
      last loaded index further down the history. */
  lemma {:induction false} LoadingFinishes(history: seq<Event>, pageSize: nat, seat: Seat, loads: nat, c: nat, m: nat)
    returns (total: nat)
    requires Descending(history) && PositiveIds(history) && pageSize > 0
    requires NoGaps(history, pageSize, seat)
    requires LoadedTo(history, seat, After(history, pageSize, seat, loads), c, m)
    ensures Complete(history, seat, After(history, pageSize, seat, total))
    decreases |history| - c, if After(history, pageSize, seat, loads).historyFetch == Ready then 1 else 0
  {
    var state := After(history, pageSize, seat, loads);
    if state.historyFetch == Finished {
      total := loads;
      assert history[..m] == history;
    } else {
      var c', m' := LoadMoreReaches(history, pageSize, seat, state, c, m);
      AfterOneMore(history, pageSize, seat, loads);
      if c + pageSize <= |history| {
        PastNoGap(history, pageSize, seat, c, c');
      }
      total := LoadingFinishes(history, pageSize, seat, loads + 1, c', m');
    }
  }

  lemma AfterOneMore(history: seq<Event>, pageSize: nat, seat: Seat, loads: nat)
    ensures After(history, pageSize, seat, loads + 1) == LoadMore(history, pageSize, seat, After(history, pageSize, seat, loads))
  {
  }

  /** Without gaps the last visible event of a full page is older than the one it starts at. */
  lemma PastNoGap(history: seq<Event>, pageSize: nat, seat: Seat, c: nat, c': nat)
    requires NoGaps(history, pageSize, seat) && VisibleAtIndex(history, seat, c) && c + pageSize <= |history|
    requires c <= c' && forall j | c' < j < c + pageSize :: !VisibleAtIndex(history, seat, j)
    ensures c < c'
  {
    assert !Gap(history, pageSize, seat, c);
  }

  lemma UpToGap(history: seq<Event>, pageSize: nat, seat: Seat, k: nat, c: nat)
    requires Gap(history, pageSize, seat, k) && VisibleAtIndex(history, seat, c) && c < k + pageSize
    ensures c <= k
  {
  }

  /** The client can load more and has loaded no further than the event at k. */
  ghost predicate UpTo(history: seq<Event>, seat: Seat, k: nat, state: State) {
    state.historyFetch == Ready && exists c: nat, m: nat :: c <= k && LoadedTo(history, seat, state, c, m)
  }

  lemma FirstLoadUpToGap(history: seq<Event>, pageSize: nat, seat: Seat, k: nat)
    requires Gap(history, pageSize, seat, k)
    requires VisibleList(history[..Min(pageSize, |history|)], seat) != []
    ensures UpTo(history, seat, k, After(history, pageSize, seat, 0))
  {
    var c, m := FirstLoadReaches(history, pageSize, seat);
    UpToGap(history, pageSize, seat, k, c);
  }

  lemma LoadUpToGap(history: seq<Event>, pageSize: nat, seat: Seat, k: nat, state: State)
    requires Descending(history) && PositiveIds(history) && pageSize > 0
    requires Gap(history, pageSize, seat, k) && UpTo(history, seat, k, state)
    ensures UpTo(history, seat, k, LoadMore(history, pageSize, seat, state))
  {
    var c: nat, m: nat :| c <= k && LoadedTo(history, seat, state, c, m);
    var c', m' := LoadMoreReaches(history, pageSize, seat, state, c, m);
    UpToGap(history, pageSize, seat, k, c');
  }

  /** At or before a gap, loading more never finishes and never gets past it. */
  lemma GapIsNeverPassed(history: seq<Event>, pageSize: nat, seat: Seat, k: nat, loads: nat)
    requires Descending(history) && PositiveIds(history) && pageSize > 0
    requires Gap(history, pageSize, seat, k)
    requires VisibleList(history[..Min(pageSize, |history|)], seat) != []
    ensures UpTo(history, seat, k, After(history, pageSize, seat, loads))
  {
    FirstLoadUpToGap(history, pageSize, seat, k);
    forall state | UpTo(history, seat, k, state) ensures UpTo(history, seat, k, LoadMore(history, pageSize, seat, state)) {
      LoadUpToGap(history, pageSize, seat, k, state);
    }
    IterateInvariant(Loader(history, pageSize, seat), After(history, pageSize, seat, 0), loads, (s: State) => UpTo(history, seat, k, s));
  }

  lemma FinishedStays(history: seq<Event>, pageSize: nat, seat: Seat, loads: nat)
    requires After(history, pageSize, seat, 0).historyFetch == Finished
    ensures After(history, pageSize, seat, loads) == After(history, pageSize, seat, 0)
  {
    var first := After(history, pageSize, seat, 0);
    IterateInvariant(Loader(history, pageSize, seat), first, loads, (s: State) => s == first);
  }

  ghost predicate Finishes(history: seq<Event>, pageSize: nat, seat: Seat) {
    exists loads: nat :: Complete(history, seat, After(history, pageSize, seat, loads))
  }

  lemma PrefixVisibility(history: seq<Event>, m: nat, seat: Seat)
    requires m <= |history|
    ensures VisibleList(history[..m], seat) == [] <==> forall j | 0 <= j < m :: !VisibleAtIndex(history, seat, j)
  {
    NothingVisible(history[..m], seat);
    assert forall j | 0 <= j < m :: VisibleAtIndex(history[..m], seat, j) == VisibleAtIndex(history, seat, j);
  }

  /** When the newest page shows nothing the client finishes at once with nothing. */
  lemma BlindPaging(history: seq<Event>, pageSize: nat, seat: Seat)
    requires VisibleList(history[..Min(pageSize, |history|)], seat) == []
    ensures Finishes(history, pageSize, seat) <==> VisibleList(history, seat) == []
    ensures VisibleList(history, seat) != [] ==> BlindStart(history, pageSize, seat)
  {
    BlindFirstLoad(history, pageSize, seat);
    PrefixVisibility(history, Min(pageSize, |history|), seat);
    assert |history| <= pageSize ==> history[..|history|] == history;
    if VisibleList(history, seat) == [] {
      assert Complete(history, seat, After(history, pageSize, seat, 0));
    } else {
      forall loads: nat ensures !Complete(history, seat, After(history, pageSize, seat, loads)) {
        FinishedStays(history, pageSize, seat, loads);
      }
    }
  }

  /** When the newest page shows something, gaps decide. */
  lemma SightedPaging(history: seq<Event>, pageSize: nat, seat: Seat)
    requires Descending(history) && PositiveIds(history)
    requires VisibleList(history[..Min(pageSize, |history|)], seat) != []
    ensures Finishes(history, pageSize, seat) <==> NoGaps(history, pageSize, seat)
    ensures VisibleList(history, seat) != [] && !BlindStart(history, pageSize, seat)
  {
    var c, m := FirstLoadReaches(history, pageSize, seat);
    assert history[c] in VisibleList(history, seat);
    if NoGaps(history, pageSize, seat) {
      var total := LoadingFinishes(history, pageSize, seat, 0, c, m);
    } else {
      var k :| Gap(history, pageSize, seat, k);
      forall loads: nat ensures !Complete(history, seat, After(history, pageSize, seat, loads)) {
        GapIsNeverPassed(history, pageSize, seat, k, loads);
      }
    }
  }

  /** Paging ends in "finished" with exactly the player's visible events if and only if there are none,
      or the newest page shows one and no full page from a visible event shows only that event. */
  lemma PagingCompleteIff(history: seq<Event>, pageSize: nat, seat: Seat)
    requires Descending(history) && PositiveIds(history)
    ensures Finishes(history, pageSize, seat)
        <==> (VisibleList(history, seat) == [] || (!BlindStart(history, pageSize, seat) && NoGaps(history, pageSize, seat)))
  {
    if VisibleList(history[..Min(pageSize, |history|)], seat) == [] {
      BlindPaging(history, pageSize, seat);
    } else {
      SightedPaging(history, pageSize, seat);
    }
  }
}
