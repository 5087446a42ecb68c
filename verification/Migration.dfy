/** The migration stream: reads a whole history in pages and hands each to a callback that rewrites it
    (server/task/eventTask.go, server/event/event.go). */
module Migration {
  import opened Wrappers
  import opened Events
  import opened EventList
  import opened EventStore
  import opened Paging

  const BUFFER_SIZE: nat := 200

  /** BulkUpdate: each event in turn replaces the one with its id. */
  function BulkUpdated(history: seq<Event>, events: seq<Event>): seq<Event>
    decreases |events|
  {
    if events == [] then history
    else BulkUpdated(Insert(Remove(history, events[0].id), events[0]), events[1..])
  }

  /** Pointwise equal ids: as ordered sets of ids, the two histories are the same. */
  predicate SameIds(a: seq<Event>, b: seq<Event>) {
    |a| == |b| && forall j :: 0 <= j < |a| ==> a[j].id == b[j].id
  }

  lemma UpdateInPlace(history: seq<Event>, i: nat, evt: Event)
    requires Descending(history) && i < |history| && history[i].id == evt.id
    ensures Insert(Remove(history, evt.id), evt) == history[i := evt]
  {
    var updated := history[i := evt];
    FilterDescending(history, (e: Event) => e.id != evt.id);
    InsertMembers(Remove(history, evt.id), evt);
    forall e ensures e in Insert(Remove(history, evt.id), evt) <==> e in updated {
      if e in updated {
        var j :| 0 <= j < |updated| && updated[j] == e;
        assert j != i ==> history[j] == e && e.id != evt.id;
      }
      if e in history && e.id != evt.id {
        var j :| 0 <= j < |history| && history[j] == e;
        assert updated[j] == e;
      }
      assert updated[i] == evt;
    }
    SameMembersSameList(Insert(Remove(history, evt.id), evt), updated);
  }

  /** A stretch of a sequence replaced by another of the same length. */
  function Splice<T>(s: seq<T>, c: nat, xs: seq<T>): seq<T>
    requires c + |xs| <= |s|
  {
    s[..c] + xs + s[c + |xs|..]
  }

  lemma SpliceStep<T>(s: seq<T>, c: nat, xs: seq<T>)
    requires c + |xs| <= |s|
    ensures xs == [] ==> Splice(s, c, xs) == s
    ensures xs != [] ==> Splice(s[c := xs[0]], c + 1, xs[1..]) == Splice(s, c, xs)
  {
  }

  /** BulkUpdate of events with the ids of a stretch overwrites exactly that stretch. */
  lemma {:induction false} BulkUpdateOverwrites(history: seq<Event>, c: nat, events: seq<Event>)
    requires Descending(history) && c + |events| <= |history|
    requires forall i {:trigger events[i]} :: 0 <= i < |events| ==> history[c + i].id == events[i].id
    ensures BulkUpdated(history, events) == Splice(history, c, events)
    decreases |events|
  {
    SpliceStep(history, c, events);
    if events != [] {
      assert history[c + 0].id == events[0].id;
      UpdateInPlace(history, c, events[0]);
      BulkUpdateOverwrites(history[c := events[0]], c + 1, events[1..]);
    }
  }

  /** The streamed pages and the rewritten history, or the panic of reading the last event of an
      empty page. */
  datatype Streamed = Done(pages: seq<seq<Event>>, history: seq<Event>) | Panic

  predicate Visited(pages: seq<seq<Event>>, id: int) {
    exists i :: 0 <= i < |pages| && HasId(pages[i], id)
  }

  predicate VisitedAll(pages: seq<seq<Event>>, events: seq<Event>) {
    forall evt | evt in events :: Visited(pages, evt.id)
  }

  /** An index where one page ends and the next, if it is not the last event, begins. */
  predicate IsSeam(n: nat, j: int) {
    0 < j < n - 1 && j % (BUFFER_SIZE - 1) == 0
  }

  /** An element rewritten, twice where pages meet. */
  function RewrittenAt<T>(x: T, rewrite: T -> T, twice: bool): T {
    if twice then rewrite(rewrite(x)) else rewrite(x)
  }

  /** The elements above m have been rewritten, those where pages meet twice, the last of them once so
      far; the rest not yet. */
  predicate Rewritten<T(==)>(start: seq<T>, history: seq<T>, rewrite: T -> T, m: nat) {
    && |history| == |start|
    && (forall j {:trigger history[j]} :: 0 <= j < |start| && j < m ==>
          history[j] == RewrittenAt(start[j], rewrite, j + 1 < m && IsSeam(|start|, j)))
    && (forall j {:trigger history[j]} :: m <= j < |start| ==> history[j] == start[j])
  }

  /** The whole history rewritten. */
  function Rewriting(start: seq<Event>, rewrite: Event -> Event): seq<Event> {
    seq(|start|, j requires 0 <= j < |start| => RewrittenAt(start[j], rewrite, IsSeam(|start|, j)))
  }

  /** How far the history is rewritten when the stream reads on from index c. */
  function Progress(c: nat): nat {
    if c == 0 then 0 else c + 1
  }

  predicate KeepsIds(rewrite: Event -> Event, events: seq<Event>) {
    forall evt {:trigger evt in events} :: evt in events ==> rewrite(evt).id == evt.id && rewrite(rewrite(evt)).id == evt.id
  }

  predicate Idempotent(rewrite: Event -> Event, events: seq<Event>) {
    forall evt {:trigger evt in events} :: evt in events ==> rewrite(rewrite(evt)) == rewrite(evt)
  }

  lemma RewrittenIds(start: seq<Event>, history: seq<Event>, rewrite: Event -> Event, m: nat)
    requires Descending(start) && KeepsIds(rewrite, start) && Rewritten(start, history, rewrite, m)
    ensures Descending(history) && SameIds(history, start)
  {
    forall j | 0 <= j < |start| ensures history[j].id == start[j].id {
      assert start[j] in start;
    }
  }

  /** The first page reads from the start id, later ones from the last event read. */
  lemma PageOf(history: seq<Event>, c: nat, newestID: int, pageSize: nat)
    requires Descending(history)
    requires if c == 0 then forall evt | evt in history :: evt.id <= newestID else c < |history| && history[c].id == newestID
    ensures GetBetween(history, Some(newestID), None, pageSize) == history[c..Min(c + pageSize, |history|)]
  {
    if c == 0 {
      FilterAll(history, InRange(Some(newestID), None));
    } else {
      PageFrom(history, c, pageSize);
    }
  }

  /** The pages meet at multiples of a page size less one, until the last event is read. */
  predicate PageStart(n: nat, c: nat) {
    c % (BUFFER_SIZE - 1) == 0 || c == n - 1
  }

  lemma NextPageStart(n: nat, c: nat, size: nat)
    requires PageStart(n, c) && c < n - 1 && size == Min(BUFFER_SIZE, n - c)
    ensures PageStart(n, c + size - 1)
    ensures c > 0 ==> IsSeam(n, c)
    ensures forall j | c < j < c + size - 1 :: !IsSeam(n, j)
  {
    var k := c / (BUFFER_SIZE - 1);
    assert c == k * (BUFFER_SIZE - 1);
    forall j | c < j < c + size - 1 ensures !IsSeam(n, j) {
      assert k * (BUFFER_SIZE - 1) < j < (k + 1) * (BUFFER_SIZE - 1);
    }
  }

  lemma RewriteSplice<T>(start: seq<T>, history: seq<T>, rewrite: T -> T, c: nat, batch: seq<T>)
    requires c + |batch| <= |start| && |batch| == Min(BUFFER_SIZE, |start| - c) && |batch| >= 2
    requires Rewritten(start, history, rewrite, Progress(c)) && PageStart(|start|, c)
    requires forall i {:trigger batch[i]} :: 0 <= i < |batch| ==> batch[i] == rewrite(history[c + i])
    ensures Rewritten(start, Splice(history, c, batch), rewrite, c + |batch|)
    ensures PageStart(|start|, c + |batch| - 1)
  {
    var next := Splice(history, c, batch);
    NextPageStart(|start|, c, |batch|);
    forall j | 0 <= j < |start|
      ensures j < c + |batch| ==> next[j] == RewrittenAt(start[j], rewrite, j + 1 < c + |batch| && IsSeam(|start|, j))
      ensures j >= c + |batch| ==> next[j] == start[j]
    {
      if j < c {
        assert next[j] == history[j];
      } else if j < c + |batch| {
        assert next[j] == batch[j - c] == rewrite(history[j]);
      } else {
        assert next[j] == history[j];
      }
    }
  }

  lemma PageIds(start: seq<Event>, history: seq<Event>, rewrite: Event -> Event, c: nat, j: nat)
    requires KeepsIds(rewrite, start) && Rewritten(start, history, rewrite, Progress(c))
    requires c <= j < |start|
    ensures rewrite(history[j]).id == history[j].id
  {
    assert start[j] in start;
  }

  /** A batch holds the rewritten events of the history from c on. */
  predicate IsBatch(history: seq<Event>, rewrite: Event -> Event, c: nat, batch: seq<Event>) {
    c + |batch| <= |history| && forall i {:trigger batch[i]} :: 0 <= i < |batch| ==> batch[i] == rewrite(history[c + i])
  }

  lemma BatchStored(start: seq<Event>, history: seq<Event>, rewrite: Event -> Event, c: nat, batch: seq<Event>)
    requires Descending(start) && KeepsIds(rewrite, start)
    requires Rewritten(start, history, rewrite, Progress(c)) && IsBatch(history, rewrite, c, batch)
    ensures BulkUpdated(history, batch) == Splice(history, c, batch)
  {
    RewrittenIds(start, history, rewrite, Progress(c));
    forall i | 0 <= i < |batch| ensures history[c + i].id == batch[i].id {
      PageIds(start, history, rewrite, c, c + i);
    }
    BulkUpdateOverwrites(history, c, batch);
  }

  lemma VisitPage(pages: seq<seq<Event>>, page: seq<Event>, start: seq<Event>, c: nat)
    requires c + |page| <= |start| && SameIds(page, start[c..c + |page|])
    requires forall j :: 0 <= j < c ==> Visited(pages, start[j].id)
    ensures forall j :: 0 <= j < c + |page| ==> Visited(pages + [page], start[j].id)
  {
    forall j | 0 <= j < c + |page| ensures Visited(pages + [page], start[j].id) {
      if j < c {
        var i :| 0 <= i < |pages| && HasId(pages[i], start[j].id);
        assert (pages + [page])[i] == pages[i];
      } else {
        assert start[c..c + |page|][j - c] == start[j];
        assert page[j - c].id == start[j].id;
        assert HasId(page, start[j].id);
        assert (pages + [page])[|pages|] == page;
      }
    }
  }

  /** Between pages: everything through index c has been read and rewritten, and reading goes on from
      the event at c. At first nothing has been read. */
  ghost predicate Streaming(start: seq<Event>, startID: int, rewrite: Event -> Event,
                            history: seq<Event>, newestID: int, pages: seq<seq<Event>>, c: nat) {
    && Rewritten(start, history, rewrite, Progress(c))
    && (c == 0 ==> pages == [] && newestID == startID)
    && PageStart(|start|, c)
    && (c > 0 ==> c < |start| && newestID == start[c].id)
    && (c > 0 ==> forall j :: 0 <= j <= c ==> Visited(pages, start[j].id))
  }

  /** GetOlderThan as the stream calls it: the page from index c. */
  method ReadPage(ghost start: seq<Event>, ghost startID: int, ghost rewrite: Event -> Event,
                  history: seq<Event>, newestID: int, ghost pages: seq<seq<Event>>, ghost c: nat) returns (events: seq<Event>)
    requires Descending(start) && (forall evt | evt in start :: evt.id <= startID) && KeepsIds(rewrite, start)
    requires Streaming(start, startID, rewrite, history, newestID, pages, c)
    ensures |history| == |start| && c <= |history|
    ensures events == history[c..Min(c + BUFFER_SIZE, |history|)]
  {
    RewrittenIds(start, history, rewrite, Progress(c));
    if c == 0 {
      forall evt | evt in history ensures evt.id <= newestID {
        var j :| 0 <= j < |history| && history[j] == evt;
        assert start[j] in start;
      }
    }
    PageOf(history, c, newestID, BUFFER_SIZE);
    events := GetBetween(history, Some(newestID), None, BUFFER_SIZE);
  }

  lemma StreamStart(start: seq<Event>, startID: int, rewrite: Event -> Event)
    ensures Streaming(start, startID, rewrite, start, startID, [], 0)
  {
  }

  lemma StreamStep(start: seq<Event>, startID: int, rewrite: Event -> Event,
                   history: seq<Event>, newestID: int, pages: seq<seq<Event>>, c: nat, batch: seq<Event>)
    requires Descending(start) && KeepsIds(rewrite, start)
    requires Streaming(start, startID, rewrite, history, newestID, pages, c)
    requires |batch| == Min(BUFFER_SIZE, |start| - c) && |batch| >= 2 && IsBatch(history, rewrite, c, batch)
    ensures Streaming(start, startID, rewrite, Splice(history, c, batch), batch[|batch| - 1].id,
                      pages + [history[c..c + |batch|]], c + |batch| - 1)
  {
    var last := c + |batch| - 1;
    RewrittenIds(start, history, rewrite, Progress(c));
    RewriteSplice(start, history, rewrite, c, batch);
    PageIds(start, history, rewrite, c, last);
    assert batch[|batch| - 1] == rewrite(history[last]);
    VisitPage(pages, history[c..c + |batch|], start, c);
  }

  /** BulkUpdate over the stored history. */
  method BulkUpdate(history: seq<Event>, events: seq<Event>) returns (updated: seq<Event>)
    ensures updated == BulkUpdated(history, events)
  {
    updated := history;
    for i := 0 to |events|
      invariant BulkUpdated(history, events) == BulkUpdated(updated, events[i..])
    {
      assert events[i..][1..] == events[i + 1..];
      updated := Remove(updated, events[i].id);
      updated := Insert(updated, events[i]);
    }
  }

  method RewriteEvents(events: seq<Event>, rewrite: Event -> Event) returns (batch: seq<Event>)
    ensures |batch| == |events| && forall i :: 0 <= i < |events| ==> batch[i] == rewrite(events[i])
  {
    batch := [];
    for i := 0 to |events|
      invariant |batch| == i && forall j :: 0 <= j < i ==> batch[j] == rewrite(events[j])
    {
      batch := batch + [rewrite(events[i])];
    }
  }

  method StoreBatch(ghost start: seq<Event>, ghost rewrite: Event -> Event, history: seq<Event>, ghost c: nat, batch: seq<Event>)
    returns (updated: seq<Event>)
    requires Descending(start) && KeepsIds(rewrite, start)
    requires Rewritten(start, history, rewrite, Progress(c)) && IsBatch(history, rewrite, c, batch)
    ensures updated == Splice(history, c, batch)
  {
    BatchStored(start, history, rewrite, c, batch);
    updated := BulkUpdate(history, batch);
  }

  /** The callback on one page: rewrites each event of it and stores them back. */
  method RewriteAndStore(ghost start: seq<Event>, ghost startID: int, rewrite: Event -> Event, history: seq<Event>,
                         ghost newestID: int, ghost pages: seq<seq<Event>>, ghost c: nat, events: seq<Event>)
    returns (updated: seq<Event>, lastID: int)
    requires Descending(start) && KeepsIds(rewrite, start)
    requires Streaming(start, startID, rewrite, history, newestID, pages, c)
    requires |events| == Min(BUFFER_SIZE, |start| - c) && |events| >= 2 && c + |events| <= |history|
    requires events == history[c..c + |events|]
    ensures Streaming(start, startID, rewrite, updated, lastID, pages + [events], c + |events| - 1)
  {
    var batch := RewriteEvents(events, rewrite);
    assert IsBatch(history, rewrite, c, batch);
    StreamStep(start, startID, rewrite, history, newestID, pages, c, batch);
    updated := StoreBatch(start, rewrite, history, c, batch);
    lastID := batch[|batch| - 1].id;
  }

  /** streamReadEvents with a callback that rewrites each event of a page and stores the page back, on
      a history no id of which is above the id reading starts from. The stream panics exactly on an empty
      history, and visits everything exactly when it does not consist of a single event, which it leaves
      alone. Ids never change. Every event is rewritten, and those where pages meet are rewritten twice. */
  method StreamReadEvents(start: seq<Event>, startID: int, rewrite: Event -> Event) returns (streamed: Streamed)
    requires Descending(start) && forall evt | evt in start :: evt.id <= startID
    requires KeepsIds(rewrite, start)
    ensures streamed.Panic? <==> start == []
    ensures streamed.Done? ==> SameIds(streamed.history, start)
    ensures streamed.Done? ==> (VisitedAll(streamed.pages, start) <==> |start| >= 2)
    ensures streamed.Done? ==> streamed.history == if |start| >= 2 then Rewriting(start, rewrite) else start
  {
    var history, newestID, pages := start, startID, [];
    ghost var c := 0;
    StreamStart(start, startID, rewrite);
    while true
      invariant Streaming(start, startID, rewrite, history, newestID, pages, c)
      decreases |start| - c
    {
      var events := ReadPage(start, startID, rewrite, history, newestID, pages, c);
      if |events| == 1 {
        AllRead(start, startID, rewrite, history, newestID, pages, c);
        return Done(pages, history);
      }
      if |events| == 0 {
        return Panic;
      }
      history, newestID := RewriteAndStore(start, startID, rewrite, history, newestID, pages, c, events);
      pages := pages + [events];
      c := c + |events| - 1;
    }
  }

  /** What the stream's last page, of one event, implies. */
  lemma AllRead(start: seq<Event>, startID: int, rewrite: Event -> Event,
                history: seq<Event>, newestID: int, pages: seq<seq<Event>>, c: nat)
    requires c == |start| - 1 && Descending(start) && KeepsIds(rewrite, start)
    requires Streaming(start, startID, rewrite, history, newestID, pages, c)
    ensures SameIds(history, start)
    ensures VisitedAll(pages, start) <==> |start| >= 2
    ensures history == if |start| >= 2 then Rewriting(start, rewrite) else start
  {
    RewrittenIds(start, history, rewrite, Progress(c));
    assert start[0] in start;
    forall evt | evt in start && c > 0 ensures Visited(pages, evt.id) {
      var j :| 0 <= j < |start| && start[j] == evt;
    }
    AllRewritten(start, history, rewrite);
  }

  lemma AllRewritten(start: seq<Event>, history: seq<Event>, rewrite: Event -> Event)
    requires |start| > 0 && Rewritten(start, history, rewrite, Progress(|start| - 1))
    ensures history == if |start| >= 2 then Rewriting(start, rewrite) else start
  {
  }

  /** The stream applies a rewrite to every event once if and only if rewriting again changes none of the
      events where pages meet. */
  lemma RewritesOnceIff(start: seq<Event>, rewrite: Event -> Event)
    ensures Rewriting(start, rewrite) == MapEvents(start, rewrite)
       <==> forall j {:trigger start[j]} | 0 <= j < |start| && IsSeam(|start|, j) :: rewrite(rewrite(start[j])) == rewrite(start[j])
  {
    forall j | 0 <= j < |start| && IsSeam(|start|, j)
      ensures Rewriting(start, rewrite) == MapEvents(start, rewrite) ==> rewrite(rewrite(start[j])) == rewrite(start[j])
    {
      assert Rewriting(start, rewrite)[j] == rewrite(rewrite(start[j])) && MapEvents(start, rewrite)[j] == rewrite(start[j]);
    }
  }

  lemma OnePageHasNoSeam(n: nat, j: int)
    requires n <= BUFFER_SIZE
    ensures !IsSeam(n, j)
  {
  }

  lemma RewrittenTwice(start: seq<Event>, rewrite: Event -> Event, j: nat)
    requires j < |start| && Idempotent(rewrite, start)
    ensures rewrite(rewrite(start[j])) == rewrite(start[j])
  {
    assert start[j] in start;
  }

  /** So it does for an idempotent rewrite, and for any rewrite of a history of up to one page. */
  lemma RewritesOnce(start: seq<Event>, rewrite: Event -> Event)
    requires Idempotent(rewrite, start) || |start| <= BUFFER_SIZE
    ensures Rewriting(start, rewrite) == MapEvents(start, rewrite)
  {
    RewritesOnceIff(start, rewrite);
    if Idempotent(rewrite, start) {
      forall j {:trigger start[j]} | 0 <= j < |start| && IsSeam(|start|, j) ensures rewrite(rewrite(start[j])) == rewrite(start[j]) {
        RewrittenTwice(start, rewrite, j);
      }
    } else {
      forall j: int ensures !IsSeam(|start|, j) {
        OnePageHasNoSeam(|start|, j);
      }
    }
  }

  /** Pages of 200 meet at every 199th event. */
  lemma SeamsAre(n: nat, j: int)
    ensures IsSeam(n, j) <==> 0 < j && j + 1 < n && j % 199 == 0
  {
  }
}
