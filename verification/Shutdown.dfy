/** Keeping track of the clients to wait for before the server stops (server/shutdown/shutdown.go). */
module Shutdowns {
  datatype Event =
    | NewClient(id: nat, name: string)
    | RemoveClient(id: nat)
    | Shutdown(reason: int)

  /** The task's state: the clients it tracks, those it has canceled, and the count of the wait group. */
  datatype State = State(clients: map<nat, string>, canceled: set<nat>, terminating: bool, cause: int, waiting: int)

  const STILL_RUNNING := 0

  function Next(s: State, event: Event): State {
    match event
    case NewClient(id, name) =>
      s.(clients := s.clients[id := name],
         canceled := if s.terminating then s.canceled + {id} else s.canceled,
         waiting := s.waiting + 1)
    case RemoveClient(id) => s.(clients := s.clients - {id}, waiting := s.waiting - 1)
    case Shutdown(reason) =>
      s.(terminating := true, cause := reason, waiting := s.waiting - 1, canceled := s.canceled + s.clients.Keys)
  }

  class Task {
    var clients: map<nat, string>
    var canceled: set<nat>
    var terminating: bool
    var cause: int
    var waiting: int

    constructor ()
      ensures Current() == Start()
    {
      clients, canceled, terminating, cause, waiting := map[], {}, false, STILL_RUNNING, 1;
    }

    function Current(): State
      reads this
    {
      State(clients, canceled, terminating, cause, waiting)
    }

    method Handle(event: Event)
      modifies this
      ensures Current() == Next(old(Current()), event)
    {
      match event {
        case NewClient(id, name) =>
          if terminating {
            canceled := canceled + {id};
          }
          clients := clients[id := name];
          waiting := waiting + 1;
        case RemoveClient(id) =>
          clients := clients - {id};
          waiting := waiting - 1;
        case Shutdown(reason) =>
          terminating := true;
          cause := reason;
          waiting := waiting - 1;
          CancelClients();
      }
    }

    /** Cancels every tracked client. */
    method CancelClients()
      modifies this`canceled
      ensures canceled == old(canceled) + clients.Keys
    {
      var left := clients.Keys;
      while left != {}
        invariant left <= clients.Keys && canceled == old(canceled) + (clients.Keys - left)
        decreases |left|
      {
        var id :| id in left;
        canceled := canceled + {id};
        left := left - {id};
      }
    }
  }

  function Start(): State {
    State(map[], {}, false, STILL_RUNNING, 1)
  }

  /** The wait group counts the tracked clients, and the task itself until it terminates. */
  predicate Accounted(s: State) {
    s.waiting == |s.clients| + if s.terminating then 0 else 1
  }

  /** Once terminating, every tracked client has been canceled. */
  predicate AllTold(s: State) {
    s.terminating ==> s.clients.Keys <= s.canceled
  }

  /** Clients have fresh ids and are removed once, and the shutdown comes once. */
  predicate Allowed(s: State, event: Event) {
    match event
    case NewClient(id, _) => id !in s.clients
    case RemoveClient(id) => id in s.clients
    case Shutdown(_) => !s.terminating
  }

  lemma CountAdded(clients: map<nat, string>, id: nat, name: string)
    ensures |clients[id := name]| == |clients| + if id in clients then 0 else 1
  {
    assert clients[id := name].Keys == clients.Keys + {id};
    assert |clients[id := name]| == |clients[id := name].Keys| && |clients| == |clients.Keys|;
  }

  lemma CountRemoved(clients: map<nat, string>, id: nat)
    ensures |clients - {id}| == |clients| - if id in clients then 1 else 0
  {
    assert (clients - {id}).Keys == clients.Keys - {id};
    assert |clients - {id}| == |(clients - {id}).Keys| && |clients| == |clients.Keys|;
  }

  /** An event keeps the account if and only if it is allowed: a client added twice, removed twice or
      never added, or a second shutdown, breaks the count. */
  lemma EventKeepsAccountIff(s: State, event: Event)
    requires Accounted(s)
    ensures Accounted(Next(s, event)) <==> Allowed(s, event)
  {
    match event
    case NewClient(id, name) => CountAdded(s.clients, id, name);
    case RemoveClient(id) => CountRemoved(s.clients, id);
    case Shutdown(_) =>
  }

  predicate AllowedRun(s: State, events: seq<Event>)
    decreases |events|
  {
    events != [] ==> Allowed(s, events[0]) && AllowedRun(Next(s, events[0]), events[1..])
  }

  function Run(s: State, events: seq<Event>): State
    decreases |events|
  {
    if events == [] then s else Run(Next(s, events[0]), events[1..])
  }

  /** Over every run the count is that of the clients and the task, so it is never negative and is zero
      exactly when the server may stop; clients that arrive late are canceled too. */
  lemma {:induction false} RunKeepsAccount(s: State, events: seq<Event>)
    requires Accounted(s) && AllTold(s) && AllowedRun(s, events)
    ensures var t := Run(s, events);
            && Accounted(t) && AllTold(t)
            && t.waiting >= 0
            && (t.waiting == 0 <==> t.terminating && t.clients == map[])
            && (s.terminating ==> t.terminating)
    decreases |events|
  {
    if events != [] {
      EventKeepsAccountIff(s, events[0]);
      RunKeepsAccount(Next(s, events[0]), events[1..]);
    }
  }

  /** The events that remove clients one after the other. */
  function Releases(ids: seq<nat>): seq<Event> {
    if ids == [] then [] else [RemoveClient(ids[0])] + Releases(ids[1..])
  }

  /** When, after the shutdown, the tracked clients release in any order, the count falls to zero with the
      last of them and not before. */
  lemma {:induction false} StopsWithLastRelease(s: State, ids: seq<nat>)
    requires Accounted(s) && s.terminating
    requires forall i, j | 0 <= i < j < |ids| :: ids[i] != ids[j]
    requires forall id | id in ids :: id in s.clients
    ensures AllowedRun(s, Releases(ids))
    ensures Run(s, Releases(ids)).waiting == 0 <==> forall id | id in s.clients :: id in ids
    decreases |ids|
  {
    if ids == [] {
      NoClients(s.clients);
    } else {
      assert Releases(ids)[0] == RemoveClient(ids[0]) && Releases(ids)[1..] == Releases(ids[1..]);
      EventKeepsAccountIff(s, RemoveClient(ids[0]));
      StopsWithLastRelease(Next(s, RemoveClient(ids[0])), ids[1..]);
      StillToRelease(s.clients, ids);
    }
  }

  lemma NoClients(clients: map<nat, string>)
    ensures |clients| == 0 <==> forall id | id in clients :: id in []
  {
    if |clients| != 0 {
      assert clients.Keys != {};
    }
  }

  lemma StillToRelease(clients: map<nat, string>, ids: seq<nat>)
    requires ids != []
    ensures (forall id | id in clients :: id in ids) <==> (forall id | id in clients - {ids[0]} :: id in ids[1..])
  {
    assert ids == [ids[0]] + ids[1..];
  }

  /** The clients a run adds. */
  function Added(events: seq<Event>): set<nat> {
    if events == [] then {} else (if events[0].NewClient? then {events[0].id} else {}) + Added(events[1..])
  }

  /** Nobody is canceled, and no cause given, before the shutdown. */
  lemma {:induction false} NothingBeforeShutdown(s: State, events: seq<Event>)
    requires !s.terminating && forall event | event in events :: !event.Shutdown?
    ensures var t := Run(s, events);
            !t.terminating && t.canceled == s.canceled && t.cause == s.cause && t.clients.Keys <= s.clients.Keys + Added(events)
    decreases |events|
  {
    if events != [] {
      assert events[0] in events && forall event | event in events[1..] :: event in events;
      NothingBeforeShutdown(Next(s, events[0]), events[1..]);
    }
  }

  /** After it exactly those that are added are canceled as well. */
  lemma {:induction false} AfterShutdown(s: State, events: seq<Event>)
    requires s.terminating && forall event | event in events :: !event.Shutdown?
    ensures var t := Run(s, events);
            t.terminating && t.canceled == s.canceled + Added(events) && t.cause == s.cause
    decreases |events|
  {
    if events != [] {
      assert events[0] in events && forall event | event in events[1..] :: event in events;
      AfterShutdown(Next(s, events[0]), events[1..]);
    }
  }

  lemma {:induction false} RunAppend(s: State, a: seq<Event>, b: seq<Event>)
    ensures Run(s, a + b) == Run(Run(s, a), b)
    decreases |a|
  {
    if a == [] {
      assert a + b == b;
    } else {
      assert (a + b)[1..] == a[1..] + b;
      RunAppend(Next(s, a[0]), a[1..], b);
    }
  }

  /** Over a whole run with one shutdown, exactly the clients tracked then and those added after it are
      canceled, and the cause is that shutdown's. */
  lemma CanceledExactly(before: seq<Event>, reason: int, after: seq<Event>)
    requires forall event | event in before || event in after :: !event.Shutdown?
    ensures var t := Run(Start(), before + [Shutdown(reason)] + after);
            && t.terminating && t.cause == reason
            && t.canceled == Run(Start(), before).clients.Keys + Added(after)
    ensures Run(Start(), before).canceled == {} && Run(Start(), before).cause == STILL_RUNNING
  {
    NothingBeforeShutdown(Start(), before);
    RunAppend(Start(), before + [Shutdown(reason)], after);
    RunAppend(Start(), before, [Shutdown(reason)]);
    var s := Run(Start(), before);
    assert Run(s, [Shutdown(reason)]) == Next(s, Shutdown(reason)) by {
      assert [Shutdown(reason)][1..] == [];
    }
    AfterShutdown(Next(s, Shutdown(reason)), after);
  }

  /** A client is tracked after a run if and only if it was added and not removed since. */
  lemma {:induction false} TrackedIff(s: State, events: seq<Event>, id: nat)
    ensures id in Run(s, events).clients <==> Tracked(id in s.clients, events, id)
    decreases |events|
  {
    if events != [] {
      TrackedIff(Next(s, events[0]), events[1..], id);
    }
  }

  predicate Tracked(was: bool, events: seq<Event>, id: nat)
    decreases |events|
  {
    if events == [] then was
    else
      var tracked := match events[0]
        case NewClient(added, _) => was || added == id
        case RemoveClient(removed) => was && removed != id
        case Shutdown(_) => was;
      Tracked(tracked, events[1..], id)
  }
}
