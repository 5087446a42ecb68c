/** What is on its way to a client arrives: deliveries alone drain it, from every world. */
module Draining {
  import opened Text
  import opened Events
  import opened Channels
  import opened Subscription
  import opened ClientReducer
  import opened C = Convergence
  import opened Tracking

  function Relays(i: nat, n: nat): seq<Step> {
    if n == 0 then [] else [RelayNext(i)] + Relays(i, n - 1)
  }

  function Receives(i: nat, n: nat, now: int): seq<Step> {
    if n == 0 then [] else [Receive(i, now)] + Receives(i, n - 1, now)
  }

  /** As many relays as there are messages in the inbox, and then one receipt for each text. */
  function Drain(s: Subscriber, i: nat, now: int): seq<Step> {
    Relays(i, |s.inbox|) + Receives(i, |s.stream| + |Relay(s.inbox, s.seat)|, now)
  }

  predicate IsDelivery(step: Step) {
    step.RelayNext? || step.Receive?
  }

  lemma {:induction false} DrainIsDelivery(i: nat, n: nat, now: int)
    ensures forall step | step in Relays(i, n) || step in Receives(i, n, now) :: IsDelivery(step)
  {
    if n > 0 {
      DrainIsDelivery(i, n - 1, now);
    }
  }

  lemma DrainDelivers(s: Subscriber, i: nat, now: int)
    ensures forall step | step in Drain(s, i, now) :: IsDelivery(step)
  {
    DrainIsDelivery(i, |s.inbox|, now);
    DrainIsDelivery(i, |s.stream| + |Relay(s.inbox, s.seat)|, now);
  }

  lemma {:induction false} RunAppend(codec: Codec, w: World, a: seq<Step>, b: seq<Step>)
    ensures Run(codec, w, a + b) == Run(codec, Run(codec, w, a), b)
    decreases |a|
  {
    if a == [] {
      assert a + b == b;
    } else {
      assert (a + b)[1..] == a[1..] + b;
      RunAppend(codec, Next(codec, w, a[0]), a[1..], b);
    }
  }

  /** Deliveries are always possible and mislead nobody. */
  lemma {:induction false} DeliveriesAreFree(codec: Codec, w: World, steps: seq<Step>, seat: Seat)
    requires forall step | step in steps :: IsDelivery(step)
    ensures ValidRun(codec, w, steps) && NeverMisled(codec, w, steps, seat)
    decreases |steps|
  {
    if steps != [] {
      assert steps[0] in steps && forall step | step in steps[1..] :: step in steps;
      DeliveriesAreFree(codec, Next(codec, w, steps[0]), steps[1..], seat);
    }
  }

  /** A world in which one subscriber has changed. */
  function With(w: World, i: nat, s: Subscriber): World
    requires i < |w.subscribers|
  {
    w.(subscribers := w.subscribers[i := s])
  }

  /** The state a client is left in by a series of texts. */
  function Handled(codec: Codec, state: State, texts: seq<string>, now: int): State
    decreases |texts|
  {
    if texts == [] then state else Handled(codec, HandleText(codec, state, texts[0], now), texts[1..], now)
  }

  /** A subscriber to which nothing is on its way any more, its client having handled all that was. */
  function Drained(codec: Codec, s: Subscriber, now: int): Subscriber {
    s.(inbox := [], stream := [], client := Handled(codec, s.client, s.stream + Relay(s.inbox, s.seat), now))
  }

  lemma {:induction false} RelaysDrain(codec: Codec, w: World, i: nat)
    requires i < |w.subscribers|
    ensures var s := w.subscribers[i];
            Run(codec, w, Relays(i, |s.inbox|)) == With(w, i, s.(inbox := [], stream := s.stream + Relay(s.inbox, s.seat)))
    decreases |w.subscribers[i].inbox|
  {
    var s := w.subscribers[i];
    if s.inbox == [] {
      assert s.stream + Relay(s.inbox, s.seat) == s.stream;
    } else {
      var w' := With(w, i, Relayed(s));
      assert Next(codec, w, RelayNext(i)) == w';
      RelaysDrain(codec, w', i);
      assert Relays(i, |s.inbox|)[1..] == Relays(i, |s.inbox| - 1);
      FlatMapStep(s.inbox, Relayer(s.seat));
      ConcatAssociates(s.stream, Relay([s.inbox[0]], s.seat), Relay(s.inbox[1..], s.seat));
    }
  }

  lemma {:induction false} ReceivesDrain(codec: Codec, w: World, i: nat, now: int)
    requires i < |w.subscribers|
    ensures var s := w.subscribers[i];
            Run(codec, w, Receives(i, |s.stream|, now))
            == With(w, i, s.(stream := [], client := Handled(codec, s.client, s.stream, now)))
    decreases |w.subscribers[i].stream|
  {
    var s := w.subscribers[i];
    if s.stream != [] {
      var w' := With(w, i, Received(codec, s, now));
      assert Next(codec, w, Receive(i, now)) == w';
      ReceivesDrain(codec, w', i, now);
      assert Receives(i, |s.stream|, now)[1..] == Receives(i, |s.stream| - 1, now);
    }
  }

  /** From every world deliveries leave a subscriber drained, and change nothing but it. */
  lemma DrainDrains(codec: Codec, w: World, i: nat, now: int)
    requires i < |w.subscribers|
    ensures var s := w.subscribers[i];
            && ValidRun(codec, w, Drain(s, i, now)) && NeverMisled(codec, w, Drain(s, i, now), s.seat)
            && Run(codec, w, Drain(s, i, now)) == With(w, i, Drained(codec, s, now))
  {
    var s := w.subscribers[i];
    var n := |s.stream| + |Relay(s.inbox, s.seat)|;
    DrainDelivers(s, i, now);
    DeliveriesAreFree(codec, w, Drain(s, i, now), s.seat);
    RunAppend(codec, w, Relays(i, |s.inbox|), Receives(i, n, now));
    RelaysDrain(codec, w, i);
    ReceivesDrain(codec, Run(codec, w, Relays(i, |s.inbox|)), i, now);
  }

  /** Eventual agreement: after any run that never misled it, deliveries alone bring a subscriber's client
      to show exactly what its player may see. */
  lemma EventuallyAgrees(codec: Codec, w: World, steps: seq<Step>, i: nat, now: int)
    requires codec.Faithful() && WellFormed(w) && ValidRun(codec, w, steps)
    requires i < |w.subscribers| && InSync(codec, w, i)
    requires NeverMisled(codec, w, steps, w.subscribers[i].seat)
    ensures |Run(codec, w, steps).subscribers| == |w.subscribers|
    ensures var w' := Run(codec, w, steps);
            var w'' := Run(codec, w', Drain(w'.subscribers[i], i, now));
            && |w''.subscribers| == |w.subscribers| && w''.histories == w'.histories
            && Agrees(w'', i)
  {
    C.Convergence(codec, w, steps, i);
    var w' := Run(codec, w, steps);
    DrainDrains(codec, w', i, now);
    DrainedRunAgrees(codec, w', Drain(w'.subscribers[i], i, now), i);
  }

  lemma {:induction false} DeliveriesStale(codec: Codec, w: World, steps: seq<Step>, seat: Seat, stale: set<int>)
    requires forall step | step in steps :: IsDelivery(step)
    ensures StaleAfterRun(codec, w, steps, seat, stale) == stale
    decreases |steps|
  {
    if steps != [] {
      assert steps[0] in steps && forall step | step in steps[1..] :: step in steps;
      DeliveriesStale(codec, Next(codec, w, steps[0]), steps[1..], seat, stale);
    }
  }

  /** A subscriber that deliveries leave with nothing on its way shows what it tracks. */
  lemma DeliveriesShow(codec: Codec, w: World, steps: seq<Step>, i: nat, s: Subscriber, cursor: int, stale: set<int>)
    requires codec.Faithful() && WellFormed(w) && (forall step | step in steps :: IsDelivery(step))
    requires i < |w.subscribers| && TracksGame(codec, w, i, cursor, stale)
    requires Run(codec, w, steps) == With(w, i, s) && s.inbox == [] && s.stream == []
    ensures s.seat == w.subscribers[i].seat && Shows(s.client, w.History(s.seat.game), s.seat, cursor, stale)
  {
    var seat := w.subscribers[i].seat;
    DeliveriesAreFree(codec, w, steps, seat);
    DeliveriesStale(codec, w, steps, seat, stale);
    RunKeepsTrack(codec, w, steps, i, cursor, stale);
    DrainedRunTracks(codec, w, steps, i, cursor, stale);
  }

  /** Deliveries alone bring a client to show what it tracks. */
  lemma DrainShows(codec: Codec, w: World, i: nat, cursor: int, stale: set<int>, now: int)
    requires codec.Faithful() && WellFormed(w)
    requires i < |w.subscribers| && TracksGame(codec, w, i, cursor, stale)
    ensures var s := w.subscribers[i];
            && Run(codec, w, Drain(s, i, now)) == With(w, i, Drained(codec, s, now))
            && Shows(Drained(codec, s, now).client, w.History(s.seat.game), s.seat, cursor, stale)
  {
    var s := w.subscribers[i];
    DrainDrains(codec, w, i, now);
    DrainDelivers(s, i, now);
    DeliveriesShow(codec, w, Drain(s, i, now), i, Drained(codec, s, now), cursor, stale);
  }

  /** After any run at all, misleading edits and all, deliveries alone bring a subscriber's client to show what
      its player may see, from its cursor on and but for the fields of stale events. */
  lemma EventuallyTracks(codec: Codec, w: World, steps: seq<Step>, i: nat, cursor: int, stale: set<int>, now: int)
    requires codec.Faithful() && WellFormed(w) && ValidRun(codec, w, steps)
    requires i < |w.subscribers| && TracksGame(codec, w, i, cursor, stale)
    ensures |Run(codec, w, steps).subscribers| == |w.subscribers|
    ensures var w' := Run(codec, w, steps);
            var s := w'.subscribers[i];
            && Run(codec, w', Drain(s, i, now)) == With(w', i, Drained(codec, s, now))
            && Shows(Drained(codec, s, now).client, w'.History(s.seat.game), s.seat, cursor,
                     StaleAfterRun(codec, w, steps, s.seat, stale))
  {
    RunKeepsTrack(codec, w, steps, i, cursor, stale);
    RunKeepsWellFormed(codec, w, steps);
    var w' := Run(codec, w, steps);
    DrainShows(codec, w', i, cursor, StaleAfterRun(codec, w, steps, w.subscribers[i].seat, stale), now);
  }
}
