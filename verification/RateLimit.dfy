/** Limiting the requests of an address by counting them in ten-second windows
    (server/http/middleware.go). */
module RateLimit {
  const WINDOW := 10
  const EXPIRATION := 15

  datatype Request = Request(addr: string, at: nat)

  /** A stored counter, and when it expires. */
  datatype Counter = Counter(count: nat, expires: nat)

  /** The counter of an address and the start of a window. */
  type Key = (string, nat)

  function WindowOf(at: nat): nat {
    at - at % WINDOW
  }

  function KeyOf(r: Request): Key {
    (r.addr, WindowOf(r.at))
  }

  /** A stored count; 0 when there is none or it has expired. */
  function Current(store: map<Key, Counter>, key: Key, now: nat): nat {
    if key in store && now < store[key].expires then store[key].count else 0
  }

  /** The store after a request is counted, served or not. */
  function Counted(store: map<Key, Counter>, r: Request): map<Key, Counter> {
    store[KeyOf(r) := Counter(Current(store, KeyOf(r), r.at) + 1, r.at + EXPIRATION)]
  }

  class Limiter {
    const max: nat
    var store: map<Key, Counter>

    constructor (max: nat)
      ensures this.max == max && store == map[]
    {
      this.max := max;
      store := map[];
    }

    method Handle(r: Request) returns (served: bool)
      modifies this
      ensures served == (Current(old(store), KeyOf(r), r.at) <= max)
      ensures store == Counted(old(store), r)
    {
      var key := (r.addr, r.at - r.at % WINDOW);
      var current := Current(store, key, r.at);
      var limited := false;
      if current > max {
        limited := true;
      }
      store := store[key := Counter(current + 1, r.at + EXPIRATION)];
      served := !limited;
    }

    /** Handles requests one after the other. */
    method HandleAll(rs: seq<Request>) returns (served: seq<bool>)
      requires store == map[]
      modifies this
      ensures store == StoreAfter(rs)
      ensures |served| == |rs| && forall i | 0 <= i < |rs| :: served[i] == Serves(max, rs, i)
    {
      served := [];
      for i := 0 to |rs|
        invariant store == StoreAfter(rs[..i])
        invariant |served| == i && forall k | 0 <= k < i :: served[k] == Serves(max, rs, k)
      {
        var s := Handle(rs[i]);
        assert rs[..i + 1][..i] == rs[..i];
        served := served + [s];
      }
      assert rs[..|rs|] == rs;
    }
  }

  // ---- Runs ----

  function StoreAfter(rs: seq<Request>): map<Key, Counter> {
    if rs == [] then map[] else Counted(StoreAfter(rs[..|rs| - 1]), rs[|rs| - 1])
  }

  /** The i-th request is served. */
  predicate Serves(max: nat, rs: seq<Request>, i: nat)
    requires i < |rs|
  {
    Current(StoreAfter(rs[..i]), KeyOf(rs[i]), rs[i].at) <= max
  }

  /** The clock does not go back. */
  predicate Monotone(rs: seq<Request>) {
    forall i, j | 0 <= i < j < |rs| :: rs[i].at <= rs[j].at
  }

  /** How many requests a counter is for. */
  function Requests(rs: seq<Request>, key: Key): nat {
    if rs == [] then 0
    else Requests(rs[..|rs| - 1], key) + if KeyOf(rs[|rs| - 1]) == key then 1 else 0
  }

  /** How many requests of those at some places are served. */
  function Served(max: nat, rs: seq<Request>, counts: Request -> bool, n: nat): nat
    requires n <= |rs|
  {
    if n == 0 then 0
    else Served(max, rs, counts, n - 1) + if counts(rs[n - 1]) && Serves(max, rs, n - 1) then 1 else 0
  }

  /** Within its window a counter has counted every request, and has not expired. */
  lemma {:induction false} CurrentCountsWindow(rs: seq<Request>, key: Key, now: nat)
    requires Monotone(rs) && WindowOf(now) == key.1
    requires forall i | 0 <= i < |rs| :: rs[i].at <= now
    ensures Current(StoreAfter(rs), key, now) == Requests(rs, key)
  {
    if rs != [] {
      var last := rs[|rs| - 1];
      var front := rs[..|rs| - 1];
      if KeyOf(last) == key {
        CurrentCountsWindow(front, key, last.at);
        assert now - last.at < WINDOW;
      } else {
        CurrentCountsWindow(front, key, now);
      }
    }
  }

  /** A request is served exactly when its window has had no more than max before it. */
  lemma ServesIff(max: nat, rs: seq<Request>, i: nat)
    requires Monotone(rs) && i < |rs|
    ensures Serves(max, rs, i) <==> Requests(rs[..i], KeyOf(rs[i])) <= max
  {
    CurrentCountsWindow(rs[..i], KeyOf(rs[i]), rs[i].at);
  }

  function ForKey(key: Key): Request -> bool {
    (r: Request) => KeyOf(r) == key
  }

  /** Of the requests of a window exactly the first max + 1 are served. */
  lemma {:induction false} WindowServesFirst(max: nat, rs: seq<Request>, key: Key, n: nat)
    requires Monotone(rs) && n <= |rs|
    ensures var requests := Requests(rs[..n], key);
            Served(max, rs, ForKey(key), n) == if requests <= max + 1 then requests else max + 1
  {
    if n > 0 {
      WindowServesFirst(max, rs, key, n - 1);
      assert rs[..n][..n - 1] == rs[..n - 1];
      ServesIff(max, rs, n - 1);
    }
  }

  /** Requests that two sets of requests cover are served at most as often as those of the two. */
  lemma {:induction false} ServedCovered(
      max: nat, rs: seq<Request>, p: Request -> bool, q: Request -> bool, r: Request -> bool, n: nat)
    requires n <= |rs| && forall x | x in rs && p(x) :: q(x) || r(x)
    ensures Served(max, rs, p, n) <= Served(max, rs, q, n) + Served(max, rs, r, n)
  {
    if n > 0 {
      assert rs[n - 1] in rs;
      ServedCovered(max, rs, p, q, r, n - 1);
    }
  }

  /** Ten seconds of one address by their stamps, which are whole seconds: eleven of them, as the span may
      start and end within a second. */
  function InSpan(addr: string, start: nat): Request -> bool {
    (r: Request) => r.addr == addr && start <= r.at <= start + 10
  }

  lemma SpanMeetsTwoWindows(r: Request, addr: string, start: nat)
    requires InSpan(addr, start)(r)
    ensures KeyOf(r) == (addr, WindowOf(start)) || KeyOf(r) == (addr, WindowOf(start) + WINDOW)
  {
    var k, m := start / WINDOW, r.at / WINDOW;
    assert k == m || k + 1 == m;
  }

  /** Any ten seconds, wherever they start, serve an address at most twice the limit and two requests. */
  lemma SpanBound(max: nat, rs: seq<Request>, addr: string, start: nat)
    requires Monotone(rs)
    ensures Served(max, rs, InSpan(addr, start), |rs|) <= 2 * (max + 1)
  {
    var early, late := (addr, WindowOf(start)), (addr, WindowOf(start) + WINDOW);
    WindowServesFirst(max, rs, early, |rs|);
    WindowServesFirst(max, rs, late, |rs|);
    TwoKeysCover(max, rs, InSpan(addr, start), early, late, addr, start);
  }

  lemma TwoKeysCover(
      max: nat, rs: seq<Request>, span: Request -> bool, early: Key, late: Key, addr: string, start: nat)
    requires span == InSpan(addr, start)
    requires early == (addr, WindowOf(start)) && late == (addr, WindowOf(start) + WINDOW)
    ensures Served(max, rs, span, |rs|) <= Served(max, rs, ForKey(early), |rs|) + Served(max, rs, ForKey(late), |rs|)
  {
    forall r | r in rs && span(r) ensures ForKey(early)(r) || ForKey(late)(r) {
      SpanMeetsTwoWindows(r, addr, start);
    }
    ServedCovered(max, rs, span, ForKey(early), ForKey(late), |rs|);
  }

  /** A burst at the end of one window and a burst at the start of the next. */
  function Bursts(max: nat, addr: string): seq<Request> {
    seq(2 * (max + 1), i => Request(addr, if i <= max then WINDOW - 1 else WINDOW))
  }

  lemma {:induction false} BurstRequests(max: nat, addr: string, n: nat)
    requires n <= 2 * (max + 1)
    ensures Requests(Bursts(max, addr)[..n], (addr, 0)) == if n <= max + 1 then n else max + 1
    ensures Requests(Bursts(max, addr)[..n], (addr, WINDOW)) == if n <= max + 1 then 0 else n - (max + 1)
  {
    var rs := Bursts(max, addr);
    if n > 0 {
      BurstRequests(max, addr, n - 1);
      assert rs[..n][..n - 1] == rs[..n - 1];
    }
  }

  lemma BurstServes(max: nat, addr: string, i: nat)
    requires i < 2 * (max + 1)
    ensures Serves(max, Bursts(max, addr), i) && InSpan(addr, 1)(Bursts(max, addr)[i])
  {
    BurstRequests(max, addr, i);
    ServesIff(max, Bursts(max, addr), i);
  }

  lemma {:induction false} BurstsServed(max: nat, addr: string, n: nat)
    requires n <= 2 * (max + 1)
    ensures Served(max, Bursts(max, addr), InSpan(addr, 1), n) == n
  {
    var rs := Bursts(max, addr);
    if n > 0 {
      BurstsServed(max, addr, n - 1);
      BurstServes(max, addr, n - 1);
    }
  }

  /** The bound is met for every limit: ten seconds across the edge of a window can serve that many. */
  lemma SpanBoundIsMet(max: nat, addr: string)
    ensures exists rs, start ::
      Monotone(rs) && Served(max, rs, InSpan(addr, start), |rs|) == 2 * (max + 1)
  {
    BurstsServed(max, addr, 2 * (max + 1));
    assert Monotone(Bursts(max, addr));
  }

  /** A counted request is remembered for 15 seconds, and its counter with it; other counters are left alone. */
  lemma CounterExpires(store: map<Key, Counter>, r: Request, now: nat, other: Key)
    ensures Current(Counted(store, r), KeyOf(r), now)
         == if now < r.at + 15 then Current(store, KeyOf(r), r.at) + 1 else 0
    ensures other != KeyOf(r) ==> Current(Counted(store, r), other, now) == Current(store, other, now)
  {
  }
}
