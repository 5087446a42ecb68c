/** There is a faithful codec: every update can be written as a text that reads back. Prefix codes for
    numbers are put together into codes for lists, pairs and, by their parts, for updates. */
module Codes {
  import opened Wrappers
  import opened Events

  /** A code no text of which is the beginning of another's. */
  ghost predicate IsPrefixCode<T(!new)>(code: T -> string) {
    forall a: T, b: T, r: string, s: string | code(a) + r == code(b) + s :: a == b && r == s
  }

  ghost predicate Coded<T(!new)>() {
    exists code: T -> string :: IsPrefixCode(code)
  }

  ghost predicate Injective<A(!new), B(!new)>(h: A -> B) {
    forall a: A, a': A | h(a) == h(a') :: a == a'
  }

  // ---- Numbers, pairs, lists and parts ----

  function Unary(n: nat): string {
    if n == 0 then "0" else "1" + Unary(n - 1)
  }

  lemma {:induction false} UnaryReads(m: nat, n: nat, r: string, s: string)
    requires Unary(m) + r == Unary(n) + s
    ensures m == n && r == s
  {
    assert (Unary(m) + r)[0] == (Unary(n) + s)[0];
    if m == 0 || n == 0 {
      assert r == ("0" + r)[1..] && s == ("0" + s)[1..];
    } else {
      assert (Unary(m) + r)[1..] == Unary(m - 1) + r && (Unary(n) + s)[1..] == Unary(n - 1) + s;
      UnaryReads(m - 1, n - 1, r, s);
    }
  }

  lemma NatCoded()
    ensures Coded<nat>()
  {
    var code := (n: nat) => Unary(n);
    forall a: nat, b: nat, r, s | code(a) + r == code(b) + s ensures a == b && r == s {
      UnaryReads(a, b, r, s);
    }
    assert IsPrefixCode(code);
  }

  /** What has coded parts that determine it is coded. */
  lemma PartsCoded<A(!new), B(!new)>(parts: A -> B)
    requires Coded<B>() && Injective(parts)
    ensures Coded<A>()
  {
    var code: B -> string :| IsPrefixCode(code);
    var whole := (a: A) => code(parts(a));
    forall a: A, b: A, r: string, s: string | whole(a) + r == whole(b) + s ensures a == b && r == s {
      assert code(parts(a)) + r == code(parts(b)) + s;
      assert parts(a) == parts(b);
    }
    assert IsPrefixCode(whole);
  }

  function Paired<A, B>(f: A -> string, g: B -> string): ((A, B)) -> string {
    (p: (A, B)) => f(p.0) + g(p.1)
  }

  lemma PairedIsCode<A(!new), B(!new)>(f: A -> string, g: B -> string)
    requires IsPrefixCode(f) && IsPrefixCode(g)
    ensures IsPrefixCode(Paired(f, g))
  {
    var code := Paired(f, g);
    forall a: (A, B), b: (A, B), r: string, s: string | code(a) + r == code(b) + s ensures a == b && r == s {
      assert code(a) + r == f(a.0) + (g(a.1) + r) && code(b) + s == f(b.0) + (g(b.1) + s);
      assert g(a.1) + r == g(b.1) + s;
    }
  }

  lemma PairCoded<A(!new), B(!new)>()
    requires Coded<A>() && Coded<B>()
    ensures Coded<(A, B)>()
  {
    var f: A -> string :| IsPrefixCode(f);
    var g: B -> string :| IsPrefixCode(g);
    PairedIsCode(f, g);
  }

  function Listed<T>(code: T -> string, xs: seq<T>): string {
    if xs == [] then "0" else "1" + (code(xs[0]) + Listed(code, xs[1..]))
  }

  lemma SameFronts(a: string, b: string, x: string, y: string)
    requires a + x == b + y && |a| == |b|
    ensures a == b && x == y
  {
    assert a == (a + x)[..|a|] && b == (b + y)[..|b|];
    assert x == (a + x)[|a|..] && y == (b + y)[|b|..];
  }

  lemma {:induction false} ListReads<T(!new)>(code: T -> string, xs: seq<T>, ys: seq<T>, r: string, s: string)
    requires IsPrefixCode(code) && Listed(code, xs) + r == Listed(code, ys) + s
    ensures xs == ys && r == s
  {
    assert (Listed(code, xs) + r)[0] == (Listed(code, ys) + s)[0];
    if xs == [] || ys == [] {
      SameFronts("0", "0", r, s);
    } else {
      var xr, ys' := Listed(code, xs[1..]) + r, Listed(code, ys[1..]) + s;
      ListedMore(code, xs, r);
      ListedMore(code, ys, s);
      SameFronts("1", "1", code(xs[0]) + xr, code(ys[0]) + ys');
      assert xs[0] == ys[0] && xr == ys';
      ListReads(code, xs[1..], ys[1..], r, s);
      assert xs == [xs[0]] + xs[1..] && ys == [ys[0]] + ys[1..];
    }
  }

  lemma ListedMore<T>(code: T -> string, xs: seq<T>, r: string)
    requires xs != []
    ensures Listed(code, xs) + r == "1" + (code(xs[0]) + (Listed(code, xs[1..]) + r))
  {
  }

  lemma ListCoded<T(!new)>()
    requires Coded<T>()
    ensures Coded<seq<T>>()
  {
    var f: T -> string :| IsPrefixCode(f);
    var code := (xs: seq<T>) => Listed(f, xs);
    forall a: seq<T>, b: seq<T>, r: string, s: string | code(a) + r == code(b) + s ensures a == b && r == s {
      ListReads(f, a, b, r, s);
    }
    assert IsPrefixCode(code);
  }

  /** The entries of a map, in some order. */
  ghost function Entries<K(!new), V(!new)>(m: map<K, V>): seq<(K, V)> {
    if m == map[] then []
    else
      var k :| k in m;
      [(k, m[k])] + Entries(m - {k})
  }

  lemma {:induction false} EntriesDetermine<K(!new), V(!new)>(m: map<K, V>, m': map<K, V>)
    requires Entries(m) == Entries(m')
    ensures m == m'
  {
    if m != map[] && m' != map[] {
      var k := Entries(m)[0].0;
      assert k in m && k in m' && m[k] == Entries(m)[0].1 == m'[k];
      assert Entries(m)[1..] == Entries(m - {k}) && Entries(m')[1..] == Entries(m' - {k});
      EntriesDetermine(m - {k}, m' - {k});
      assert m == (m - {k})[k := m[k]] && m' == (m' - {k})[k := m'[k]];
    }
  }

  lemma MapCoded<K(!new), V(!new)>()
    requires Coded<(K, V)>()
    ensures Coded<map<K, V>>()
  {
    ListCoded<(K, V)>();
    var entries := (m: map<K, V>) => Entries(m);
    forall m: map<K, V>, m': map<K, V> | entries(m) == entries(m') ensures m == m' {
      EntriesDetermine(m, m');
    }
    PartsCoded<map<K, V>, seq<(K, V)>>(entries);
  }

  // ---- Updates ----

  function IntParts(n: int): nat {
    if n >= 0 then 2 * n else -2 * n - 1
  }

  function CharParts(c: char): nat {
    c as int
  }

  type ValueTuple = (nat, (string, (int, (nat, (seq<int>, seq<seq<int>>)))))

  function ValueParts(v: Value): ValueTuple {
    match v
    case Str(text) => (0, (text, (0, (0, ([], [])))))
    case Num(n) => (1, ("", (n, (0, ([], [])))))
    case Frac(d) => (2, ("", (d.digits, (d.places, ([], [])))))
    case Flag(on) => (3, ("", (if on then 1 else 0, (0, ([], [])))))
    case Dice(dice) => (4, ("", (0, (0, (dice, [])))))
    case Rounds(rounds) => (5, ("", (0, (0, ([], rounds)))))
  }

  function TypeNumber(ty: EventType): nat {
    match ty
    case Roll => 0
    case EdgeRoll => 1
    case RerollFailures => 2
    case InitiativeRoll => 3
    case PlayerJoin => 4
  }

  type EventTuple = (int, (nat, (int, (int, (string, (string, Diff))))))

  function EventParts(e: Event): EventTuple {
    (e.id, (TypeNumber(e.ty), (e.edit, (ShareNumber(e.share), (e.playerID, (e.playerName, e.fields))))))
  }

  type UpdateTuple = (seq<Event>, (seq<Diff>, (int, int)))

  function UpdateParts(u: Update): UpdateTuple {
    match u
    case NewEvent(evt) => ([evt], ([], (0, 0)))
    case EventDiff(id, diff, time) => ([], ([diff], (id, time)))
    case EventDelete(id) => ([], ([], (id, 0)))
  }

  lemma IntCoded()
    ensures Coded<int>()
  {
    NatCoded();
    PartsCoded<int, nat>(IntParts);
  }

  lemma StringCoded()
    ensures Coded<string>()
  {
    NatCoded();
    PartsCoded<char, nat>(CharParts);
    ListCoded<char>();
  }

  lemma ValueCoded()
    ensures Coded<Value>()
  {
    NatCoded();
    IntCoded();
    StringCoded();
    ListCoded<int>();
    ListCoded<seq<int>>();
    PairCoded<seq<int>, seq<seq<int>>>();
    PairCoded<nat, (seq<int>, seq<seq<int>>)>();
    PairCoded<int, (nat, (seq<int>, seq<seq<int>>))>();
    PairCoded<string, (int, (nat, (seq<int>, seq<seq<int>>)))>();
    PairCoded<nat, (string, (int, (nat, (seq<int>, seq<seq<int>>))))>();
    PartsCoded<Value, ValueTuple>(ValueParts);
  }

  lemma DiffCoded()
    ensures Coded<Diff>()
  {
    StringCoded();
    ValueCoded();
    PairCoded<string, Value>();
    MapCoded<string, Value>();
  }

  lemma EventCoded()
    ensures Coded<Event>()
  {
    NatCoded();
    IntCoded();
    StringCoded();
    DiffCoded();
    PairCoded<string, Diff>();
    PairCoded<string, (string, Diff)>();
    PairCoded<int, (string, (string, Diff))>();
    PairCoded<int, (int, (string, (string, Diff)))>();
    PairCoded<nat, (int, (int, (string, (string, Diff))))>();
    PairCoded<int, (nat, (int, (int, (string, (string, Diff)))))>();
    PartsCoded<Event, EventTuple>(EventParts);
  }

  lemma UpdateCoded()
    ensures Coded<Update>()
  {
    IntCoded();
    EventCoded();
    DiffCoded();
    ListCoded<Event>();
    ListCoded<Diff>();
    PairCoded<int, int>();
    PairCoded<seq<Diff>, (int, int)>();
    PairCoded<seq<Event>, (seq<Diff>, (int, int))>();
    PartsCoded<Update, UpdateTuple>(UpdateParts);
  }

  /** The update a text was made of, if there is one. */
  ghost function Read(marshal: Update -> string, text: string): Option<Update> {
    if exists u :: marshal(u) == text then
      var u :| marshal(u) == text;
      Some(u)
    else None
  }

  /** A faithful codec exists that carries every update. */
  lemma FaithfulCodecExists()
    ensures exists codec: Codec :: codec.Faithful() && forall u :: codec.carries(u)
  {
    UpdateCoded();
    var code: Update -> string :| IsPrefixCode(code);
    var marshal := (u: Update) => ['['] + code(u);
    var codec := Codec(marshal, text => Read(marshal, text), _ => true);
    forall u ensures codec.parse(codec.marshal(u)) == Some(u) {
      var read := Read(marshal, marshal(u));
      assert marshal(u) == marshal(u);
      assert marshal(read.value)[1..] == marshal(u)[1..];
      assert code(read.value) + [] == code(u) + [];
    }
    assert codec.Faithful();
  }
}
