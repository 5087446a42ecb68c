/** Counting dice. */
module Dice {
  function Count(dice: seq<int>, p: int -> bool): (n: nat)
    ensures n <= |dice|
  {
    if dice == [] then 0
    else Count(dice[..|dice| - 1], p) + if p(dice[|dice| - 1]) then 1 else 0
  }

  lemma {:induction false} CountAppend(a: seq<int>, b: seq<int>, p: int -> bool)
    ensures Count(a + b, p) == Count(a, p) + Count(b, p)
  {
    if b == [] {
      assert a + b == a;
    } else {
      CountAppend(a, b[..|b| - 1], p);
      assert (a + b)[..|a + b| - 1] == a + b[..|b| - 1];
    }
  }

  /** Counts of sets of dice that split one another add up. */
  lemma {:induction false} CountSplit(dice: seq<int>, p: int -> bool, q: int -> bool, r: int -> bool)
    requires forall d | d in dice :: (p(d) <==> q(d) || r(d)) && !(q(d) && r(d))
    ensures Count(dice, p) == Count(dice, q) + Count(dice, r)
  {
    if dice != [] {
      var last := dice[|dice| - 1];
      assert dice == dice[..|dice| - 1] + [last];
      assert last in dice && (p(last) <==> q(last) || r(last));
      CountSplit(dice[..|dice| - 1], p, q, r);
    }
  }

  predicate IsOne(d: int) { d == 1 }
  predicate IsSix(d: int) { d == 6 }
  predicate IsHit(d: int) { d == 5 || d == 6 }
  predicate IsMiss(d: int) { d < 5 }

  function Ones(dice: seq<int>): nat { Count(dice, IsOne) }
  function Sixes(dice: seq<int>): (n: nat) ensures n <= |dice| { Count(dice, IsSix) }
  function Hits(dice: seq<int>): nat { Count(dice, IsHit) }
  function Misses(dice: seq<int>): (n: nat) ensures n <= |dice| { Count(dice, IsMiss) }

  /** The rounds of a roll one after the other. */
  function Flat(rounds: seq<seq<int>>): seq<int> {
    if rounds == [] then [] else rounds[0] + Flat(rounds[1..])
  }

  /** What each die counts as. */
  lemma DieCounts(d: int)
    ensures Ones([d]) == (if d == 1 then 1 else 0) && Sixes([d]) == (if d == 6 then 1 else 0)
    ensures Hits([d]) == (if d == 5 || d == 6 then 1 else 0) && Misses([d]) == (if d < 5 then 1 else 0)
  {
    assert [d][..0] == [];
  }

  /** And rolls count as their dice together. */
  lemma CountsAddUp(a: seq<int>, b: seq<int>)
    ensures Ones(a + b) == Ones(a) + Ones(b) && Sixes(a + b) == Sixes(a) + Sixes(b)
    ensures Hits(a + b) == Hits(a) + Hits(b) && Misses(a + b) == Misses(a) + Misses(b)
  {
    CountAppend(a, b, IsOne);
    CountAppend(a, b, IsSix);
    CountAppend(a, b, IsHit);
    CountAppend(a, b, IsMiss);
  }
}
