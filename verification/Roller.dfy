/** Reading die rolls from a channel (server/roll/roller.go). */
module Rolling {
  import opened Wrappers
  import opened Dice

  datatype Error = ChannelClosed | ContextCanceled

  function ContextError(canceled: bool): Option<Error> {
    if canceled then Some(ContextCanceled) else None
  }

  // ---- What Exploding Sixes rolls ----

  /** The rounds rolled, and whether the dice sufficed. */
  datatype Explosion = Explosion(rounds: seq<seq<int>>, complete: bool)

  /** Rolls a pool, and then as many dice as there were sixes, until there are none. */
  function Explode(dice: seq<int>, pool: nat): Explosion
    decreases |dice|
  {
    if pool == 0 then Explosion([], true)
    else if pool > |dice| then Explosion([], false)
    else
      var round := dice[..pool];
      var after := Explode(dice[pool..], Sixes(round));
      Explosion([round] + after.rounds, after.complete)
  }

  /** The first n dice are a pool and one die more for every six among them. */
  predicate Balanced(dice: seq<int>, pool: nat, n: nat) {
    n <= |dice| && n == pool + Sixes(dice[..n])
  }

  /** The rounds are chained: each has as many dice as the one before has sixes, the first has the pool,
      and none is empty. */
  predicate Chained(rounds: seq<seq<int>>, pool: nat) {
    rounds != [] ==> pool > 0 && |rounds[0]| == pool && Chained(rounds[1..], Sixes(rounds[0]))
  }

  function LastSixes(rounds: seq<seq<int>>, pool: nat): nat {
    if rounds == [] then pool else Sixes(rounds[|rounds| - 1])
  }

  lemma SixesOfPrefix(dice: seq<int>, m: nat, n: nat)
    requires m <= n <= |dice|
    ensures Sixes(dice[..n]) == Sixes(dice[..m]) + Sixes(dice[m..][..n - m])
  {
    CountAppend(dice[..m], dice[m..][..n - m], IsSix);
    assert dice[..n] == dice[..m] + dice[m..][..n - m];
  }

  /** Beyond the pool, balance is balance of what follows it with a pool of its sixes. */
  lemma BalancedAfterRound(dice: seq<int>, pool: nat, n: nat)
    requires pool <= |dice|
    ensures Balanced(dice, pool, n) ==> n >= pool
    ensures n >= pool ==> (Balanced(dice, pool, n) <==> Balanced(dice[pool..], Sixes(dice[..pool]), n - pool))
  {
    if pool <= n <= |dice| {
      SixesOfPrefix(dice, pool, n);
    }
  }

  /** The dice rolled are a prefix of the stream, the shortest that has as many dice as the pool and the
      sixes in it; no prefix has when the roll is not complete. */
  ghost predicate IsLeast(dice: seq<int>, pool: nat, rolled: seq<int>, complete: bool) {
    && rolled <= dice
    && (complete ==> Balanced(dice, pool, |rolled|))
    && (forall n | Balanced(dice, pool, n) :: complete && |rolled| <= n)
  }

  lemma LeastAfterRound(dice: seq<int>, pool: nat, rolled: seq<int>, complete: bool)
    requires pool <= |dice| && IsLeast(dice[pool..], Sixes(dice[..pool]), rolled, complete)
    ensures IsLeast(dice, pool, dice[..pool] + rolled, complete)
  {
    forall n: nat | Balanced(dice, pool, n) ensures complete && pool + |rolled| <= n {
      BalancedAfterRound(dice, pool, n);
      assert Balanced(dice[pool..], Sixes(dice[..pool]), n - pool);
    }
    BalancedAfterRound(dice, pool, pool + |rolled|);
  }

  /** Exploding Sixes computes a least fixed point: complete or not, it rolls the shortest prefix in
      balance, and it runs out of dice exactly when there is none. */
  lemma {:induction false} ExplodeIsLeast(dice: seq<int>, pool: nat)
    ensures IsLeast(dice, pool, Flat(Explode(dice, pool).rounds), Explode(dice, pool).complete)
    decreases |dice|
  {
    if 0 < pool <= |dice| {
      var after := Explode(dice[pool..], Sixes(dice[..pool]));
      ExplodeIsLeast(dice[pool..], Sixes(dice[..pool]));
      LeastAfterRound(dice, pool, Flat(after.rounds), after.complete);
      FirstRound(dice, pool);
    }
  }

  lemma FirstRound(dice: seq<int>, pool: nat)
    requires 0 < pool <= |dice|
    ensures var after := Explode(dice[pool..], Sixes(dice[..pool]));
            && Explode(dice, pool) == Prepend([dice[..pool]], after)
            && Flat(Explode(dice, pool).rounds) == dice[..pool] + Flat(after.rounds)
  {
    assert Explode(dice, pool).rounds[1..] == Explode(dice[pool..], Sixes(dice[..pool])).rounds;
  }

  /** Each round has as many dice as the round before has sixes; a complete roll ends without a six. */
  lemma {:induction false} ExplodeChains(dice: seq<int>, pool: nat)
    ensures var e := Explode(dice, pool);
            Chained(e.rounds, pool) && (e.complete <==> LastSixes(e.rounds, pool) == 0)
    decreases |dice|
  {
    if 0 < pool <= |dice| {
      var e := Explode(dice, pool);
      var after := Explode(dice[pool..], Sixes(dice[..pool]));
      assert e.rounds[1..] == after.rounds;
      ExplodeChains(dice[pool..], Sixes(dice[..pool]));
    }
  }

  function Prepend(rounds: seq<seq<int>>, e: Explosion): Explosion {
    Explosion(rounds + e.rounds, e.complete)
  }

  /** One turn of the rounds. */
  lemma NextRound(rounds: seq<seq<int>>, dice: seq<int>, pool: nat)
    requires 0 < pool <= |dice|
    ensures Prepend(rounds, Explode(dice, pool))
         == Prepend(rounds + [dice[..pool]], Explode(dice[pool..], Sixes(dice[..pool])))
  {
  }

  lemma {:induction false} FlatSnoc(rounds: seq<seq<int>>, round: seq<int>)
    ensures Flat(rounds + [round]) == Flat(rounds) + round
  {
    if rounds != [] {
      FlatSnoc(rounds[1..], round);
      assert (rounds + [round])[1..] == rounds[1..] + [round];
    } else {
      assert ([] + [round])[1..] == rounds;
    }
  }

  /** What adding a round does to the rounds so far. */
  lemma RoundAdded(rounds: seq<seq<int>>, dice: seq<int>, pool: nat, round: seq<int>)
    requires 0 < pool <= |dice| && round == dice[..pool]
    ensures Prepend(rounds, Explode(dice, pool)) == Prepend(rounds + [round], Explode(dice[pool..], Sixes(round)))
    ensures Flat(rounds + [round]) + dice[pool..] == Flat(rounds) + dice
    ensures Hits(Flat(rounds + [round])) == Hits(Flat(rounds)) + Hits(round)
  {
    NextRound(rounds, dice, pool);
    FlatSnoc(rounds, round);
    CountAppend(Flat(rounds), round, IsHit);
    assert dice == round + dice[pool..];
  }

  /** Nothing is rolled when the dice do not suffice for a round. */
  lemma NoRound(rounds: seq<seq<int>>, dice: seq<int>, pool: nat)
    requires pool > |dice|
    ensures Prepend(rounds, Explode(dice, pool)) == Explosion(rounds, false)
  {
  }

  lemma AllRounds(rounds: seq<seq<int>>, dice: seq<int>)
    ensures Prepend(rounds, Explode(dice, 0)) == Explosion(rounds, true)
  {
  }

  /** A roller over a channel; dice are those still to be received before it is closed. */
  class Roller {
    var dice: seq<int>

    constructor (dice: seq<int>)
      ensures this.dice == dice
    {
      this.dice := dice;
    }

    /** Receives from the channel; not ok once it is drained and closed. */
    method Receive() returns (roll: int, ok: bool)
      modifies this
      ensures ok == (old(dice) != [])
      ensures ok ==> old(dice) == [roll] + dice
      ensures !ok ==> dice == old(dice)
    {
      if dice == [] {
        return 0, false;
      }
      roll, ok, dice := dice[0], true, dice[1..];
    }

    /** Replaces the buffer with the next dice and reports their hits; too few dice leave the rest of the
        buffer as it was and are an error. */
    method Fill(canceled: bool, rolls: array<int>) returns (hits: nat, err: Option<Error>)
      modifies this, rolls
      ensures rolls.Length <= |old(dice)| ==>
        && rolls[..] == old(dice)[..rolls.Length] && dice == old(dice)[rolls.Length..]
        && hits == Hits(rolls[..]) && err == (if canceled then Some(ContextCanceled) else None)
      ensures rolls.Length > |old(dice)| ==>
        && rolls[..] == old(dice) + old(rolls[..])[|old(dice)|..] && dice == []
        && hits == 0 && err == Some(ChannelClosed)
    {
      hits := 0;
      ghost var before := rolls[..];
      for i := 0 to rolls.Length
        invariant i <= |old(dice)|
        invariant rolls[..i] == old(dice)[..i] && dice == old(dice)[i..]
        invariant forall k | i <= k < rolls.Length :: rolls[k] == before[k]
        invariant hits == Hits(rolls[..i])
      {
        var roll, ok := Receive();
        if !ok {
          assert rolls[..] == rolls[..i] + rolls[i..];
          return 0, Some(ChannelClosed);
        }
        rolls[i] := roll;
        assert rolls[..i + 1][..i] == rolls[..i];
        if roll == 5 || roll == 6 {
          hits := hits + 1;
        }
      }
      assert rolls[..rolls.Length] == rolls[..];
      err := ContextError(canceled);
    }

    /** Rolls a number of dice. */
    method Roll(canceled: bool, count: nat) returns (rolls: array<int>, hits: nat, err: Option<Error>)
      modifies this
      ensures fresh(rolls) && rolls.Length == count
      ensures count <= |old(dice)| ==>
        && rolls[..] == old(dice)[..count] && dice == old(dice)[count..]
        && hits == Hits(rolls[..]) && err == (if canceled then Some(ContextCanceled) else None)
      ensures count > |old(dice)| ==> dice == [] && hits == 0 && err == Some(ChannelClosed)
    {
      rolls := new int[count];
      hits, err := Fill(canceled, rolls);
    }

    /** Rolls one round of Exploding Sixes. */
    method RollRound(pool: nat, totalHits: nat) returns (round: array<int>, hits: nat, roundSixes: nat, ok: bool)
      modifies this
      ensures fresh(round) && round.Length == pool
      ensures ok == (pool <= |old(dice)|)
      ensures ok ==> round[..] == old(dice)[..pool] && dice == old(dice)[pool..]
      ensures ok ==> hits == totalHits + Hits(round[..]) && roundSixes == Sixes(round[..])
      ensures !ok ==> dice == []
    {
      roundSixes, hits, ok := 0, totalHits, true;
      round := new int[pool];
      for i := 0 to pool
        invariant i <= |old(dice)| && dice == old(dice)[i..]
        invariant round[..i] == old(dice)[..i]
        invariant hits == totalHits + Hits(round[..i]) && roundSixes == Sixes(round[..i])
      {
        var roll, received := Receive();
        if !received {
          ok := false;
          return;
        }
        round[i] := roll;
        assert round[..i + 1][..i] == round[..i];
        if roll == 5 || roll == 6 {
          hits := hits + 1;
        }
        if roll == 6 {
          roundSixes := roundSixes + 1;
        }
      }
      assert round[..pool] == round[..];
    }

    /** Rolls dice with the rule of Exploding Sixes; a pool that is not positive rolls none. It ends on
        every stream; running out of dice is an error and reports the rounds that were completed. */
    method ExplodingSixes(canceled: bool, pool: int) returns (results: seq<seq<int>>, totalHits: nat, err: Option<Error>)
      modifies this
      ensures var e := Explode(old(dice), if pool > 0 then pool else 0);
              && results == e.rounds && Flat(results) <= old(dice)
              && (e.complete ==>
                    && dice == old(dice)[|Flat(results)|..] && totalHits == Hits(Flat(results))
                    && err == (if canceled then Some(ContextCanceled) else None))
              && (!e.complete ==> dice == [] && totalHits == 0 && err == Some(ChannelClosed))
    {
      var remaining: nat := if pool > 0 then pool else 0;
      ghost var start := Explode(dice, remaining);
      results, totalHits := [], 0;
      while remaining > 0
        invariant start == Prepend(results, Explode(dice, remaining))
        invariant old(dice) == Flat(results) + dice
        invariant totalHits == Hits(Flat(results))
        decreases |dice|
      {
        ghost var before := dice;
        var round, hits, roundSixes, ok := RollRound(remaining, totalHits);
        if !ok {
          NoRound(results, before, remaining);
          return results, 0, Some(ChannelClosed);
        }
        RoundAdded(results, before, remaining, round[..]);
        totalHits, remaining := hits, roundSixes;
        results := results + [round[..]];
      }
      AllRounds(results, dice);
      err := ContextError(canceled);
    }

    /** Rerolls the dice that were no hits, and reports the hits of both rolls. */
    method RerollMisses(canceled: bool, original: seq<int>) returns (result: array<int>, totalHits: nat, err: Option<Error>)
      modifies this
      ensures fresh(result) && result.Length == Misses(original)
      ensures Misses(original) <= |old(dice)| ==>
        && result[..] == old(dice)[..Misses(original)] && dice == old(dice)[Misses(original)..]
        && totalHits == (|original| - Misses(original)) + Hits(result[..]) && err == (if canceled then Some(ContextCanceled) else None)
      ensures Misses(original) > |old(dice)| ==>
        dice == [] && totalHits == |original| - Misses(original) && err == Some(ChannelClosed)
    {
      var pool := 0;
      for i := 0 to |original|
        invariant pool == Misses(original[..i])
      {
        assert original[..i + 1][..i] == original[..i];
        if original[i] < 5 {
          pool := pool + 1;
        }
      }
      assert original[..|original|] == original;
      var hits := |original| - pool;
      result := new int[pool];
      var newHits;
      newHits, err := Fill(canceled, result);
      totalHits := hits + newHits;
    }
  }
}
