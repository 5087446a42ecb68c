/** Hits and glitches of a roll, as a client derives them (web/src/roll/stats.tsx). */
module RollStats {
  import opened Dice
  import Rolling

  /** A roll; a rerolled one holds the reroll and then the original. */
  datatype DiceEvent =
    | Roll(dice: seq<int>, glitchy: real)
    | RerollFailures(rerolled: seq<int>, original: seq<int>, glitchy: real)
    | EdgeRoll(rounds: seq<seq<int>>, glitchy: real)

  datatype HitsResults = HitsResults(
    dice: seq<int>, hits: nat, edged: bool, rerolled: bool, rounds: nat,
    glitched: bool, glitchy: real, critical: bool, shouldDisplay: bool)

  predicate AtLeastFive(d: int) { d >= 5 }

  function SumHits(dice: seq<int>): nat { Count(dice, AtLeastFive) }

  /** More than half of a number of dice, of which some are ones, show a one. */
  predicate MostlyOnes(ones: nat, glitchy: real, length: nat) {
    ones as real + glitchy > length as real / 2.0
  }

  predicate IsGlitched(event: DiceEvent) {
    match event
    case Roll(dice, glitchy) => MostlyOnes(Ones(dice), glitchy, |dice|)
    case RerollFailures(rerolled, original, glitchy) =>
      || MostlyOnes(Ones(original), glitchy, |original|)
      || MostlyOnes(Ones(rerolled), glitchy, |original|)
    case EdgeRoll(rounds, glitchy) => MostlyOnes(Ones(Flat(rounds)), glitchy, |Flat(rounds)|)
  }

  function Results(event: DiceEvent): HitsResults {
    var dice := match event
      case Roll(dice, _) => dice
      case RerollFailures(rerolled, original, _) => rerolled + original
      case EdgeRoll(rounds, _) => Flat(rounds);
    var edged := !event.Roll?;
    var glitched := IsGlitched(event);
    var hits := SumHits(dice);
    HitsResults(
      dice, hits, edged, event.RerollFailures?,
      if event.EdgeRoll? then |event.rounds| else 1,
      glitched, event.glitchy, glitched && hits == 0,
      edged || glitched || |dice| > 12 || hits > 4)
  }

  // ---- Second Chance ----

  /** The dice of a roll that were hits. */
  function Kept(dice: seq<int>): seq<int> {
    if dice == [] then []
    else Kept(dice[..|dice| - 1]) + if dice[|dice| - 1] < 5 then [] else [dice[|dice| - 1]]
  }

  lemma {:induction false} KeptCounts(dice: seq<int>)
    ensures |Kept(dice)| == |dice| - Misses(dice) && Ones(Kept(dice)) == 0
    ensures SumHits(Kept(dice)) == SumHits(dice) == |dice| - Misses(dice)
  {
    if dice != [] {
      var front := dice[..|dice| - 1];
      KeptCounts(front);
      var last := Kept(dice)[|Kept(front)|..];
      assert Kept(dice) == Kept(front) + last;
      CountAppend(Kept(front), last, IsOne);
      CountAppend(Kept(front), last, AtLeastFive);
      assert last == [] || (last == [dice[|dice| - 1]] && last[..0] == []);
    }
  }

  /** A reroll of exactly the misses is glitched if and only if the original roll was, or a plain roll of
      the hits kept and the dice rerolled would be. */
  lemma SecondChanceGlitchIff(rerolled: seq<int>, original: seq<int>, glitchy: real)
    requires |rerolled| == Misses(original)
    ensures IsGlitched(RerollFailures(rerolled, original, glitchy))
       <==> IsGlitched(Roll(original, glitchy)) || IsGlitched(Roll(Kept(original) + rerolled, glitchy))
  {
    KeptCounts(original);
    CountAppend(Kept(original), rerolled, IsOne);
  }

  /** Its hits are those of that pool. */
  lemma SecondChanceHits(rerolled: seq<int>, original: seq<int>, glitchy: real)
    ensures Results(RerollFailures(rerolled, original, glitchy)).hits == SumHits(Kept(original) + rerolled)
  {
    KeptCounts(original);
    CountAppend(Kept(original), rerolled, AtLeastFive);
    CountAppend(rerolled, original, AtLeastFive);
  }

  predicate AboveSix(d: int) { d > 6 }

  /** The client's count of hits exceeds the server's by the dice above six. */
  lemma SumHitsExceeds(dice: seq<int>)
    ensures SumHits(dice) == Hits(dice) + Count(dice, AboveSix)
  {
    CountSplit(dice, AtLeastFive, IsHit, AboveSix);
  }

  lemma {:induction false} CountZeroIff(dice: seq<int>, p: int -> bool)
    ensures Count(dice, p) == 0 <==> forall d | d in dice :: !p(d)
  {
    if dice != [] {
      var last := dice[|dice| - 1];
      CountZeroIff(dice[..|dice| - 1], p);
      assert dice == dice[..|dice| - 1] + [last];
    }
  }

  /** The hits the server reports for a reroll are those the client shows, if and only if no die of the
      reroll is above six. */
  lemma RerollHitsAgreeIff(rerolled: seq<int>, original: seq<int>, glitchy: real)
    ensures (|original| - Misses(original)) + Hits(rerolled) == Results(RerollFailures(rerolled, original, glitchy)).hits
       <==> forall d | d in rerolled :: d <= 6
  {
    KeptCounts(original);
    CountAppend(rerolled, original, AtLeastFive);
    SumHitsExceeds(rerolled);
    CountZeroIff(rerolled, AboveSix);
  }

  /** The hits the server reports for Exploding Sixes are those the client shows, if and only if no die
      is above six. */
  lemma EdgeHitsAgreeIff(rounds: seq<seq<int>>, glitchy: real)
    ensures Hits(Flat(rounds)) == Results(EdgeRoll(rounds, glitchy)).hits <==> forall d | d in Flat(rounds) :: d <= 6
  {
    SumHitsExceeds(Flat(rounds));
    CountZeroIff(Flat(rounds), AboveSix);
  }

  /** A second chance never takes back a glitch, and makes a glitch critical only if the original had no
      hits either. */
  lemma SecondChanceKeepsGlitch(rerolled: seq<int>, original: seq<int>, glitchy: real)
    ensures IsGlitched(Roll(original, glitchy)) ==> IsGlitched(RerollFailures(rerolled, original, glitchy))
    ensures Results(RerollFailures(rerolled, original, glitchy)).critical
       <==> IsGlitched(RerollFailures(rerolled, original, glitchy)) && SumHits(original) == 0 && SumHits(rerolled) == 0
  {
    CountAppend(rerolled, original, AtLeastFive);
  }

  /** A complete roll of Exploding Sixes is glitched if and only if its ones, with the glitchiness, are more
      than half of the pool and the sixes rolled. */
  lemma EdgeGlitchIff(dice: seq<int>, pool: nat, glitchy: real)
    requires Rolling.Explode(dice, pool).complete
    ensures var rounds := Rolling.Explode(dice, pool).rounds;
            IsGlitched(EdgeRoll(rounds, glitchy)) <==> 2.0 * (Ones(Flat(rounds)) as real + glitchy) > (pool + Sixes(Flat(rounds))) as real
  {
    Rolling.ExplodeIsLeast(dice, pool);
    var all := Flat(Rolling.Explode(dice, pool).rounds);
    assert all == dice[..|all|];
  }

  /** A plain roll is displayed if and only if it is glitched, has more than 12 dice or more than 4 hits; a
      rerolled or edge roll always is, and only these count as edged. */
  lemma DisplayedIff(event: DiceEvent)
    ensures Results(event).edged <==> event.RerollFailures? || event.EdgeRoll?
    ensures Results(event).rerolled <==> event.RerollFailures?
    ensures Results(event).shouldDisplay
       <==> !event.Roll? || IsGlitched(event) || |event.dice| > 12 || SumHits(event.dice) > 4
    ensures Results(event).glitchy == event.glitchy && (Results(event).glitched <==> IsGlitched(event))
  {
  }

  /** The rounds of a complete edge roll are those of its explosion: one more than there are rounds with a six.
      A reroll counts as one, like a plain roll. */
  lemma {:induction false} RoundsWithSixes(dice: seq<int>, pool: nat)
    requires Rolling.Explode(dice, pool).complete && pool > 0
    ensures var rounds := Rolling.Explode(dice, pool).rounds;
            |rounds| >= 1 && |rounds| == 1 + WithSixes(rounds)
    decreases |dice|
  {
    if Sixes(dice[..pool]) > 0 {
      RoundsWithSixes(dice[pool..], Sixes(dice[..pool]));
    }
    var rounds := Rolling.Explode(dice, pool).rounds;
    var after := Rolling.Explode(dice[pool..], Sixes(dice[..pool])).rounds;
    assert rounds[0] == dice[..pool] && rounds[1..] == after;
  }

  /** How many rounds have a six. */
  function WithSixes(rounds: seq<seq<int>>): nat {
    if rounds == [] then 0 else (if Sixes(rounds[0]) > 0 then 1 else 0) + WithSixes(rounds[1..])
  }

  lemma RoundsShown(dice: seq<int>, pool: nat, glitchy: real, event: DiceEvent)
    requires Rolling.Explode(dice, pool).complete && pool > 0
    ensures Results(EdgeRoll(Rolling.Explode(dice, pool).rounds, glitchy)).rounds
         == 1 + WithSixes(Rolling.Explode(dice, pool).rounds)
    ensures !event.EdgeRoll? ==> Results(event).rounds == 1
  {
    RoundsWithSixes(dice, pool);
  }

  /** The dice shown are all that were rolled: their number is the pool's and the sixes' for an edge roll. */
  lemma DiceShown(dice: seq<int>, pool: nat, glitchy: real)
    requires Rolling.Explode(dice, pool).complete
    ensures var results := Results(EdgeRoll(Rolling.Explode(dice, pool).rounds, glitchy));
            results.dice <= dice && |results.dice| == pool + Sixes(results.dice)
  {
    Rolling.ExplodeIsLeast(dice, pool);
    var all := Flat(Rolling.Explode(dice, pool).rounds);
    assert all == dice[..|all|];
  }
}
