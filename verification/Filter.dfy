/** Filtered updates: the "-filter,... {update}" frame put in front of an update that some
    subscribers of a channel must not receive (server/update/filter.go). */
module UpdateFilter {
  import opened Text

  const FILTER_GMS := "gms"

  /** What reading a frame yields. An unfiltered text has found == false and is its own inner text. */
  datatype Exclusion = Exclusion(id: string, gms: bool, inner: string, found: bool)

  /** Writes an update text behind its filters. */
  function Serialize(filters: seq<string>, inner: string): string {
    "-" + Join(filters, ',') + " " + inner
  }

  /** The last filter that names a player; the empty id when none does. */
  function LastPlayer(filters: seq<string>): string {
    if filters == [] then ""
    else if filters[|filters| - 1] != FILTER_GMS then filters[|filters| - 1]
    else LastPlayer(filters[..|filters| - 1])
  }

  function Unfiltered(input: string): Exclusion {
    Exclusion("", false, input, false)
  }

  /** What ParseExclude computes. */
  function Parsed(input: string): Exclusion {
    if input == "" || input[0] != '-' then Unfiltered(input)
    else
      match Cut(input[1..], ' ')
      case None => Unfiltered(input)
      case Some((head, inner)) =>
        var filters := Split(head, ',');
        Exclusion(LastPlayer(filters), FILTER_GMS in filters, inner, true)
  }

  /** Finds the excluded player and role of an update text and trims the frame off it. */
  method ParseExclude(input: string) returns (excluded: Exclusion)
    ensures excluded == Parsed(input)
  {
    if input == "" || input[0] != '-' {
      return Unfiltered(input);
    }
    var parts := Cut(input[1..], ' ');
    if parts.None? {
      return Unfiltered(input);
    }
    var filters, inner := Split(parts.value.0, ','), parts.value.1;
    var excludeID, excludeGMs := "", false;
    for i := 0 to |filters|
      invariant excludeID == LastPlayer(filters[..i])
      invariant excludeGMs == (FILTER_GMS in filters[..i])
    {
      assert filters[..i + 1][..i] == filters[..i];
      if filters[i] == FILTER_GMS {
        excludeGMs := true;
      } else {
        excludeID := filters[i];
      }
    }
    assert filters[..|filters|] == filters;
    excluded := Exclusion(excludeID, excludeGMs, inner, true);
  }

  /** A filter that survives framing: the role name, or a player id without frame characters. */
  predicate Framable(filter: string) {
    filter != "" && ',' !in filter && ' ' !in filter
  }

  /** Reading a frame returns the role flag, the last player listed and the inner text unchanged. */
  lemma FramingRoundTrip(filters: seq<string>, inner: string)
    requires filters != []
    requires forall filter | filter in filters :: Framable(filter)
    ensures Parsed(Serialize(filters, inner)) == Exclusion(LastPlayer(filters), FILTER_GMS in filters, inner, true)
  {
    var head := Join(filters, ',');
    JoinAvoids(filters, ',', ' ');
    CutAtFirst(head, ' ', inner);
    assert Serialize(filters, inner)[1..] == head + [' '] + inner;
    SplitInvertsJoin(filters, ',');
  }

  lemma {:induction false} LastPlayerIsListed(filters: seq<string>)
    requires "" !in filters
    ensures LastPlayer(filters) != "" ==> LastPlayer(filters) in filters && LastPlayer(filters) != FILTER_GMS
    ensures LastPlayer(filters) == "" ==> forall filter | filter in filters :: filter == FILTER_GMS
  {
    if filters != [] {
      LastPlayerIsListed(filters[..|filters| - 1]);
      assert filters == filters[..|filters| - 1] + [filters[|filters| - 1]];
    }
  }

  /** The filters that name players, as opposed to the role. */
  function PlayersOf(filters: seq<string>): set<string> {
    (set filter | filter in filters) - {FILTER_GMS}
  }

  /** A frame excludes exactly the players it lists when, and only when, it lists at most one player. */
  lemma FramingIsExactIff(filters: seq<string>, inner: string)
    requires filters != []
    requires forall filter | filter in filters :: Framable(filter)
    ensures (forall id | id != "" :: id in PlayersOf(filters) <==> Parsed(Serialize(filters, inner)).id == id)
       <==> |PlayersOf(filters)| <= 1
  {
    FramingRoundTrip(filters, inner);
    LastPlayerIsListed(filters);
    var players, last := PlayersOf(filters), LastPlayer(filters);
    if last == "" {
      assert players == {};
    } else {
      assert last in players;
      if players == {last} {
      } else {
        var other :| other in players && other != last;
        assert {last, other} <= players;
        assert |players| == |{last, other}| + |players - {last, other}|;
      }
    }
  }

  /** Text that does not start with a dash is never taken for a frame. */
  lemma UnframedPassesThrough(input: string)
    requires input == "" || input[0] != '-'
    ensures Parsed(input) == Exclusion("", false, input, false)
  {
  }

  /** A dash without a blank behind it is no frame either. */
  lemma UnendedFramePassesThrough(input: string)
    requires ' ' !in input
    ensures Parsed(input) == Exclusion("", false, input, false)
  {
    if input != "" {
      CutNeedsSeparator(input[1..], ' ');
    }
  }

  /** Of the players a frame lists it excludes the last. */
  lemma {:induction false} LastPlayerIsLast(before: seq<string>, player: string, after: seq<string>)
    requires player != FILTER_GMS && forall filter | filter in after :: filter == FILTER_GMS
    ensures LastPlayer(before + [player] + after) == player
    decreases |after|
  {
    var all := before + [player] + after;
    if after == [] {
      assert all == before + [player] && all[|all| - 1] == player;
    } else {
      var front := after[..|after| - 1];
      assert after == front + [after[|after| - 1]];
      assert after[|after| - 1] in after && forall filter | filter in front :: filter in after;
      assert all[|all| - 1] == after[|after| - 1] && all[..|all| - 1] == before + [player] + front;
      LastPlayerIsLast(before, player, front);
    }
  }
}
