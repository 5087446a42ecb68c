/** Two edits that make clients lose sync, one never announced and one announced wrongly. */
module Divergence {
  import opened Wrappers
  import opened Events
  import opened EventList
  import opened Channels
  import opened ClientReducer
  import opened EditRoutes
  import opened Tables
  import opened Convergence
  import Paging

  /** A game of one event, and one subscriber that holds it. */
  function SoleViewer(evt: Event, isGM: bool, client: State): World {
    World(map["game" := [evt]], [Subscriber(Seat("game", evt.playerID, isGM), [], [], client)])
  }

  lemma SoleViewerInSync(codec: Codec, evt: Event, isGM: bool, client: State)
    requires WellFormedEvent(evt) && evt.ty != PlayerJoin && client.events == [evt]
    ensures var w := SoleViewer(evt, isGM, client);
            && WellFormed(w) && InSync(codec, w, 0)
            && w.History("game") == [evt] && Editable([evt], evt.id) == Some(evt)
  {
    var w := SoleViewer(evt, isGM, client);
    assert [evt][0] == evt;
    assert Index([evt]) == map[evt.id := evt];
    Paging.FilterAll([evt], Seer(w.subscribers[0].seat));
    FullViewInSync(codec, [evt], w.subscribers[0]);
  }

  /** What the edit step does in the game of one event. */
  lemma SoleViewerEdit(codec: Codec, evt: Event, isGM: bool, client: State, diff: Diff, time: int)
    requires Accepts(evt, diff) && Editable([evt], evt.id) == Some(evt)
    requires SoleViewer(evt, isGM, client).History("game") == [evt]
    requires codec.carries(EventDiff(evt.id, diff, time))
    ensures var w, step := SoleViewer(evt, isGM, client), Edit("game", evt.id, diff, time);
            && Carried(codec, w, step)
            && Misled(w, step, Seat("game", evt.playerID, isGM)) == Misleads(evt, diff, Seat("game", evt.playerID, isGM))
  {
    var w, step := SoleViewer(evt, isGM, client), Edit("game", evt.id, diff, time);
    assert ServerChange(w, step) == Some(AnnouncedEdit("game", [evt], evt, diff, time));
  }

  /** An edit that misleads the one subscriber puts it out of sync. */
  lemma MisledSoleViewer(codec: Codec, evt: Event, isGM: bool, client: State, diff: Diff, time: int)
    requires codec.Faithful() && WellFormedEvent(evt) && evt.ty != PlayerJoin && client.events == [evt]
    requires Accepts(evt, diff) && Misleads(evt, diff, Seat("game", evt.playerID, isGM))
    requires codec.carries(EventDiff(evt.id, diff, time))
    ensures var w := SoleViewer(evt, isGM, client);
            && WellFormed(w) && InSync(codec, w, 0)
            && !InSync(codec, Next(codec, w, Edit("game", evt.id, diff, time)), 0)
  {
    SoleViewerInSync(codec, evt, isGM, client);
    SoleViewerEdit(codec, evt, isGM, client, diff, time);
    StepKeepsSyncIff(codec, SoleViewer(evt, isGM, client), Edit("game", evt.id, diff, time), 0);
  }

  /** The edit that is not heard of: a player who is no GM retitles a roll shared with GMs. Its own client
      is in sync before and not after. */
  lemma RetitledGMsRollIsMissed(codec: Codec, evt: Event, client: State)
    requires codec.Faithful() && WellFormedEvent(evt) && client.events == [evt]
    requires evt.ty == EventType.Roll && evt.share == GMs && evt.fields == map["title" := Str("old")]
    requires codec.carries(EventDiff(evt.id, map["title" := Str("new")], 1))
    ensures Accepts(evt, map["title" := Str("new")])
    ensures var w := SoleViewer(evt, false, client);
            && WellFormed(w) && InSync(codec, w, 0)
            && !InSync(codec, Next(codec, w, Edit("game", evt.id, map["title" := Str("new")], 1)), 0)
  {
    var diff: Diff := map["title" := Str("new")];
    assert Stored(diff) == diff;
    assert (evt.fields + diff)["title"] == Str("new") && evt.fields["title"] == Str("old");
    MisledSoleViewer(codec, evt, false, client, diff, 1);
  }

  lemma OneAndAHalf()
    ensures Stored(map["glitchy" := Frac(Decimal(15, 1))]) == map["glitchy" := Num(1)]
  {
    assert StoredValue("glitchy", Frac(Decimal(15, 1))) == Num(1);
  }

  lemma MisleadsViewers(evt: Event, diff: Diff, seat: Seat)
    requires evt.share == InGame && !Exact(diff)
    ensures Misleads(evt, diff, seat)
  {
  }

  /** The edit that is heard of wrongly: a glitchiness of 1.5 is stored as 1 and announced as 1.5, so
      every client that sees the roll, a GM's too, is out of sync. */
  lemma FractionalGlitchMisleads(codec: Codec, evt: Event, isGM: bool, client: State)
    requires codec.Faithful() && WellFormedEvent(evt) && client.events == [evt]
    requires evt.ty == EventType.Roll && evt.share == InGame
    requires codec.carries(EventDiff(evt.id, map["glitchy" := Frac(Decimal(15, 1))], 1))
    ensures Accepts(evt, map["glitchy" := Frac(Decimal(15, 1))])
    ensures var w := SoleViewer(evt, isGM, client);
            && WellFormed(w) && InSync(codec, w, 0)
            && Stored(map["glitchy" := Frac(Decimal(15, 1))]) == map["glitchy" := Num(1)]
            && !InSync(codec, Next(codec, w, Edit("game", evt.id, map["glitchy" := Frac(Decimal(15, 1))], 1)), 0)
  {
    var diff: Diff := map["glitchy" := Frac(Decimal(15, 1))];
    OneAndAHalf();
    MisleadsViewers(evt, diff, Seat("game", evt.playerID, isGM));
    MisledSoleViewer(codec, evt, isGM, client, diff, 1);
  }
}
