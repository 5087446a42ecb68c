/** The server's history of each game and the operations that change it and announce the change
    (server/game/eventManager.go). A history is a Redis sorted set scored by event id; it is held
    here in the order it is read, newest first. */
module EventStore {
  import opened Wrappers
  import opened Events
  import opened EventList
  import opened Packets

  /** ZADD NX of an event whose id the set does not have. */
  function Insert(history: seq<Event>, evt: Event): seq<Event> {
    if history == [] || evt.id > history[0].id then [evt] + history
    else [history[0]] + Insert(history[1..], evt)
  }

  /** ZREMRANGEBYSCORE id id. */
  function Remove(history: seq<Event>, id: int): seq<Event> {
    Filter(history, (e: Event) => e.id != id)
  }

  /** A new history and the packets that announce it. */
  datatype Change = Change(history: seq<Event>, packets: seq<Packet>)

  function Posted(gameID: string, history: seq<Event>, evt: Event): Change {
    Change(Insert(history, evt), CreateOrDeletePackets(gameID, evt, ForNewEvent(evt)))
  }

  function Deleted(gameID: string, history: seq<Event>, evt: Event): Change {
    Change(Remove(history, evt.id), CreateOrDeletePackets(gameID, evt, ForEventDelete(evt.id)))
  }

  /** None when the share would not change. */
  function Reshared(gameID: string, history: seq<Event>, evt: Event, newShare: Share): Option<Change> {
    match SharePacketsModifyingEvent(gameID, evt, newShare)
    case None => None
    case Some((changed, packets)) => Some(Change(Insert(Remove(history, evt.id), changed), packets))
  }

  function Edited(gameID: string, history: seq<Event>, newEvent: Event, update: Update): Change {
    Change(Insert(Remove(history, newEvent.id), newEvent), EditPackets(gameID, newEvent, update))
  }

  class Store {
    const codec: Codec
    var histories: map<string, seq<Event>>
    var published: seq<Message>

    constructor (codec: Codec)
      ensures this.codec == codec && histories == map[] && published == []
    {
      this.codec := codec;
      histories, published := map[], [];
    }

    function History(gameID: string): seq<Event>
      reads this
    {
      if gameID in histories then histories[gameID] else []
    }

    method ZRemRangeByScore(gameID: string, id: int)
      modifies `histories
      ensures histories == old(histories)[gameID := Remove(old(History(gameID)), id)]
    {
      histories := histories[gameID := Remove(History(gameID), id)];
    }

    method ZAddNX(gameID: string, evt: Event)
      modifies `histories
      ensures histories == old(histories)[gameID := Insert(old(History(gameID)), evt)]
    {
      histories := histories[gameID := Insert(History(gameID), evt)];
    }

    method Publish(packets: seq<Packet>)
      modifies `published
      ensures published == old(published) + WireAll(codec, packets)
    {
      for i := 0 to |packets|
        invariant published == old(published) + WireAll(codec, packets[..i])
      {
        assert WireAll(codec, packets[..i + 1]) == WireAll(codec, packets[..i]) + [Wire(codec, packets[i])];
        published := published + [Wire(codec, packets[i])];
      }
      assert packets[..|packets|] == packets;
    }

    /** What every operation leaves behind: one game's history replaced, its packets published. */
    twostate predicate Applied(gameID: string, change: Change)
      reads this
    {
      && histories == old(histories)[gameID := change.history]
      && published == old(published) + WireAll(codec, change.packets)
    }

    method PostEvent(gameID: string, evt: Event)
      requires !HasId(History(gameID), evt.id)
      modifies this
      ensures Applied(gameID, Posted(gameID, old(History(gameID)), evt))
    {
      var packets := CreateOrDeletePackets(gameID, evt, ForNewEvent(evt));
      ZAddNX(gameID, evt);
      Publish(packets);
    }

    method DeleteEvent(gameID: string, evt: Event)
      modifies this
      ensures Applied(gameID, Deleted(gameID, old(History(gameID)), evt))
    {
      var packets := CreateOrDeletePackets(gameID, evt, ForEventDelete(evt.id));
      ZRemRangeByScore(gameID, evt.id);
      Publish(packets);
    }

    /** Returns false, changing nothing, when the share matches the new one. */
    method UpdateEventShare(gameID: string, evt: Event, newShare: Share) returns (ok: bool)
      modifies this
      ensures ok <==> evt.share != newShare
      ensures ok ==> Reshared(gameID, old(History(gameID)), evt, newShare).Some?
      ensures ok ==> Applied(gameID, Reshared(gameID, old(History(gameID)), evt, newShare).value)
      ensures !ok ==> histories == old(histories) && published == old(published)
    {
      if evt.share == newShare {
        return false;
      }
      SharePacketsPanicIff(gameID, evt, newShare);
      var (changed, packets) := SharePacketsModifyingEvent(gameID, evt, newShare).value;
      ZRemRangeByScore(gameID, evt.id);
      ZAddNX(gameID, changed);
      Publish(packets);
      ok := true;
    }

    method UpdateEvent(gameID: string, newEvent: Event, update: Update)
      modifies this
      ensures Applied(gameID, Edited(gameID, old(History(gameID)), newEvent, update))
    {
      var packets := EditPackets(gameID, newEvent, update);
      ZRemRangeByScore(gameID, newEvent.id);
      ZAddNX(gameID, newEvent);
      Publish(packets);
    }
  }

  lemma {:induction false} InsertMembers(history: seq<Event>, evt: Event)
    requires Descending(history) && !HasId(history, evt.id)
    ensures Descending(Insert(history, evt))
    ensures forall e :: e in Insert(history, evt) <==> e in history || e == evt
  {
    if history == [] || evt.id > history[0].id {
      assert forall e | e in history :: e.id < evt.id;
      ConsDescending(evt, history);
    } else {
      DescendingTail(history);
      assert history == [history[0]] + history[1..];
      assert history[0] in history;
      InsertMembers(history[1..], evt);
      ConsDescending(history[0], Insert(history[1..], evt));
    }
  }

  lemma InsertIndex(history: seq<Event>, evt: Event)
    requires Descending(history) && !HasId(history, evt.id)
    ensures Descending(Insert(history, evt))
    ensures Index(Insert(history, evt)) == Index(history)[evt.id := evt]
  {
    InsertMembers(history, evt);
    var table := Index(Insert(history, evt));
    IndexLookup(history);
    IndexLookup(Insert(history, evt));
    forall id ensures id in table <==> id in Index(history) || id == evt.id
      ensures id in table && id != evt.id ==> table[id] == Index(history)[id]
    {
      if id in Index(history) {
        assert Index(history)[id] in Insert(history, evt);
      }
    }
    SameMap(table, Index(history)[evt.id := evt]);
  }

  lemma RemoveIndex(history: seq<Event>, id: int)
    requires Descending(history)
    ensures Descending(Remove(history, id)) && !HasId(Remove(history, id), id)
    ensures Index(Remove(history, id)) == Index(history) - {id}
  {
    FilterIndex(history, (e: Event) => e.id != id);
    IndexLookup(history);
    var table := Index(Remove(history, id));
    forall k ensures k in table <==> k in Index(history) && k != id {
      assert k in Index(history) ==> Index(history)[k].id == k;
    }
    SameMap(table, Index(history) - {id});
  }

  /** Replacing an event removes the old one and adds the new one: the id set keeps no duplicate. */
  lemma ReplaceIndex(history: seq<Event>, evt: Event)
    requires Descending(history)
    ensures Descending(Insert(Remove(history, evt.id), evt))
    ensures Index(Insert(Remove(history, evt.id), evt)) == Index(history)[evt.id := evt]
  {
    RemoveIndex(history, evt.id);
    InsertIndex(Remove(history, evt.id), evt);
    SameMap((Index(history) - {evt.id})[evt.id := evt], Index(history)[evt.id := evt]);
  }
}
