/** Which packets announce a change to an event, how they are framed, and which of them a
    subscriber's connection relays to the client (server/game/eventShare.go). */
module Packets {
  import opened Wrappers
  import opened Text
  import opened Events
  import opened UpdateFilter
  import opened Channels

  /** An update to publish in a channel, hidden from the subscribers its filter names. */
  datatype Packet = Packet(channel: string, filter: seq<string>, update: Update)

  datatype Message = Message(channel: string, payload: string)

  /** The message a packet is published as: framed when it has filters, plain JSON otherwise. */
  function Wire(codec: Codec, packet: Packet): Message {
    Message(
      packet.channel,
      if |packet.filter| > 0 then Serialize(packet.filter, codec.marshal(packet.update))
      else codec.marshal(packet.update)
    )
  }

  function WireAll(codec: Codec, packets: seq<Packet>): (messages: seq<Message>)
    ensures |messages| == |packets|
  {
    seq(|packets|, i requires 0 <= i < |packets| => Wire(codec, packets[i]))
  }

  /** The packets of an event create or delete: two when it is shared with GMs. */
  function CreateOrDeletePackets(gameID: string, evt: Event, update: Update): seq<Packet> {
    match evt.share
    case InGame => [Packet(GameChannel(gameID), [], update)]
    case Private => [Packet(PlayerChannel(gameID, evt.playerID), [], update)]
    case GMs => [
      Packet(GMsChannel(gameID), [evt.playerID], update),
      Packet(PlayerChannel(gameID, evt.playerID), [], update)
    ]
  }

  /** The packets of a share change and the event as changed; None stands for a panic. */
  function SharePacketsModifyingEvent(gameID: string, evt: Event, newShare: Share): Option<(Event, seq<Packet>)> {
    var oldShare, evt := evt.share, evt.(share := newShare);
    var player := evt.playerID;
    var change := ForEventShare(evt, newShare);
    var create := ForNewEvent(evt);
    var delete := ForEventDelete(evt.id);
    if newShare == Private then
      match GameOrGMsChannel(gameID, oldShare)
      case None => None
      case Some(channel) => Some((evt, [
        Packet(channel, [player], delete),
        Packet(PlayerChannel(gameID, player), [], change)
      ]))
    else if oldShare == Private then
      match GameOrGMsChannel(gameID, newShare)
      case None => None
      case Some(channel) => Some((evt, [
        Packet(channel, [player], create),
        Packet(PlayerChannel(gameID, player), [], change)
      ]))
    else if oldShare == GMs && newShare == InGame then
      Some((evt, [
        Packet(GMsChannel(gameID), [player], change),
        Packet(PlayerChannel(gameID, player), [], change),
        Packet(GameChannel(gameID), [player, FILTER_GMS], create)
      ]))
    else if oldShare == InGame && newShare == GMs then
      Some((evt, [
        Packet(GameChannel(gameID), [FILTER_GMS, player], delete),
        Packet(GMsChannel(gameID), [player], change),
        Packet(PlayerChannel(gameID, player), [], change)
      ]))
    else None
  }

  /** Changing a share panics exactly when the share would not change. */
  lemma SharePacketsPanicIff(gameID: string, evt: Event, newShare: Share)
    ensures SharePacketsModifyingEvent(gameID, evt, newShare).None? <==> evt.share == newShare
  {
  }

  /** Whether a packet is for a seat: on one of its channels and not filtered out. */
  predicate Reaches(packet: Packet, seat: Seat) {
    Listens(seat, packet.channel) && seat.player !in packet.filter && !(seat.isGM && FILTER_GMS in packet.filter)
  }

  /** What a packet has for a seat. */
  function Addresser(seat: Seat): Packet -> seq<Update> {
    packet => if Reaches(packet, seat) then [packet.update] else []
  }

  /** The updates a seat should get out of a series of packets. */
  function Addressed(packets: seq<Packet>, seat: Seat): seq<Update> {
    FlatMap(packets, Addresser(seat))
  }

  function MarshalAll(codec: Codec, updates: seq<Update>): (texts: seq<string>)
    ensures |texts| == |updates|
  {
    seq(|updates|, i requires 0 <= i < |updates| => codec.marshal(updates[i]))
  }

  /** A filter the code builds: the role, and at most one player. */
  predicate WellFiltered(filter: seq<string>) {
    && (forall f | f in filter :: f == FILTER_GMS || ValidPlayerID(f))
    && (forall f, f' | f in filter && f' in filter && f != FILTER_GMS && f' != FILTER_GMS :: f == f')
  }

  lemma AddressedOne(p: Packet, seat: Seat)
    ensures Addressed([p], seat) == if Reaches(p, seat) then [p.update] else []
  {
    FlatMapOne(p, Addresser(seat));
  }

  lemma AddressedTwo(p: Packet, q: Packet, seat: Seat)
    ensures Addressed([p, q], seat) == Addressed([p], seat) + Addressed([q], seat)
  {
    FlatMapAppend([p], [q], Addresser(seat));
    assert [p] + [q] == [p, q];
  }

  lemma AddressedFirst(p: Packet, q: Packet, r: Packet, seat: Seat)
    ensures Addressed([p, q, r], seat) == Addressed([p], seat) + Addressed([q, r], seat)
  {
    FlatMapAppend([p], [q, r], Addresser(seat));
    assert [p] + [q, r] == [p, q, r];
  }

  lemma AddressedLast(p: Packet, q: Packet, r: Packet, seat: Seat)
    ensures Addressed([p, q, r], seat) == Addressed([p, q], seat) + Addressed([r], seat)
  {
    FlatMapAppend([p, q], [r], Addresser(seat));
    assert [p, q] + [r] == [p, q, r];
  }

  /** Posts and deletes reach each viewer exactly once and nobody else. */
  lemma CreateOrDeleteExactness(game: string, evt: Event, update: Update, seat: Seat)
    requires ValidGameID(game) && ValidPlayerID(evt.playerID) && seat.Valid()
    ensures Addressed(CreateOrDeletePackets(game, evt, update), seat)
         == if seat.game == game && PlayerCanSeeEvent(seat.player, seat.isGM, evt) then [update] else []
  {
    ChannelSeparation(seat, game, evt.playerID);
    var packets := CreateOrDeletePackets(game, evt, update);
    AddressedOne(packets[0], seat);
    if evt.share == GMs {
      AddressedOne(packets[1], seat);
      AddressedTwo(packets[0], packets[1], seat);
    }
  }

  /** The update a seat should see of a share change, given whether it sees the event before and after:
      delete, create, modify or nothing. */
  function ShareNews(changed: Event, before: bool, after: bool): seq<Update> {
    if before && after then [ForEventShare(changed, changed.share)]
    else if before then [ForEventDelete(changed.id)]
    else if after then [ForNewEvent(changed)]
    else []
  }

  lemma SharePacketsWellFiltered(game: string, evt: Event, newShare: Share)
    requires ValidPlayerID(evt.playerID) && evt.share != newShare
    ensures SharePacketsModifyingEvent(game, evt, newShare).Some?
    ensures SharePacketsModifyingEvent(game, evt, newShare).value.0 == evt.(share := newShare)
    ensures forall packet | packet in SharePacketsModifyingEvent(game, evt, newShare).value.1 :: WellFiltered(packet.filter)
  {
  }

  /** The seats a packet of a share change reaches, by the kind of channel it is published in. */
  lemma ReachesByChannel(game: string, owner: string, filter: seq<string>, update: Update, seat: Seat)
    requires ValidGameID(game) && ValidPlayerID(owner) && seat.Valid()
    requires filter in {[], [owner], [owner, FILTER_GMS], [FILTER_GMS, owner]}
    ensures var filtered := filter != [] && (seat.player == owner || (seat.isGM && |filter| == 2));
            && Reaches(Packet(GameChannel(game), filter, update), seat) == (seat.game == game && !filtered)
            && Reaches(Packet(GMsChannel(game), filter, update), seat) == (seat.game == game && seat.isGM && !filtered)
            && Reaches(Packet(PlayerChannel(game, owner), filter, update), seat)
            == (seat.game == game && seat.player == owner && !filtered)
  {
    ChannelSeparation(seat, game, owner);
    assert [owner, FILTER_GMS][1] == [FILTER_GMS, owner][0] == FILTER_GMS;
  }

  /** A packet filtered by its owner in a broadcast channel, and a packet to the owner. */
  lemma AddressedBroadcast(game: string, owner: string, share: Share, broadcast: Update, own: Update, seat: Seat)
    requires ValidGameID(game) && ValidPlayerID(owner) && seat.Valid() && share != Private
    ensures Addressed([Packet(UpdateChannel(game, owner, share), [owner], broadcast), Packet(PlayerChannel(game, owner), [], own)], seat)
         == if seat.game != game then [] else if seat.player == owner then [own]
            else if share == InGame || seat.isGM then [broadcast] else []
  {
    var p, q := Packet(UpdateChannel(game, owner, share), [owner], broadcast), Packet(PlayerChannel(game, owner), [], own);
    ReachesByChannel(game, owner, [owner], broadcast, seat);
    ReachesByChannel(game, owner, [], own, seat);
    AddressedOne(p, seat);
    AddressedOne(q, seat);
    AddressedTwo(p, q, seat);
  }

  /** A packet that only players who are neither GMs nor the owner get. */
  lemma AddressedOthers(game: string, owner: string, filter: seq<string>, update: Update, seat: Seat)
    requires ValidGameID(game) && ValidPlayerID(owner) && seat.Valid()
    requires filter in {[owner, FILTER_GMS], [FILTER_GMS, owner]}
    ensures Addressed([Packet(GameChannel(game), filter, update)], seat)
         == if seat.game == game && seat.player != owner && !seat.isGM then [update] else []
  {
    ReachesByChannel(game, owner, filter, update, seat);
    AddressedOne(Packet(GameChannel(game), filter, update), seat);
  }

  /** The news of a share change for a seat: nothing in other games, else by what it sees before and after. */
  function NewsFor(game: string, evt: Event, newShare: Share, seat: Seat): seq<Update> {
    if seat.game != game then []
    else
      var changed := evt.(share := newShare);
      ShareNews(changed, PlayerCanSeeEvent(seat.player, seat.isGM, evt), PlayerCanSeeEvent(seat.player, seat.isGM, changed))
  }

  lemma PrivateShareExactness(game: string, evt: Event, newShare: Share, seat: Seat)
    requires ValidGameID(game) && ValidPlayerID(evt.playerID) && seat.Valid()
    requires evt.share != newShare && Private in {evt.share, newShare}
    ensures SharePacketsModifyingEvent(game, evt, newShare).Some?
    ensures Addressed(SharePacketsModifyingEvent(game, evt, newShare).value.1, seat) == NewsFor(game, evt, newShare, seat)
  {
    if newShare == Private {
      ToPrivateExactness(game, evt, seat);
    } else {
      FromPrivateExactness(game, evt, newShare, seat);
    }
  }

  lemma ToPrivateExactness(game: string, evt: Event, seat: Seat)
    requires ValidGameID(game) && ValidPlayerID(evt.playerID) && seat.Valid() && evt.share != Private
    ensures SharePacketsModifyingEvent(game, evt, Private).Some?
    ensures Addressed(SharePacketsModifyingEvent(game, evt, Private).value.1, seat) == NewsFor(game, evt, Private, seat)
  {
    AddressedBroadcast(
      game, evt.playerID, evt.share, ForEventDelete(evt.id), ForEventShare(evt.(share := Private), Private), seat);
  }

  lemma FromPrivateExactness(game: string, evt: Event, newShare: Share, seat: Seat)
    requires ValidGameID(game) && ValidPlayerID(evt.playerID) && seat.Valid()
    requires evt.share == Private && newShare != Private
    ensures SharePacketsModifyingEvent(game, evt, newShare).Some?
    ensures Addressed(SharePacketsModifyingEvent(game, evt, newShare).value.1, seat) == NewsFor(game, evt, newShare, seat)
  {
    var changed := evt.(share := newShare);
    AddressedBroadcast(game, evt.playerID, newShare, ForNewEvent(changed), ForEventShare(changed, newShare), seat);
  }

  /** One update for GMs and the owner, and another for everybody else of the game. */
  function InsiderNews(game: string, owner: string, inside: Update, outside: Update, seat: Seat): seq<Update> {
    if seat.game != game then [] else if seat.player == owner || seat.isGM then [inside] else [outside]
  }

  lemma InsidersThenOthers(game: string, owner: string, inside: Update, outside: Update, seat: Seat)
    requires ValidGameID(game) && ValidPlayerID(owner) && seat.Valid()
    ensures Addressed([
              Packet(GMsChannel(game), [owner], inside),
              Packet(PlayerChannel(game, owner), [], inside),
              Packet(GameChannel(game), [owner, FILTER_GMS], outside)
            ], seat) == InsiderNews(game, owner, inside, outside, seat)
  {
    var toGMs, toOwner := Packet(GMsChannel(game), [owner], inside), Packet(PlayerChannel(game, owner), [], inside);
    AddressedBroadcast(game, owner, GMs, inside, inside, seat);
    AddressedOthers(game, owner, [owner, FILTER_GMS], outside, seat);
    AddressedLast(toGMs, toOwner, Packet(GameChannel(game), [owner, FILTER_GMS], outside), seat);
  }

  lemma OthersThenInsiders(game: string, owner: string, inside: Update, outside: Update, seat: Seat)
    requires ValidGameID(game) && ValidPlayerID(owner) && seat.Valid()
    ensures Addressed([
              Packet(GameChannel(game), [FILTER_GMS, owner], outside),
              Packet(GMsChannel(game), [owner], inside),
              Packet(PlayerChannel(game, owner), [], inside)
            ], seat) == InsiderNews(game, owner, inside, outside, seat)
  {
    var toGMs, toOwner := Packet(GMsChannel(game), [owner], inside), Packet(PlayerChannel(game, owner), [], inside);
    AddressedBroadcast(game, owner, GMs, inside, inside, seat);
    AddressedOthers(game, owner, [FILTER_GMS, owner], outside, seat);
    AddressedFirst(Packet(GameChannel(game), [FILTER_GMS, owner], outside), toGMs, toOwner, seat);
  }

  lemma GMsToGameExactness(game: string, evt: Event, seat: Seat)
    requires ValidGameID(game) && ValidPlayerID(evt.playerID) && seat.Valid() && evt.share == GMs
    ensures SharePacketsModifyingEvent(game, evt, InGame).Some?
    ensures Addressed(SharePacketsModifyingEvent(game, evt, InGame).value.1, seat) == NewsFor(game, evt, InGame, seat)
  {
    var changed, owner := evt.(share := InGame), evt.playerID;
    var change, create := ForEventShare(changed, InGame), ForNewEvent(changed);
    InsidersThenOthers(game, owner, change, create, seat);
  }

  lemma GameToGMsExactness(game: string, evt: Event, seat: Seat)
    requires ValidGameID(game) && ValidPlayerID(evt.playerID) && seat.Valid() && evt.share == InGame
    ensures SharePacketsModifyingEvent(game, evt, GMs).Some?
    ensures Addressed(SharePacketsModifyingEvent(game, evt, GMs).value.1, seat) == NewsFor(game, evt, GMs, seat)
  {
    var changed, owner := evt.(share := GMs), evt.playerID;
    var change, delete := ForEventShare(changed, GMs), ForEventDelete(evt.id);
    OthersThenInsiders(game, owner, change, delete, seat);
  }

  /** A share change sends each seat of the game at most one update: delete if and only if it saw the
      event before but not after, create if and only if after but not before, modify if and only if
      both; and sends other games nothing. */
  lemma ShareChangeExactness(game: string, evt: Event, newShare: Share, seat: Seat)
    requires ValidGameID(game) && ValidPlayerID(evt.playerID) && seat.Valid()
    requires evt.share != newShare
    ensures SharePacketsModifyingEvent(game, evt, newShare).Some?
    ensures Addressed(SharePacketsModifyingEvent(game, evt, newShare).value.1, seat) == NewsFor(game, evt, newShare, seat)
  {
    if Private in {evt.share, newShare} {
      PrivateShareExactness(game, evt, newShare, seat);
    } else if evt.share == GMs {
      GMsToGameExactness(game, evt, seat);
    } else {
      GameToGMsExactness(game, evt, seat);
    }
  }

  /** The one packet of an event edit. It goes to the channel of the event's share. */
  function EditPackets(gameID: string, evt: Event, update: Update): seq<Packet> {
    [Packet(UpdateChannel(gameID, evt.playerID, evt.share), [], update)]
  }

  /** An edit is announced on one channel only, so the owner of an event shared with GMs hears of it
      only as a GM: it reaches every viewer of the game except exactly that owner. */
  lemma EditReachesViewersIff(game: string, evt: Event, update: Update, seat: Seat)
    requires ValidGameID(game) && ValidPlayerID(evt.playerID) && seat.Valid() && seat.game == game
    ensures Addressed(EditPackets(game, evt, update), seat)
         == if PlayerCanSeeEvent(seat.player, seat.isGM, evt) && !(evt.share == GMs && seat.player == evt.playerID && !seat.isGM)
            then [update] else []
  {
    ChannelSeparation(seat, game, evt.playerID);
    AddressedOne(EditPackets(game, evt, update)[0], seat);
  }

  lemma EditStaysInGame(game: string, evt: Event, update: Update, seat: Seat)
    requires ValidGameID(game) && ValidPlayerID(evt.playerID) && seat.Valid() && seat.game != game
    ensures Addressed(EditPackets(game, evt, update), seat) == []
  {
    ChannelSeparation(seat, game, evt.playerID);
    AddressedOne(EditPackets(game, evt, update)[0], seat);
  }
}
