/** The Redis channels updates are published on, and the ones a subscriber joins. */
module Channels {
  import opened Wrappers
  import opened Text
  import opened Events
  import opened UpdateFilter

  function GameChannel(gameID: string): string {
    "update:" + gameID
  }

  function PlayerChannel(gameID: string, playerID: string): string {
    "update:" + gameID + ":" + playerID
  }

  function GMsChannel(gameID: string): string {
    "update:" + gameID + ":gms"
  }

  /** The single channel an update of an event is posted in. */
  function UpdateChannel(gameID: string, playerID: string, share: Share): string {
    match share
    case InGame => GameChannel(gameID)
    case Private => PlayerChannel(gameID, playerID)
    case GMs => GMsChannel(gameID)
  }

  /** The broadcast channel of a shared event; None stands for the panic on a private one. */
  function GameOrGMsChannel(gameID: string, share: Share): Option<string> {
    match share
    case InGame => Some(GameChannel(gameID))
    case GMs => Some(GMsChannel(gameID))
    case Private => None
  }

  predicate ValidGameID(gameID: string) {
    ':' !in gameID
  }

  /** Player ids are URL-safe base 64: no frame or channel separator, and never the role name. */
  predicate ValidPlayerID(playerID: string) {
    playerID != "" && playerID != FILTER_GMS && ',' !in playerID && ' ' !in playerID && ':' !in playerID
  }

  /** A connected player: the game joined, the player's id and the role looked up on connecting. */
  datatype Seat = Seat(game: string, player: string, isGM: bool) {
    predicate Valid() {
      ValidGameID(game) && ValidPlayerID(player)
    }
  }

  function SubscribedChannels(seat: Seat): seq<string> {
    [GameChannel(seat.game), PlayerChannel(seat.game, seat.player)]
    + if seat.isGM then [GMsChannel(seat.game)] else []
  }

  method Subscribe(seat: Seat) returns (channels: seq<string>)
    ensures channels == SubscribedChannels(seat)
  {
    channels := [GameChannel(seat.game), PlayerChannel(seat.game, seat.player)];
    if seat.isGM {
      channels := channels + [GMsChannel(seat.game)];
    }
  }

  predicate Listens(seat: Seat, channel: string) {
    channel in SubscribedChannels(seat)
  }

  lemma ColonSplit(g: string, p: string, g': string, p': string)
    requires ':' !in g && ':' !in g'
    requires g + ":" + p == g' + ":" + p'
    ensures g == g' && p == p'
  {
    CutAtFirst(g, ':', p);
    CutAtFirst(g', ':', p');
    assert g + [':'] + p == g + ":" + p;
    assert g' + [':'] + p' == g' + ":" + p';
  }

  lemma SamePrefix(prefix: string, a: string, b: string)
    requires prefix + a == prefix + b
    ensures a == b
  {
    assert (prefix + a)[|prefix|..] == a;
    assert (prefix + b)[|prefix|..] == b;
  }

  lemma ColonIn(g: string, suffix: string)
    ensures ':' in g + ":" + suffix
  {
    assert (g + ":" + suffix)[|g|] == ':';
  }

  /** A game channel is no player or role channel of any game, and names its game. */
  lemma GameChannelSeparation(g: string, g': string, suffix: string)
    requires ValidGameID(g) && ValidGameID(g')
    ensures GameChannel(g) == GameChannel(g') ==> g == g'
    ensures GameChannel(g) != "update:" + g' + ":" + suffix
  {
    if GameChannel(g) == GameChannel(g') {
      SamePrefix("update:", g, g');
    }
    ColonIn(g', suffix);
    assert "update:" + g' + ":" + suffix == "update:" + (g' + ":" + suffix);
    if GameChannel(g) == "update:" + g' + ":" + suffix {
      SamePrefix("update:", g, g' + ":" + suffix);
    }
  }

  lemma SuffixChannelSeparation(g: string, p: string, g': string, p': string)
    requires ValidGameID(g) && ValidGameID(g')
    requires "update:" + g + ":" + p == "update:" + g' + ":" + p'
    ensures g == g' && p == p'
  {
    assert "update:" + g + ":" + p == "update:" + (g + ":" + p);
    assert "update:" + g' + ":" + p' == "update:" + (g' + ":" + p');
    SamePrefix("update:", g + ":" + p, g' + ":" + p');
    ColonSplit(g, p, g', p');
  }

  lemma GMsChannelForm(g: string)
    ensures GMsChannel(g) == "update:" + g + ":" + FILTER_GMS
  {
    assert ":gms" == ":" + FILTER_GMS;
    assert "update:" + g + (":" + FILTER_GMS) == "update:" + g + ":" + FILTER_GMS;
  }

  /** Game, player and role channels are pairwise distinct across all games and players, so a seat
      hears exactly the channels of its own game and, for the role channel, of its own role. */
  lemma ChannelSeparation(seat: Seat, g: string, p: string)
    requires seat.Valid() && ValidGameID(g) && ValidPlayerID(p)
    ensures Listens(seat, GameChannel(g)) <==> seat.game == g
    ensures Listens(seat, PlayerChannel(g, p)) <==> seat.game == g && seat.player == p
    ensures Listens(seat, GMsChannel(g)) <==> seat.game == g && seat.isGM
  {
    GMsChannelForm(g);
    GMsChannelForm(seat.game);
    GameChannelSeparation(g, seat.game, seat.player);
    GameChannelSeparation(g, seat.game, FILTER_GMS);
    GameChannelSeparation(seat.game, g, p);
    GameChannelSeparation(seat.game, g, FILTER_GMS);
    if PlayerChannel(g, p) == PlayerChannel(seat.game, seat.player) {
      SuffixChannelSeparation(g, p, seat.game, seat.player);
    }
    if PlayerChannel(g, p) == GMsChannel(seat.game) {
      SuffixChannelSeparation(g, p, seat.game, FILTER_GMS);
    }
    if GMsChannel(g) == PlayerChannel(seat.game, seat.player) {
      SuffixChannelSeparation(g, FILTER_GMS, seat.game, seat.player);
    }
    if GMsChannel(g) == GMsChannel(seat.game) {
      SuffixChannelSeparation(g, FILTER_GMS, seat.game, FILTER_GMS);
    }
  }
}
