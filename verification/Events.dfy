/** Game events, who may see them, and the updates that announce changes to them. */
module Events {
  import opened Wrappers

  datatype Share = InGame | Private | GMs

  datatype EventType = Roll | EdgeRoll | RerollFailures | InitiativeRoll | PlayerJoin

  /** Digits of which a number of last ones stand behind the point. */
  datatype Decimal = Decimal(digits: int, places: nat)

  /** A JSON number that is not whole, without zeros at its end. */
  type Fraction = d: Decimal | d.places > 0 && d.digits % 10 != 0 witness Decimal(15, 1)

  /** The JSON values event fields and update diffs hold. */
  datatype Value =
    | Str(text: string)
    | Num(n: int)
    | Frac(x: Fraction)
    | Flag(on: bool)
    | Dice(dice: seq<int>)
    | Rounds(rounds: seq<seq<int>>)

  /** An event: the core every event has, and the named fields of its type. */
  datatype Event = Event(
    id: int,
    ty: EventType,
    edit: int,
    share: Share,
    playerID: string,
    playerName: string,
    fields: map<string, Value>
  )

  type Diff = map<string, Value>

  datatype Update =
    | NewEvent(evt: Event)
    | EventDiff(id: int, diff: Diff, time: int)
    | EventDelete(id: int)

  /** Whether a player, who may be a GM, can see an event. */
  predicate PlayerCanSeeEvent(playerID: string, isGM: bool, evt: Event) {
    match evt.share
    case InGame => true
    case Private => evt.playerID == playerID
    case GMs => evt.playerID == playerID || isGM
  }

  /** The number a share mode is stored and sent as. */
  function ShareNumber(share: Share): int {
    match share
    case InGame => 0
    case Private => 1
    case GMs => 2
  }

  /** The client's reading of a share number; an invalid one is read as InGame. */
  function ParseMode(n: int): Share {
    if n == 1 then Private else if n == 2 then GMs else InGame
  }

  function ForNewEvent(evt: Event): Update {
    NewEvent(evt)
  }

  function ForEventDiff(evt: Event, diff: Diff): Update {
    EventDiff(evt.id, diff, evt.edit)
  }

  function ForEventShare(evt: Event, newShare: Share): Update {
    EventDiff(evt.id, map["share" := Num(ShareNumber(newShare))], evt.edit)
  }

  function ForEventDelete(eventID: int): Update {
    EventDelete(eventID)
  }

  /** JSON on both ends of the wire: the server marshals updates, the client parses the text. An update is
      carried if it survives that; one with a number that is no double, say, is not. */
  datatype Codec = Codec(marshal: Update -> string, parse: string -> Option<Update>, carries: Update -> bool) {

    /** Parsing undoes marshalling of what is carried, and every update is marshalled to a JSON array. */
    ghost predicate Faithful() {
      && (forall u | carries(u) :: parse(marshal(u)) == Some(u))
      && (forall u :: marshal(u) != "" && marshal(u)[0] == '[')
    }
  }
}
