/** A subscriber's connection: relays what Redis delivers to the client's event stream, dropping the
    updates that exclude the subscriber (server/routes/gameSubscription.go). */
module Subscription {
  import opened Wrappers
  import opened Text
  import opened Events
  import opened UpdateFilter
  import opened Channels
  import opened Packets

  /** The decision of a connection about one payload: the text to relay, or None to skip it. */
  function ShouldSendUpdate(payload: string, seat: Seat): Option<string> {
    var excluded := Parsed(payload);
    if excluded.found && excluded.id == seat.player then None
    else if excluded.found && seat.isGM && excluded.gms then None
    else Some(excluded.inner)
  }

  /** The payloads Redis puts in a subscriber's inbox for a series of published messages. */
  function Inbox(messages: seq<Message>, seat: Seat): seq<string> {
    if messages == [] then []
    else (if Listens(seat, messages[0].channel) then [messages[0].payload] else []) + Inbox(messages[1..], seat)
  }

  /** What a connection writes to its stream for each payload: the text to relay, or nothing. */
  function Relayer(seat: Seat): string -> seq<string> {
    payload => match ShouldSendUpdate(payload, seat) case None => [] case Some(text) => [text]
  }

  /** The texts a connection writes to its stream for a series of inbox payloads. */
  function Relay(payloads: seq<string>, seat: Seat): seq<string> {
    FlatMap(payloads, Relayer(seat))
  }

  method ShouldSend(payload: string, seat: Seat) returns (inner: string, should: bool)
    ensures should == ShouldSendUpdate(payload, seat).Some?
    ensures should ==> ShouldSendUpdate(payload, seat) == Some(inner)
  {
    var excluded := ParseExclude(payload);
    inner := excluded.inner;
    if excluded.found {
      if excluded.id == seat.player {
        return inner, false;
      }
      if seat.isGM && excluded.gms {
        return inner, false;
      }
    }
    should := true;
  }

  class Connection {
    const seat: Seat
    var inbox: seq<string>
    var stream: seq<string>

    constructor (seat: Seat)
      ensures this.seat == seat && inbox == [] && stream == []
    {
      this.seat := seat;
      inbox, stream := [], [];
    }

    /** One turn of the delivery loop. What has been and will be written to the stream is unchanged:
        a turn only moves the front of the inbox to the end of the stream. */
    method HandleNext()
      requires inbox != []
      modifies this
      ensures inbox == old(inbox)[1..]
      ensures stream == old(stream) + Relay([old(inbox)[0]], seat)
      ensures stream + Relay(inbox, seat) == old(stream + Relay(inbox, seat))
    {
      var inner, should := ShouldSend(inbox[0], seat);
      FlatMapStep(inbox, Relayer(seat));
      ConcatAssociates(stream, Relay([inbox[0]], seat), Relay(inbox[1..], seat));
      inbox := inbox[1..];
      if should {
        stream := stream + [inner];
      }
    }
  }

  lemma PacketRelayed(codec: Codec, packet: Packet, seat: Seat)
    requires codec.Faithful() && seat.Valid() && WellFiltered(packet.filter)
    ensures ShouldSendUpdate(Wire(codec, packet).payload, seat)
         == if seat.player !in packet.filter && !(seat.isGM && FILTER_GMS in packet.filter)
            then Some(codec.marshal(packet.update)) else None
  {
    var text := codec.marshal(packet.update);
    if |packet.filter| > 0 {
      FramingRoundTrip(packet.filter, text);
      LastPlayerIsListed(packet.filter);
    } else {
      UnframedPassesThrough(text);
    }
  }

  lemma PacketDelivered(codec: Codec, packet: Packet, seat: Seat)
    requires codec.Faithful() && seat.Valid() && WellFiltered(packet.filter)
    ensures Relay(if Listens(seat, packet.channel) then [Wire(codec, packet).payload] else [], seat)
         == MarshalAll(codec, if Reaches(packet, seat) then [packet.update] else [])
  {
    PacketRelayed(codec, packet, seat);
    FlatMapOne(Wire(codec, packet).payload, Relayer(seat));
  }

  lemma MarshalAppend(codec: Codec, a: seq<Update>, b: seq<Update>)
    ensures MarshalAll(codec, a + b) == MarshalAll(codec, a) + MarshalAll(codec, b)
  {
  }

  /** Framing, channels and exclusion together: what a connection relays of published packets is
      exactly the updates addressed to its seat, in order. */
  lemma {:induction false} PublishedPacketsRelayed(codec: Codec, packets: seq<Packet>, seat: Seat)
    requires codec.Faithful() && seat.Valid()
    requires forall packet | packet in packets :: WellFiltered(packet.filter)
    ensures Relay(Inbox(WireAll(codec, packets), seat), seat) == MarshalAll(codec, Addressed(packets, seat))
  {
    if packets != [] {
      var head, rest := Wire(codec, packets[0]), packets[1..];
      PublishedPacketsRelayed(codec, rest, seat);
      PacketDelivered(codec, packets[0], seat);
      assert WireAll(codec, packets)[1..] == WireAll(codec, rest);
      var first := if Listens(seat, head.channel) then [head.payload] else [];
      FlatMapAppend(first, Inbox(WireAll(codec, rest), seat), Relayer(seat));
      var one := if Reaches(packets[0], seat) then [packets[0].update] else [];
      MarshalAppend(codec, one, Addressed(rest, seat));
    }
  }
}
