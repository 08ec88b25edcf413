/** A broker's view of the client-to-server stream: the packets that MQTT 3.1.1 defines in sections
    2.2 (fixed header), 3.1 (CONNECT), 3.3 (PUBLISH) and 3.14 (DISCONNECT). Nothing here knows how
    the device builds its packets. */
module BrokerParser {
  import opened Common
  import opened RemainingLength

  datatype Will = Will(topic: seq<byte>, message: seq<byte>, retain: bool, willQos: nat)

  datatype Packet =
    | Connect(clientId: seq<byte>, keepAlive: nat, cleanSession: bool, will: Option<Will>,
              userName: Option<seq<byte>>, password: Option<seq<byte>>)
    | Publish(topic: seq<byte>, payload: seq<byte>, qos: nat, dup: bool, retain: bool, packetId: nat)
    | Disconnect

  /** A decoded piece of a packet body, and the rest of the body. */
  datatype Piece<+T> = Piece(value: T, rest: seq<byte>) | Bad

  function TakeU16(s: seq<byte>): (p: Piece<nat>)
    ensures p.Piece? ==> p.value < TWO_TO_16
  {
    if |s| < 2 then Bad else Piece(Join16(s[0], s[1]), s[2..])
  }

  /** A two-byte length followed by that many bytes (section 1.5.3). */
  function TakeField(s: seq<byte>): (p: Piece<seq<byte>>)
    ensures p.Piece? ==> |p.value| < TWO_TO_16
  {
    match TakeU16(s)
    case Bad => Bad
    case Piece(n, rest) => if |rest| < n then Bad else Piece(rest[..n], rest[n..])
  }

  function TakeOptionalField(present: bool, s: seq<byte>): Piece<Option<seq<byte>>> {
    if !present then Piece(None, s) else
      match TakeField(s)
      case Bad => Bad
      case Piece(v, rest) => Piece(Some(v), rest)
  }

  predicate Bit(flags: byte, weight: nat)
    requires weight > 0
  {
    (flags / weight) % 2 == 1
  }

  function TakeWill(flags: byte, s: seq<byte>): Piece<Option<Will>> {
    if !Bit(flags, 4) then Piece(None, s) else
      match TakeField(s)
      case Bad => Bad
      case Piece(topic, rest) =>
        match TakeField(rest)
        case Bad => Bad
        case Piece(message, rest) => Piece(Some(Will(topic, message, Bit(flags, 32), (flags / 8) % 4)), rest)
  }

  /** The connect flags that section 3.1.2.3 allows. */
  predicate LegalConnectFlags(flags: byte) {
    && !Bit(flags, 1)
    && (!Bit(flags, 4) ==> (flags / 8) % 4 == 0 && !Bit(flags, 32))
    && (flags / 8) % 4 != 3
    && (Bit(flags, 64) ==> Bit(flags, 128))
  }

  function ParseConnect(body: seq<byte>): Option<Packet> {
    if |body| < 10 || body[..7] != [0, 4, 77, 81, 84, 84, 4] || !LegalConnectFlags(body[7]) then None else
      var flags := body[7];
      match TakeField(body[10..])
      case Bad => None
      case Piece(id, rest) =>
        match TakeWill(flags, rest)
        case Bad => None
        case Piece(will, rest) =>
          match TakeOptionalField(Bit(flags, 128), rest)
          case Bad => None
          case Piece(user, rest) =>
            match TakeOptionalField(Bit(flags, 64), rest)
            case Bad => None
            case Piece(password, rest) =>
              if rest != [] then None
              else Some(Connect(id, Join16(body[8], body[9]), Bit(flags, 2), will, user, password))
  }

  function ParsePublish(flags: nat, body: seq<byte>): Option<Packet> {
    var qos := (flags / 2) % 4;
    if qos == 3 || (qos == 0 && flags / 8 == 1) then None else
      match TakeField(body)
      case Bad => None
      case Piece(topic, rest) =>
        if qos == 0 then Some(Publish(topic, rest, 0, false, flags % 2 == 1, 0)) else
          match TakeU16(rest)
          case Bad => None
          case Piece(id, rest) => Some(Publish(topic, rest, qos, flags / 8 == 1, flags % 2 == 1, id))
  }

  function ParseBody(first: byte, body: seq<byte>): Option<Packet> {
    var kind, flags := first / 16, first % 16;
    if kind == 1 && flags == 0 then ParseConnect(body)
    else if kind == 3 then ParsePublish(flags, body)
    else if kind == 14 && flags == 0 && body == [] then Some(Disconnect)
    else None
  }

  /** The first byte and the body of the first packet of a stream. */
  function TakeFrame(s: seq<byte>): (r: Parsed<(byte, seq<byte>)>)
    ensures r.Done? ==> |r.rest| < |s|
  {
    if s == [] then Incomplete else
      match Decode(s[1..], MAX_BYTES)
      case Incomplete => Incomplete
      case Malformed => Malformed
      case Done(n, rest) => if |rest| < n then Incomplete else Done((s[0], rest[..n]), rest[n..])
  }

  /** The first packet of a stream. */
  function ParsePacket(s: seq<byte>): (r: Parsed<Packet>)
    ensures r.Done? ==> |r.rest| < |s|
  {
    match TakeFrame(s)
    case Incomplete => Incomplete
    case Malformed => Malformed
    case Done((first, body), rest) =>
      match ParseBody(first, body)
      case None => Malformed
      case Some(p) => Done(p, rest)
  }

  /** All complete packets of a stream, and the bytes that do not make one yet. `None` means that the
      broker has seen something it must close the connection for. */
  function ParseStream(s: seq<byte>): Option<(seq<Packet>, seq<byte>)>
    decreases |s|
  {
    match ParsePacket(s)
    case Malformed => None
    case Incomplete => Some(([], s))
    case Done(p, rest) =>
      match ParseStream(rest)
      case None => None
      case Some((ps, left)) => Some(([p] + ps, left))
  }
}
