/** The packets the device sends, byte by byte, and what a broker makes of them. */
module ClientPackets {
  import opened Common
  import opened RemainingLength
  import opened BrokerParser

  /** One request to the client library. Lengths go through `uint16_t` and `uint32_t` casts, so a
      request may ask for more than its packet can carry. */
  datatype Call =
    | CallConnect(id: seq<byte>, keepAlive: nat, willTopic: Option<seq<byte>>,
                  willPayload: Option<seq<byte>>, willRetain: bool)
    | CallPublish(topic: seq<byte>, payload: seq<byte>, retain: bool)
    | CallDisconnect

  function U16(v: nat): seq<byte> {
    [v / 256 % 256, v % 256]
  }

  /** The part of a string that its cast length covers. */
  function Cut(s: seq<byte>): (r: seq<byte>)
    ensures |r| < TWO_TO_16
    ensures r == s <==> |s| < TWO_TO_16
  {
    s[..|s| % TWO_TO_16]
  }

  /** A string as the device writes it. */
  function Field(s: seq<byte>): seq<byte> {
    U16(|s| % TWO_TO_16) + Cut(s)
  }

  predicate HasWill(c: Call) {
    c.CallConnect? && c.willTopic.Some? && c.willPayload.Some?
  }

  function ConnectFlags(c: Call): byte {
    2 + (if HasWill(c) then 4 else 0) + (if HasWill(c) && c.willRetain then 32 else 0)
  }

  function WillFields(c: Call): seq<byte> {
    if HasWill(c) then Field(c.willTopic.value) + Field(c.willPayload.value) else []
  }

  function ConnectBody(c: Call): seq<byte>
    requires c.CallConnect?
  {
    [0, 4, 77, 81, 84, 84, 4] + [ConnectFlags(c)] + U16(c.keepAlive) + Field(c.id) + WillFields(c)
  }

  function PublishBody(c: Call): seq<byte>
    requires c.CallPublish?
  {
    Field(c.topic) + c.payload
  }

  function PublishByte(retain: bool): byte {
    if retain then 0x31 else 0x30
  }

  /** The `uint32_t` sum that becomes the remaining length. */
  function PublishLength(c: Call): nat
    requires c.CallPublish?
  {
    (2 + |Cut(c.topic)| + |c.payload|) % TWO_TO_32
  }

  /** A fixed header and the body it announces to be `announced` bytes long. */
  function Frame(first: byte, announced: nat, body: seq<byte>): (f: seq<byte>)
    ensures f != []
  {
    [first] + (Encode(announced, MAX_BYTES) + body)
  }

  /** The bytes on the wire. */
  function Wire(c: Call): (w: seq<byte>)
    ensures w != []
  {
    match c
    case CallConnect(_, _, _, _, _) => Frame(0x10, |ConnectBody(c)|, ConnectBody(c))
    case CallPublish(_, _, retain) => Frame(PublishByte(retain), PublishLength(c), PublishBody(c))
    case CallDisconnect => [0xE0, 0x00]
  }

  /** The sizes of the pieces in which a packet is handed to the transport. */
  function Parts(c: Call): seq<nat> {
    match c
    case CallConnect(_, _, _, _, _) => [|Wire(c)|]
    case CallPublish(topic, payload, _) => [1 + |Encode(PublishLength(c), MAX_BYTES)|, 2, |Cut(topic)|, |payload|]
    case CallDisconnect => [2]
  }

  /** The packet that was asked for. */
  function Meaning(c: Call): Packet {
    match c
    case CallConnect(id, keep, wt, wp, retain) =>
      Connect(id, keep, true, if HasWill(c) then Some(Will(wt.value, wp.value, retain, 0)) else None, None, None)
    case CallPublish(topic, payload, retain) => Publish(topic, payload, 0, false, retain, 0)
    case CallDisconnect => Disconnect
  }

  /** The request fits the fields that carry its lengths. */
  predicate Fits(c: Call) {
    match c
    case CallConnect(id, keep, wt, wp, _) =>
      && |id| < TWO_TO_16
      && (HasWill(c) ==> |wt.value| < TWO_TO_16 && |wp.value| < TWO_TO_16)
    case CallPublish(topic, payload, _) =>
      |topic| < TWO_TO_16 && 2 + |topic| + |payload| < TWO_TO_28
    case CallDisconnect => true
  }

  // ---- Fields ---------------------------------------------------------------------------------

  lemma TakeU16OfU16(v: nat, rest: seq<byte>)
    requires v < TWO_TO_16
    ensures TakeU16(U16(v) + rest) == Piece(v, rest)
  {
    var s := U16(v) + rest;
    assert s[2..] == rest;
    assert v / 256 % 256 == v / 256;
  }

  lemma TakeFieldOfField(s: seq<byte>, rest: seq<byte>)
    ensures TakeField(Field(s) + rest) == Piece(Cut(s), rest)
  {
    var n := |s| % TWO_TO_16;
    TakeU16OfU16(n, Cut(s) + rest);
    assert Field(s) + rest == U16(n) + (Cut(s) + rest);
    assert (Cut(s) + rest)[..n] == Cut(s);
    assert (Cut(s) + rest)[n..] == rest;
  }

  /** A connect request with its strings cut. */
  function CutConnect(c: Call): (r: Call)
    requires c.CallConnect?
    ensures r.CallConnect?
  {
    c.(id := Cut(c.id),
       willTopic := if HasWill(c) then Some(Cut(c.willTopic.value)) else None,
       willPayload := if HasWill(c) then Some(Cut(c.willPayload.value)) else None)
  }

  lemma FlagsAreLegal(c: Call)
    requires c.CallConnect?
    ensures var f := ConnectFlags(c);
            && LegalConnectFlags(f) && Bit(f, 2) && !Bit(f, 64) && !Bit(f, 128)
            && Bit(f, 4) == HasWill(c) && (f / 8) % 4 == 0
            && (HasWill(c) ==> Bit(f, 32) == c.willRetain)
  {
  }

  lemma WillOfFields(c: Call)
    requires c.CallConnect?
    ensures TakeWill(ConnectFlags(c), WillFields(c)) == Piece(Meaning(CutConnect(c)).will, [])
  {
    FlagsAreLegal(c);
    if HasWill(c) {
      TakeFieldOfField(c.willTopic.value, Field(c.willPayload.value));
      assert Field(c.willPayload.value) + [] == Field(c.willPayload.value);
      TakeFieldOfField(c.willPayload.value, []);
    }
  }

  lemma ConnectBodyParses(c: Call)
    requires c.CallConnect? && c.keepAlive < TWO_TO_16
    ensures ParseConnect(ConnectBody(c)) == Some(Meaning(CutConnect(c)))
  {
    hide Field, WillFields, TakeField, TakeWill, LegalConnectFlags;
    var body := ConnectBody(c);
    assert body[..7] == [0, 4, 77, 81, 84, 84, 4];
    assert body[7] == ConnectFlags(c);
    assert [body[8], body[9]] == U16(c.keepAlive);
    assert body[10..] == Field(c.id) + WillFields(c);
    FlagsAreLegal(c);
    TakeFieldOfField(c.id, WillFields(c));
    WillOfFields(c);
    TakeU16OfU16(c.keepAlive, []);
    assert U16(c.keepAlive) + [] == [body[8], body[9]];
  }

  // ---- Packets --------------------------------------------------------------------------------

  lemma TakeFrameOf(first: byte, announced: nat, tail: seq<byte>)
    ensures TakeFrame([first] + (Encode(announced, MAX_BYTES) + tail))
         == if announced >= TWO_TO_28 then Malformed
            else if |tail| < announced then Incomplete
            else Done((first, tail[..announced]), tail[announced..])
  {
    var t := Encode(announced, MAX_BYTES) + tail;
    assert ([first] + t)[1..] == t;
    RoundTrip(announced, tail);
  }

  lemma FrameThen(first: byte, announced: nat, body: seq<byte>, rest: seq<byte>)
    ensures Frame(first, announced, body) + rest == [first] + (Encode(announced, MAX_BYTES) + (body + rest))
  {
    Assoc([first], Encode(announced, MAX_BYTES) + body, rest);
    Assoc(Encode(announced, MAX_BYTES), body, rest);
  }

  lemma FrameRoundTrip(first: byte, body: seq<byte>, rest: seq<byte>)
    requires |body| < TWO_TO_28
    ensures TakeFrame(Frame(first, |body|, body) + rest) == Done((first, body), rest)
  {
    FrameThen(first, |body|, body, rest);
    TakeFrameOf(first, |body|, body + rest);
    assert (body + rest)[..|body|] == body;
    assert (body + rest)[|body|..] == rest;
  }

  /** A cut request: each string is cut to its length modulo 2^16, and there is a will exactly when both
      its strings were given. */
  lemma CutConnectMeans(c: Call)
    requires c.CallConnect?
    ensures var will :=
              if c.willTopic.None? || c.willPayload.None? then None
              else
                var (topic, message) := (c.willTopic.value, c.willPayload.value);
                Some(Will(topic[..|topic| % TWO_TO_16], message[..|message| % TWO_TO_16], c.willRetain, 0));
            Meaning(CutConnect(c)) == Connect(c.id[..|c.id| % TWO_TO_16], c.keepAlive, true, will, None, None)
  {
  }

  /** Every connect packet that is small enough to be sent is read as a connect with the cut strings,
      and nothing of what follows is touched. */
  lemma ConnectRoundTrip(c: Call, rest: seq<byte>)
    requires c.CallConnect? && c.keepAlive < TWO_TO_16 && |ConnectBody(c)| < TWO_TO_28
    ensures ParsePacket(Wire(c) + rest) == Done(Meaning(CutConnect(c)), rest)
  {
    ConnectBodyParses(c);
    FrameRoundTrip(0x10, ConnectBody(c), rest);
  }

  /** A connect request is read back as it was made exactly when none of its strings was cut. */
  lemma ConnectSurvivesIffFits(c: Call)
    requires c.CallConnect? && c.keepAlive < TWO_TO_16
    ensures Fits(c) <==> ParsePacket(Wire(c)) == Done(Meaning(c), [])
  {
    assert |ConnectBody(c)| < TWO_TO_28;
    ConnectRoundTrip(c, []);
    assert Wire(c) + [] == Wire(c);
    assert Meaning(CutConnect(c)) == Meaning(c) <==> Fits(c);
  }

  lemma PublishBodyParses(c: Call)
    requires c.CallPublish?
    ensures ParseBody(PublishByte(c.retain), PublishBody(c))
         == Some(Publish(Cut(c.topic), c.payload, 0, false, c.retain, 0))
  {
    TakeFieldOfField(c.topic, c.payload);
  }

  lemma PublishLengthIs(c: Call)
    requires c.CallPublish?
    ensures |PublishBody(c)| == 2 + |Cut(c.topic)| + |c.payload|
    ensures |PublishBody(c)| < TWO_TO_32 ==> PublishLength(c) == |PublishBody(c)|
    ensures |PublishBody(c)| >= TWO_TO_32 ==> PublishLength(c) < |PublishBody(c)|
  {
  }

  lemma PublishRoundTrip(c: Call, rest: seq<byte>)
    requires Fits(c) && c.CallPublish?
    ensures ParsePacket(Wire(c) + rest) == Done(Meaning(c), rest)
    ensures ParsePacket(Wire(c) + rest) == Done(Publish(c.topic, c.payload, 0, false, c.retain, 0), rest)
  {
    PublishBodyParses(c);
    PublishLengthIs(c);
    FrameRoundTrip(PublishByte(c.retain), PublishBody(c), rest);
  }

  lemma DisconnectRoundTrip(rest: seq<byte>)
    ensures ParsePacket(Wire(CallDisconnect) + rest) == Done(Disconnect, rest)
  {
    FrameRoundTrip(0xE0, [], rest);
    assert Frame(0xE0, 0, []) == [0xE0, 0x00];
  }

  /** The broker reads back exactly what was asked for whenever the request fits. */
  lemma PacketRoundTrip(c: Call, rest: seq<byte>)
    requires Fits(c)
    requires c.CallConnect? ==> c.keepAlive < TWO_TO_16
    ensures ParsePacket(Wire(c) + rest) == Done(Meaning(c), rest)
  {
    match c {
      case CallConnect(_, _, _, _, _) =>
        ConnectRoundTrip(c, rest);
        assert Meaning(CutConnect(c)) == Meaning(c);
      case CallPublish(_, _, _) => PublishRoundTrip(c, rest);
      case CallDisconnect => DisconnectRoundTrip(rest);
    }
  }

  lemma ShortTopic(first: byte, body: seq<byte>)
    ensures ParseBody(first, body).Some? && ParseBody(first, body).value.Publish? ==>
              |ParseBody(first, body).value.topic| < TWO_TO_16
  {
  }

  lemma PublishTooLarge(c: Call)
    requires c.CallPublish? && !Fits(c)
    ensures ParsePacket(Wire(c)) != Done(Meaning(c), [])
  {
    var first, body, rem := PublishByte(c.retain), PublishBody(c), PublishLength(c);
    PublishLengthIs(c);
    TakeFrameOf(first, rem, body);
    if rem < TWO_TO_28 {
      ShortTopic(first, body[..rem]);
      assert rem < |body| ==> body[rem..] != [];
    }
  }

  /** A topic or payload too large for its length fields is never read back, so a publish request
      survives exactly when it fits. */
  lemma PublishSurvivesIffFits(c: Call)
    requires c.CallPublish?
    ensures Fits(c) <==> ParsePacket(Wire(c)) == Done(Meaning(c), [])
  {
    PublishLengthIs(c);
    if Fits(c) {
      PublishRoundTrip(c, []);
      assert Wire(c) + [] == Wire(c);
    } else {
      PublishTooLarge(c);
    }
  }

  lemma PrefixOfFrame(first: byte, body: seq<byte>, k: nat)
    requires |body| < TWO_TO_28 && k < |Frame(first, |body|, body)|
    ensures TakeFrame(Frame(first, |body|, body)[..k]) == Incomplete
  {
    var len := Encode(|body|, MAX_BYTES);
    var p := Frame(first, |body|, body)[..k];
    if k == 0 {
    } else if k - 1 < |len| {
      assert p[1..] == len[..k - 1];
      PrefixIsIncomplete(|body|, MAX_BYTES, k - 1);
    } else {
      assert p == [first] + (len + body[..k - 1 - |len|]);
      TakeFrameOf(first, |body|, body[..k - 1 - |len|]);
    }
  }

  /** A packet that has not been written to its end keeps the broker waiting. */
  lemma PrefixKeepsWaiting(c: Call, k: nat)
    requires Fits(c) && k < |Wire(c)|
    ensures ParsePacket(Wire(c)[..k]) == Incomplete
  {
    match c {
      case CallConnect(_, _, _, _, _) => PrefixOfFrame(0x10, ConnectBody(c), k);
      case CallPublish(_, _, retain) =>
        PublishLengthIs(c);
        PrefixOfFrame(PublishByte(retain), PublishBody(c), k);
      case CallDisconnect =>
        PrefixOfFrame(0xE0, [], k);
        assert Frame(0xE0, 0, []) == [0xE0, 0x00];
    }
  }

  // ---- Whole sessions -------------------------------------------------------------------------

  ghost predicate AllFit(calls: seq<Call>) {
    forall c :: c in calls ==> Fits(c) && (c.CallConnect? ==> c.keepAlive < TWO_TO_16)
  }

  function WireAll(calls: seq<Call>): seq<byte> {
    if calls == [] then [] else Wire(calls[0]) + WireAll(calls[1..])
  }

  function Meanings(calls: seq<Call>): seq<Packet> {
    if calls == [] then [] else [Meaning(calls[0])] + Meanings(calls[1..])
  }

  lemma {:induction false} WireAllSnoc(calls: seq<Call>, c: Call)
    ensures WireAll(calls + [c]) == WireAll(calls) + Wire(c)
  {
    if calls == [] {
      assert ([] + [c])[1..] == [];
    } else {
      assert (calls + [c])[1..] == calls[1..] + [c];
      WireAllSnoc(calls[1..], c);
    }
  }

  lemma StreamStep(s: seq<byte>, p: Packet, rest: seq<byte>, ps: seq<Packet>, left: seq<byte>)
    requires ParsePacket(s) == Done(p, rest) && ParseStream(rest) == Some((ps, left))
    ensures ParseStream(s) == Some(([p] + ps, left))
  {
  }

  /** Whatever the client has been asked, and wherever in the next packet it stopped, the broker
      recovers the completed requests, in order, and holds exactly the unfinished bytes. */
  lemma {:induction false} SessionRoundTrip(calls: seq<Call>, next: Call, k: nat)
    requires AllFit(calls) && Fits(next) && k < |Wire(next)|
    ensures ParseStream(WireAll(calls) + Wire(next)[..k]) == Some((Meanings(calls), Wire(next)[..k]))
    decreases |calls|
  {
    var tail := Wire(next)[..k];
    if calls == [] {
      assert WireAll(calls) + tail == tail;
      PrefixKeepsWaiting(next, k);
    } else {
      var rest := WireAll(calls[1..]) + tail;
      var s := WireAll(calls) + tail;
      Assoc(Wire(calls[0]), WireAll(calls[1..]), tail);
      PacketRoundTrip(calls[0], rest);
      SessionRoundTrip(calls[1..], next, k);
      StreamStep(s, Meaning(calls[0]), rest, Meanings(calls[1..]), tail);
    }
  }
}
