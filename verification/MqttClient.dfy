/** The MQTT client: `mqtt_connect_internal`, `mqtt_publish_qos0` and `mqtt_disconnect`. */
module MqttClient {
  import opened Common
  import opened RemainingLength
  import opened Stream
  import opened Connack
  import opened BrokerParser
  import opened ClientPackets

  const TLS_ATTEMPT_ERR_MQTT_SEND: int := -1101
  const TLS_ATTEMPT_ERR_MQTT_PACKET: int := -1102
  const PKT_CAP: nat := 256
  const REMLEN_ERROR: nat := TWO_TO_32 - 1

  /** `memcpy(buf + pos, src, |src|); pos += |src|` */
  method Put(buf: array<byte>, pos: nat, src: seq<byte>) returns (next: nat)
    requires pos + |src| <= buf.Length
    modifies buf
    ensures next == pos + |src|
    ensures buf[..next] == old(buf[..pos]) + src
  {
    forall i | 0 <= i < |src| {
      buf[pos + i] := src[i];
    }
    next := pos + |src|;
    assert buf[pos..next] == src;
  }

  // ---- Receiving ------------------------------------------------------------------------------

  /** `recv_byte` */
  method ReceiveByte(conn: Conn) returns (ok: bool, b: byte)
    modifies conn`incoming, conn`readPlan
    ensures var (got, next) := RecvByte(old(conn.In()));
            conn.In() == next && ok == got.Some? && (ok ==> b == got.value)
  {
    var out := new byte[1];
    var n := conn.Read(out, 1);
    assert n == 1 ==> out[..1][0] == out[0];
    return n == 1, out[0];
  }

  /** A length of which `val` is known and the rest is still to be multiplied by `shifted` */
  function Scaled(val: nat, shifted: nat, got: (Option<nat>, Inbox)): (Option<nat>, Inbox) {
    (if got.0.None? then None else Some(val + shifted * got.0.value), got.1)
  }

  lemma ShiftSum(val: nat, shifted: nat, low: nat, high: nat)
    ensures val + shifted * (low + 128 * high) == (val + shifted * low) + (shifted * 128) * high
  {
  }

  /** One round of the loop, on the value read so far. */
  lemma RemLenStep(inbox: Inbox, room: nat, val: nat, shifted: nat)
    requires room > 0
    ensures var (b, next) := RecvByte(inbox);
            var all := Scaled(val, shifted, RecvRemLen(inbox, room));
            if b.None? then all == (None, next)
            else
              var more := val + shifted * (b.value % 128);
              if b.value < 128 || room == 1 then all == (Some(more), next)
              else all == Scaled(more, shifted * 128, RecvRemLen(next, room - 1))
  {
    var (b, next) := RecvByte(inbox);
    if b.Some? && b.value >= 128 && room > 1 {
      var rest := RecvRemLen(next, room - 1);
      if rest.0.Some? {
        ShiftSum(val, shifted, b.value % 128, rest.0.value);
      }
    }
  }

  /** `recv_remlen` */
  method ReceiveRemLen(conn: Conn) returns (len: nat)
    modifies conn`incoming, conn`readPlan
    ensures var (got, next) := RecvRemLen(old(conn.In()), MAX_BYTES);
            conn.In() == next && len == if got.Some? then got.value else REMLEN_ERROR
  {
    hide RecvRemLen;
    var val: nat, shifted: nat, room: nat := 0, 1, 4;
    ghost var all := RecvRemLen(conn.In(), MAX_BYTES);
    while true
      invariant 0 < room <= 4
      invariant all == Scaled(val, shifted, RecvRemLen(conn.In(), room))
      decreases room
    {
      ghost var before := conn.In();
      var ok, b := ReceiveByte(conn);
      RemLenStep(before, room, val, shifted);
      if !ok {
        return REMLEN_ERROR;
      }
      val := val + shifted * (b % 128);
      shifted := shifted * 128;
      room := room - 1;
      if b < 128 || room == 0 {
        return val;
      }
    }
  }

  /** One read of the loop. */
  lemma DrainStep(inbox: Inbox, n: nat)
    ensures Drain(inbox, n) ==
              if n == 0 then (true, inbox)
              else
                var (got, next) := Receive(inbox, Min(n, DRAIN_CHUNK));
                if got.None? then (false, next) else Drain(next, n - |got.value|)
  {
  }

  /** `drain` */
  method DrainBytes(conn: Conn, count: nat) returns (ok: bool)
    modifies conn`incoming, conn`readPlan
    ensures var (drained, next) := Drain(old(conn.In()), count);
            conn.In() == next && ok == drained
  {
    hide Drain, Receive;
    var tmp := new byte[DRAIN_CHUNK];
    var n: nat := count;
    while n > 0
      invariant Drain(conn.In(), n) == Drain(old(conn.In()), count)
    {
      DrainStep(conn.In(), n);
      var got := conn.Read(tmp, Min(n, DRAIN_CHUNK));
      if got <= 0 {
        return false;
      }
      n := n - got;
    }
    DrainStep(conn.In(), 0);
    return true;
  }

  /** The error code for an answer: the broker's own return code when it refuses. */
  function ErrorOf(v: Verdict): int {
    match v
    case Accepted => 0
    case Refused(code) => code
    case BadPacket => TLS_ATTEMPT_ERR_MQTT_PACKET
  }

  /** The second half of `mqtt_connect_internal`. */
  method ReceiveConnack(conn: Conn) returns (ok: bool, error: int)
    modifies conn`incoming, conn`readPlan
    ensures var (verdict, next) := RecvConnack(old(conn.In()));
            && conn.In() == next
            && ok == verdict.Accepted?
            && error == match verdict
                        case Accepted => 0
                        case Refused(code) => code
                        case BadPacket => TLS_ATTEMPT_ERR_MQTT_PACKET
  {
    hide Drain, RecvRemLen;
    var first, kind := ReceiveByte(conn);
    if !first || kind != PKT_CONNACK {
      return false, TLS_ATTEMPT_ERR_MQTT_PACKET;
    }
    SentinelIsNotALength(conn.In());
    var len := ReceiveRemLen(conn);
    if len == REMLEN_ERROR || len < 2 {
      return false, TLS_ATTEMPT_ERR_MQTT_PACKET;
    }
    var connack := new byte[2];
    var got := conn.Read(connack, 2);
    if got != 2 {
      return false, TLS_ATTEMPT_ERR_MQTT_PACKET;
    }
    assert connack[..2][1] == connack[1];
    DrainStep(conn.In(), len - 2);
    if len > 2 {
      var drained := DrainBytes(conn, len - 2);
      if !drained {
        return false, TLS_ATTEMPT_ERR_MQTT_PACKET;
      }
    }
    if connack[1] != 0 {
      return false, connack[1];
    }
    return true, 0;
  }

  // ---- Building and sending packets -----------------------------------------------------------

  /** `10 + 2 + id_len`, and the will's fields */
  function ConnectRemLen(c: Call): nat
    requires c.CallConnect?
  {
    12 + |Cut(c.id)|
    + if HasWill(c) then 4 + |Cut(c.willTopic.value)| + |Cut(c.willPayload.value)| else 0
  }

  /** `out` went out before the send of `c` broke off. */
  ghost predicate CutShort(out: seq<byte>, c: Call) {
    |out| < |Wire(c)| && out == Wire(c)[..|out|]
  }

  /** `write_u16` of a length, then `memcpy` of that many bytes */
  method PutField(pkt: array<byte>, pos: nat, src: seq<byte>) returns (next: nat)
    requires pos + |Field(src)| <= pkt.Length
    modifies pkt
    ensures next == pos + |Field(src)|
    ensures pkt[..next] == old(pkt[..pos]) + Field(src)
  {
    var n := |src| % TWO_TO_16;
    next := Put(pkt, pos, U16(n));
    next := Put(pkt, next, src[..n]);
    Assoc(old(pkt[..pos]), U16(n), src[..n]);
  }

  method PutFixedHeader(pkt: array<byte>, remLen: nat) returns (pos: nat)
    requires pkt.Length >= 5
    modifies pkt
    ensures pos <= 5 && pkt[..pos] == [0x10] + Encode(remLen, MAX_BYTES)
  {
    pos := Put(pkt, 0, [0x10]);
    var n := EncodeInto(pkt, pos, remLen);
    pos := pos + n;
  }

  method PutVariableHeader(pkt: array<byte>, pos: nat, flags: byte, keepAlive: nat) returns (next: nat)
    requires pos + 10 <= pkt.Length && keepAlive < TWO_TO_16
    modifies pkt
    ensures next == pos + 10
    ensures pkt[..next] == old(pkt[..pos]) + ([0, 4, 77, 81, 84, 84, 4] + [flags] + U16(keepAlive))
  {
    next := Put(pkt, pos, [0, 4, 77, 81, 84, 84, 4]);
    next := Put(pkt, next, [flags]);
    next := Put(pkt, next, U16(keepAlive));
  }

  lemma ConnectBodySize(c: Call)
    requires c.CallConnect?
    ensures |ConnectBody(c)| == ConnectRemLen(c)
    ensures |WillFields(c)| + |Cut(c.id)| + 12 == ConnectRemLen(c)
  {
  }

  /** The lines of `mqtt_connect_internal` that fill `pkt`. */
  method BuildConnect(pkt: array<byte>, ghost c: Call, remLen: nat, id: seq<byte>, keepAlive: nat,
                      willTopic: Option<seq<byte>>, willPayload: Option<seq<byte>>, willRetain: bool)
    returns (pos: nat)
    requires pkt.Length == PKT_CAP && remLen <= PKT_CAP - 5 && keepAlive < TWO_TO_16
    requires c == CallConnect(id, keepAlive, willTopic, willPayload, willRetain)
    requires remLen == ConnectRemLen(c)
    modifies pkt
    ensures pos <= PKT_CAP && pkt[..pos] == Wire(c)
  {
    var hasWill := willTopic.Some? && willPayload.Some?;
    ConnectBodySize(c);
    pos := PutFixedHeader(pkt, remLen);
    ghost var head := pkt[..pos];
    var flags := 0x02;
    if hasWill {
      flags := flags + 0x04;
      if willRetain {
        flags := flags + 0x20;
      }
    }
    pos := PutVariableHeader(pkt, pos, flags, keepAlive);
    ghost var fixed := [0, 4, 77, 81, 84, 84, 4] + [ConnectFlags(c)] + U16(keepAlive);
    assert pkt[..pos] == head + fixed;
    pos := PutField(pkt, pos, id);
    ghost var out := pkt[..pos];
    assert out == head + (fixed + Field(id)) by {
      Assoc(head, fixed, Field(id));
    }
    if hasWill {
      pos := PutField(pkt, pos, willTopic.value);
      pos := PutField(pkt, pos, willPayload.value);
      Assoc(out, Field(willTopic.value), Field(willPayload.value));
    }
    assert pkt[..pos] == out + WillFields(c);
    Assoc(head, fixed + Field(id), WillFields(c));
    Assoc([0x10], Encode(remLen, MAX_BYTES), ConnectBody(c));
  }

  lemma TotalCons(a: nat, rest: seq<nat>)
    ensures Total([a] + rest) == a + Total(rest)
  {
    assert ([a] + rest)[1..] == rest;
  }

  lemma TotalFour(a: nat, b: nat, c: nat, d: nat)
    ensures Total([a, b, c, d]) == a + b + c + d
  {
    TotalCons(d, []);
    TotalCons(c, [d]);
    TotalCons(b, [c, d]);
    TotalCons(a, [b, c, d]);
    assert [d] + [] == [d] && [c] + [d] == [c, d] && [b] + [c, d] == [b, c, d];
    assert [a] + [b, c, d] == [a, b, c, d];
  }

  /** The pieces of a packet are the whole packet. */
  lemma PartsAre(c: Call)
    ensures Total(Parts(c)) == |Wire(c)|
  {
    match c {
      case CallConnect(_, _, _, _, _) =>
        TotalCons(|Wire(c)|, []);
        assert [|Wire(c)|] + [] == Parts(c);
      case CallPublish(topic, payload, _) =>
        TotalFour(1 + |Encode(PublishLength(c), MAX_BYTES)|, 2, |Cut(topic)|, |payload|);
      case CallDisconnect =>
        TotalCons(2, []);
        assert [2] + [] == Parts(c);
    }
  }

  lemma OnePart(a: nat, writes: List<nat>)
    ensures DeliverParts([a], writes) == Deliver(a, writes)
  {
    assert [a][1..] == [];
  }

  lemma FirstPart(a: nat, parts: seq<nat>, writes: List<nat>)
    ensures DeliverParts([a] + parts, writes) ==
              var (k, plan) := Deliver(a, writes);
              if k < a then (k, plan)
              else
                var (more, last) := DeliverParts(parts, plan);
                (k + more, last)
  {
    assert ([a] + parts)[1..] == parts;
  }

  /** One `send_all` of the part of `all` that starts at `at`; what comes before it is out already. */
  method SendNext(conn: Conn, part: seq<byte>, ghost start: seq<byte>, ghost all: seq<byte>, ghost at: nat)
    returns (ok: bool)
    requires at + |part| <= |all| && all[at..at + |part|] == part && conn.sent == start + all[..at]
    modifies conn`sent, conn`writePlan
    ensures var (k, plan) := Deliver(|part|, old(conn.writePlan));
            ok == (k == |part|) && conn.sent == start + all[..at + k] && conn.writePlan == plan
  {
    hide Deliver;
    ghost var k := Deliver(|part|, conn.writePlan).0;
    ok := conn.SendAll(part);
    Assoc(start, all[..at], part[..k]);
    assert all[..at] + part[..k] == all[..at + k];
  }

  lemma FourPieces(a: seq<byte>, b: seq<byte>, c: seq<byte>, d: seq<byte>, all: seq<byte>)
    requires all == a + (b + (c + d))
    ensures var i, j := |a| + |b|, |a| + |b| + |c|;
            all[..|a|] == a && all[|a|..i] == b && all[i..j] == c && all[j..j + |d|] == d && |all| == j + |d|
  {
  }

  /** The four `send_all` calls of a publish, each tried only if the one before it succeeded. */
  method SendPublish(conn: Conn, a: seq<byte>, b: seq<byte>, c: seq<byte>, d: seq<byte>) returns (ok: bool)
    modifies conn`sent, conn`writePlan
    ensures var (k, plan) := DeliverParts([|a|, |b|, |c|, |d|], old(conn.writePlan));
            && ok == (k == |a| + |b| + |c| + |d|) && k <= |a + (b + (c + d))|
            && conn.sent == old(conn.sent) + (a + (b + (c + d)))[..k] && conn.writePlan == plan
  {
    hide Deliver, DeliverParts;
    ghost var start, all := conn.sent, a + (b + (c + d));
    FourPieces(a, b, c, d, all);
    assert start + all[..0] == start;
    assert [|a|] + [|b|, |c|, |d|] == [|a|, |b|, |c|, |d|];
    assert [|b|] + [|c|, |d|] == [|b|, |c|, |d|] && [|c|] + [|d|] == [|c|, |d|];
    FirstPart(|a|, [|b|, |c|, |d|], conn.writePlan);
    ok := SendNext(conn, a, start, all, 0);
    if !ok {
      return false;
    }
    FirstPart(|b|, [|c|, |d|], conn.writePlan);
    ok := SendNext(conn, b, start, all, |a|);
    if !ok {
      return false;
    }
    FirstPart(|c|, [|d|], conn.writePlan);
    ok := SendNext(conn, c, start, all, |a| + |b|);
    if !ok {
      return false;
    }
    OnePart(|d|, conn.writePlan);
    ok := SendNext(conn, d, start, all, |a| + |b| + |c|);
  }

  // ---- The client -----------------------------------------------------------------------------

  lemma U16Size(v: nat)
    ensures |U16(v)| == 2
  {
  }

  /** A publish packet in the four pieces in which it is sent. */
  lemma PublishPieces(topic: seq<byte>, payload: seq<byte>, retain: bool, head: seq<byte>)
    requires head == [PublishByte(retain)] + Encode((2 + |topic| % TWO_TO_16 + |payload|) % TWO_TO_32, MAX_BYTES)
    ensures var c, n := CallPublish(topic, payload, retain), |topic| % TWO_TO_16;
            && Wire(c) == head + (U16(n) + (topic[..n] + payload))
            && Parts(c) == [|head|, |U16(n)|, |topic[..n]|, |payload|]
  {
    hide Encode, U16, PublishByte;
    var c, n := CallPublish(topic, payload, retain), |topic| % TWO_TO_16;
    U16Size(n);
    assert |Cut(topic)| == n;
    ghost var len := Encode(PublishLength(c), MAX_BYTES);
    Assoc(U16(n), topic[..n], payload);
    assert PublishBody(c) == U16(n) + (topic[..n] + payload);
    Assoc([PublishByte(retain)], len, PublishBody(c));
  }

  /** A client id that is cut: 65536 bytes pass the test against the 256-byte buffer, and the broker
      reads an empty id. */
  lemma LongIdPasses(id: seq<byte>, keepAlive: nat)
    requires |id| == TWO_TO_16 && keepAlive < TWO_TO_16
    ensures var c := CallConnect(id, keepAlive, None, None, false);
            && ConnectRemLen(c) <= PKT_CAP - 5
            && ParsePacket(Wire(c)) == Done(BrokerParser.Connect([], keepAlive, true, None, None, None), [])
  {
    var c := CallConnect(id, keepAlive, None, None, false);
    assert Cut(id) == [];
    ConnectRoundTrip(c, []);
    assert Wire(c) + [] == Wire(c);
  }

  class Client {
    var conn: Conn?
    /** The requests whose packets have been written in full. */
    ghost var log: seq<Call>

    /** What the broker has been sent is exactly the completed packets. */
    ghost predicate Framed()
      reads this, conn
    {
      conn != null && conn.sent == WireAll(log)
    }

    /** What the transport took of the packet of `c` is what it was willing to take, and the request is
        on record if and only if that is all of it. */
    ghost predicate Transmits(c: Call, logBefore: seq<Call>, sentBefore: seq<byte>, planBefore: List<nat>)
      requires conn != null
      reads this, conn
    {
      var (k, plan) := DeliverParts(Parts(c), planBefore);
      && k <= |Wire(c)| && conn.sent == sentBefore + Wire(c)[..k] && conn.writePlan == plan
      && log == (if k == |Wire(c)| then logBefore + [c] else logBefore)
      && (k == |Wire(c)| ==> Framed())
    }

    /** `mqtt_connect_internal`. Only the send and the answer can be cut short: a packet that does
        not fit the 256-byte buffer is refused before anything is sent. */
    method Connect(id: seq<byte>, keepAlive: nat, willTopic: Option<seq<byte>>,
                   willPayload: Option<seq<byte>>, willRetain: bool) returns (ok: bool, error: int)
      requires Framed() && keepAlive < TWO_TO_16
      modifies this`log, conn
      ensures conn == old(conn)
      ensures var c := CallConnect(id, keepAlive, willTopic, willPayload, willRetain);
              ConnectRemLen(c) > PKT_CAP - 5 ==>
                && !ok && error == TLS_ATTEMPT_ERR_MQTT_PACKET && log == old(log)
                && conn.sent == old(conn.sent) && conn.In() == old(conn.In()) && conn.writePlan == old(conn.writePlan)
      ensures var c := CallConnect(id, keepAlive, willTopic, willPayload, willRetain);
              ConnectRemLen(c) <= PKT_CAP - 5 ==> Transmits(c, old(log), old(conn.sent), old(conn.writePlan))
      ensures var c := CallConnect(id, keepAlive, willTopic, willPayload, willRetain);
              ConnectRemLen(c) <= PKT_CAP - 5 ==>
                if log == old(log) then !ok && error == TLS_ATTEMPT_ERR_MQTT_SEND && conn.In() == old(conn.In())
                else
                  var (verdict, next) := RecvConnack(old(conn.In()));
                  conn.In() == next && ok == verdict.Accepted? && error == ErrorOf(verdict)
    {
      hide Wire, WireAll, Deliver, RecvConnack;
      ghost var c := CallConnect(id, keepAlive, willTopic, willPayload, willRetain);
      var idLen := |id| % TWO_TO_16;
      var willTopicLen := if willTopic.Some? then |willTopic.value| % TWO_TO_16 else 0;
      var willMsgLen := if willPayload.Some? then |willPayload.value| % TWO_TO_16 else 0;
      var hasWill := willTopic.Some? && willPayload.Some?;
      var remLen := 10 + 2 + idLen;
      if hasWill {
        remLen := remLen + 2 + willTopicLen + 2 + willMsgLen;
      }
      if remLen > PKT_CAP - 5 {
        return false, TLS_ATTEMPT_ERR_MQTT_PACKET;
      }
      var pkt := new byte[PKT_CAP];
      var pos := BuildConnect(pkt, c, remLen, id, keepAlive, willTopic, willPayload, willRetain);
      WireAllSnoc(log, c);
      OnePart(|Wire(c)|, conn.writePlan);
      ghost var k := Deliver(|Wire(c)|, conn.writePlan).0;
      var sent := conn.SendAll(pkt[..pos]);
      if !sent {
        return false, TLS_ATTEMPT_ERR_MQTT_SEND;
      }
      assert Wire(c)[..k] == Wire(c);
      log := log + [c];
      ok, error := ReceiveConnack(conn);
    }

    /** `mqtt_publish_qos0` */
    method Publish(topic: seq<byte>, payload: seq<byte>, retain: bool) returns (ok: bool)
      requires Framed()
      modifies this`log, conn
      ensures conn == old(conn) && conn.In() == old(conn.In())
      ensures Transmits(CallPublish(topic, payload, retain), old(log), old(conn.sent), old(conn.writePlan))
      ensures ok <==> log != old(log)
    {
      hide Encode, WireAll, DeliverParts, Wire, Parts, U16;
      ghost var c := CallPublish(topic, payload, retain);
      var topicLen := |topic| % TWO_TO_16;
      var remLen := (2 + topicLen + |payload|) % TWO_TO_32;
      var hdr := new byte[5];
      hdr[0] := if retain then 0x31 else 0x30;
      var remLenBytes := EncodeInto(hdr, 1, remLen);
      var head := hdr[..1 + remLenBytes];
      assert hdr[..1] == [PublishByte(retain)];
      assert head == [PublishByte(retain)] + Encode(remLen, MAX_BYTES);
      PublishPieces(topic, payload, retain, head);
      ok := SendPublish(conn, head, U16(topicLen), topic[..topicLen], payload);
      WireAllSnoc(log, c);
      if ok {
        assert Wire(c)[..|Wire(c)|] == Wire(c);
        log := log + [c];
      }
    }

    /** `mqtt_disconnect`, whose caller does not learn whether the packet went out. */
    method Disconnect()
      requires Framed()
      modifies this, conn
      ensures conn == null
      ensures var (k, plan) := Deliver(2, old(conn.writePlan));
              && old(conn).sent == old(conn.sent) + Wire(CallDisconnect)[..k] && old(conn).writePlan == plan
              && log == (if k == 2 then old(log) + [CallDisconnect] else old(log))
    {
      hide Deliver;
      var packet := [0xE0, 0x00];
      assert packet == Wire(CallDisconnect);
      var sent := conn.SendAll(packet);
      if sent {
        log := log + [CallDisconnect];
      }
      conn := null;
    }
  }
}
