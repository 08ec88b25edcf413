/** Reading the broker's answer to CONNECT (MQTT 3.1.1, section 3.2). */
module Connack {
  import opened Common
  import opened RemainingLength
  import opened Stream

  const PKT_CONNACK: byte := 0x20
  const DRAIN_CHUNK: nat := 32

  datatype Verdict = Accepted | Refused(code: byte) | BadPacket

  // ---- What the device does, one read after the other -----------------------------------------

  /** `recv_byte` */
  function RecvByte(inbox: Inbox): (Option<byte>, Inbox) {
    var (got, next) := Receive(inbox, 1);
    (if got.Some? then Some(got.value[0]) else None, next)
  }

  /** `recv_remlen` when `room` bytes may still be used: the last of them ends the field whatever its
      top bit says. */
  function RecvRemLen(inbox: Inbox, room: nat): (r: (Option<nat>, Inbox))
    requires room > 0
    ensures r.0.Some? ==> r.0.value < Capacity(room)
    decreases room
  {
    var (b, next) := RecvByte(inbox);
    if b.None? then (None, next)
    else if b.value < 128 || room == 1 then
      assert Capacity(1) == 128 * Capacity(0);
      (Some(b.value % 128), next)
    else
      var (v, last) := RecvRemLen(next, room - 1);
      (if v.Some? then Some(b.value % 128 + 128 * v.value) else None, last)
  }

  /** `drain` */
  function Drain(inbox: Inbox, n: nat): (bool, Inbox)
    decreases n
  {
    if n == 0 then (true, inbox) else
      var (got, next) := Receive(inbox, Min(n, DRAIN_CHUNK));
      if got.None? then (false, next) else Drain(next, n - |got.value|)
  }

  /** The payload of a CONNACK of `n` bytes: two in one read, the others thrown away. */
  function RecvPayload(inbox: Inbox, n: nat): (Verdict, Inbox)
    requires n >= 2
  {
    var (body, next) := Receive(inbox, 2);
    if body.None? || |body.value| != 2 then (BadPacket, next) else
      var (drained, last) := Drain(next, n - 2);
      if !drained then (BadPacket, last)
      else if body.value[1] != 0 then (Refused(body.value[1]), last)
      else (Accepted, last)
  }

  /** The reading half of `mqtt_connect_internal`. */
  function RecvConnack(inbox: Inbox): (Verdict, Inbox) {
    var (first, i1) := RecvByte(inbox);
    if first != Some(PKT_CONNACK) then (BadPacket, i1) else
      var (len, i2) := RecvRemLen(i1, MAX_BYTES);
      if len.None? || len.value < 2 then (BadPacket, i2) else RecvPayload(i2, len.value)
  }

  // ---- The packet as the standard has it ------------------------------------------------------

  /** The return code of the CONNACK packet at the head of a stream, and what follows the packet: its
      type, a length field, and as many bytes as that says, the second of which is the code. */
  function ParseConnack(s: seq<byte>): Option<(byte, seq<byte>)> {
    if s == [] || s[0] != 0x20 then None else
      match Decode(s[1..], MAX_BYTES)
      case Done(n, rest) => if 2 <= n <= |rest| then Some((rest[1], rest[n..])) else None
      case Incomplete => None
      case Malformed => None
  }

  /** The length decoder of a reader that does not look at the top bit of the last byte. */
  function LenientDecode(s: seq<byte>, room: nat): (r: Option<(nat, seq<byte>)>)
    requires room > 0
    decreases room
  {
    if s == [] then None
    else if s[0] < 128 || room == 1 then Some((s[0] % 128, s[1..]))
    else match LenientDecode(s[1..], room - 1)
         case None => None
         case Some((v, rest)) => Some((s[0] % 128 + 128 * v, rest))
  }

  function ParseLenientConnack(s: seq<byte>): Option<(byte, seq<byte>)> {
    if s == [] || s[0] != 0x20 then None else
      match LenientDecode(s[1..], MAX_BYTES)
      case Some((n, rest)) => if 2 <= n <= |rest| then Some((rest[1], rest[n..])) else None
      case None => None
  }

  /** A field whose first `room` bytes all announce another one. */
  ghost predicate RunsOn(s: seq<byte>, room: nat) {
    |s| >= room && forall i :: 0 <= i < room ==> s[i] >= 128
  }

  lemma RunsOnStep(s: seq<byte>, room: nat)
    requires room > 0
    ensures RunsOn(s, room) <==> s != [] && s[0] >= 128 && RunsOn(s[1..], room - 1)
  {
    if s != [] && s[0] >= 128 && RunsOn(s[1..], room - 1) {
      assert forall i :: 0 < i < room ==> s[i] == s[1..][i - 1];
    }
  }

  /** The two decoders, one byte further on. */
  lemma LenientStep(s: seq<byte>, room: nat)
    requires room > 0 && s != [] && s[0] >= 128
    ensures Decode(s, room) == match Decode(s[1..], room - 1)
                               case Done(v, rest) => Done(s[0] - 128 + 128 * v, rest)
                               case Incomplete => Incomplete
                               case Malformed => Malformed
    ensures LenientDecode(s, room) ==
              if room == 1 then Some((s[0] - 128, s[1..]))
              else match LenientDecode(s[1..], room - 1)
                   case None => None
                   case Some((v, rest)) => Some((s[0] - 128 + 128 * v, rest))
  {
  }

  lemma LenientEnd(s: seq<byte>, room: nat)
    requires room > 0 && (s == [] || s[0] < 128)
    ensures Decode(s, room) == if s == [] then Incomplete else Done(s[0], s[1..])
    ensures LenientDecode(s, room) == if s == [] then None else Some((s[0], s[1..]))
  {
  }

  lemma NothingRunsOn(s: seq<byte>)
    ensures RunsOn(s, 0)
  {
  }

  /** The device's length decoder gives the standard's answer except on the malformed fields, whose
      last allowed byte announces another one: it accepts them. */
  lemma {:induction false} LenientIffStandard(s: seq<byte>, room: nat)
    requires room > 0
    ensures Decode(s, room).Done? ==> LenientDecode(s, room) == Some((Decode(s, room).value, Decode(s, room).rest))
    ensures Decode(s, room).Incomplete? ==> LenientDecode(s, room) == None
    ensures Decode(s, room).Malformed? ==> LenientDecode(s, room).Some?
    ensures Decode(s, room).Malformed? <==> RunsOn(s, room)
    decreases room
  {
    hide Decode, LenientDecode, RunsOn;
    RunsOnStep(s, room);
    if s == [] || s[0] < 128 {
      LenientEnd(s, room);
    } else {
      LenientStep(s, room);
      if room > 1 {
        LenientIffStandard(s[1..], room - 1);
      } else {
        NoRoom(s[1..]);
        NothingRunsOn(s[1..]);
      }
    }
  }

  /** A field that the standard refuses and the device reads as 0. */
  lemma FourContinuations()
    ensures var s: seq<byte> := [0x80, 0x80, 0x80, 0x80];
            Decode(s, MAX_BYTES) == Malformed && LenientDecode(s, MAX_BYTES) == Some((0, []))
  {
    var s: seq<byte> := [0x80, 0x80, 0x80, 0x80];
    assert s[1..] == [0x80, 0x80, 0x80] && s[1..][1..] == [0x80, 0x80] && s[1..][1..][1..] == [0x80];
    assert s[1..][1..][1..][1..] == [];
    LenientIffStandard(s, MAX_BYTES);
    LenientStep(s, 4);
    LenientStep(s[1..], 3);
    LenientStep(s[1..][1..], 2);
    LenientStep(s[1..][1..][1..], 1);
  }

  /** Hence the device recognises every CONNACK, and something else only behind a malformed length. */
  lemma LenientRecognisesConnack(s: seq<byte>)
    ensures ParseConnack(s) == ParseLenientConnack(s) || (s != [] && Decode(s[1..], MAX_BYTES).Malformed?)
  {
    if s != [] {
      LenientIffStandard(s[1..], MAX_BYTES);
    }
  }

  // ---- Consumption ----------------------------------------------------------------------------

  /** A length field that was read is the one at the head of the stream. */
  lemma {:induction false} RemLenConsumes(inbox: Inbox, room: nat)
    requires room > 0 && RecvRemLen(inbox, room).0.Some?
    ensures var (len, next) := RecvRemLen(inbox, room);
            LenientDecode(inbox.bytes, room) == Some((len.value, next.bytes))
    decreases room
  {
    var (b, next) := RecvByte(inbox);
    assert next.bytes == inbox.bytes[1..] && b.value == inbox.bytes[0];
    if b.value >= 128 && room > 1 {
      RemLenConsumes(next, room - 1);
    }
  }

  /** The error value `(uint32_t)-1` is never a decoded length. */
  lemma SentinelIsNotALength(inbox: Inbox)
    ensures RecvRemLen(inbox, MAX_BYTES).0 != Some(TWO_TO_32 - 1)
  {
    assert Capacity(2) == 128 * Capacity(1) && Capacity(1) == 128 * Capacity(0);
    assert Capacity(4) == 128 * Capacity(3) && Capacity(3) == 128 * Capacity(2);
  }

  lemma {:induction false} DrainConsumes(inbox: Inbox, n: nat)
    requires Drain(inbox, n).0
    ensures n <= |inbox.bytes| && Drain(inbox, n).1.bytes == inbox.bytes[n..]
    decreases n
  {
    if n > 0 {
      var (got, next) := Receive(inbox, Min(n, DRAIN_CHUNK));
      var k := |got.value|;
      DrainConsumes(next, n - k);
      assert next.bytes == inbox.bytes[k..];
      assert inbox.bytes[k..][n - k..] == inbox.bytes[n..];
    }
  }

  /** An answer that is understood has taken exactly one CONNACK packet off the stream, extra payload
      included, and its return code is the verdict. */
  lemma ConnackConsumesOnePacket(inbox: Inbox)
    ensures var (verdict, next) := RecvConnack(inbox);
            !verdict.BadPacket? ==>
              ParseLenientConnack(inbox.bytes) == Some((if verdict.Accepted? then 0 else verdict.code, next.bytes))
  {
    if !RecvConnack(inbox).0.BadPacket? {
      var i1 := RecvByte(inbox).1;
      var (len, i2) := RecvRemLen(i1, MAX_BYTES);
      var (body, i3) := Receive(i2, 2);
      RemLenConsumes(i1, MAX_BYTES);
      DrainConsumes(i3, len.value - 2);
      assert i1.bytes == inbox.bytes[1..];
      assert i3.bytes == i2.bytes[2..];
      assert i3.bytes[len.value - 2..] == i2.bytes[len.value..];
    }
  }

  // ---- Completeness ---------------------------------------------------------------------------

  function Skip(plan: List<nat>, k: nat): List<nat> {
    if k == 0 || plan.Nil? then plan else Skip(plan.tail, k - 1)
  }

  lemma {:induction false} RemLenArrives(inbox: Inbox, room: nat)
    requires room > 0 && Steady(inbox.readPlan, room) && LenientDecode(inbox.bytes, room).Some?
    ensures var (len, next) := RecvRemLen(inbox, room);
            var (v, rest) := LenientDecode(inbox.bytes, room).value;
            && |rest| < |inbox.bytes|
            && len == Some(v)
            && next == Inbox(rest, Skip(inbox.readPlan, |inbox.bytes| - |rest|))
    decreases room
  {
    var (b, next) := RecvByte(inbox);
    assert next.bytes == inbox.bytes[1..] && b == Some(inbox.bytes[0]);
    if b.value >= 128 && room > 1 {
      RemLenArrives(next, room - 1);
    }
  }

  lemma {:induction false} DrainArrives(inbox: Inbox, n: nat)
    requires Steady(inbox.readPlan, n) && n <= |inbox.bytes|
    ensures Drain(inbox, n).0
    decreases n
  {
    if n > 0 {
      var (got, next) := Receive(inbox, Min(n, DRAIN_CHUNK));
      SteadyFor(inbox.readPlan.tail, n - 1, n - |got.value|);
      DrainArrives(next, n - |got.value|);
    }
  }

  lemma {:induction false} SteadySkip(plan: List<nat>, k: nat, n: nat)
    requires Steady(plan, k + n)
    ensures Steady(Skip(plan, k), n)
  {
    if k > 0 {
      SteadySkip(plan.tail, k - 1, n);
    }
  }

  lemma PayloadUnderstoodIffUnsplit(inbox: Inbox, n: nat)
    requires 2 <= n <= |inbox.bytes| && Steady(inbox.readPlan, n)
    ensures RecvPayload(inbox, n).0 ==
              if inbox.readPlan.head < 2 then BadPacket
              else if inbox.bytes[1] == 0 then Accepted else Refused(inbox.bytes[1])
  {
    var (body, next) := Receive(inbox, 2);
    if inbox.readPlan.head >= 2 {
      assert body == Some(inbox.bytes[..2]);
      SteadyFor(next.readPlan, n - 1, n - 2);
      DrainArrives(next, n - 2);
    }
  }

  lemma HeaderArrives(inbox: Inbox, room: nat, n: nat, rest: seq<byte>)
    requires 0 < room <= 4 && inbox.bytes != []
    requires Decode(inbox.bytes[1..], room) == Done(n, rest)
    requires Steady(inbox.readPlan, |inbox.bytes| + 5)
    ensures RecvByte(inbox).0 == Some(inbox.bytes[0])
    ensures RecvRemLen(RecvByte(inbox).1, room)
         == (Some(n), Inbox(rest, Skip(inbox.readPlan, |inbox.bytes| - |rest|)))
  {
    hide Decode, LenientDecode, RecvRemLen, RunsOn;
    var i1 := RecvByte(inbox).1;
    assert i1.bytes == inbox.bytes[1..];
    LenientIffStandard(i1.bytes, room);
    SteadyFor(i1.readPlan, |inbox.bytes| + 4, room);
    RemLenArrives(i1, room);
  }

  lemma PlanReachesPayload(plan: List<nat>, header: nat, left: nat, n: nat)
    requires Steady(plan, header + left + 5) && 0 < n <= left
    ensures Skip(plan, header).Cons? && Steady(Skip(plan, header), n)
  {
    SteadySkip(plan, header, left + 5);
    SteadyFor(Skip(plan, header), left + 5, n);
  }

  /** On a stream that never fails, a CONNACK (of `n` bytes after its length field) is understood
      exactly when the two bytes after the length field come out of the same read: the device asks
      for both at once and does not ask again. The plain transport always returns both; a TLS record
      boundary may part them. */
  lemma ConnackUnderstoodIffUnsplit(inbox: Inbox, n: nat, rest: seq<byte>)
    requires inbox.bytes != [] && inbox.bytes[0] == PKT_CONNACK
    requires Decode(inbox.bytes[1..], MAX_BYTES) == Done(n, rest) && 2 <= n <= |rest|
    requires Steady(inbox.readPlan, |inbox.bytes| + 5)
    ensures var atPayload := Skip(inbox.readPlan, |inbox.bytes| - |rest|);
            && atPayload.Cons?
            && RecvConnack(inbox).0 ==
                 if atPayload.head < 2 then BadPacket
                 else if rest[1] == 0 then Accepted else Refused(rest[1])
  {
    HeaderArrives(inbox, MAX_BYTES, n, rest);
    PlanReachesPayload(inbox.readPlan, |inbox.bytes| - |rest|, |rest|, n);
    PayloadUnderstoodIffUnsplit(Inbox(rest, Skip(inbox.readPlan, |inbox.bytes| - |rest|)), n);
  }
}
