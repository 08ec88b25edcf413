/** The variable-length "remaining length" field of MQTT 3.1.1 (section 2.2.3). */
module RemainingLength {
  import opened Common

  /** Values from here on do not fit the field. */
  const TWO_TO_28: nat := 0x1000_0000

  /** The field takes at most four bytes. */
  const MAX_BYTES: nat := 4

  datatype Parsed<+T> = Done(value: T, rest: seq<byte>) | Incomplete | Malformed

  /** What `encode_remlen` writes when `room` bytes may still be used. */
  function Encode(v: nat, room: nat): (s: seq<byte>)
    ensures 1 <= |s| && (room > 0 ==> |s| <= room)
    decreases room
  {
    if v < 128 then [v]
    else if room <= 1 then [v % 128 + 128]
    else [v % 128 + 128] + Encode(v / 128, room - 1)
  }

  /** The decoder of section 2.2.3: low seven bits first, at most `room` bytes. */
  function Decode(s: seq<byte>, room: nat): (r: Parsed<nat>)
    ensures r.Done? ==> |r.rest| < |s| && r.rest == s[|s| - |r.rest|..]
    decreases room
  {
    if room == 0 then Malformed
    else if s == [] then Incomplete
    else if s[0] < 128 then Done(s[0], s[1..])
    else match Decode(s[1..], room - 1)
         case Done(v, rest) => Done(s[0] - 128 + 128 * v, rest)
         case Incomplete => Incomplete
         case Malformed => Malformed
  }

  /** The largest value plus one that `room` bytes can hold. */
  function Capacity(room: nat): (c: nat)
    ensures c > 0
  {
    if room == 0 then 1 else 128 * Capacity(room - 1)
  }

  /** Taking seven bits off a value takes one byte off the room that it needs. */
  lemma CapacityStep(v: nat, room: nat)
    requires room > 0
    ensures v < Capacity(room) <==> v / 128 < Capacity(room - 1)
  {
  }

  lemma SevenBits(v: nat)
    ensures v % 128 + 128 * (v / 128) == v
  {
  }

  /** The decoder on a byte and what follows it. */
  lemma DecodeStep(b: byte, tail: seq<byte>, room: nat)
    requires room > 0
    ensures Decode([b] + tail, room) ==
              if b < 128 then Done(b, tail)
              else match Decode(tail, room - 1)
                   case Done(v, rest) => Done(b - 128 + 128 * v, rest)
                   case Incomplete => Incomplete
                   case Malformed => Malformed
  {
    assert ([b] + tail)[1..] == tail;
  }

  lemma EncodeOne(v: nat, room: nat)
    requires room > 0 && (v < 128 || room == 1)
    ensures Encode(v, room) == [if v < 128 then v else v % 128 + 128]
  {
  }

  lemma EncodeMore(v: nat, room: nat)
    requires room > 1 && v >= 128
    ensures Encode(v, room) == [v % 128 + 128] + Encode(v / 128, room - 1)
  {
  }

  lemma NoRoom(s: seq<byte>)
    ensures Decode(s, 0) == Malformed && Capacity(0) == 1
  {
  }

  lemma {:induction false} RoundTripIn(v: nat, room: nat, rest: seq<byte>)
    requires room > 0
    ensures Decode(Encode(v, room) + rest, room) == if v < Capacity(room) then Done(v, rest) else Malformed
    decreases room
  {
    hide Decode, Encode, Capacity;
    CapacityStep(v, room);
    if v < 128 {
      EncodeOne(v, room);
      DecodeStep(v, rest, room);
    } else if room == 1 {
      NoRoom(rest);
      EncodeOne(v, room);
      DecodeStep(v % 128 + 128, rest, room);
    } else {
      var tail := Encode(v / 128, room - 1);
      RoundTripIn(v / 128, room - 1, rest);
      EncodeMore(v, room);
      Assoc([v % 128 + 128], tail, rest);
      DecodeStep(v % 128 + 128, tail + rest, room);
      SevenBits(v);
    }
  }

  lemma CapacityOfFour()
    ensures Capacity(4) == TWO_TO_28
  {
    assert Capacity(2) == 128 * Capacity(1) && Capacity(1) == 128 * Capacity(0);
    assert Capacity(4) == 128 * Capacity(3) && Capacity(3) == 128 * Capacity(2);
  }

  /** Decoding what the device encodes gives the value back, and leaves what follows alone, exactly
      for the values below 2^28; any larger value is refused. */
  lemma RoundTrip(v: nat, rest: seq<byte>)
    ensures v < TWO_TO_28 <==> Decode(Encode(v, MAX_BYTES) + rest, MAX_BYTES) == Done(v, rest)
    ensures v >= TWO_TO_28 <==> Decode(Encode(v, MAX_BYTES) + rest, MAX_BYTES) == Malformed
  {
    CapacityOfFour();
    RoundTripIn(v, 4, rest);
  }

  /** The bounds of the table in section 2.2.3. */
  lemma StandardTable()
    ensures Encode(0, MAX_BYTES) == [0x00] && Encode(127, MAX_BYTES) == [0x7F]
    ensures Encode(128, MAX_BYTES) == [0x80, 0x01] && Encode(16_383, MAX_BYTES) == [0xFF, 0x7F]
    ensures Encode(16_384, MAX_BYTES) == [0x80, 0x80, 0x01] && Encode(2_097_151, MAX_BYTES) == [0xFF, 0xFF, 0x7F]
    ensures Encode(2_097_152, MAX_BYTES) == [0x80, 0x80, 0x80, 0x01]
    ensures Encode(268_435_455, MAX_BYTES) == [0xFF, 0xFF, 0xFF, 0x7F]
  {
  }

  /** No other byte string that decodes to `v` is shorter than the one the device writes. */
  lemma {:induction false} EncodeIsShortest(v: nat, room: nat, s: seq<byte>)
    requires Decode(s, room).Done? && Decode(s, room).value == v
    ensures |Encode(v, room)| <= |s| - |Decode(s, room).rest|
    decreases room
  {
    if v >= 128 {
      assert s[0] >= 128;
      var w := Decode(s[1..], room - 1).value;
      assert v / 128 == w;
      EncodeIsShortest(w, room - 1, s[1..]);
    }
  }

  /** Every strict prefix of an encoding leaves the decoder asking for more. */
  lemma {:induction false} PrefixIsIncomplete(v: nat, room: nat, k: nat)
    requires k < |Encode(v, room)| && room > 0
    ensures Decode(Encode(v, room)[..k], room) == Incomplete
    decreases room
  {
    if k > 0 {
      PrefixIsIncomplete(v / 128, room - 1, k - 1);
      assert Encode(v, room)[..k][1..] == Encode(v / 128, room - 1)[..k - 1];
    }
  }

  /** The byte that one round of the encoder's loop writes */
  function Digit(v: nat): byte {
    if v / 128 != 0 then v % 128 + 128 else v % 128
  }

  /** One round of the encoder's loop: the byte it writes, and what is left to write. */
  lemma EncodeStep(v: nat, room: nat, out: seq<byte>)
    requires room > 0
    ensures out + Encode(v, room) ==
              if v / 128 == 0 || room == 1 then out + [Digit(v)] else (out + [Digit(v)]) + Encode(v / 128, room - 1)
  {
  }

  /** Stores behind what has been written. */
  method Append(buf: array<byte>, k: nat, b: byte, ghost written: seq<byte>)
    requires k < buf.Length && buf[..k] == written
    modifies buf
    ensures buf[..k + 1] == written + [b]
  {
    buf[k] := b;
  }

  /** `encode_remlen` on a buffer position */
  method EncodeInto(buf: array<byte>, off: nat, v: nat) returns (n: nat)
    requires off + 4 <= buf.Length
    modifies buf
    ensures n == |Encode(v, MAX_BYTES)|
    ensures buf[..off + n] == old(buf[..off]) + Encode(v, MAX_BYTES)
  {
    hide Encode, Digit;
    var val := v;
    n := 0;
    ghost var target := buf[..off] + Encode(v, MAX_BYTES);
    while true
      invariant 0 <= n < 4
      invariant buf[..off + n] + Encode(val, 4 - n) == target
      decreases 4 - n
    {
      EncodeStep(val, 4 - n, buf[..off + n]);
      Append(buf, off + n, Digit(val), buf[..off + n]);
      val := val / 128;
      n := n + 1;
      if val == 0 || n >= 4 {
        break;
      }
    }
  }
}
