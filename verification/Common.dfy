/** Types and small facts shared by every module. */
module Common {

  /** `uint8_t`. Masks and shifts on it are written with `%` and `/`. */
  type byte = b: int | 0 <= b < 256

  const UINT16_MAX: nat := 0xFFFF
  const TWO_TO_16: nat := 0x1_0000
  const TWO_TO_32: nat := 0x1_0000_0000

  datatype Option<+T> = None | Some(value: T)

  /** A linked list, for schedules that are consumed one entry at a time. */
  datatype List<T> = Nil | Cons(head: T, tail: List<T>)

  function Min(a: int, b: int): int {
    if a < b then a else b
  }

  function Max(a: int, b: int): int {
    if a < b then b else a
  }

  /** The 16-bit number with the given high and low bytes. */
  function Join16(hi: int, lo: int): int {
    256 * hi + lo
  }

  /** The big-endian value of a byte string. */
  function BigEndian(s: seq<byte>): nat {
    if s == [] then 0 else BigEndian(s[..|s|-1]) * 256 + s[|s|-1]
  }

  /** The concatenation of a sequence of sequences. */
  function Flatten<T>(ss: seq<seq<T>>): seq<T> {
    if ss == [] then [] else ss[0] + Flatten(ss[1..])
  }

  lemma Assoc<T>(a: seq<T>, b: seq<T>, c: seq<T>)
    ensures (a + b) + c == a + (b + c)
  {
  }

  lemma {:induction false} FlattenConcat<T>(a: seq<seq<T>>, b: seq<seq<T>>)
    ensures Flatten(a + b) == Flatten(a) + Flatten(b)
  {
    if a == [] {
      assert a + b == b;
    } else {
      assert (a + b)[1..] == a[1..] + b;
      FlattenConcat(a[1..], b);
    }
  }

  lemma FlattenSnoc<T>(a: seq<seq<T>>, x: seq<T>)
    ensures Flatten(a + [x]) == Flatten(a) + x
  {
    FlattenConcat(a, [x]);
    assert [x][1..] == [];
  }

  // ---- Products of reals ----------------------------------------------------------------------

  lemma MulMono(a: real, b: real, c: real)
    requires a <= b && c >= 0.0
    ensures a * c <= b * c
  {
    assert (b - a) * c >= 0.0;
  }

  lemma MulBy(f: real, k: real, d: real)
    requires f == k
    ensures f * d == k * d
  {
  }
}
