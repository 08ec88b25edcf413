/** The receive ring that a TCP callback fills and a polling reader empties. */
module RxRing {
  import opened Common

  const RX_BUF_CAP: nat := 16384

  /** What a queue of `RX_BUF_CAP` bytes holds after `src` arrives: the tail is dropped. */
  function TailDrop(queue: seq<byte>, src: seq<byte>): (r: seq<byte>)
    requires |queue| <= RX_BUF_CAP
    ensures |r| <= RX_BUF_CAP
  {
    queue + src[..Min(|src|, RX_BUF_CAP - |queue|)]
  }

  /** The array index `k` places after `start`, wrapping at the end. */
  function Wrap(start: nat, k: nat, cap: nat): (r: nat)
    requires start < cap && k <= cap
    ensures r < cap
  {
    if start + k < cap then start + k else start + k - cap
  }

  /** The `avail` bytes that start at `tail` in a circular buffer. */
  function Window(data: seq<byte>, tail: nat, avail: nat): (s: seq<byte>)
    requires tail < |data| && avail <= |data|
    ensures |s| == avail
  {
    seq(avail, k requires 0 <= k < avail => data[Wrap(tail, k, |data|)])
  }

  lemma WindowPush(data: seq<byte>, tail: nat, avail: nat, x: byte)
    requires tail < |data| && avail < |data|
    ensures Window(data[Wrap(tail, avail, |data|) := x], tail, avail + 1) == Window(data, tail, avail) + [x]
  {
  }

  lemma WindowPop(data: seq<byte>, tail: nat, avail: nat)
    requires tail < |data| && 0 < avail <= |data|
    ensures Window(data, tail, avail)[0] == data[tail]
    ensures Window(data, Wrap(tail, 1, |data|), avail - 1) == Window(data, tail, avail)[1..]
  {
  }

  lemma WrapIsMod(i: nat)
    requires i < RX_BUF_CAP
    ensures Wrap(i, 1, RX_BUF_CAP) == (i + 1) % RX_BUF_CAP
  {
    assert (i + 1) % 16384 == if i + 1 < 16384 then i + 1 else 0;
  }

  /** Taking one byte out moves the tail and leaves the head where it is. */
  lemma WrapStep(tail: nat, avail: nat)
    requires tail < RX_BUF_CAP && 0 < avail <= RX_BUF_CAP
    ensures Wrap(Wrap(tail, 1, RX_BUF_CAP), avail - 1, RX_BUF_CAP) == Wrap(tail, avail, RX_BUF_CAP)
    ensures Wrap(tail, 1, RX_BUF_CAP) == (tail + 1) % RX_BUF_CAP < RX_BUF_CAP
  {
    WrapIsMod(tail);
  }

  /** One more byte of `src` in its place. */
  lemma CopyOne(dst: seq<byte>, off: nat, src: seq<byte>, i: nat)
    requires i < |src| && off + i < |dst|
    ensures var so := dst[..off] + src[..i] + dst[off + i..];
            so[off + i := src[i]] == dst[..off] + src[..i + 1] + dst[off + i + 1..]
  {
  }

  class Ring {
    const data: array<byte>
    var head: nat
    var tail: nat
    var avail: nat
    /** The pending bytes, oldest first. */
    ghost var contents: seq<byte>

    ghost predicate Valid()
      reads this, data
    {
      && data.Length == RX_BUF_CAP
      && tail < RX_BUF_CAP && avail <= RX_BUF_CAP
      && head == Wrap(tail, avail, RX_BUF_CAP)
      && contents == Window(data[..], tail, avail)
    }

    constructor ()
      ensures Valid() && contents == [] && fresh(data)
    {
      data := new byte[RX_BUF_CAP](_ => 0);
      head, tail, avail := 0, 0, 0;
      contents := [];
    }

    /** `rx_push` */
    method Push(src: seq<byte>)
      requires Valid()
      modifies this, data
      ensures Valid()
      ensures contents == TailDrop(old(contents), src)
    {
      var i := 0;
      ghost var was := contents;
      while i < |src| && avail < RX_BUF_CAP
        invariant 0 <= i <= |src|
        invariant Valid()
        invariant avail == |was| + i
        invariant contents == was + src[..i]
      {
        WindowPush(data[..], tail, avail, src[i]);
        WrapIsMod(head);
        ghost var d0 := data[..];
        data[head] := src[i];
        assert data[..] == d0[head := src[i]];
        head := (head + 1) % RX_BUF_CAP;
        avail := avail + 1;
        contents := contents + [src[i]];
        i := i + 1;
        assert src[..i] == src[..i-1] + [src[i-1]];
      }
    }

    /** `rx_pop`, writing at `dst + off` */
    method Pop(dst: array<byte>, off: nat, want: nat) returns (got: nat)
      requires Valid() && dst != data
      requires off + want <= dst.Length
      modifies this, dst
      ensures Valid()
      ensures got == Min(want, |old(contents)|)
      ensures contents == old(contents)[got..]
      ensures dst[..] == old(dst[..off]) + old(contents)[..got] + old(dst[off + got..])
    {
      hide Window, Wrap;
      got := if want < avail then want else avail;
      ghost var was, d := contents, data[..];
      ghost var dst0 := dst[..];
      var i := 0;
      while i < got
        invariant 0 <= i <= got
        invariant Valid() && data[..] == d
        invariant avail == |was| - i
        invariant contents == was[i..]
        invariant dst[..] == dst0[..off] + was[..i] + dst0[off + i..]
      {
        CopyOne(dst0, off, was, i);
        WindowPop(d, tail, avail);
        WrapStep(tail, avail);
        assert data[tail] == d[tail] == was[i];
        dst[off + i] := data[tail];
        tail := (tail + 1) % RX_BUF_CAP;
        avail := avail - 1;
        contents := contents[1..];
        i := i + 1;
        assert dst[..] == dst0[..off] + was[..i] + dst0[off + i..];
      }
    }
  }
}
