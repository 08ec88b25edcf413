/** The byte stream under the MQTT client, as `tls_read` and `tls_write` present it.

    A call may move fewer bytes than asked for. How many it moves is decided by a plan, one entry
    for each call to come; a zero entry, or the end of the plan, makes the call fail. */
module Stream {
  import opened Common

  /** The receiving side: bytes still to be read, and the plan of reads. */
  datatype Inbox = Inbox(bytes: seq<byte>, readPlan: List<nat>)

  function Advance(plan: List<nat>): List<nat> {
    if plan.Nil? then Nil else plan.tail
  }

  /** What one read of at most `len` bytes yields; `None` is a failure. */
  function Receive(inbox: Inbox, len: nat): (r: (Option<seq<byte>>, Inbox))
    requires len > 0
    ensures r.0.Some? ==> 0 < |r.0.value| <= len && inbox.bytes == r.0.value + r.1.bytes
    ensures r.0.None? ==> r.1.bytes == inbox.bytes
  {
    if inbox.readPlan.Nil? || inbox.readPlan.head == 0 || inbox.bytes == [] then
      (None, Inbox(inbox.bytes, Advance(inbox.readPlan)))
    else
      var n := Min(Min(inbox.readPlan.head, len), |inbox.bytes|);
      (Some(inbox.bytes[..n]), Inbox(inbox.bytes[n..], inbox.readPlan.tail))
  }

  /** How many of `len` bytes a send loop gets out before the plan makes it stop, and the plan that
      is left. */
  function Deliver(len: nat, writes: List<nat>): (r: (nat, List<nat>))
    ensures r.0 <= len
    decreases writes
  {
    if len == 0 then (0, writes)
    else if writes.Nil? || writes.head == 0 then (0, Advance(writes))
    else
      var n := Min(writes.head, len);
      var (more, plan) := Deliver(len - n, writes.tail);
      (n + more, plan)
  }

  function Total(parts: seq<nat>): nat {
    if parts == [] then 0 else parts[0] + Total(parts[1..])
  }

  /** Several send loops, one after the other, each tried only if the one before it got everything out:
      how many bytes get out in all, and the plan that is left. */
  function DeliverParts(parts: seq<nat>, writes: List<nat>): (r: (nat, List<nat>))
    ensures r.0 <= Total(parts)
  {
    if parts == [] then (0, writes)
    else
      var (k, plan) := Deliver(parts[0], writes);
      if k < parts[0] then (k, plan)
      else
        var (more, last) := DeliverParts(parts[1..], plan);
        (k + more, last)
  }

  /** What the transport moves before it fails. */
  function BeforeFailure(writes: List<nat>): nat {
    if writes.Nil? || writes.head == 0 then 0 else writes.head + BeforeFailure(writes.tail)
  }

  /** A send loop gets out what it is given, or all that the transport moves before it fails. */
  lemma {:induction false} DeliversUntilFailure(len: nat, writes: List<nat>)
    ensures Deliver(len, writes).0 == Min(len, BeforeFailure(writes))
    decreases writes
  {
    if len > 0 && writes.Cons? && writes.head > 0 {
      DeliversUntilFailure(len - Min(writes.head, len), writes.tail);
    }
  }

  /** The first `k` calls of a plan all move something. */
  predicate Steady(plan: List<nat>, k: nat) {
    k == 0 || (plan.Cons? && plan.head > 0 && Steady(plan.tail, k - 1))
  }

  lemma {:induction false} SteadyFor(plan: List<nat>, k: nat, j: nat)
    requires Steady(plan, k) && j <= k
    ensures Steady(plan, j)
  {
    if j > 0 {
      SteadyFor(plan.tail, k - 1, j - 1);
    }
  }

  /** A stream that never fails delivers everything, using at most one call for each byte. */
  lemma {:induction false} SteadyDelivers(len: nat, more: nat, writes: List<nat>)
    requires Steady(writes, len + more)
    ensures Deliver(len, writes).0 == len && Steady(Deliver(len, writes).1, more)
    decreases len
  {
    if len > 0 {
      var n := Min(writes.head, len);
      SteadyFor(writes.tail, len + more - 1, len - n + more);
      SteadyDelivers(len - n, more, writes.tail);
    }
  }

  lemma {:induction false} SteadyDeliversParts(parts: seq<nat>, more: nat, writes: List<nat>)
    requires Steady(writes, Total(parts) + more)
    ensures DeliverParts(parts, writes).0 == Total(parts) && Steady(DeliverParts(parts, writes).1, more)
  {
    if parts != [] {
      SteadyDelivers(parts[0], Total(parts[1..]) + more, writes);
      SteadyDeliversParts(parts[1..], more, Deliver(parts[0], writes).1);
    }
  }

  class Conn {
    /** Everything the peer has been sent. */
    var sent: seq<byte>
    var incoming: seq<byte>
    var writePlan: List<nat>
    var readPlan: List<nat>

    ghost function In(): Inbox
      reads this
    {
      Inbox(incoming, readPlan)
    }

    /** `tls_write` */
    method Write(buf: seq<byte>) returns (n: int)
      requires buf != []
      modifies this`sent, this`writePlan
      ensures writePlan == Advance(old(writePlan))
      ensures n == if old(writePlan).Nil? || old(writePlan).head == 0 then -1 else Min(old(writePlan).head, |buf|)
      ensures sent == old(sent) + buf[..Max(n, 0)]
    {
      if writePlan.Nil? || writePlan.head == 0 {
        writePlan := Advance(writePlan);
        return -1;
      }
      n := Min(writePlan.head, |buf|);
      sent := sent + buf[..n];
      writePlan := writePlan.tail;
    }

    /** `tls_read` */
    method Read(buf: array<byte>, len: nat) returns (n: int)
      requires 0 < len <= buf.Length
      modifies this`incoming, this`readPlan, buf
      ensures var (got, next) := Receive(old(In()), len);
              && In() == next
              && (got.None? ==> n == -1)
              && (got.Some? ==> n == |got.value| && buf[..n] == got.value)
    {
      if readPlan.Nil? || readPlan.head == 0 || incoming == [] {
        readPlan := Advance(readPlan);
        return -1;
      }
      n := Min(Min(readPlan.head, len), |incoming|);
      forall i | 0 <= i < n {
        buf[i] := incoming[i];
      }
      assert buf[..n] == incoming[..n];
      incoming := incoming[n..];
      readPlan := readPlan.tail;
    }

    /** `send_all` */
    method SendAll(buf: seq<byte>) returns (ok: bool)
      modifies this`sent, this`writePlan
      ensures var (k, plan) := Deliver(|buf|, old(writePlan));
              && ok == (k == |buf|)
              && sent == old(sent) + buf[..k]
              && writePlan == plan
    {
      var done := 0;
      while done < |buf|
        invariant done <= |buf|
        invariant sent == old(sent) + buf[..done]
        invariant var rest := Deliver(|buf| - done, writePlan);
                  Deliver(|buf|, old(writePlan)) == (done + rest.0, rest.1)
        decreases |buf| - done
      {
        var n := Write(buf[done..]);
        if n <= 0 {
          return false;
        }
        assert buf[..done] + buf[done..][..n] == buf[..done + n];
        done := done + n;
      }
      assert buf[..done] == buf;
      return true;
    }
  }
}
