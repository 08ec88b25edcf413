/** How the TLS transport splits the handshake time into waiting for the network and computing.

    wolfSSL is opaque: each of its calls is a script of what it does with the transport. The scripts
    also say what the network does meanwhile (when data comes, how much of it, when the connection
    ends), so the results hold for everything that can happen. The clock never goes back. */
module HandshakeTiming {
  import opened Common

  // ---- Receive calls --------------------------------------------------------------------------

  /** A receive call: when it was entered, when it returned, and whether it brought data */
  datatype Interval = Interval(enter: nat, leave: nat, data: bool)

  function Length(i: Interval): int {
    i.leave - i.enter
  }

  /** The time that all of the calls took. */
  function Spent(recvs: seq<Interval>): int {
    if recvs == [] then 0 else Spent(recvs[..|recvs|-1]) + Length(recvs[|recvs|-1])
  }

  /** The time of the calls that brought data. */
  function Waited(recvs: seq<Interval>): int {
    if recvs == [] then 0
    else Waited(recvs[..|recvs|-1]) + if recvs[|recvs|-1].data then Length(recvs[|recvs|-1]) else 0
  }

  /** The time of the calls that brought none: closed connections and timeouts. */
  function Missed(recvs: seq<Interval>): int {
    if recvs == [] then 0
    else Missed(recvs[..|recvs|-1]) + if recvs[|recvs|-1].data then 0 else Length(recvs[|recvs|-1])
  }

  function WithData(recvs: seq<Interval>): nat {
    if recvs == [] then 0 else WithData(recvs[..|recvs|-1]) + if recvs[|recvs|-1].data then 1 else 0
  }

  /** The calls lie one after another between `lo` and `hi`. */
  ghost predicate InSequence(recvs: seq<Interval>, lo: nat, hi: nat) {
    && lo <= hi
    && (forall i :: 0 <= i < |recvs| ==> lo <= recvs[i].enter <= recvs[i].leave <= hi)
    && (forall i, k :: 0 <= i < k < |recvs| ==> recvs[i].leave <= recvs[k].enter)
  }

  /** Calls that do not overlap take no longer together than the time that holds them. */
  lemma {:induction false} SpentFits(recvs: seq<Interval>, lo: nat, hi: nat)
    requires InSequence(recvs, lo, hi)
    ensures Spent(recvs) == Waited(recvs) + Missed(recvs)
    ensures 0 <= Waited(recvs) && 0 <= Missed(recvs) && Spent(recvs) <= hi - lo
  {
    if recvs != [] {
      var last := recvs[|recvs|-1];
      SpentFits(recvs[..|recvs|-1], lo, last.enter);
    }
  }

  /** Every call that brought no data returned at once. */
  ghost predicate MissesAreInstant(recvs: seq<Interval>) {
    forall i :: 0 <= i < |recvs| && !recvs[i].data ==> recvs[i].leave == recvs[i].enter
  }

  lemma {:induction false} NothingMissedIff(recvs: seq<Interval>, lo: nat, hi: nat)
    requires InSequence(recvs, lo, hi)
    ensures Missed(recvs) == 0 <==> MissesAreInstant(recvs)
  {
    SpentFits(recvs, lo, hi);
    if recvs != [] {
      var before, last := recvs[..|recvs|-1], recvs[|recvs|-1];
      NothingMissedIff(before, lo, last.enter);
      SpentFits(before, lo, last.enter);
      assert MissesAreInstant(recvs) <==> MissesAreInstant(before) && (last.data || Length(last) == 0);
    }
  }

  lemma OneMoreCall(recvs: seq<Interval>, i: Interval, lo: nat)
    requires InSequence(recvs, lo, i.enter) && i.enter <= i.leave
    ensures InSequence(recvs + [i], lo, i.leave)
    ensures Spent(recvs + [i]) == Spent(recvs) + Length(i)
    ensures Waited(recvs + [i]) == Waited(recvs) + if i.data then Length(i) else 0
    ensures Missed(recvs + [i]) == Missed(recvs) + if i.data then 0 else Length(i)
    ensures WithData(recvs + [i]) == WithData(recvs) + if i.data then 1 else 0
  {
    assert (recvs + [i])[..|recvs|] == recvs;
  }

  lemma Later(recvs: seq<Interval>, lo: nat, hi: nat, later: nat)
    requires InSequence(recvs, lo, hi) && hi <= later
    ensures InSequence(recvs, lo, later)
  {
  }

  function Sum(sizes: seq<nat>): nat {
    if sizes == [] then 0 else Sum(sizes[..|sizes|-1]) + sizes[|sizes|-1]
  }

  lemma SumSnoc(sizes: seq<nat>, n: nat)
    ensures Sum(sizes + [n]) == Sum(sizes) + n
  {
    assert (sizes + [n])[..|sizes|] == sizes;
  }

  // ---- Scripts --------------------------------------------------------------------------------

  /** Some time, and what the lwIP callbacks do in it: bytes counted, an error, the peer's FIN */
  datatype Gap = Gap(us: nat, bytes: nat, fails: bool, closes: bool)

  /** What comes before a poll, and how much data the ring then has */
  datatype Poll = Poll(gap: Gap, available: nat)

  /** Poll `i` of a receive call; when the polls run out, the network stays silent. */
  function PollAt(polls: seq<Poll>, i: nat): Poll {
    if i < |polls| then polls[i] else Poll(Gap(0, 0, false, false), 0)
  }

  /** The connection ends at one of the first `n` polls. */
  ghost predicate EndsWithin(polls: seq<Poll>, n: nat) {
    exists i :: 0 <= i < n && i < |polls| && (polls[i].gap.fails || polls[i].gap.closes)
  }

  lemma NoneWithinNothing(polls: seq<Poll>)
    ensures !EndsWithin(polls, 0)
  {
  }

  lemma EndsWithinNext(polls: seq<Poll>, n: nat)
    ensures EndsWithin(polls, n + 1) <==>
              EndsWithin(polls, n) || PollAt(polls, n).gap.fails || PollAt(polls, n).gap.closes
  {
  }

  /** What wolfSSL does: it computes, receives, or sends (`err` is what lwIP answers) */
  datatype Op =
    | Compute(gap: Gap)
    | Receive(size: nat, polls: seq<Poll>)
    | Emit(size: nat, err: int)

  datatype Verdict = Connected | WantsMore | GivesUp

  /** One call of `wolfSSL_connect` */
  datatype Round = Round(ops: List<Op>, verdict: Verdict)

  /** The network brings nothing and reports nothing. */
  predicate Silent(op: Op) {
    match op
    case Compute(gap) => !gap.fails && !gap.closes
    case Receive(_, polls) => polls == []
    case Emit(_, _) => true
  }

  predicate AllSilent(ops: List<Op>) {
    ops.Cons? ==> Silent(ops.head) && AllSilent(ops.tail)
  }

  /** What wolfSSL makes of the handshake: the verdict of the first round that does not want more. */
  function Decided(rounds: List<Round>): Verdict {
    if rounds.Nil? then GivesUp
    else if rounds.head.verdict.WantsMore? then Decided(rounds.tail)
    else rounds.head.verdict
  }

  /** How many receive calls wolfSSL makes. */
  function Calls(ops: List<Op>): nat {
    if ops.Nil? then 0 else (if ops.head.Receive? then 1 else 0) + Calls(ops.tail)
  }

  predicate Receives(ops: List<Op>) {
    ops.Cons? && (ops.head.Receive? || Receives(ops.tail))
  }

  datatype Timings = Timings(tlsUs: nat, netWaitUs: nat, cryptoUs: nat)

  datatype Received = Data(size: nat) | Closed | TimedOut

  datatype Sent = Accepted | ConnClosed | Refused

  datatype Outcome = Success | Failure | Timeout

  /** While the handshake runs: its start, and the byte counts at that time */
  datatype Phase = Before | During(start: nat, rx: nat, tx: nat) | After(start: nat)

  /** Everything about the handshake that a connection remembers */
  datatype Counters = Counters(phase: Phase, recvs: seq<Interval>, sends: seq<nat>, netWaitUs: nat,
                               rxCalls: nat, txCalls: nat, tlsUs: nat, rxBytes: nat, txBytes: nat)

  const RECV_TIMEOUT_MS: nat := 15000
  const HANDSHAKE_TIMEOUT_MS: nat := 30000
  const RECV_TIMEOUT_US: nat := 1000 * RECV_TIMEOUT_MS

  class TlsConn {
    /** `time_us_64` */
    var now: nat
    var pcb: bool
    var tcpError: bool
    var remoteClosed: bool
    var inHandshake: bool
    var hsNetWaitUs: nat
    var hsRxCalls: nat
    var hsTxCalls: nat
    var tlsHandshakeUs: nat
    var hsRxBytes: nat
    var hsTxBytes: nat
    var tlsRxBytes: nat
    var tlsTxBytes: nat
    var ioTimedOut: bool
    ghost var phase: Phase
    /** The receive calls and the sizes of the accepted sends of the handshake. */
    ghost var recvs: seq<Interval>
    ghost var sends: seq<nat>

    ghost predicate Valid()
      reads this
    {
      && hsNetWaitUs == Waited(recvs) && hsRxCalls == WithData(recvs) && hsTxCalls == |sends|
      && match phase
         case Before =>
           recvs == [] && sends == [] && !inHandshake && tlsHandshakeUs == hsRxBytes == hsTxBytes == 0
         case During(start, rx, tx) =>
           && inHandshake && InSequence(recvs, start, now)
           && rx <= tlsRxBytes && tx + Sum(sends) == tlsTxBytes
         case After(start) =>
           && !inHandshake && InSequence(recvs, start, start + tlsHandshakeUs)
           && hsRxBytes <= tlsRxBytes && hsTxBytes == Sum(sends) <= tlsTxBytes
    }

    ghost function Remembered(): Counters
      reads this
    {
      Counters(phase, recvs, sends, hsNetWaitUs, hsRxCalls, hsTxCalls, tlsHandshakeUs, hsRxBytes, hsTxBytes)
    }

    predicate Ended()
      reads this
    {
      tcpError || remoteClosed
    }

    /** A connected transport before its handshake. */
    constructor ()
      ensures Valid() && phase == Before && pcb && !Ended()
    {
      now, inHandshake, ioTimedOut := 0, false, false;
      pcb, tcpError, remoteClosed := true, false, false;
      hsNetWaitUs, hsRxCalls, hsTxCalls, tlsHandshakeUs := 0, 0, 0, 0;
      hsRxBytes, hsTxBytes, tlsRxBytes, tlsTxBytes := 0, 0, 0, 0;
      phase, recvs, sends := Before, [], [];
    }

    /** Time goes by, and callbacks run. */
    method Pass(gap: Gap)
      requires Valid()
      modifies this`now, this`tlsRxBytes, this`pcb, this`tcpError, this`remoteClosed
      ensures Valid() && now == old(now) + gap.us && tlsRxBytes == old(tlsRxBytes) + gap.bytes
      ensures pcb == (old(pcb) && !gap.fails) && tcpError == (old(tcpError) || gap.fails)
      ensures remoteClosed == (old(remoteClosed) || gap.closes)
    {
      hide InSequence, Waited, WithData, Sum;
      if phase.During? {
        Later(recvs, phase.start, now, now + gap.us);
      }
      now := now + gap.us;
      tlsRxBytes := tlsRxBytes + gap.bytes;
      if gap.fails {
        tcpError := true;
        pcb := false;
      }
      if gap.closes {
        remoteClosed := true;
      }
    }

    /** The record of a receive call of the handshake; the two counters move if it brought data. */
    method Count(enter: nat, data: bool)
      requires Valid() && phase.During? && enter <= now && InSequence(recvs, phase.start, enter)
      modifies this`hsNetWaitUs, this`hsRxCalls, this`recvs
      ensures Valid() && recvs == old(recvs) + [Interval(enter, now, data)]
      ensures hsNetWaitUs == old(hsNetWaitUs) + if data then now - enter else 0
      ensures hsRxCalls == old(hsRxCalls) + if data then 1 else 0
      ensures Missed(recvs) == Missed(old(recvs)) + if data then 0 else now - enter
    {
      hide InSequence, Waited, WithData, Sum;
      OneMoreCall(recvs, Interval(enter, now, data), phase.start);
      if data {
        hsNetWaitUs := hsNetWaitUs + (now - enter);
        hsRxCalls := hsRxCalls + 1;
      }
      recvs := recvs + [Interval(enter, now, data)];
    }

    /** The polling loop of `wssl_recv`. It ends at the first poll that finds data, an ended connection or
        the time over, looked for in this order; `polled` is the number of polls that this takes. */
    method Await(size: nat, polls: seq<Poll>) returns (r: Received, ghost polled: nat)
      requires Valid() && size > 0
      modifies this`now, this`tlsRxBytes, this`pcb, this`tcpError, this`remoteClosed, this`ioTimedOut
      ensures Valid() && now >= old(now) && polled > 0
      ensures forall i :: 0 <= i < polled - 1 ==> PollAt(polls, i).available == 0
      ensures polled > 1 ==> !old(Ended()) && !EndsWithin(polls, polled - 1)
      ensures Ended() == (old(Ended()) || EndsWithin(polls, polled))
      ensures var available := PollAt(polls, polled - 1).available;
              r == if available > 0 then Data(Min(size, available)) else if Ended() then Closed else TimedOut
      ensures r.TimedOut? ==> ioTimedOut && now - old(now) > RECV_TIMEOUT_US
      ensures r.TimedOut? ==> now - PollAt(polls, polled - 1).gap.us - old(now) < RECV_TIMEOUT_US + 2000
      ensures !r.TimedOut? ==> ioTimedOut == old(ioTimedOut)
    {
      hide InSequence, Waited, WithData, Sum, EndsWithin;
      var deadline := now / 1000 + RECV_TIMEOUT_MS;
      var k := 0;
      polled := 0;
      NoneWithinNothing(polls);
      while true
        invariant Valid() && now >= old(now) && ioTimedOut == old(ioTimedOut) && polled == k
        invariant forall i :: 0 <= i < polled ==> PollAt(polls, i).available == 0
        invariant Ended() == (old(Ended()) || EndsWithin(polls, polled))
        invariant polled > 0 ==> !Ended()
        invariant now < 1000 * deadline + 2000 && 1000 * deadline <= old(now) + RECV_TIMEOUT_US
        decreases deadline + 1 - now / 1000
      {
        var next := PollAt(polls, k);
        EndsWithinNext(polls, k);
        Pass(next.gap);
        k := k + 1;
        polled := k;
        var got := if size < next.available then size else next.available;
        if got != 0 {
          return Data(got), polled;
        }
        if tcpError || remoteClosed {
          return Closed, polled;
        }
        if now / 1000 > deadline {
          ioTimedOut := true;
          return TimedOut, polled;
        }
        Pass(Gap(1000, 0, false, false));
      }
    }

    /** `wssl_recv`. Only a call that brings data during the handshake is counted as waiting; one that
        does not leaves the counters alone, however long it took. */
    method Recv(size: nat, polls: seq<Poll>) returns (r: Received)
      requires Valid() && size > 0
      modifies this
      ensures Valid() && now >= old(now) && inHandshake == old(inHandshake)
      ensures r.Data? ==> 0 < r.size <= size
      ensures PollAt(polls, 0).available > 0 ==> r == Data(Min(size, PollAt(polls, 0).available))
      ensures r.Closed? ==> Ended()
      ensures r.TimedOut? ==> !Ended() && ioTimedOut && now - old(now) > RECV_TIMEOUT_US
      ensures !r.TimedOut? ==> ioTimedOut == old(ioTimedOut)
      ensures polls == [] && !old(Ended()) ==> r.TimedOut? && !Ended()
      ensures tlsTxBytes == old(tlsTxBytes)
      ensures !inHandshake ==> Remembered() == old(Remembered())
      ensures inHandshake ==>
                && phase == old(phase) && sends == old(sends)
                && recvs == old(recvs) + [Interval(old(now), now, r.Data?)]
                && hsNetWaitUs == old(hsNetWaitUs) + (if r.Data? then now - old(now) else 0)
                && hsRxCalls == old(hsRxCalls) + (if r.Data? then 1 else 0)
                && Missed(recvs) == Missed(old(recvs)) + (if r.Data? then 0 else now - old(now))
    {
      hide InSequence, Waited, WithData, Sum, Missed;
      var enter := now;
      ghost var polled;
      r, polled := Await(size, polls);
      if inHandshake {
        Count(enter, r.Data?);
      }
    }

    /** `wssl_send`: refused when the connection is gone, or when lwIP does not take the data. */
    method Send(size: nat, err: int) returns (r: Sent)
      requires Valid()
      modifies this
      ensures Valid() && now == old(now) && inHandshake == old(inHandshake) && Ended() == old(Ended())
      ensures r == if !old(pcb) || old(tcpError) then ConnClosed else if err != 0 then Refused else Accepted
      ensures tlsTxBytes == old(tlsTxBytes) + if r.Accepted? then size else 0
      ensures !inHandshake || !r.Accepted? ==> Remembered() == old(Remembered())
      ensures inHandshake ==> phase == old(phase) && recvs == old(recvs)
      ensures inHandshake && r.Accepted? ==> sends == old(sends) + [size]
    {
      hide InSequence, Waited, WithData, Sum;
      if !pcb || tcpError {
        return ConnClosed;
      }
      if err != 0 {
        return Refused;
      }
      tlsTxBytes := tlsTxBytes + size;
      if inHandshake {
        hsTxCalls := hsTxCalls + 1;
        SumSnoc(sends, size);
        sends := sends + [size];
      }
      return Accepted;
    }

    /** One call into wolfSSL */
    method Wolf(ops: List<Op>)
      requires Valid()
      modifies this
      ensures Valid() && now >= old(now) && inHandshake == old(inHandshake)
      ensures inHandshake ==> phase == old(phase) && |recvs| == |old(recvs)| + Calls(ops)
      ensures !inHandshake ==> Remembered() == old(Remembered())
      ensures inHandshake && AllSilent(ops) && !old(Ended()) ==>
                && !Ended() && hsNetWaitUs == old(hsNetWaitUs)
                && Missed(recvs) >= Missed(old(recvs)) + if Receives(ops) then RECV_TIMEOUT_US else 0
    {
      hide InSequence, Waited, WithData, Sum, Missed;
      var cur := ops;
      while cur.Cons?
        invariant Valid() && now >= old(now) && inHandshake == old(inHandshake)
        invariant inHandshake ==> phase == old(phase) && |recvs| + Calls(cur) == |old(recvs)| + Calls(ops)
        invariant !inHandshake ==> Remembered() == old(Remembered())
        invariant AllSilent(ops) ==> AllSilent(cur)
        invariant inHandshake && AllSilent(ops) && !old(Ended()) ==>
                    && !Ended() && hsNetWaitUs == old(hsNetWaitUs)
                    && Missed(recvs) + (if Receives(cur) then RECV_TIMEOUT_US else 0)
                       >= Missed(old(recvs)) + if Receives(ops) then RECV_TIMEOUT_US else 0
        decreases cur
      {
        match cur.head {
          case Compute(gap) => Pass(gap);
          case Emit(size, err) => var _ := Send(size, err);
          case Receive(size, polls) => var _ := Recv(size + 1, polls);
        }
        cur := cur.tail;
      }
    }

    /** The end of the handshake: the flag goes down before the duration is taken. */
    method Finish(start: nat, rxBefore: nat, txBefore: nat)
      requires Valid() && phase == During(start, rxBefore, txBefore)
      modifies this
      ensures Valid() && phase == After(start) && tlsHandshakeUs == now - start
      ensures now == old(now) && recvs == old(recvs) && sends == old(sends) && hsNetWaitUs == old(hsNetWaitUs)
      ensures hsRxBytes == tlsRxBytes - rxBefore && hsTxBytes == tlsTxBytes - txBefore
    {
      assert start <= now;
      hide InSequence, Waited, WithData, Sum;
      inHandshake := false;
      tlsHandshakeUs := now - start;
      hsRxBytes := tlsRxBytes - rxBefore;
      hsTxBytes := tlsTxBytes - txBefore;
      phase := After(start);
    }

    /** The handshake loop of `tls_connect_common`; when the rounds run out, wolfSSL has given up. On
        every outcome the whole time is recorded. If the peer says nothing, none of it is reported as
        waiting. */
    method Handshake(rounds: List<Round>) returns (outcome: Outcome)
      requires Valid() && phase == Before
      modifies this
      ensures Valid() && phase == After(old(now)) && tlsHandshakeUs == now - old(now)
      ensures outcome == Timeout <==> now / 1000 > old(now) / 1000 + HANDSHAKE_TIMEOUT_MS
      ensures outcome == Success <==> outcome != Timeout && Decided(rounds) == Connected
      ensures rounds.Cons? && rounds.head.verdict.GivesUp? && Receives(rounds.head.ops)
              && AllSilent(rounds.head.ops) && !old(Ended()) ==>
                hsNetWaitUs == 0 && Missed(recvs) >= RECV_TIMEOUT_US
    {
      var rxBefore, txBefore := tlsRxBytes, tlsTxBytes;
      inHandshake := true;
      var start := now;
      phase := During(start, rxBefore, txBefore);
      var deadline := now / 1000 + HANDSHAKE_TIMEOUT_MS;
      var cur := rounds;
      assert Valid() && hsNetWaitUs == 0 && Missed(recvs) == 0;
      hide InSequence, Waited, WithData, Sum, Missed;
      while true
        invariant Valid() && phase == During(start, rxBefore, txBefore) && now >= start
        invariant cur == rounds ==> hsNetWaitUs == 0 && Missed(recvs) == 0 && Ended() == old(Ended())
        invariant cur != rounds ==> rounds.Cons? && !rounds.head.verdict.GivesUp?
        invariant Decided(cur) == Decided(rounds)
        decreases cur
      {
        var round := if cur.Cons? then cur.head else Round(Nil, GivesUp);
        Wolf(round.ops);
        if now / 1000 > deadline {
          Finish(start, rxBefore, txBefore);
          return Timeout;
        }
        if !round.verdict.WantsMore? {
          Finish(start, rxBefore, txBefore);
          return if round.verdict.Connected? then Success else Failure;
        }
        cur := cur.tail;
      }
    }

    /** `tls_get_timings`. The clamp at zero is never needed: in every state that can be reached, the
        time spent waiting is part of the handshake time, and the rest is reported in full. What is
        reported as waiting is all the time that receive calls took exactly when every call that
        brought no data returned at once; otherwise the difference is reported as computing. */
    method GetTimings() returns (t: Timings)
      requires Valid() && !phase.During?
      ensures t.tlsUs == tlsHandshakeUs && t.netWaitUs == hsNetWaitUs == Waited(recvs)
      ensures t.netWaitUs <= Spent(recvs) <= t.tlsUs
      ensures t.cryptoUs + t.netWaitUs == t.tlsUs
      ensures t.netWaitUs == Spent(recvs) <==> MissesAreInstant(recvs)
      ensures t.cryptoUs == t.tlsUs - Spent(recvs) + Missed(recvs)
      ensures phase == Before ==> t.tlsUs == 0
    {
      t := Timings(tlsHandshakeUs, hsNetWaitUs,
                   if tlsHandshakeUs > hsNetWaitUs then tlsHandshakeUs - hsNetWaitUs else 0);
      if phase.After? {
        SpentFits(recvs, phase.start, phase.start + tlsHandshakeUs);
        NothingMissedIff(recvs, phase.start, phase.start + tlsHandshakeUs);
      }
    }

    /** `tls_read` and `tls_write` after the handshake */
    method Transfer(reading: bool, ops: List<Op>)
      requires Valid() && !inHandshake
      modifies this
      ensures Valid() && !inHandshake && Remembered() == old(Remembered())
    {
      if reading {
        ioTimedOut := false;
      }
      Wolf(ops);
    }
  }

  datatype Step = Step(reading: bool, ops: List<Op>)

  /** A whole attempt: the timings captured when the handshake ends are those captured after any amount
      of application traffic. */
  method Attempt(rounds: List<Round>, traffic: seq<Step>) returns (atHandshake: Timings, atEnd: Timings)
    ensures atHandshake == atEnd
    ensures atEnd.cryptoUs + atEnd.netWaitUs == atEnd.tlsUs
  {
    var c := new TlsConn();
    var _ := c.Handshake(rounds);
    atHandshake := c.GetTimings();
    ghost var kept := c.Remembered();
    for i := 0 to |traffic|
      invariant c.Valid() && !c.inHandshake && c.Remembered() == kept
    {
      c.Transfer(traffic[i].reading, traffic[i].ops);
    }
    atEnd := c.GetTimings();
  }

  /** A handshake for which the split is wrong: wolfSSL sends its greeting, waits for an answer that
      never comes, and gives up. More than 15 seconds of waiting are reported as computing. */
  method SilentServer() returns (t: Timings, ghost recvs: seq<Interval>)
    ensures t.netWaitUs == 0 && t.cryptoUs == t.tlsUs >= Spent(recvs) >= RECV_TIMEOUT_US
    ensures !MissesAreInstant(recvs)
  {
    var c := new TlsConn();
    var waiting := Cons(Receive(4, []), Nil);
    var _ := c.Handshake(Cons(Round(Cons(Emit(512, 0), waiting), GivesUp), Nil));
    t := c.GetTimings();
    recvs := c.recvs;
  }
}
