/** The plain TCP connection: lwIP callbacks on one side, polling reads on the other.

    Callbacks and the locked section of a read are atomic steps; a history lists them in the
    order in which they happened. */
module PlainTransport {
  import opened Common
  import opened RxRing

  const READ_TIMEOUT_MS: nat := 15000

  /** What lwIP may do to a connection between two locked sections. A segment is a chain of
      buffers; no chain at all is the peer's FIN. */
  datatype Event =
    | Segment(chain: Option<seq<seq<byte>>>, err: int)
    | Connected(connectErr: int)
    | Failure(code: int)

  datatype History =
    | Start
    | Net(before: History, event: Event)
    | Poll(before: History, want: nat)

  datatype Link = Link(queue: seq<byte>, delivered: seq<byte>, error: bool, closed: bool, rxBytes: nat)

  predicate CarriesData(e: Event) {
    e.Segment? && e.chain.Some? && e.err == 0
  }

  function Payload(e: Event): seq<byte> {
    if CarriesData(e) then Flatten(e.chain.value) else []
  }

  function Apply(l: Link, e: Event): (r: Link)
    requires |l.queue| <= RX_BUF_CAP
    ensures |r.queue| <= RX_BUF_CAP
  {
    match e
    case Segment(chain, err) =>
      if CarriesData(e) then
        l.(queue := TailDrop(l.queue, Payload(e)), rxBytes := l.rxBytes + |Payload(e)|)
      else
        l.(closed := true)
    case Connected(err) => l.(error := l.error || err != 0)
    case Failure(code) => l.(error := true)
  }

  function Take(l: Link, want: nat): (r: Link)
    requires |l.queue| <= RX_BUF_CAP
    ensures |r.queue| <= RX_BUF_CAP
  {
    var got := Min(want, |l.queue|);
    l.(queue := l.queue[got..], delivered := l.delivered + l.queue[..got])
  }

  /** The state after a history. */
  function Run(h: History): (l: Link)
    ensures |l.queue| <= RX_BUF_CAP
  {
    match h
    case Start => Link([], [], false, false, 0)
    case Net(before, e) => Apply(Run(before), e)
    case Poll(before, want) => Take(Run(before), want)
  }

  // ---- The reference queue: counts only, no ring ---------------------------------------------

  /** Everything the peer sent. */
  function Arrived(h: History): seq<byte> {
    match h
    case Start => []
    case Net(before, e) => Arrived(before) + Payload(e)
    case Poll(before, _) => Arrived(before)
  }

  /** The arrived bytes kept by a queue that refuses a byte when `RX_BUF_CAP` are pending, and how
      many of them have been taken out. */
  function Accepted(h: History): (r: (seq<byte>, nat))
    ensures r.1 <= |r.0| <= r.1 + RX_BUF_CAP
  {
    match h
    case Start => ([], 0)
    case Net(before, e) =>
      var (kept, popped) := Accepted(before);
      (kept + Payload(e)[..Min(|Payload(e)|, RX_BUF_CAP + popped - |kept|)], popped)
    case Poll(before, want) =>
      var (kept, popped) := Accepted(before);
      (kept, popped + Min(want, |kept| - popped))
  }

  /** At no point of the history were more than `RX_BUF_CAP` of the sent bytes unread. */
  predicate NeverOverfull(h: History) {
    && (h.Start? || NeverOverfull(h.before))
    && |Arrived(h)| <= |Run(h).delivered| + RX_BUF_CAP
  }

  /** The events of a history, without the polls. */
  function Events(h: History): seq<Event> {
    match h
    case Start => []
    case Net(before, e) => Events(before) + [e]
    case Poll(before, _) => Events(before)
  }

  lemma TakeKeepsOrder(l: Link, want: nat)
    requires |l.queue| <= RX_BUF_CAP
    ensures Take(l, want).delivered + Take(l, want).queue == l.delivered + l.queue
  {
    var got := Min(want, |l.queue|);
    assert l.queue[..got] + l.queue[got..] == l.queue;
  }

  lemma ApplyAppends(l: Link, e: Event)
    requires |l.queue| <= RX_BUF_CAP
    ensures var r, room := Apply(l, e), Min(|Payload(e)|, RX_BUF_CAP - |l.queue|);
            r.delivered + r.queue == (l.delivered + l.queue) + Payload(e)[..room]
  {
    var kept := Payload(e)[..Min(|Payload(e)|, RX_BUF_CAP - |l.queue|)];
    assert l.delivered + (l.queue + kept) == (l.delivered + l.queue) + kept;
  }

  /** Bytes returned so far, followed by bytes still in the ring, are exactly the accepted bytes in
      order, for every interleaving of callbacks and polls. */
  lemma {:induction false} RingRefinesQueue(h: History)
    ensures Run(h).delivered + Run(h).queue == Accepted(h).0
    ensures |Run(h).delivered| == Accepted(h).1
  {
    match h {
      case Start =>
      case Net(before, e) =>
        RingRefinesQueue(before);
        ApplyAppends(Run(before), e);
      case Poll(before, want) =>
        RingRefinesQueue(before);
        TakeKeepsOrder(Run(before), want);
    }
  }

  lemma {:induction false} CountsEverythingArrived(h: History)
    ensures Run(h).rxBytes == |Arrived(h)|
  {
    if !h.Start? {
      CountsEverythingArrived(h.before);
    }
  }

  lemma {:induction false} AcceptedIsShorter(h: History)
    ensures |Accepted(h).0| <= |Arrived(h)|
  {
    if !h.Start? {
      AcceptedIsShorter(h.before);
    }
  }

  /** Nothing is lost exactly when the ring was never asked to hold more than its capacity; the byte
      counter tells the truth about the bytes a reader can get exactly then. */
  lemma {:induction false} LosslessIffNeverOverfull(h: History)
    ensures NeverOverfull(h) <==> Run(h).delivered + Run(h).queue == Arrived(h)
    ensures NeverOverfull(h) <==> Run(h).rxBytes == |Run(h).delivered| + |Run(h).queue|
  {
    RingRefinesQueue(h);
    CountsEverythingArrived(h);
    AcceptedIsShorter(h);
    if !h.Start? {
      LosslessIffNeverOverfull(h.before);
      RingRefinesQueue(h.before);
      AcceptedIsShorter(h.before);
    }
  }

  // ---- When a connection has ended ------------------------------------------------------------

  /** The peer's FIN, or a segment that comes with an error. */
  predicate Closes(e: Event) {
    e.Segment? && (e.chain.None? || e.err != 0)
  }

  /** An error of the connection, or a connection attempt that was refused. */
  predicate Fails(e: Event) {
    e.Failure? || (e.Connected? && e.connectErr != 0)
  }

  lemma ExistsSnoc(events: seq<Event>, e: Event)
    ensures (exists x :: x in events + [e] && Closes(x)) <==> Closes(e) || exists x :: x in events && Closes(x)
    ensures (exists x :: x in events + [e] && Fails(x)) <==> Fails(e) || exists x :: x in events && Fails(x)
  {
    assert forall x :: x in events + [e] <==> x == e || x in events;
  }

  /** A connection counts as closed exactly when the peer's FIN or a segment with an error has come, and as
      failed exactly when lwIP has reported an error. */
  lemma {:induction false} EndedIffReported(h: History)
    ensures Run(h).closed <==> exists e :: e in Events(h) && Closes(e)
    ensures Run(h).error <==> exists e :: e in Events(h) && Fails(e)
  {
    match h {
      case Start =>
      case Net(before, e) =>
        EndedIffReported(before);
        ExistsSnoc(Events(before), e);
      case Poll(before, _) => EndedIffReported(before);
    }
  }

  ghost predicate HasEnded(events: seq<Event>) {
    exists e :: e in events && (Closes(e) || Fails(e))
  }

  /** 16385 bytes that nobody reads: all are counted, and the last one is gone. */
  lemma OneByteTooMany(s: seq<byte>)
    requires |s| == 16385
    ensures var h := Net(Start, Segment(Some([s]), 0));
            && Arrived(h) == s && Run(h).rxBytes == 16385
            && Run(h).delivered + Run(h).queue == s[..16384]
            && !NeverOverfull(h)
  {
    var e := Segment(Some([s]), 0);
    assert Payload(e) == s by {
      assert [] + [s] == [s];
      FlattenSnoc([], s);
    }
    assert [] + s == s;
    assert TailDrop([], s) == s[..RX_BUF_CAP];
  }

  // ---- One read ------------------------------------------------------------------------------

  /** What happens between one locked section of a read and the next: the callbacks that run, and
      the clock reading that is compared with the deadline. */
  datatype Interval = Interval(events: List<Event>, now: nat)

  datatype Outcome = Full | Ended | TimedOut

  /** `atPoll` is the state right after the last poll, `last` the interval that follows it, and
      `left` what the schedule still holds. */
  datatype ReadResult = ReadResult(link: Link, bytes: seq<byte>, atPoll: Link, last: Interval,
                                   left: List<Interval>, outcome: Outcome)

  /** Time passes: some interval ends after the deadline. */
  predicate Passes(deadline: nat, env: List<Interval>) {
    env.Cons? && (env.head.now > deadline || Passes(deadline, env.tail))
  }

  function ApplyAll(l: Link, events: List<Event>): (r: Link)
    requires |l.queue| <= RX_BUF_CAP
    ensures |r.queue| <= RX_BUF_CAP
    ensures r.delivered == l.delivered
    decreases events
  {
    if events.Nil? then l else ApplyAll(Apply(l, events.head), events.tail)
  }

  /** The read loop when it has collected `out` of the `len` bytes asked for. */
  function ReadFrom(l: Link, out: seq<byte>, len: nat, deadline: nat, env: List<Interval>): (r: ReadResult)
    requires |l.queue| <= RX_BUF_CAP && |out| < len && Passes(deadline, env)
    ensures |r.link.queue| <= RX_BUF_CAP && |r.atPoll.queue| <= RX_BUF_CAP
    ensures out <= r.bytes && |r.bytes| <= len
    decreases env
  {
    var atPoll := Take(l, len - |out|);
    var got := out + l.queue[..Min(len - |out|, |l.queue|)];
    var next := ApplyAll(atPoll, env.head.events);
    if |got| == len then ReadResult(next, got, atPoll, env.head, env.tail, Full)
    else if atPoll.error || atPoll.closed then ReadResult(next, got, atPoll, env.head, env.tail, Ended)
    else if env.head.now > deadline then ReadResult(next, got, atPoll, env.head, env.tail, TimedOut)
    else ReadFrom(next, got, len, deadline, env.tail)
  }

  /** One poll of the loop and the interval after it. */
  lemma ReadStep(l: Link, out: seq<byte>, len: nat, deadline: nat, env: List<Interval>, next: Link, got: seq<byte>)
    requires |l.queue| <= RX_BUF_CAP && |out| < len && Passes(deadline, env)
    requires next == ApplyAll(Take(l, len - |out|), env.head.events)
    requires got == out + l.queue[..Min(len - |out|, |l.queue|)]
    ensures env.Cons?
    ensures var r := ReadFrom(l, out, len, deadline, env);
            if |got| == len || l.error || l.closed || env.head.now > deadline then
              && r.link == next && r.bytes == got
              && (r.outcome.TimedOut? <==> |got| < len && !l.error && !l.closed)
            else
              Passes(deadline, env.tail) && r == ReadFrom(next, got, len, deadline, env.tail)
  {
  }

  function Extend(h: History, events: List<Event>): History
    decreases events
  {
    if events.Nil? then h else Extend(Net(h, events.head), events.tail)
  }

  /** The history of a read that starts after `h`. */
  function ReadHistory(h: History, out: seq<byte>, len: nat, deadline: nat, env: List<Interval>): History
    requires |out| < len && Passes(deadline, env)
    decreases env
  {
    var l, want := Run(h), len - |out|;
    var next := Extend(Poll(h, want), env.head.events);
    if |l.queue| >= want || l.error || l.closed || env.head.now > deadline then next
    else ReadHistory(next, out + l.queue, len, deadline, env.tail)
  }

  function ToSeq<T>(list: List<T>): seq<T> {
    if list.Nil? then [] else [list.head] + ToSeq(list.tail)
  }

  function AllEvents(env: List<Interval>): seq<Event> {
    if env.Nil? then [] else ToSeq(env.head.events) + AllEvents(env.tail)
  }

  /** The schedule reaches `last` through intervals that end before the deadline. */
  predicate OnTimeUntil(deadline: nat, env: List<Interval>, last: Interval, left: List<Interval>) {
    && env.Cons?
    && (env == Cons(last, left) || (env.head.now <= deadline && OnTimeUntil(deadline, env.tail, last, left)))
  }

  lemma {:induction false} ExtendApplies(h: History, events: List<Event>)
    ensures Run(Extend(h, events)) == ApplyAll(Run(h), events)
    ensures Events(Extend(h, events)) == Events(h) + ToSeq(events)
    decreases events
  {
    if events.Cons? {
      ExtendApplies(Net(h, events.head), events.tail);
    }
  }

  /** A read is an interleaving of polls with callbacks... */
  lemma {:induction false} ReadIsHistory(h: History, out: seq<byte>, len: nat, deadline: nat, env: List<Interval>)
    requires |out| < len && Passes(deadline, env)
    ensures ReadFrom(Run(h), out, len, deadline, env).link == Run(ReadHistory(h, out, len, deadline, env))
    decreases env
  {
    var l, want := Run(h), len - |out|;
    ExtendApplies(Poll(h, want), env.head.events);
    if |l.queue| >= want || l.error || l.closed || env.head.now > deadline {
    } else {
      assert l.queue[..|l.queue|] == l.queue;
      ReadIsHistory(Extend(Poll(h, want), env.head.events), out + l.queue, len, deadline, env.tail);
    }
  }

  /** The callbacks of one turn, moved from the schedule to the history. */
  lemma TurnMovesEvents(h: History, want: nat, env: List<Interval>)
    requires env.Cons?
    ensures var next := Extend(Poll(h, want), env.head.events);
            Events(next) + AllEvents(env.tail) == Events(h) + AllEvents(env)
  {
    ExtendApplies(Poll(h, want), env.head.events);
    Assoc(Events(h), ToSeq(env.head.events), AllEvents(env.tail));
  }

  lemma RunPoll(h: History, want: nat)
    ensures Run(Poll(h, want)) == Take(Run(h), want)
  {
  }

  /** ... and those callbacks are exactly the ones of the intervals it went through. */
  lemma {:induction false} ReadHistoryHasSchedule(h: History, out: seq<byte>, len: nat, deadline: nat, env: List<Interval>)
    requires |out| < len && Passes(deadline, env)
    ensures Events(ReadHistory(h, out, len, deadline, env)) + AllEvents(ReadFrom(Run(h), out, len, deadline, env).left)
         == Events(h) + AllEvents(env)
    decreases env
  {
    hide Events, AllEvents, Run, ApplyAll, Extend;
    var l, want := Run(h), len - |out|;
    ExtendApplies(Poll(h, want), env.head.events);
    RunPoll(h, want);
    TurnMovesEvents(h, want, env);
    if |l.queue| >= want || l.error || l.closed || env.head.now > deadline {
    } else {
      assert l.queue[..|l.queue|] == l.queue;
      ReadHistoryHasSchedule(Extend(Poll(h, want), env.head.events), out + l.queue, len, deadline, env.tail);
    }
  }

  /** Every byte that a read pops is returned, and nothing else. */
  lemma {:induction false} ReadReturnsWhatItPops(l: Link, out: seq<byte>, len: nat, deadline: nat, env: List<Interval>)
    requires |l.queue| <= RX_BUF_CAP && |out| < len && Passes(deadline, env)
    ensures var r := ReadFrom(l, out, len, deadline, env);
            r.link.delivered == l.delivered + r.bytes[|out|..]
    decreases env
  {
    var want := len - |out|;
    if |l.queue| >= want || l.error || l.closed || env.head.now > deadline {
    } else {
      assert l.queue[..|l.queue|] == l.queue;
      var next := ApplyAll(Take(l, want), env.head.events);
      var r := ReadFrom(next, out + l.queue, len, deadline, env.tail);
      ReadReturnsWhatItPops(next, out + l.queue, len, deadline, env.tail);
      assert r.bytes[|out|..] == l.queue + r.bytes[|out + l.queue|..];
    }
  }

  /** A read stops short only after a poll that emptied the ring: because the connection had ended
      by then, or else because the deadline passed. It stops at the first interval that outlasts the
      deadline. */
  lemma {:induction false} ShortReadOnlyWhenEmpty(l: Link, out: seq<byte>, len: nat, deadline: nat, env: List<Interval>)
    requires |l.queue| <= RX_BUF_CAP && |out| < len && Passes(deadline, env)
    ensures var r := ReadFrom(l, out, len, deadline, env);
            && (r.outcome.Full? <==> |r.bytes| == len)
            && (r.outcome.Ended? <==> |r.bytes| < len && (r.atPoll.error || r.atPoll.closed))
            && (r.outcome.TimedOut? ==> r.last.now > deadline)
            && (!r.outcome.Full? ==> r.atPoll.queue == [])
            && r.link == ApplyAll(r.atPoll, r.last.events)
            && OnTimeUntil(deadline, env, r.last, r.left)
    decreases env
  {
    var atPoll, want := Take(l, len - |out|), len - |out|;
    if |l.queue| >= want || l.error || l.closed || env.head.now > deadline {
    } else {
      assert l.queue[..|l.queue|] == l.queue;
      ShortReadOnlyWhenEmpty(ApplyAll(atPoll, env.head.events), out + l.queue, len, deadline, env.tail);
    }
  }

  /** The history up to the last poll of a read. */
  function LastPoll(h: History, out: seq<byte>, len: nat, deadline: nat, env: List<Interval>): History
    requires |out| < len && Passes(deadline, env)
    decreases env
  {
    var l, want := Run(h), len - |out|;
    if |l.queue| >= want || l.error || l.closed || env.head.now > deadline then Poll(h, want)
    else LastPoll(Extend(Poll(h, want), env.head.events), out + l.queue, len, deadline, env.tail)
  }

  lemma {:induction false} LastPollIsAtPoll(h: History, out: seq<byte>, len: nat, deadline: nat, env: List<Interval>)
    requires |out| < len && Passes(deadline, env)
    ensures ReadFrom(Run(h), out, len, deadline, env).atPoll == Run(LastPoll(h, out, len, deadline, env))
    decreases env
  {
    hide ApplyAll, Extend, Run;
    var l, want := Run(h), len - |out|;
    RunPoll(h, want);
    ExtendApplies(Poll(h, want), env.head.events);
    if |l.queue| >= want || l.error || l.closed || env.head.now > deadline {
    } else {
      assert l.queue[..|l.queue|] == l.queue;
      LastPollIsAtPoll(Extend(Poll(h, want), env.head.events), out + l.queue, len, deadline, env.tail);
    }
  }

  /** A read that comes up short does so because the connection has ended, and not because of the time,
      exactly when the end was reported before its last poll. */
  lemma ReadEndsIff(h: History, out: seq<byte>, len: nat, deadline: nat, env: List<Interval>)
    requires |out| < len && Passes(deadline, env)
    ensures var r := ReadFrom(Run(h), out, len, deadline, env);
            r.outcome.Ended? <==> |r.bytes| < len && HasEnded(Events(LastPoll(h, out, len, deadline, env)))
  {
    hide Run, ReadFrom, LastPoll;
    LastPollIsAtPoll(h, out, len, deadline, env);
    ShortReadOnlyWhenEmpty(Run(h), out, len, deadline, env);
    EndedIffReported(LastPoll(h, out, len, deadline, env));
  }

  /** After the end of the connection a read returns what is pending at its first poll, without waiting. */
  lemma EndedReadDoesNotWait(h: History, len: nat, deadline: nat, env: List<Interval>)
    requires 0 < len && Passes(deadline, env) && HasEnded(Events(h))
    ensures var r, queue := ReadFrom(Run(h), [], len, deadline, env), Run(h).queue;
            && r.bytes == queue[..Min(len, |queue|)] && r.left == env.tail
            && (r.outcome.Ended? <==> |queue| < len) && !r.outcome.TimedOut?
  {
    EndedIffReported(h);
    assert [] + Run(h).queue[..Min(len, |Run(h).queue|)] == Run(h).queue[..Min(len, |Run(h).queue|)];
  }

  // ---- The connection -------------------------------------------------------------------------

  /** The ring after one `rx_push` per buffer of a chain. */
  function DropChain(queue: seq<byte>, chain: seq<seq<byte>>): (r: seq<byte>)
    requires |queue| <= RX_BUF_CAP
    ensures |r| <= RX_BUF_CAP
    decreases |chain|
  {
    if chain == [] then queue else DropChain(TailDrop(queue, chain[0]), chain[1..])
  }

  lemma {:induction false} DropChainIsTailDrop(queue: seq<byte>, chain: seq<seq<byte>>)
    requires |queue| <= RX_BUF_CAP
    ensures DropChain(queue, chain) == TailDrop(queue, Flatten(chain))
    decreases |chain|
  {
    if chain != [] {
      DropChainIsTailDrop(TailDrop(queue, chain[0]), chain[1..]);
    }
  }

  lemma EndedAndEmpty(l: Link, len: nat, deadline: nat, env: List<Interval>)
    requires |l.queue| <= RX_BUF_CAP && 0 < len && Passes(deadline, env)
    ensures (l.error || l.closed) && l.queue == [] ==>
              var r := ReadFrom(l, [], len, deadline, env);
              r.bytes == [] && r.outcome.Ended?
  {
  }

  lemma ScheduleGoesOn(deadline: nat, env: List<Interval>)
    requires Passes(deadline, env)
    ensures env.Cons?
  {
  }

  lemma TurnExtends(out: seq<byte>, got: seq<byte>, rest: seq<byte>, total: nat)
    requires total == |out| && total + |got| <= |rest|
    ensures (out + rest[total..])[..total] + got + (out + rest[total..])[total + |got|..]
         == (out + got) + rest[total + |got|..]
  {
  }

  class PlainConn {
    const rx: Ring
    var pcb: bool
    var tcpConnected: bool
    var tcpError: bool
    var remoteClosed: bool
    var ioTimedOut: bool
    var tcpErrorCode: int
    var totalRxBytes: nat
    var totalTxBytes: nat
    /** How many bytes lwIP was told that it may receive again, and how many chains of buffers it
        handed over that were never freed. */
    var credit: nat
    var heldChains: nat
    /** What `tcp_write` has queued towards the peer. */
    var wire: seq<byte>
    /** Every byte that reads have taken out of the ring. */
    ghost var delivered: seq<byte>

    ghost predicate Valid()
      reads this, rx, rx.data
    {
      rx.Valid() && |rx.contents| <= RX_BUF_CAP
    }

    ghost function State(): Link
      reads this, rx
    {
      Link(rx.contents, delivered, tcpError, remoteClosed, totalRxBytes)
    }

    /** The zeroed block that `calloc` returns. */
    constructor ()
      ensures Valid() && State() == Run(Start)
      ensures wire == [] && !pcb && !tcpConnected && totalTxBytes == 0 && credit == 0 && heldChains == 0
      ensures fresh(rx) && fresh(rx.data)
    {
      rx := new Ring();
      pcb, tcpConnected, tcpError, remoteClosed, ioTimedOut := false, false, false, false, false;
      tcpErrorCode, totalRxBytes, totalTxBytes, credit, heldChains := 0, 0, 0, 0, 0;
      wire, delivered := [], [];
    }

    /** The loop of `on_recv` over the buffers of a chain */
    method PushChain(chain: seq<seq<byte>>)
      requires Valid()
      modifies rx, rx.data
      ensures Valid() && rx.contents == TailDrop(old(rx.contents), Flatten(chain))
    {
      var cur := 0;
      while cur < |chain|
        invariant 0 <= cur <= |chain|
        invariant rx.Valid()
        invariant DropChain(old(rx.contents), chain) == DropChain(rx.contents, chain[cur..])
      {
        rx.Push(chain[cur]);
        cur := cur + 1;
      }
      DropChainIsTailDrop(old(rx.contents), chain);
    }

    /** `on_recv`, `on_connected` and `on_err` */
    method Callback(e: Event)
      requires Valid()
      modifies this, rx, rx.data
      ensures Valid() && State() == Apply(old(State()), e)
      ensures wire == old(wire) && totalTxBytes == old(totalTxBytes) && ioTimedOut == old(ioTimedOut)
      ensures credit == old(credit) + |Payload(e)|
      ensures heldChains == old(heldChains) + if e.Segment? && e.chain.Some? && e.err != 0 then 1 else 0
      ensures remoteClosed == (old(remoteClosed) || Closes(e)) && tcpError == (old(tcpError) || Fails(e))
      ensures pcb == (old(pcb) && !e.Failure?)
      ensures tcpConnected == (old(tcpConnected) || e == Connected(0))
      ensures tcpErrorCode == match e
                              case Failure(code) => code
                              case Connected(err) => if err != 0 then err else old(tcpErrorCode)
                              case Segment(_, _) => old(tcpErrorCode)
    {
      match e {
        case Segment(chain, err) =>
          if chain.None? || err != 0 {
            remoteClosed := true;
            if chain.Some? {
              heldChains := heldChains + 1;
            }
          } else {
            PushChain(chain.value);
            totalRxBytes := totalRxBytes + |Flatten(chain.value)|;
            credit := credit + |Flatten(chain.value)|;
          }
        case Connected(err) =>
          if err != 0 {
            tcpErrorCode := err;
            tcpError := true;
          } else {
            tcpConnected := true;
          }
        case Failure(code) =>
          tcpErrorCode := code;
          tcpError := true;
          pcb := false;
      }
    }

    method Callbacks(events: List<Event>)
      requires Valid()
      modifies this, rx, rx.data
      ensures Valid() && State() == ApplyAll(old(State()), events)
      ensures wire == old(wire) && totalTxBytes == old(totalTxBytes) && ioTimedOut == old(ioTimedOut)
    {
      var cur := events;
      while cur.Cons?
        invariant Valid() && ApplyAll(State(), cur) == ApplyAll(old(State()), events)
        invariant wire == old(wire) && totalTxBytes == old(totalTxBytes) && ioTimedOut == old(ioTimedOut)
        decreases cur
      {
        Callback(cur.head);
        cur := cur.tail;
      }
    }

    /** One turn of the read loop: the locked section, then the callbacks before the next. */
    method Turn(buf: array<byte>, off: nat, want: nat, events: List<Event>) returns (got: nat, closed: bool)
      requires Valid() && buf != rx.data && off + want <= buf.Length
      modifies this, rx, rx.data, buf
      ensures Valid() && wire == old(wire) && totalTxBytes == old(totalTxBytes) && ioTimedOut == old(ioTimedOut)
      ensures State() == ApplyAll(Take(old(State()), want), events)
      ensures got == Min(want, |old(rx.contents)|)
      ensures closed == old(tcpError || remoteClosed)
      ensures buf[..] == old(buf[..])[..off] + old(rx.contents)[..got] + old(buf[..])[off + got..]
    {
      got := rx.Pop(buf, off, want);
      closed := tcpError || remoteClosed;
      delivered := delivered + old(rx.contents)[..got];
      Callbacks(events);
    }

    /** The body of the read loop, which has filled the first `total` bytes of the buffer with `out`. */
    method ReadTurn(buf: array<byte>, total: nat, len: nat, deadline: nat, env: List<Interval>,
                    ghost out: seq<byte>, ghost buf0: seq<byte>)
      returns (got: nat, closed: bool, ghost all: seq<byte>)
      requires Valid() && buf != rx.data && |out| == total < len <= buf.Length == |buf0|
      requires buf[..] == out + buf0[total..] && Passes(deadline, env)
      modifies this, rx, rx.data, buf
      ensures Valid() && wire == old(wire) && totalTxBytes == old(totalTxBytes) && ioTimedOut == old(ioTimedOut)
      ensures |all| == total + got <= len && buf[..] == all + buf0[total + got..]
      ensures env.Cons?
      ensures var r := ReadFrom(old(State()), out, len, deadline, env);
              if total + got == len || closed || env.head.now > deadline then
                && r.link == State() && r.bytes == all
                && (r.outcome.TimedOut? <==> total + got < len && !closed)
              else
                Passes(deadline, env.tail) && r == ReadFrom(State(), all, len, deadline, env.tail)
    {
      hide ReadFrom, ApplyAll, Take, Window, Passes, Ring.Valid;
      ghost var before := State();
      ScheduleGoesOn(deadline, env);
      got, closed := Turn(buf, total, len - total, env.head.events);
      all := out + before.queue[..got];
      TurnExtends(out, before.queue[..got], buf0, total);
      ReadStep(before, out, len, deadline, env, State(), all);
    }

    /** The read loop for a positive length: `total` bytes of the buffer are filled. */
    method ReadLoop(buf: array<byte>, len: nat, deadline: nat, env: List<Interval>) returns (total: nat)
      requires Valid() && !ioTimedOut && buf != rx.data && 0 < len <= buf.Length && Passes(deadline, env)
      modifies this, rx, rx.data, buf
      ensures Valid() && wire == old(wire) && totalTxBytes == old(totalTxBytes)
      ensures var r := ReadFrom(old(State()), [], len, deadline, env);
              && State() == r.link && ioTimedOut == r.outcome.TimedOut? && total == |r.bytes|
              && buf[..] == r.bytes + old(buf[..])[total..]
    {
      hide ReadFrom, ApplyAll, Take, Passes, Ring.Valid;
      total := 0;
      var cur := env;
      ghost var buf0, out: seq<byte> := buf[..], [];
      while true
        invariant Valid() && !ioTimedOut
        invariant wire == old(wire) && totalTxBytes == old(totalTxBytes)
        invariant |out| == total < len && Passes(deadline, cur)
        invariant ReadFrom(State(), out, len, deadline, cur) == ReadFrom(old(State()), [], len, deadline, env)
        invariant buf[..] == out + buf0[total..]
        decreases cur
      {
        var got, closed;
        got, closed, out := ReadTurn(buf, total, len, deadline, cur, out, buf0);
        total := total + got;
        if total == len || closed {
          return;
        }
        if cur.head.now > deadline {
          ioTimedOut := true;
          return;
        }
        cur := cur.tail;
      }
    }

    /** `tls_read`. `start` is the clock at entry and `env` what happens around each poll. */
    method Read(buf: array<byte>, len: nat, start: nat, env: List<Interval>) returns (n: int)
      requires Valid() && buf != rx.data && len <= buf.Length
      requires Passes(start + READ_TIMEOUT_MS, env)
      modifies this, rx, rx.data, buf
      ensures Valid() && wire == old(wire) && totalTxBytes == old(totalTxBytes)
      ensures len > UINT16_MAX ==>
                n == -1 && State() == old(State()) && buf[..] == old(buf[..]) && ioTimedOut == old(ioTimedOut)
      ensures len == 0 ==> n == 0 && State() == old(State()) && buf[..] == old(buf[..]) && !ioTimedOut
      ensures 0 < len <= UINT16_MAX ==>
                var r := ReadFrom(old(State()), [], len, start + READ_TIMEOUT_MS, env);
                && State() == r.link
                && ioTimedOut == r.outcome.TimedOut?
                && n == (if r.bytes != [] then |r.bytes| else -1)
                && (old((tcpError || remoteClosed) && rx.contents == []) ==> n == -1 && !ioTimedOut)
                && buf[..] == r.bytes + old(buf[..])[|r.bytes|..]
    {
      hide ReadFrom, Passes, Ring.Valid;
      if len > UINT16_MAX {
        return -1;
      }
      ioTimedOut := false;
      if len == 0 {
        return 0;
      }
      EndedAndEmpty(State(), len, start + READ_TIMEOUT_MS, env);
      var total := ReadLoop(buf, len, start + READ_TIMEOUT_MS, env);
      return if total > 0 then total else -1;
    }

    /** `tls_write`. `err` is what `tcp_write` answers. */
    method Write(buf: seq<byte>, err: int) returns (n: int)
      requires Valid()
      modifies this
      ensures Valid() && State() == old(State())
      ensures n == if pcb && !tcpError && |buf| <= UINT16_MAX && err == 0 then |buf| else -1
      ensures wire == old(wire) + buf[..Max(n, 0)]
      ensures totalTxBytes == old(totalTxBytes) + Max(n, 0)
      ensures pcb == old(pcb) && tcpError == old(tcpError) && ioTimedOut == old(ioTimedOut)
    {
      if !pcb || tcpError {
        return -1;
      }
      if |buf| > UINT16_MAX {
        return -1;
      }
      if err != 0 {
        return -1;
      }
      wire := wire + buf;
      totalTxBytes := totalTxBytes + |buf|;
      return |buf|;
    }
  }
}
