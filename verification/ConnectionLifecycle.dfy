/** Who frees what, on every path through a connection attempt, and which attempts succeed.

    The libraries are represented by a ledger of what they handed out and got back. Each library
    call demands that what it is given is still outstanding, so that a second release or a use after
    release would not verify. What the network and the libraries answer is a script; lwIP may report
    an error, on its own, at any point where the lock is not held. */
module ConnectionLifecycle {

  /** How often each resource was handed out and given back since power-on */
  datatype Ledger = Ledger(connAllocs: nat, connFrees: nat,
                           pcbNews: nat, byLwip: nat, byClose: nat, byAbort: nat,
                           ctxNews: nat, ctxFrees: nat, sslNews: nat, sslFrees: nat)

  /** Everything handed out was given back; a PCB in one of the three ways. */
  ghost predicate Balanced(l: Ledger) {
    && l.connAllocs == l.connFrees
    && l.pcbNews == l.byLwip + l.byClose + l.byAbort
    && l.ctxNews == l.ctxFrees && l.sslNews == l.sslFrees
  }

  function One(b: bool): nat {
    if b then 1 else 0
  }

  /** What an attempt used, seen from its two ledgers: no resource more than once. */
  ghost predicate AtMostOneEach(before: Ledger, after: Ledger) {
    && before.connAllocs <= after.connAllocs <= before.connAllocs + 1
    && before.pcbNews <= after.pcbNews <= before.pcbNews + 1
    && before.ctxNews <= after.ctxNews <= before.ctxNews + 1
    && before.sslNews <= after.sslNews <= before.sslNews + 1
  }

  const CONNECT_TIMEOUT_MS: nat := 10000

  // ---- Scripts --------------------------------------------------------------------------------

  /** Some milliseconds without the lock, and the callbacks that lwIP makes in them: the connection is up
      or was refused, the peer closes, the connection fails. */
  datatype Net = Net(ms: nat, connected: bool, refused: bool, closed: bool, failed: bool)

  const QUIET: Net := Net(0, false, false, false, false)

  /** One transport call: what happens before it, and for a send what lwIP answers */
  datatype Io = Io(before: Net, send: bool, accepted: bool)

  /** The answers to DNS, to the two lwIP calls, and what happens between the polls for the connection */
  datatype TcpAnswers = TcpAnswers(resolved: bool, pcb: bool, started: bool, waits: seq<Net>)

  datatype Verdict = Up | More | GivesUp | Late

  datatype Round = Round(io: seq<Io>, verdict: Verdict)

  /** The answers of wolfSSL, in the order of the calls */
  datatype TlsAnswers = TlsAnswers(first: Net, context: bool, second: Net, ca: bool, cert: bool, key: bool,
                                   session: bool, third: Net, curve: bool, share: bool, rounds: seq<Round>)

  datatype CloseAnswers = CloseAnswers(before: Net, accepted: bool, after: Net, closed: bool)

  /** A whole attempt; `mqtt` is what becomes of the MQTT handshake. */
  datatype Answers = Answers(conn: bool, tcp: TcpAnswers, tls: TlsAnswers, traffic: seq<Io>, mqtt: bool,
                             farewell: seq<Io>, close: CloseAnswers)

  function WaitAt(waits: seq<Net>, k: nat): Net {
    if k < |waits| then waits[k] else QUIET
  }

  /** The milliseconds that pass before poll `k` for the connection: one for each turn, and more. */
  function Elapsed(waits: seq<Net>, k: nat): nat {
    if k == 0 then 0 else Elapsed(waits, k - 1) + 1 + WaitAt(waits, k - 1).ms
  }

  /** The connection comes up in wait `i`: nothing was reported before, and the time is not over. */
  ghost predicate ComesUpAt(waits: seq<Net>, i: nat) {
    && i < |waits| && waits[i].connected && !waits[i].refused && !waits[i].failed
    && (forall j :: 0 <= j < i ==> !waits[j].connected && !waits[j].failed)
    && Elapsed(waits, i) <= CONNECT_TIMEOUT_MS
  }

  ghost predicate TcpComesUp(a: TcpAnswers) {
    a.resolved && a.pcb && a.started && exists i :: ComesUpAt(a.waits, i)
  }

  ghost predicate HandshakeEndsWell(rounds: seq<Round>) {
    exists i :: 0 <= i < |rounds| && rounds[i].verdict.Up? && forall j :: 0 <= j < i ==> rounds[j].verdict.More?
  }

  ghost predicate TlsComesUp(a: TlsAnswers) {
    a.context && a.ca && a.cert && a.key && a.session && a.curve && a.share && HandshakeEndsWell(a.rounds)
  }

  // ---- The polls for the connection -----------------------------------------------------------

  ghost predicate NothingBefore(waits: seq<Net>, k: nat) {
    forall j :: 0 <= j < k ==> !WaitAt(waits, j).connected && !WaitAt(waits, j).failed
  }

  predicate SomethingAt(waits: seq<Net>, k: nat) {
    WaitAt(waits, k).connected || WaitAt(waits, k).failed
  }

  lemma {:induction false} ElapsedGrows(waits: seq<Net>, i: nat, k: nat)
    requires i <= k
    ensures Elapsed(waits, i) <= Elapsed(waits, k)
  {
    if i < k {
      ElapsedGrows(waits, i, k - 1);
    }
  }

  /** When the time is over and nothing was reported, nothing that comes later counts. */
  lemma TooLate(waits: seq<Net>, k: nat)
    requires NothingBefore(waits, k) && Elapsed(waits, k) > CONNECT_TIMEOUT_MS
    ensures !exists i :: ComesUpAt(waits, i)
  {
    forall i: nat
      ensures !ComesUpAt(waits, i)
    {
      if i < k {
        assert !WaitAt(waits, i).connected;
      } else {
        ElapsedGrows(waits, k, i);
      }
    }
  }

  /** The connection comes up at the first report or not at all. */
  lemma OnlyThere(waits: seq<Net>, k: nat)
    requires NothingBefore(waits, k) && SomethingAt(waits, k)
    ensures (exists i :: ComesUpAt(waits, i)) <==> ComesUpAt(waits, k)
  {
    forall i: nat | i != k
      ensures !ComesUpAt(waits, i)
    {
      if i < k {
        assert !WaitAt(waits, i).connected;
      } else if i < |waits| {
        assert waits[k] == WaitAt(waits, k);
      }
    }
  }

  lemma ComesUpIff(waits: seq<Net>, k: nat)
    requires NothingBefore(waits, k) && Elapsed(waits, k) <= CONNECT_TIMEOUT_MS
    ensures ComesUpAt(waits, k) <==>
              WaitAt(waits, k).connected && !WaitAt(waits, k).refused && !WaitAt(waits, k).failed
  {
    if k < |waits| {
      forall j | 0 <= j < k
        ensures !waits[j].connected && !waits[j].failed
      {
        assert WaitAt(waits, j) == waits[j];
      }
    }
  }

  lemma UpMeansPcb(a: TcpAnswers)
    requires TcpComesUp(a)
    ensures a.resolved && a.pcb
  {
  }

  /** The device: the fields of the connection object (meaningful while it is allocated), the clock,
      whether lwIP has the callbacks, and in ghost form what the libraries handed out. */
  class Device {
    /** The pointers of the connection object, by whether they are null */
    var pcb: bool
    var ssl: bool
    var sslCtx: bool
    var tcpConnected: bool
    var tcpError: bool
    var remoteClosed: bool
    var nowMs: nat
    /** lwIP holds the callbacks and the pointer to the connection object. */
    var armed: bool
    ghost var ledger: Ledger
    /** The ledger before the current connection object was allocated */
    ghost var start: Ledger
    /** lwIP took the PCB of this connection object away. */
    ghost var lost: bool

    ghost predicate Idle()
      reads this
    {
      Balanced(ledger) && !armed
    }

    /** A PCB was made for this connection object. */
    ghost predicate HasPcb() reads this { pcb || lost }

    /** The connection object is allocated, its pointers are those of outstanding resources, and lwIP
        has its address exactly while its PCB is alive. */
    ghost predicate Holding()
      reads this
    {
      && Balanced(start)
      && ledger == start.(connAllocs := start.connAllocs + 1,
                          pcbNews := start.pcbNews + One(HasPcb()),
                          byLwip := start.byLwip + One(lost),
                          ctxNews := start.ctxNews + One(sslCtx),
                          sslNews := start.sslNews + One(ssl))
      && !(pcb && lost) && armed == pcb && (lost ==> tcpError) && (ssl ==> sslCtx)
    }

    ghost predicate ConnOut() reads this { ledger.connAllocs == ledger.connFrees + 1 }

    ghost predicate PcbOut() reads this {
      ledger.pcbNews == ledger.byLwip + ledger.byClose + ledger.byAbort + 1
    }

    lemma HeldIsOut()
      requires Holding()
      ensures ConnOut() && (pcb ==> PcbOut())
    {
    }

    constructor ()
      ensures Idle() && ledger == Ledger(0, 0, 0, 0, 0, 0, 0, 0, 0, 0)
    {
      pcb, ssl, sslCtx, tcpConnected, tcpError, remoteClosed := false, false, false, false, false, false;
      nowMs, armed, lost := 0, false, false;
      ledger := Ledger(0, 0, 0, 0, 0, 0, 0, 0, 0, 0);
      start := Ledger(0, 0, 0, 0, 0, 0, 0, 0, 0, 0);
    }

    // ---- What lwIP does on its own --------------------------------------------------------------

    /** `on_err`: lwIP has freed the PCB and passes the address of the connection object, which must
        still be allocated. */
    method OnErr()
      requires Holding() && armed && ConnOut() && PcbOut()
      modifies this`pcb, this`tcpError, this`armed, this`lost, this`ledger
      ensures Holding() && lost && tcpError
    {
      ledger := ledger.(byLwip := ledger.byLwip + 1);
      armed, lost := false, true;
      tcpError := true;
      pcb := false;
    }

    /** The callbacks that run while the lock is free, and some time. Without callbacks armed, lwIP
        cannot reach the connection object. */
    method Callbacks(net: Net)
      requires Holding()
      modifies this`pcb, this`tcpError, this`tcpConnected, this`remoteClosed, this`nowMs,
               this`armed, this`lost, this`ledger
      ensures Holding() && nowMs == old(nowMs) + net.ms && HasPcb() == old(HasPcb())
      ensures armed == (old(armed) && !net.failed)
      ensures tcpConnected == (old(tcpConnected) || (old(armed) && net.connected && !net.refused))
      ensures tcpError == (old(tcpError) || (old(armed) && (net.failed || (net.connected && net.refused))))
      ensures remoteClosed == (old(remoteClosed) || (old(armed) && net.closed))
    {
      hide Balanced, One;
      HeldIsOut();
      nowMs := nowMs + net.ms;
      if armed {
        if net.connected {
          if net.refused {
            tcpError := true;
          } else {
            tcpConnected := true;
          }
        }
        if net.closed {
          remoteClosed := true;
        }
        if net.failed {
          OnErr();
        }
      }
    }

    // ---- Library calls --------------------------------------------------------------------------

    /** `calloc` of the connection object: null, or all fields zero */
    method Calloc(given: bool) returns (ok: bool)
      requires Idle()
      modifies this
      ensures ok == given
      ensures ok ==> && Holding() && start == old(ledger) && !pcb && !ssl && !sslCtx && !lost
                     && !tcpConnected && !tcpError && !remoteClosed
      ensures !ok ==> Idle() && ledger == old(ledger)
    {
      if !given {
        return false;
      }
      start := ledger;
      ledger := ledger.(connAllocs := ledger.connAllocs + 1);
      pcb, ssl, sslCtx, tcpConnected, tcpError, remoteClosed := false, false, false, false, false, false;
      lost := false;
      ok := true;
    }

    /** `free` of the connection object: nobody may be able to reach it any more. */
    method Free()
      requires ConnOut() && !armed
      modifies this`ledger
      ensures ledger == old(ledger).(connFrees := old(ledger).connFrees + 1)
    {
      ledger := ledger.(connFrees := ledger.connFrees + 1);
    }

    /** `tcp_new_ip_type`, and the three registrations if it succeeds */
    method NewPcb(given: bool)
      requires Holding() && !pcb && !lost
      modifies this`pcb, this`ledger, this`armed
      ensures Holding() && pcb == given
    {
      if given {
        ledger := ledger.(pcbNews := ledger.pcbNews + 1);
        pcb, armed := true, true;
      }
    }

    /** Any lwIP call on the PCB that leaves it alive: `tcp_connect`, `tcp_write`, `tcp_output` */
    method UsePcb(answer: bool) returns (ok: bool)
      requires PcbOut()
      ensures ok == answer
    {
      ok := answer;
    }

    /** `tcp_close`: on success lwIP takes the PCB over. */
    method TcpClose(answer: bool) returns (ok: bool)
      requires PcbOut() && !armed
      modifies this`ledger
      ensures ok == answer
      ensures ledger == if ok then old(ledger).(byClose := old(ledger).byClose + 1) else old(ledger)
    {
      ok := answer;
      if ok {
        ledger := ledger.(byClose := ledger.byClose + 1);
      }
    }

    /** `tcp_abort` frees the PCB in any case. */
    method TcpAbort()
      requires PcbOut() && !armed
      modifies this`ledger
      ensures ledger == old(ledger).(byAbort := old(ledger).byAbort + 1)
    {
      ledger := ledger.(byAbort := ledger.byAbort + 1);
    }

    method CtxFree()
      requires ledger.ctxNews == ledger.ctxFrees + 1
      modifies this`ledger
      ensures ledger == old(ledger).(ctxFrees := old(ledger).ctxFrees + 1)
    {
      ledger := ledger.(ctxFrees := ledger.ctxFrees + 1);
    }

    method SslFree()
      requires ledger.sslNews == ledger.sslFrees + 1
      modifies this`ledger
      ensures ledger == old(ledger).(sslFrees := old(ledger).sslFrees + 1)
    {
      ledger := ledger.(sslFrees := ledger.sslFrees + 1);
    }

    /** `wssl_send`, and `tls_write` of the plain transport: the test for null keeps lwIP from being
        called on a PCB that it has freed. */
    method WriteTcp(answer: bool) returns (ok: bool)
      requires Holding()
      ensures ok <==> pcb && !tcpError && answer
    {
      if !pcb || tcpError {
        return false;
      }
      HeldIsOut();
      ok := UsePcb(answer);
    }

    /** Any number of transport calls, with or without TLS above them */
    method Traffic(io: seq<Io>)
      requires Holding()
      modifies this`pcb, this`tcpError, this`tcpConnected, this`remoteClosed, this`nowMs,
               this`armed, this`lost, this`ledger
      ensures Holding() && HasPcb() == old(HasPcb())
    {
      for i := 0 to |io|
        invariant Holding() && HasPcb() == old(HasPcb())
      {
        Callbacks(io[i].before);
        if io[i].send {
          var _ := WriteTcp(io[i].accepted);
        }
      }
    }

    // ---- The transports -------------------------------------------------------------------------

    /** `wolfSSL_shutdown`, during which lwIP may still take the PCB */
    method ShutDown(a: CloseAnswers)
      requires Holding() && ssl
      modifies this`pcb, this`tcpError, this`tcpConnected, this`remoteClosed, this`nowMs,
               this`armed, this`lost, this`ledger
      ensures Holding() && HasPcb() == old(HasPcb())
      ensures lost == (old(lost) || (old(pcb) && (a.before.failed || a.after.failed)))
    {
      Callbacks(a.before);
      var _ := WriteTcp(a.accepted);
      Callbacks(a.after);
    }

    /** `tls_close` of both transports. Everything that is still held is given back once, the PCB only
        if lwIP has not taken it, and lwIP forgets the object before it is freed. */
    method Close(a: CloseAnswers)
      requires Holding()
      modifies this
      ensures Idle() && start == old(start) && AtMostOneEach(start, ledger)
      ensures ledger.connFrees == start.connFrees + 1
      ensures ledger.pcbNews == old(ledger).pcbNews && ledger.ctxNews == old(ledger).ctxNews
      ensures ledger.sslNews == old(ledger).sslNews
      ensures lost == (old(lost) || (old(pcb) && old(ssl) && (a.before.failed || a.after.failed)))
      ensures ledger.byLwip == start.byLwip + One(lost)
      ensures ledger.byClose == start.byClose + One(old(pcb) && !lost && a.closed)
      ensures ledger.byAbort == start.byAbort + One(old(pcb) && !lost && !a.closed)
    {
      if ssl {
        ShutDown(a);
        SslFree();
      }
      if sslCtx {
        CtxFree();
      }
      if pcb {
        armed := false;
        var ok := TcpClose(a.closed);
        if !ok {
          TcpAbort();
        }
      }
      Free();
    }

    /** The polls for the connection: up, or not. */
    method AwaitTcp(waits: seq<Net>) returns (ok: bool)
      requires Holding() && pcb && !tcpConnected && !tcpError
      modifies this`pcb, this`tcpError, this`tcpConnected, this`remoteClosed, this`nowMs,
               this`armed, this`lost, this`ledger
      ensures Holding() && HasPcb()
      ensures ok <==> exists i :: ComesUpAt(waits, i)
    {
      hide Balanced, One;
      var deadline := nowMs + CONNECT_TIMEOUT_MS;
      var k := 0;
      while !tcpConnected && !tcpError
        invariant Holding() && HasPcb() && nowMs == old(nowMs) + Elapsed(waits, k)
        invariant if tcpConnected || tcpError then
                    && k > 0 && ComesUpAt(waits, k - 1) == (tcpConnected && !tcpError)
                    && NothingBefore(waits, k - 1) && SomethingAt(waits, k - 1)
                  else
                    pcb && NothingBefore(waits, k)
        decreases deadline + 1 - nowMs, if tcpConnected || tcpError then 0 else 1
      {
        if nowMs > deadline {
          TooLate(waits, k);
          return false;
        }
        ComesUpIff(waits, k);
        Callbacks(WaitAt(waits, k).(ms := 1 + WaitAt(waits, k).ms));
        k := k + 1;
      }
      OnlyThere(waits, k - 1);
      if tcpError {
        return false;
      }
      ok := true;
    }

    /** DNS and TCP, common to both transports: true when the connection is up. Otherwise the caller
        must close. */
    method OpenTcp(a: TcpAnswers) returns (ok: bool)
      requires Holding() && !pcb && !lost && !ssl && !sslCtx && !tcpConnected && !tcpError
      modifies this`pcb, this`tcpError, this`tcpConnected, this`remoteClosed, this`nowMs,
               this`armed, this`lost, this`ledger
      ensures Holding()
      ensures ok <==> TcpComesUp(a)
      ensures HasPcb() <==> a.resolved && a.pcb
    {
      hide Balanced, One;
      if !a.resolved {
        return false;
      }
      NewPcb(a.pcb);
      if !pcb {
        return false;
      }
      HeldIsOut();
      var started := UsePcb(a.started);
      if !started {
        return false;
      }
      ok := AwaitTcp(a.waits);
    }

    /** `tls_connect_plain_attempt`: the connection object, or null with nothing left behind. */
    method ConnectPlain(a: Answers) returns (c: bool)
      requires Idle()
      modifies this
      ensures c <==> a.conn && TcpComesUp(a.tcp)
      ensures c ==> Holding() && start == old(ledger) && HasPcb() && !sslCtx
      ensures !c ==> Idle() && AtMostOneEach(old(ledger), ledger) && ledger.sslNews == old(ledger).sslNews
    {
      hide TcpComesUp;
      c := Calloc(a.conn);
      if !c {
        return false;
      }
      c := OpenTcp(a.tcp);
      if !c {
        Close(a.close);
      } else {
        assert HasPcb() by {
          UpMeansPcb(a.tcp);
        }
      }
    }

    /** The handshake loop: each round runs `wssl_recv` and `wssl_send` any number of times. */
    method ShakeHands(rounds: seq<Round>) returns (ok: bool)
      requires Holding() && ssl
      modifies this`pcb, this`tcpError, this`tcpConnected, this`remoteClosed, this`nowMs,
               this`armed, this`lost, this`ledger
      ensures Holding() && HasPcb() == old(HasPcb())
      ensures ok <==> HandshakeEndsWell(rounds)
    {
      hide Balanced, One;
      for i := 0 to |rounds|
        invariant Holding() && HasPcb() == old(HasPcb())
        invariant forall j :: 0 <= j < i ==> rounds[j].verdict.More?
      {
        Traffic(rounds[i].io);
        if !rounds[i].verdict.More? {
          return rounds[i].verdict.Up?;
        }
      }
      ok := false;
    }

    /** The wolfSSL part of `tls_connect_common`: false wherever it calls `connect_failed`. */
    method OpenTls(a: TlsAnswers) returns (ok: bool)
      requires Holding() && !ssl && !sslCtx && HasPcb()
      modifies this
      ensures Holding() && start == old(start) && HasPcb()
      ensures ok <==> TlsComesUp(a)
      ensures ok ==> ssl && sslCtx
    {
      hide Balanced, HandshakeEndsWell;
      Callbacks(a.first);
      if !a.context {
        return false;
      }
      ledger := ledger.(ctxNews := ledger.ctxNews + 1);
      sslCtx := true;
      Callbacks(a.second);
      if !a.ca || !a.cert || !a.key {
        return false;
      }
      if !a.session {
        return false;
      }
      ledger := ledger.(sslNews := ledger.sslNews + 1);
      ssl := true;
      Callbacks(a.third);
      if !a.curve || !a.share {
        return false;
      }
      ok := ShakeHands(a.rounds);
    }

    /** `tls_connect_common` */
    method ConnectTls(a: Answers) returns (c: bool)
      requires Idle()
      modifies this
      ensures c <==> a.conn && TcpComesUp(a.tcp) && TlsComesUp(a.tls)
      ensures c ==> Holding() && start == old(ledger) && HasPcb() && ssl && sslCtx
      ensures !c ==> Idle() && AtMostOneEach(old(ledger), ledger)
    {
      hide TcpComesUp, TlsComesUp;
      c := Calloc(a.conn);
      if !c {
        return false;
      }
      c := OpenTcp(a.tcp);
      if c {
        UpMeansPcb(a.tcp);
        c := OpenTls(a.tls);
      }
      if !c {
        Close(a.close);
      }
    }

    // ---- Whole attempts -------------------------------------------------------------------------

    /** `run_benchmark_attempt`: connect, the MQTT handshake, and DISCONNECT or not. An attempt succeeds
        exactly when every step of it does. Whatever happens, nothing stays behind, and a successful
        attempt used exactly one of each. */
    method RunAttempt(tls: bool, a: Answers) returns (success: bool)
      requires Idle()
      modifies this
      ensures Idle() && AtMostOneEach(old(ledger), ledger)
      ensures success <==> a.conn && TcpComesUp(a.tcp) && (tls ==> TlsComesUp(a.tls)) && a.mqtt
      ensures !tls ==> ledger.sslNews == old(ledger).sslNews
      ensures success ==> ledger.connFrees == old(ledger).connFrees + 1
      ensures success ==> ledger.pcbNews == old(ledger).pcbNews + 1
      ensures success ==> ledger.sslFrees == old(ledger).sslFrees + One(tls)
      ensures success ==> ledger.ctxFrees == old(ledger).ctxFrees + One(tls)
    {
      hide TcpComesUp, TlsComesUp;
      var c := false;
      if tls {
        c := ConnectTls(a);
      } else {
        c := ConnectPlain(a);
      }
      if !c {
        return false;
      }
      Traffic(a.traffic);
      success := a.mqtt;
      if success {
        Traffic(a.farewell);
      }
      Close(a.close);
    }
  }

  // ---- Runs of the benchmark ------------------------------------------------------------------

  /** No resource was ever handed out more than `n` times. */
  ghost predicate AtMost(l: Ledger, n: nat) {
    l.connAllocs <= n && l.pcbNews <= n && l.ctxNews <= n && l.sslNews <= n
  }

  lemma OneMore(before: Ledger, after: Ledger, n: nat)
    requires AtMost(before, n) && AtMostOneEach(before, after)
    ensures AtMost(after, n + 1)
  {
  }

  lemma NothingUsed()
    ensures AtMost(Ledger(0, 0, 0, 0, 0, 0, 0, 0, 0, 0), 0)
  {
  }

  ghost predicate Succeeds(tls: bool, a: Answers) {
    a.conn && TcpComesUp(a.tcp) && (tls ==> TlsComesUp(a.tls)) && a.mqtt
  }

  ghost function Successes(attempts: seq<Answers>, tls: bool): nat {
    if attempts == [] then 0
    else Successes(attempts[..|attempts|-1], tls) + One(Succeeds(tls, attempts[|attempts|-1]))
  }

  /** Every run of the benchmark ends with the ledger balanced: no leak and no double release however
      many attempts fail, and at most one of each resource for each attempt. The attempts that succeed
      are counted. */
  method RunBenchmark(attempts: seq<Answers>, tls: bool) returns (successes: nat, ghost ledger: Ledger)
    ensures Balanced(ledger) && AtMost(ledger, |attempts|)
    ensures successes == Successes(attempts, tls)
    ensures !tls ==> ledger.sslNews == 0
  {
    hide Balanced, AtMost, AtMostOneEach, TcpComesUp, TlsComesUp;
    var d := new Device();
    assert AtMost(d.ledger, 0) by {
      NothingUsed();
    }
    successes := 0;
    for i := 0 to |attempts|
      invariant d.Idle() && AtMost(d.ledger, i)
      invariant successes == Successes(attempts[..i], tls)
      invariant !tls ==> d.ledger.sslNews == 0
    {
      ghost var before := d.ledger;
      assert attempts[..i + 1][..i] == attempts[..i];
      var success := d.RunAttempt(tls, attempts[i]);
      if success {
        successes := successes + 1;
      }
      OneMore(before, d.ledger, i);
    }
    assert attempts[..|attempts|] == attempts;
    ledger := d.ledger;
  }
}
