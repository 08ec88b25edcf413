/** A run of the client, seen from the broker. */
module Session {
  import opened Common
  import opened BrokerParser
  import opened ClientPackets
  import opened Connack
  import opened MqttClient
  import opened Stream

  /** Requests that keep the connection: connecting and publishing. */
  ghost predicate Requests(calls: seq<Call>) {
    AllFit(calls) && forall c :: c in calls ==> !c.CallDisconnect?
  }

  // ---- What a run amounts to ------------------------------------------------------------------

  /** A request that does not fit the packet buffer is not even tried. */
  predicate Tried(c: Call) {
    c.CallConnect? ==> ConnectRemLen(c) <= PKT_CAP - 5
  }

  /** How a run ends: the requests whose packets went out, whether all requests succeeded, how many bytes
      of one more packet went out, and what is left of the transport. */
  datatype End = End(n: nat, ok: bool, left: nat, plan: List<nat>, inbox: Inbox)

  function Run(calls: seq<Call>, plan: List<nat>, inbox: Inbox): End {
    if calls == [] then End(0, true, 0, plan, inbox)
    else if !Tried(calls[0]) then End(0, false, 0, plan, inbox)
    else
      var (k, next) := DeliverParts(Parts(calls[0]), plan);
      if k < |Wire(calls[0])| then End(0, false, k, next, inbox)
      else
        var (verdict, after) := if calls[0].CallConnect? then RecvConnack(inbox) else (Accepted, inbox);
        if !verdict.Accepted? then End(1, false, 0, next, after)
        else
          var rest := Run(calls[1..], next, after);
          rest.(n := 1 + rest.n)
  }

  /** The broker accepts every CONNECT, and every one of them can be sent. */
  predicate AllAccepted(calls: seq<Call>, inbox: Inbox) {
    calls != [] ==>
      if calls[0].CallConnect? then
        && Tried(calls[0]) && RecvConnack(inbox).0.Accepted?
        && AllAccepted(calls[1..], RecvConnack(inbox).1)
      else
        AllAccepted(calls[1..], inbox)
  }

  /** On a transport that does not fail before everything is out, a run succeeds exactly when the broker
      accepts every CONNECT; only what was not needed is left of the plan. */
  lemma {:induction false} SteadyRunSucceeds(calls: seq<Call>, more: nat, plan: List<nat>, inbox: Inbox)
    requires Steady(plan, |WireAll(calls)| + more)
    ensures var end := Run(calls, plan, inbox);
            && (end.ok <==> AllAccepted(calls, inbox))
            && (end.ok ==> end.n == |calls| && Steady(end.plan, more))
  {
    hide Steady, DeliverParts, RecvConnack, Parts, Wire;
    if calls != [] && Tried(calls[0]) {
      PartsAre(calls[0]);
      SteadyDeliversParts(Parts(calls[0]), |WireAll(calls[1..])| + more, plan);
      var next := DeliverParts(Parts(calls[0]), plan).1;
      var after := if calls[0].CallConnect? then RecvConnack(inbox).1 else inbox;
      SteadyRunSucceeds(calls[1..], more, next, after);
    }
  }

  /** One request; `left` is what it sent if it did not send its whole packet. */
  method Perform(client: Client, c: Call) returns (ok: bool, complete: bool, ghost left: seq<byte>)
    requires client.Framed() && !c.CallDisconnect? && (c.CallConnect? ==> c.keepAlive < TWO_TO_16)
    modifies client`log, client.conn
    ensures client.conn == old(client.conn) != null
    ensures complete ==> client.Framed() && client.log == old(client.log) + [c] && left == []
    ensures !complete ==> && !ok && client.log == old(client.log)
                          && client.conn.sent == old(client.conn.sent) + left
                          && (left == [] || CutShort(left, c))
    ensures var (k, plan) := DeliverParts(Parts(c), old(client.conn.writePlan));
            var inbox := old(client.conn.In());
            var (verdict, next) := if c.CallConnect? then RecvConnack(inbox) else (Accepted, inbox);
            && complete == (Tried(c) && k == |Wire(c)|) && |left| == (if Tried(c) && !complete then k else 0)
            && client.conn.writePlan == (if Tried(c) then plan else old(client.conn.writePlan))
            && client.conn.In() == (if complete then next else inbox)
            && ok == (complete && verdict.Accepted?)
  {
    hide Wire, WireAll, DeliverParts, RecvConnack;
    ghost var k := DeliverParts(Parts(c), client.conn.writePlan).0;
    match c {
      case CallConnect(id, keepAlive, wt, wp, retain) =>
        var error: int;
        ghost var verdict := RecvConnack(client.conn.In()).0;
        ok, error := client.Connect(id, keepAlive, wt, wp, retain);
        assert ErrorOf(verdict) != TLS_ATTEMPT_ERR_MQTT_SEND;
        complete := error != TLS_ATTEMPT_ERR_MQTT_SEND && ConnectRemLen(c) <= PKT_CAP - 5;
      case CallPublish(topic, payload, retain) =>
        ok := client.Publish(topic, payload, retain);
        complete := ok;
    }
    left := if Tried(c) && !complete then Wire(c)[..k] else [];
    assert client.conn.sent + [] == client.conn.sent;
  }

  /** What the broker makes of the completed packets and the beginning of the next one. */
  lemma SeenByBroker(calls: seq<Call>, n: nat, left: seq<byte>)
    requires Requests(calls) && n <= |calls|
    requires left == [] || (n < |calls| && CutShort(left, calls[n]))
    ensures ParseStream(WireAll(calls[..n]) + left) == Some((Meanings(calls[..n]), left))
  {
    hide WireAll, Meanings, ParseStream;
    var next := if n < |calls| then calls[n] else CallDisconnect;
    assert left == Wire(next)[..|left|];
    SessionRoundTrip(calls[..n], next, |left|);
  }

  function Later(n: nat, end: End): End {
    end.(n := n + end.n)
  }

  /** Requests one after the other until one fails, over a transport that accepts any part of what it
      is given: the broker has read exactly the completed requests, in order, and is left with a strict
      prefix of at most one more packet. */
  method RunSession(client: Client, calls: seq<Call>) returns (n: nat, ok: bool, ghost left: seq<byte>)
    requires client.Framed() && client.log == [] && Requests(calls)
    modifies client`log, client.conn
    ensures n <= |calls| && client.log == calls[..n]
    ensures ok ==> n == |calls| && left == [] && client.Framed()
    ensures left == [] || (n < |calls| && CutShort(left, calls[n]))
    ensures client.conn == old(client.conn) != null
    ensures ParseStream(client.conn.sent) == Some((Meanings(calls[..n]), left))
    ensures End(n, ok, |left|, client.conn.writePlan, client.conn.In())
         == Run(calls, old(client.conn.writePlan), old(client.conn.In()))
  {
    hide Wire, WireAll, Meanings, ParseStream, DeliverParts, RecvConnack, Parts;
    n, ok, left := 0, true, [];
    while n < |calls|
      invariant n <= |calls| && client.Framed() && client.log == calls[..n]
      invariant client.conn == old(client.conn) && ok && left == []
      invariant Later(n, Run(calls[n..], client.conn.writePlan, client.conn.In()))
             == Run(calls, old(client.conn.writePlan), old(client.conn.In()))
    {
      var complete: bool;
      ghost var out: seq<byte>;
      assert calls[n..][1..] == calls[n + 1..];
      ok, complete, out := Perform(client, calls[n]);
      if complete {
        n := n + 1;
        assert calls[..n] == calls[..n - 1] + [calls[n - 1]];
      }
      if !ok {
        left := out;
        break;
      }
    }
    assert client.conn.sent == WireAll(calls[..n]) + left;
    SeenByBroker(calls, n, left);
  }

  lemma {:induction false} MeaningsSnoc(calls: seq<Call>, c: Call)
    ensures Meanings(calls + [c]) == Meanings(calls) + [Meaning(c)]
  {
    if calls == [] {
      assert ([] + [c])[1..] == [];
    } else {
      assert (calls + [c])[1..] == calls[1..] + [c];
      MeaningsSnoc(calls[1..], c);
    }
  }

  /** What the broker makes of a session that ends with a DISCONNECT. */
  lemma EndSeenByBroker(calls: seq<Call>)
    requires Requests(calls)
    ensures ParseStream(WireAll(calls + [CallDisconnect])) == Some((Meanings(calls) + [Disconnect], []))
  {
    hide WireAll, Meanings, ParseStream;
    var all := calls + [CallDisconnect];
    SessionRoundTrip(all, CallDisconnect, 0);
    assert WireAll(all) + Wire(CallDisconnect)[..0] == WireAll(all);
    MeaningsSnoc(calls, CallDisconnect);
  }

  lemma FarewellCutShort(calls: seq<Call>, left: seq<byte>)
    requires Requests(calls) && CutShort(left, CallDisconnect)
    ensures ParseStream(WireAll(calls) + left) == Some((Meanings(calls), left))
  {
    hide WireAll, Meanings, ParseStream;
    SessionRoundTrip(calls, CallDisconnect, |left|);
  }

  lemma DisconnectIsTwoBytes()
    ensures |Wire(CallDisconnect)| == 2 && Wire(CallDisconnect)[..2] == Wire(CallDisconnect)
  {
  }

  /** A whole session: the requests, and a DISCONNECT if none of them failed. The broker has read all
      of it, or the requests and a strict prefix of the DISCONNECT; after a failure, what `RunSession`
      says. On a transport that does not fail, it is all of it exactly when the broker accepts every
      CONNECT. */
  method RunToDisconnect(client: Client, calls: seq<Call>)
    returns (n: nat, ok: bool, ghost farewell: bool, ghost left: seq<byte>)
    requires client.Framed() && client.log == [] && Requests(calls)
    modifies client, client.conn
    ensures n <= |calls| && (ok ==> n == |calls| && client.conn == null)
    ensures farewell ==> ok && left == []
    ensures ok && !farewell ==> CutShort(left, CallDisconnect)
    ensures !ok ==> client.conn == old(client.conn) && (left == [] || (n < |calls| && CutShort(left, calls[n])))
    ensures ok == Run(calls, old(client.conn.writePlan), old(client.conn.In())).ok
    ensures Steady(old(client.conn.writePlan), |WireAll(calls)| + 2) ==>
              (ok <==> AllAccepted(calls, old(client.conn.In()))) && (ok ==> farewell)
    ensures ParseStream(old(client.conn).sent)
         == Some((Meanings(calls[..n]) + (if farewell then [Disconnect] else []), left))
  {
    hide Wire, WireAll, Meanings, ParseStream, Run, AllAccepted, Deliver, Steady;
    var conn := client.conn;
    farewell := false;
    ghost var plan, inbox := conn.writePlan, conn.In();
    n, ok, left := RunSession(client, calls);
    assert Meanings(calls[..n]) + [] == Meanings(calls[..n]);
    if Steady(plan, |WireAll(calls)| + 2) {
      SteadyRunSucceeds(calls, 2, plan, inbox);
    }
    if ok {
      assert calls[..n] == calls;
      ghost var k := Deliver(2, conn.writePlan).0;
      if Steady(conn.writePlan, 2) {
        SteadyDelivers(2, 0, conn.writePlan);
      }
      DisconnectIsTwoBytes();
      client.Disconnect();
      left := Wire(CallDisconnect)[..k];
      if k == 2 {
        farewell := true;
        WireAllSnoc(calls, CallDisconnect);
        EndSeenByBroker(calls);
        left := [];
      } else {
        FarewellCutShort(calls, left);
      }
    }
  }
}
