/** What a client of the HTTP gateway gets back (gateway.js): who is let in, that an honest client ends
    with a session of its own whatever the others do, and that every message it sends is answered. */
module GatewayAnswers {
  import opened Bytes
  import opened Primitives
  import opened Frames
  import opened Channels
  import opened Handshake
  import opened HttpGateway
  import GatewayTakeover

  // ---- connecting ---------------------------------------------------------------------------------------

  /** The session map can hold this client. */
  predicate Room(sessions: Sessions, id: Bytes) {
    id in sessions || |sessions| < MAX_SESSIONS
  }

  /** Every hello the handshake accepts is answered, as long as there is room for its client. */
  lemma HelloAnsweredIff(cfg: Config, sessions: Sessions, hello: Hello, serverEph: nat)
    requires ValidSessions(sessions)
    ensures var hs, (s, r) := ServerHandshake(cfg.env, cfg.identity, hello, cfg.allow, serverEph),
                              Handle(cfg, sessions, HelloRequest(hello, serverEph));
            var c := cfg.env.fingerprint(hello.clientIdentity);
            && (r.HelloOk? <==> hs.Ok? && Room(sessions, c))
            && (r.HelloOk? ==>
                  r.reply == hs.value.reply && c in s &&
                  s[c].pending == Some(Pending(hs.value.channel, hs.value.expectedConfirm)))
            && (!r.HelloOk? ==> s == sessions && r == Failed(if hs.Err? then 403 else 503))
  {
  }

  /** The request is neither a hello nor a confirm under the name c. */
  predicate LeavesPending(cfg: Config, req: Request, c: Bytes) {
    match req
    case HelloRequest(hello, _) => cfg.env.fingerprint(hello.clientIdentity) != c
    case ConfirmRequest(id, _) => id != c
    case MsgRequest(_, _) => true
  }

  predicate Awaits(cfg: Config, reqs: seq<Request>, c: Bytes, pending: Option<Pending>) {
    c in After(cfg, reqs) && After(cfg, reqs)[c].pending == pending
  }

  lemma AwaitsOn(cfg: Config, reqs: seq<Request>, req: Request, c: Bytes, pending: Option<Pending>)
    requires Awaits(cfg, reqs, c, pending) && LeavesPending(cfg, req, c)
    ensures Awaits(cfg, reqs + [req], c, pending)
  {
    GatewayTakeover.AfterOne(cfg, reqs, req);
    OnlyConfirmGoesLive(cfg, After(cfg, reqs), req, c);
  }

  /** Requests of others leave the pending half of a session what it was. */
  lemma {:induction false} PendingStays(cfg: Config, before: seq<Request>, between: seq<Request>, c: Bytes, pending: Option<Pending>)
    requires Awaits(cfg, before, c, pending) && forall r :: r in between ==> LeavesPending(cfg, r, c)
    ensures Awaits(cfg, before + between, c, pending)
    decreases |between|
  {
    if between == [] {
      AppendNothing(before);
    } else {
      AwaitsOn(cfg, before, between[0], c, pending);
      PendingStays(cfg, before + [between[0]], between[1..], c, pending);
      HeadTail(between);
      Regroup(before, [between[0]], between[1..]);
    }
  }

  /** From any map with room, an allowed client's hello is answered, it can finish on the answer with the
      gateway's key pinned, and its confirm, whatever was asked under other names in between, leaves a live
      channel under its name that is the other end of its own. */
  lemma HonestClientConnects(
    cfg: Config, before: seq<Request>, between: seq<Request>, client: nat, eph: nat, serverEph: nat)
    returns (reply: Reply, finished: Finished)
    requires cfg.env.curve.Commutes()
    requires cfg.allow(cfg.env.curve.pub(client), cfg.env.fingerprint(cfg.env.curve.pub(client)))
    requires Ikm(cfg.env.curve, client, cfg.env.curve.pub(cfg.identity), eph, cfg.env.curve.pub(serverEph)).Some?
    requires Room(After(cfg, before), cfg.env.fingerprint(cfg.env.curve.pub(client)))
    requires forall r :: r in between ==> LeavesPending(cfg, r, cfg.env.fingerprint(cfg.env.curve.pub(client)))
    ensures var c, hello := cfg.env.fingerprint(cfg.env.curve.pub(client)), ClientHello(cfg.env, client, eph);
            var greeted := before + [HelloRequest(hello, serverEph)] + between;
            var confirm := ConfirmRequest(c, finished.confirm);
            && Handle(cfg, After(cfg, before), HelloRequest(hello, serverEph)).1 == HelloOk(reply)
            && ClientFinish(cfg.env, client, eph, hello, reply, Some(cfg.env.curve.pub(cfg.identity))) == Ok(finished)
            && Handle(cfg, After(cfg, greeted), confirm).1 == ConfirmOk
            && var s := After(cfg, greeted + [confirm]);
               c in s && s[c].channel.Some? && SameSession(finished.channel, s[c].channel.value) &&
               InStep(finished.channel, s[c].channel.value)
  {
    var c, hello := cfg.env.fingerprint(cfg.env.curve.pub(client)), ClientHello(cfg.env, client, eph);
    var pin := Some(cfg.env.curve.pub(cfg.identity));
    HonestHandshakeCompletes(cfg.env, cfg.identity, serverEph, client, eph, cfg.allow, pin);
    var accepted := ServerHandshake(cfg.env, cfg.identity, hello, cfg.allow, serverEph).value;
    reply := accepted.reply;
    finished := ClientFinish(cfg.env, client, eph, hello, reply, pin).value;
    HelloAnsweredIff(cfg, After(cfg, before), hello, serverEph);
    GatewayTakeover.AfterOne(cfg, before, HelloRequest(hello, serverEph));
    var greeted := before + [HelloRequest(hello, serverEph)] + between;
    PendingStays(cfg, before + [HelloRequest(hello, serverEph)], between, c,
      Some(Pending(accepted.channel, accepted.expectedConfirm)));
    GatewayTakeover.AfterOne(cfg, greeted, ConfirmRequest(c, finished.confirm));
    FreshInStep(cfg, client, eph, serverEph);
  }

  lemma FreshInStep(cfg: Config, client: nat, eph: nat, serverEph: nat)
    requires cfg.env.curve.Commutes()
    requires var hs := ServerHandshake(cfg.env, cfg.identity, ClientHello(cfg.env, client, eph), cfg.allow, serverEph);
             hs.Ok? && ClientFinish(cfg.env, client, eph, ClientHello(cfg.env, client, eph), hs.value.reply,
                                    Some(cfg.env.curve.pub(cfg.identity))).Ok?
    ensures var hs := ServerHandshake(cfg.env, cfg.identity, ClientHello(cfg.env, client, eph), cfg.allow, serverEph);
            InStep(ClientFinish(cfg.env, client, eph, ClientHello(cfg.env, client, eph), hs.value.reply,
                                Some(cfg.env.curve.pub(cfg.identity))).value.channel, hs.value.channel)
  {
    var tr, ikm := HonestReplyFinishes(
      cfg.env, cfg.identity, serverEph, client, eph, cfg.allow, Some(cfg.env.curve.pub(cfg.identity)));
  }

  // ---- who is live ----------------------------------------------------------------------------------------

  /** Some confirm of the run proved the then latest hello of c. */
  ghost predicate EverProven(cfg: Config, reqs: seq<Request>, c: Bytes) {
    exists i, j :: 0 <= i < j < |reqs| && Proven(cfg, reqs, i, j, c)
  }

  predicate Live(cfg: Config, reqs: seq<Request>, c: Bytes) {
    c in After(cfg, reqs) && After(cfg, reqs)[c].channel.Some?
  }

  /** The latest hello of c is still pending, or c is live. */
  ghost predicate Tracked(cfg: Config, reqs: seq<Request>, c: Bytes) {
    forall i :: 0 <= i < |reqs| && LatestHello(cfg, reqs, i, |reqs|, c) ==>
      Live(cfg, reqs, c) || Awaits(cfg, reqs, c, PendingOf(cfg, reqs, i))
  }

  function PendingOf(cfg: Config, reqs: seq<Request>, i: nat): Option<Pending>
    requires i < |reqs| && reqs[i].HelloRequest?
    requires ServerHandshake(cfg.env, cfg.identity, reqs[i].hello, cfg.allow, reqs[i].serverEph).Ok?
  {
    Some(Pending(HandshakeOf(cfg, reqs, i).channel, HandshakeOf(cfg, reqs, i).expectedConfirm))
  }

  lemma TrackedStep(cfg: Config, init: seq<Request>, req: Request, c: Bytes)
    requires Tracked(cfg, init, c)
    ensures Tracked(cfg, init + [req], c)
  {
    var reqs, n := init + [req], |init|;
    GatewayTakeover.AfterOne(cfg, init, req);
    OnlyConfirmGoesLive(cfg, After(cfg, init), req, c);
    PrefixHellos(cfg, init, req, c);
    forall i | 0 <= i < |reqs| && LatestHello(cfg, reqs, i, |reqs|, c)
      ensures Live(cfg, reqs, c) || Awaits(cfg, reqs, c, PendingOf(cfg, reqs, i))
    {
      if i == n {
        HelloBecomesPending(cfg, init, req, c);
      } else {
        assert LatestHello(cfg, init, i, n, c);
        assert reqs[i] == init[i];
        assert !HelloFor(cfg, reqs, n, c);
        NoHelloKeeps(cfg, init, req, c);
      }
    }
  }

  lemma NoHelloKeeps(cfg: Config, init: seq<Request>, req: Request, c: Bytes)
    requires !HelloFor(cfg, init + [req], |init|, c) && c in After(cfg, init)
    ensures Live(cfg, init + [req], c) || Awaits(cfg, init + [req], c, After(cfg, init)[c].pending)
    ensures Live(cfg, init, c) ==> Live(cfg, init + [req], c)
  {
    assert (init + [req])[..|init|] == init;
    OnlyConfirmGoesLive(cfg, After(cfg, init), req, c);
  }

  lemma LiveStays(cfg: Config, init: seq<Request>, req: Request, c: Bytes)
    requires Live(cfg, init, c)
    ensures Live(cfg, init + [req], c)
  {
    GatewayTakeover.AfterOne(cfg, init, req);
    OnlyConfirmGoesLive(cfg, After(cfg, init), req, c);
  }

  /** A confirm that proves the latest hello leaves its client live. */
  lemma ProofGoesLive(cfg: Config, init: seq<Request>, req: Request, i: nat, c: Bytes)
    requires Tracked(cfg, init, c) && i < |init| && Proven(cfg, init + [req], i, |init|, c)
    ensures Live(cfg, init + [req], c)
  {
    var reqs := init + [req];
    GatewayTakeover.AfterOne(cfg, init, req);
    PrefixHellos(cfg, init, req, c);
    assert reqs[i] == init[i] && reqs[|init|] == req;
    assert LatestHello(cfg, init, i, |init|, c);
    if Live(cfg, init, c) {
      LiveStays(cfg, init, req, c);
    }
  }

  /** Over every run: the name c is live exactly if some confirm proved the then latest hello of c. */
  lemma {:induction false} LiveIffProven(cfg: Config, reqs: seq<Request>, c: Bytes)
    ensures Live(cfg, reqs, c) <==> EverProven(cfg, reqs, c)
    ensures Tracked(cfg, reqs, c)
  {
    LiveChannelsAreProven(cfg, reqs, c);
    if reqs == [] {
    } else {
      var n := |reqs| - 1;
      LiveIffProven(cfg, reqs[..n], c);
      assert reqs == reqs[..n] + [reqs[n]];
      TrackedStep(cfg, reqs[..n], reqs[n], c);
      if EverProven(cfg, reqs, c) {
        var i, j :| 0 <= i < j < |reqs| && Proven(cfg, reqs, i, j, c);
        if j == n {
          ProofGoesLive(cfg, reqs[..n], reqs[n], i, c);
        } else {
          EarlierProof(cfg, reqs[..n], reqs[n], i, j, c);
          LiveStays(cfg, reqs[..n], reqs[n], c);
        }
      }
    }
  }

  lemma EarlierProof(cfg: Config, init: seq<Request>, req: Request, i: nat, j: nat, c: Bytes)
    requires i < j < |init| && Proven(cfg, init + [req], i, j, c)
    ensures EverProven(cfg, init, c)
  {
    PrefixHellos(cfg, init, req, c);
    assert (init + [req])[i] == init[i] && (init + [req])[j] == init[j];
    assert LatestHello(cfg, init, i, j, c);
    assert Proven(cfg, init, i, j, c);
  }

  /** The live channel counted a refused frame, if its nonce is one a sender makes, and is otherwise unchanged. */
  predicate CountsRefusal(before: Session, after: Session, frame: Frame) {
    && before.channel.Some? && after.channel.Some? && after.pending == before.pending
    && var a, b := before.channel.value, after.channel.value;
       && b == a.(replayRejected := b.replayRejected, authRejected := b.authRejected)
       && b.replayRejected + b.authRejected ==
          a.replayRejected + a.authRejected + (if ChannelState.Meta(frame).Some? then 1 else 0)
  }

  /** What a message is answered with, from the run alone where it can be: 401 exactly if no confirm ever
      proved its client, 403 exactly if it does not open, which the channel counts, 500 exactly if no counter is left. */
  lemma MessageStatus(cfg: Config, reqs: seq<Request>, c: Bytes, frame: Frame)
    ensures var (s, r) := Handle(cfg, After(cfg, reqs), MsgRequest(c, frame));
            if !EverProven(cfg, reqs, c) then r == Failed(401) && s == After(cfg, reqs)
            else
              Live(cfg, reqs, c) &&
              var (chan, pt) := After(cfg, reqs)[c].channel.value.Recv(cfg.aead, frame);
              if pt.None? then r == Failed(403) && c in s && CountsRefusal(After(cfg, reqs)[c], s[c], frame)
              else
                |chan.tx| == MAX_STREAMS &&
                if chan.tx[STREAM_WS] >= MAX_COUNTER then r == Failed(500) else r.MsgOk? && r.frame.kind == TYPE_CMD
  {
    LiveIffProven(cfg, reqs, c);
    MessageAt(cfg, After(cfg, reqs), c, frame);
  }

  lemma RefusalCounted(cfg: Config, chan: ChannelState, frame: Frame)
    requires chan.Valid()
    ensures var (after, pt) := chan.Recv(cfg.aead, frame);
            && after.Valid() && after.tx == chan.tx
            && (pt.None? ==> CountsRefusal(Session(None, Some(chan)), Session(None, Some(after)), frame))
  {
    ChannelStepsKeepKeys(chan, cfg.aead, frame, [], 0, 0);
  }

  lemma MessageAt(cfg: Config, sessions: Sessions, c: Bytes, frame: Frame)
    requires ValidSessions(sessions)
    ensures var (s, r) := Handle(cfg, sessions, MsgRequest(c, frame));
            if c !in sessions || sessions[c].channel.None? then r == Failed(401) && s == sessions
            else
              var (chan, pt) := sessions[c].channel.value.Recv(cfg.aead, frame);
              if pt.None? then r == Failed(403) && c in s && CountsRefusal(sessions[c], s[c], frame)
              else
                |chan.tx| == MAX_STREAMS &&
                if chan.tx[STREAM_WS] >= MAX_COUNTER then r == Failed(500) else r.MsgOk? && r.frame.kind == TYPE_CMD
  {
    if c in sessions && sessions[c].channel.Some? {
      RefusalCounted(cfg, sessions[c].channel.value, frame);
    }
  }

  // ---- talking --------------------------------------------------------------------------------------------

  /** One exchange of a client: it seals a payload, posts it, and opens the answer. */
  function Exchange(cfg: Config, client: ChannelState, sessions: Sessions, id: Bytes, payload: Bytes)
    : (ChannelState, Sessions, Option<Bytes>)
    requires client.Valid() && ValidSessions(sessions)
  {
    var (client1, sent) := client.Send(cfg.aead, payload, TYPE_CMD, STREAM_WS);
    if sent.Refused? then (client, sessions, None)
    else
      var (sessions1, r) := Handle(cfg, sessions, MsgRequest(id, sent.frame));
      ChannelStepsKeepKeys(client, cfg.aead, sent.frame, payload, TYPE_CMD, STREAM_WS);
      if !r.MsgOk? then (client1, sessions1, None)
      else
        var (client2, heard) := client1.Recv(cfg.aead, r.frame);
        (client2, sessions1, heard)
  }

  /** The session live under this name is the other end of the client's channel. */
  predicate Connected(client: ChannelState, sessions: Sessions, id: Bytes) {
    id in sessions && sessions[id].channel.Some? && InStep(client, sessions[id].channel.value)
  }

  /** Counters left for n more messages each way. */
  predicate CountersLeft(client: ChannelState, sessions: Sessions, id: Bytes, n: nat)
    requires Connected(client, sessions, id)
  {
    client.tx[STREAM_WS] + n <= MAX_COUNTER && sessions[id].channel.value.tx[STREAM_WS] + n <= MAX_COUNTER
  }

  /** What the gateway makes of a message that opens. */
  lemma MessageHandled(cfg: Config, sessions: Sessions, id: Bytes, frame: Frame, server1: ChannelState, got: Bytes)
    requires ValidSessions(sessions) && id in sessions && sessions[id].channel.Some? && server1.Valid()
    requires sessions[id].channel.value.Recv(cfg.aead, frame) == (server1, Some(got))
    ensures var (server2, r) := server1.Send(cfg.aead, cfg.answer(got), TYPE_CMD, STREAM_WS);
            Handle(cfg, sessions, MsgRequest(id, frame)) ==
            (sessions[id := sessions[id].(channel := Some(server2))], if r.Sent? then MsgOk(r.frame) else Failed(500))
  {
  }

  /** What an exchange comes to when each of its steps goes through. */
  lemma ExchangeGoes(
    cfg: Config, client: ChannelState, sessions: Sessions, id: Bytes, payload: Bytes,
    client1: ChannelState, posted: Frame, sessions1: Sessions, replied: Frame)
    requires client.Valid() && ValidSessions(sessions) && client1.Valid()
    requires var (c, r) := client.Send(cfg.aead, payload, TYPE_CMD, STREAM_WS);
             c == client1 && r.Sent? && r.frame == posted
    requires Handle(cfg, sessions, MsgRequest(id, posted)) == (sessions1, MsgOk(replied))
    ensures var (client2, heard) := client1.Recv(cfg.aead, replied);
            Exchange(cfg, client, sessions, id, payload) == (client2, sessions1, heard)
  {
  }

  /** What a connected client posts is answered with the agent's answer to it, which the client opens,
      and the two ends stay connected. */
  lemma MessageAnswered(cfg: Config, client: ChannelState, sessions: Sessions, id: Bytes, payload: Bytes, n: nat)
    requires cfg.aead.Sound() && ValidSessions(sessions) && Connected(client, sessions, id)
    requires CountersLeft(client, sessions, id, n + 1)
    ensures Answered(cfg, Exchange(cfg, client, sessions, id, payload), id, payload, n)
  {
    var server, answer := sessions[id].channel.value, cfg.answer(payload);
    SentIsReceived(cfg.aead, client, server, payload, TYPE_CMD, STREAM_WS);
    var (client1, sent) := client.Send(cfg.aead, payload, TYPE_CMD, STREAM_WS);
    var (server1, got) := server.Recv(cfg.aead, sent.frame);
    SentIsReceived(cfg.aead, server1, client1, answer, TYPE_CMD, STREAM_WS);
    var (server2, replied) := server1.Send(cfg.aead, answer, TYPE_CMD, STREAM_WS);
    MessageHandled(cfg, sessions, id, sent.frame, server1, payload);
    var sessions1 := sessions[id := sessions[id].(channel := Some(server2))];
    ExchangeGoes(cfg, client, sessions, id, payload, client1, sent.frame, sessions1, replied.frame);
    StaysAnswered(cfg, sessions, id, payload, n, client1.Recv(cfg.aead, replied.frame).0, server2);
  }

  predicate Answered(cfg: Config, after: (ChannelState, Sessions, Option<Bytes>), id: Bytes, payload: Bytes, n: nat) {
    && after.2 == Some(cfg.answer(payload))
    && ValidSessions(after.1) && Connected(after.0, after.1, id) && CountersLeft(after.0, after.1, id, n)
  }

  lemma StaysAnswered(cfg: Config, sessions: Sessions, id: Bytes, payload: Bytes, n: nat, client: ChannelState, server: ChannelState)
    requires ValidSessions(sessions) && id in sessions && InStep(server, client)
    requires client.tx[STREAM_WS] + n <= MAX_COUNTER && server.tx[STREAM_WS] + n <= MAX_COUNTER
    ensures Answered(cfg, (client, sessions[id := sessions[id].(channel := Some(server))], Some(cfg.answer(payload))), id, payload, n)
  {
  }

  /** What the client opens in a conversation. */
  function Conversation(cfg: Config, client: ChannelState, sessions: Sessions, id: Bytes, payloads: seq<Bytes>): seq<Option<Bytes>>
    requires cfg.aead.Sound() && ValidSessions(sessions) && Connected(client, sessions, id)
    requires CountersLeft(client, sessions, id, |payloads|)
    decreases |payloads|
  {
    if payloads == [] then []
    else
      MessageAnswered(cfg, client, sessions, id, payloads[0], |payloads| - 1);
      var (client1, sessions1, heard) := Exchange(cfg, client, sessions, id, payloads[0]);
      [heard] + Conversation(cfg, client1, sessions1, id, payloads[1..])
  }

  /** A whole conversation: the i-th answer is the agent's answer to the i-th payload. */
  lemma {:induction false} ConversationAnswered(cfg: Config, client: ChannelState, sessions: Sessions, id: Bytes, payloads: seq<Bytes>)
    requires cfg.aead.Sound() && ValidSessions(sessions) && Connected(client, sessions, id)
    requires CountersLeft(client, sessions, id, |payloads|)
    ensures var heard := Conversation(cfg, client, sessions, id, payloads);
            |heard| == |payloads| && forall i :: 0 <= i < |payloads| ==> heard[i] == Some(cfg.answer(payloads[i]))
    decreases |payloads|
  {
    if payloads == [] {
    } else {
      MessageAnswered(cfg, client, sessions, id, payloads[0], |payloads| - 1);
      var (client1, sessions1, heard) := Exchange(cfg, client, sessions, id, payloads[0]);
      ConversationAnswered(cfg, client1, sessions1, id, payloads[1..]);
    }
  }
}
