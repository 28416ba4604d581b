/** What a client of the WebSocket gateway gets back (transport/ws-gateway.js): the handshake's answers,
    pong, echo and loopback as the client opens them, and what the counters of a connection count. */
module WsAnswers {
  import opened Bytes
  import opened Primitives
  import opened Frames
  import opened Channels
  import opened Handshake
  import opened WsGateway

  // ---- what an authenticated message draws -----------------------------------------------------------------

  /** The client's frame as it arrives. */
  function Carrying(kind: byte, frame: Frame): Incoming {
    Incoming(Pack(kind, frame.nonce, frame.box), true, None, 0)
  }

  /** One frame and nothing else, which the client takes apart and opens as this message. */
  predicate Draws(aead: Aead, client: ChannelState, out: seq<Outgoing>, kind: int, pt: Bytes)
    requires client.Valid()
  {
    && |out| == 1 && out[0].SealedFrame? && Unpack(out[0].wire).Some?
    && var frame := Unpack(out[0].wire).value;
       frame.kind == kind && client.Recv(aead, frame).1 == Some(pt)
  }

  /** The client is the other end of the connection, which is authenticated. */
  predicate Connected(client: ChannelState, conn: Conn) {
    conn.Valid() && conn.channel.Some? && InStep(client, conn.channel.value)
  }

  predicate CanSend(chan: ChannelState) {
    chan.Valid() && chan.tx[STREAM_WS] < MAX_COUNTER
  }

  /** The gateway opens what the client sends next and routes it, still in step with the client. */
  lemma MessageRouted(cfg: Config, conn: Conn, client: ChannelState, kind: byte, pt: Bytes) returns (msg: Incoming, routed: Conn)
    requires cfg.aead.Sound() && Connected(client, conn) && CanSend(client)
    ensures var (client', sent) := client.Send(cfg.aead, pt, kind, STREAM_WS);
            && sent.Sent? && msg == Carrying(kind, sent.frame)
            && Connected(client', routed) && routed == conn.(channel := routed.channel, heard := conn.heard + [pt])
            && routed.channel.value.tx == conn.channel.value.tx
            && OnMessage(cfg, conn, false, msg) == OnPlaintext(cfg, routed, kind, pt)
  {
    var frame, chan := FrameArrives(cfg.aead, client, conn.channel.value, kind, pt);
    msg := Carrying(kind, frame);
    routed := WhenOpened(cfg, conn, msg, frame, chan, pt);
  }

  lemma FrameArrives(aead: Aead, client: ChannelState, server: ChannelState, kind: byte, pt: Bytes)
    returns (frame: Frame, server': ChannelState)
    requires aead.Sound() && InStep(client, server) && CanSend(client)
    ensures client.Send(aead, pt, kind, STREAM_WS).1 == Sent(frame, client.tx[STREAM_WS])
    ensures frame.kind == kind && Unpack(Pack(kind, frame.nonce, frame.box)) == Some(frame)
    ensures server.Recv(aead, frame) == (server', Some(pt)) && server'.tx == server.tx
    ensures InStep(client.Send(aead, pt, kind, STREAM_WS).0, server')
  {
    SentIsReceived(aead, client, server, pt, kind, STREAM_WS);
    frame := client.Send(aead, pt, kind, STREAM_WS).1.frame;
    UnpackPack(kind, frame.nonce, frame.box);
    server' := server.Recv(aead, frame).0;
  }

  lemma WhenOpened(cfg: Config, conn: Conn, msg: Incoming, frame: Frame, chan: ChannelState, pt: Bytes) returns (routed: Conn)
    requires conn.Valid() && conn.channel.Some? && chan.Valid()
    requires Unpack(msg.bytes) == Some(frame) && conn.channel.value.Recv(cfg.aead, frame) == (chan, Some(pt))
    ensures routed == conn.(channel := Some(chan), heard := conn.heard + [pt])
    ensures OnMessage(cfg, conn, false, msg) == OnPlaintext(cfg, routed, frame.kind, pt)
  {
    routed := conn.(channel := Some(chan), heard := conn.heard + [pt]);
  }

  /** What the gateway seals, its client opens. */
  lemma SealDraws(cfg: Config, conn: Conn, client: ChannelState, pt: Bytes, kind: byte)
    requires cfg.aead.Sound() && Connected(client, conn) && CanSend(conn.channel.value)
    ensures Draws(cfg.aead, client, SealTo(cfg, conn, pt, kind).1, kind, pt)
  {
    SentIsReceived(cfg.aead, conn.channel.value, client, pt, kind, STREAM_WS);
    var frame := conn.channel.value.Send(cfg.aead, pt, kind, STREAM_WS).1.frame;
    UnpackPack(kind, frame.nonce, frame.box);
  }

  /** A ping draws exactly one frame, which the client opens as an empty pong. */
  lemma PingDrawsPong(cfg: Config, conn: Conn, client: ChannelState, pt: Bytes)
    requires cfg.aead.Sound() && Connected(client, conn) && CanSend(client) && CanSend(conn.channel.value)
    ensures var (client', sent) := client.Send(cfg.aead, pt, TYPE_PING, STREAM_WS);
            sent.Sent? && client'.Valid() &&
            Draws(cfg.aead, client', OnMessage(cfg, conn, false, Carrying(TYPE_PING, sent.frame)).1, TYPE_PONG, [])
  {
    var msg, routed := MessageRouted(cfg, conn, client, TYPE_PING, pt);
    SealDraws(cfg, routed, client.Send(cfg.aead, pt, TYPE_PING, STREAM_WS).0, [], TYPE_PONG);
  }

  /** A command draws its echo, or nothing if it is not JSON. */
  lemma CommandDrawsEcho(cfg: Config, conn: Conn, client: ChannelState, pt: Bytes)
    requires cfg.aead.Sound() && Connected(client, conn) && CanSend(client) && CanSend(conn.channel.value)
    ensures var (client', sent) := client.Send(cfg.aead, pt, TYPE_CMD, STREAM_WS);
            sent.Sent? && client'.Valid() &&
            var out := OnMessage(cfg, conn, false, Carrying(TYPE_CMD, sent.frame)).1;
            if cfg.echo(pt).Some? then Draws(cfg.aead, client', out, TYPE_CMD, cfg.echo(pt).value) else out == []
  {
    var msg, routed := MessageRouted(cfg, conn, client, TYPE_CMD, pt);
    if cfg.echo(pt).Some? {
      SealDraws(cfg, routed.(cmds := routed.cmds + 1), client.Send(cfg.aead, pt, TYPE_CMD, STREAM_WS).0, cfg.echo(pt).value, TYPE_CMD);
    }
  }

  /** Audio comes back as it went exactly if loopback is on and it is long enough to be audio. */
  lemma AudioLoopsBackIff(cfg: Config, conn: Conn, client: ChannelState, pt: Bytes)
    requires cfg.aead.Sound() && Connected(client, conn) && CanSend(client) && CanSend(conn.channel.value)
    ensures var (client', sent) := client.Send(cfg.aead, pt, TYPE_AUDIO, STREAM_WS);
            sent.Sent? && client'.Valid() &&
            var out := OnMessage(cfg, conn, false, Carrying(TYPE_AUDIO, sent.frame)).1;
            if cfg.loopback && |pt| >= 12 then Draws(cfg.aead, client', out, TYPE_AUDIO, pt) else out == []
  {
    var msg, routed := MessageRouted(cfg, conn, client, TYPE_AUDIO, pt);
    if cfg.loopback && |pt| >= 12 {
      var n := UnpackAudio(pt).value.seqNo;
      SealDraws(cfg, routed.(audioSeqs := routed.audioSeqs + [n], lastAudioSeq := Some(n)),
        client.Send(cfg.aead, pt, TYPE_AUDIO, STREAM_WS).0, pt, TYPE_AUDIO);
    }
  }

  // ---- the handshake's answers --------------------------------------------------------------------------------

  /** A text message with these fields. */
  function Text(f: Fields, serverEph: nat): Incoming {
    Incoming([], false, Some(f), serverEph)
  }

  /** An allowed client's hello is answered, and its confirm makes the other end of its channel live. */
  lemma HonestClientConnects(cfg: Config, client: nat, eph: nat, serverEph: nat) returns (reply: Reply, finished: Finished)
    requires cfg.env.curve.Commutes()
    requires cfg.allow(cfg.env.curve.pub(client), cfg.env.fingerprint(cfg.env.curve.pub(client)))
    requires Ikm(cfg.env.curve, client, cfg.env.curve.pub(cfg.identity), eph, cfg.env.curve.pub(serverEph)).Some?
    ensures var hello := ClientHello(cfg.env, client, eph);
            var (greeted, out) := OnMessage(cfg, NEW_CONN, false, Text(Fields(hello.v, hello.clientIdentity, hello.clientEph, Noise([])), serverEph));
            && out == [HelloReply(reply)] && greeted.Valid()
            && ClientFinish(cfg.env, client, eph, hello, reply, Some(cfg.env.curve.pub(cfg.identity))) == Ok(finished)
            && var (live, out') := OnMessage(cfg, greeted, false, Text(Fields(finished.confirm.v, [], [], finished.confirm.confirm), 0));
               out' == [] && live.authenticated == 1 && live.rejected == 0 && Connected(finished.channel, live) &&
               SameSession(finished.channel, live.channel.value)
  {
    var hello, pin := ClientHello(cfg.env, client, eph), Some(cfg.env.curve.pub(cfg.identity));
    HonestHandshakeCompletes(cfg.env, cfg.identity, serverEph, client, eph, cfg.allow, pin);
    var accepted := ServerHandshake(cfg.env, cfg.identity, hello, cfg.allow, serverEph).value;
    reply := accepted.reply;
    finished := ClientFinish(cfg.env, client, eph, hello, reply, pin).value;
    var tr, ikm := HonestReplyFinishes(cfg.env, cfg.identity, serverEph, client, eph, cfg.allow, pin);
  }

  // ---- what the counters count ----------------------------------------------------------------------------------

  /** A message the channel opened. */
  datatype Message = Message(kind: int, pt: Bytes)

  /** What one message from the socket opens to. */
  function OpenedBy(cfg: Config, conn: Conn, event: Event): seq<Message>
    requires conn.Valid()
  {
    var frame := Unpack(event.msg.bytes);
    if conn.channel.None? || event.dead || frame.None? then []
    else
      var pt := conn.channel.value.Recv(cfg.aead, frame.value).1;
      if pt.None? then [] else [Message(frame.value.kind, pt.value)]
  }

  function Opened(cfg: Config, events: seq<Event>): seq<Message> {
    if events == [] then []
    else
      var n := |events| - 1;
      Opened(cfg, events[..n]) + OpenedBy(cfg, After(cfg, events[..n]), events[n])
  }

  function Count(messages: seq<Message>, kind: int): nat {
    if messages == [] then 0
    else Count(messages[..|messages| - 1], kind) + (if messages[|messages| - 1].kind == kind then 1 else 0)
  }

  /** The sequence numbers of the audio among them. */
  function AudioNumbers(messages: seq<Message>): seq<nat> {
    if messages == [] then []
    else
      var m := messages[|messages| - 1];
      AudioNumbers(messages[..|messages| - 1]) +
      (if m.kind == TYPE_AUDIO && |m.pt| >= 12 then [FromBigEndian(m.pt[..4])] else [])
  }

  function Plaintexts(messages: seq<Message>): (pts: seq<Bytes>)
    ensures |pts| == |messages| && forall i :: 0 <= i < |pts| ==> pts[i] == messages[i].pt
  {
    seq(|messages|, i requires 0 <= i < |messages| => messages[i].pt)
  }

  /** The messages behind a connection's counters. */
  predicate Counted(conn: Conn, messages: seq<Message>) {
    && conn.cmds == Count(messages, TYPE_CMD) && conn.gaps == Count(messages, TYPE_GAP)
    && conn.audioSeqs == AudioNumbers(messages) && conn.heard == Plaintexts(messages)
    && conn.lastAudioSeq == (if conn.audioSeqs == [] then None else Some(conn.audioSeqs[|conn.audioSeqs| - 1]))
  }

  lemma CountedOne(cfg: Config, conn: Conn, messages: seq<Message>, kind: int, pt: Bytes)
    requires Counted(conn, messages) && conn.Valid() && conn.channel.Some?
    ensures Counted(OnPlaintext(cfg, conn.(heard := conn.heard + [pt]), kind, pt).0, messages + [Message(kind, pt)])
  {
    OneMore(messages, Message(kind, pt));
    CountersMove(cfg, conn.(heard := conn.heard + [pt]), kind, pt);
  }

  lemma CountersMove(cfg: Config, conn: Conn, kind: int, pt: Bytes)
    requires conn.Valid() && conn.channel.Some?
    ensures var conn' := OnPlaintext(cfg, conn, kind, pt).0;
            && conn'.cmds == conn.cmds + (if kind == TYPE_CMD then 1 else 0)
            && conn'.gaps == conn.gaps + (if kind == TYPE_GAP then 1 else 0)
            && conn'.audioSeqs == conn.audioSeqs + (if kind == TYPE_AUDIO && |pt| >= 12 then [FromBigEndian(pt[..4])] else [])
            && conn'.heard == conn.heard
            && conn'.lastAudioSeq ==
                 if kind == TYPE_AUDIO && |pt| >= 12 then Some(FromBigEndian(pt[..4])) else conn.lastAudioSeq
  {
    AppendNothing(conn.audioSeqs);
  }

  lemma OneMore(messages: seq<Message>, m: Message)
    ensures var more := messages + [m];
            && (forall kind :: Count(more, kind) == Count(messages, kind) + (if m.kind == kind then 1 else 0))
            && AudioNumbers(more) == AudioNumbers(messages) +
                 (if m.kind == TYPE_AUDIO && |m.pt| >= 12 then [FromBigEndian(m.pt[..4])] else [])
            && Plaintexts(more) == Plaintexts(messages) + [m.pt]
  {
    assert (messages + [m])[..|messages|] == messages;
  }

  lemma CountedStep(cfg: Config, conn: Conn, event: Event, messages: seq<Message>)
    requires conn.Valid() && Counted(conn, messages)
    ensures Counted(OnMessage(cfg, conn, event.dead, event.msg).0, messages + OpenedBy(cfg, conn, event))
  {
    if OpenedBy(cfg, conn, event) != [] {
      var frame := Unpack(event.msg.bytes).value;
      var (chan, pt) := conn.channel.value.Recv(cfg.aead, frame);
      ChannelStepsKeepKeys(conn.channel.value, cfg.aead, frame, [], 0, 0);
      var routed := WhenOpened(cfg, conn, event.msg, frame, chan, pt.value);
      CountedOne(cfg, conn.(channel := Some(chan)), messages, frame.kind, pt.value);
    } else {
      AppendNothing(messages);
      NothingOpened(cfg, conn, event);
    }
  }

  lemma NothingOpened(cfg: Config, conn: Conn, event: Event)
    requires conn.Valid() && OpenedBy(cfg, conn, event) == []
    ensures var conn' := OnMessage(cfg, conn, event.dead, event.msg).0;
            && conn'.cmds == conn.cmds && conn'.gaps == conn.gaps && conn'.audioSeqs == conn.audioSeqs
            && conn'.heard == conn.heard && conn'.lastAudioSeq == conn.lastAudioSeq
  {
  }

  /** Over every run of a connection: commands, gap notices and audio numbers are those of exactly the
      messages its channel opened, in order. */
  lemma {:induction false} CountersAreExact(cfg: Config, events: seq<Event>)
    ensures Counted(After(cfg, events), Opened(cfg, events))
  {
    if events == [] {
    } else {
      var n := |events| - 1;
      CountersAreExact(cfg, events[..n]);
      CountedStep(cfg, After(cfg, events[..n]), events[n], Opened(cfg, events[..n]));
    }
  }

  // ---- refusals ------------------------------------------------------------------------------------------------

  /** The run's answers that close the connection. */
  function Closes(cfg: Config, events: seq<Event>): nat {
    if events == [] then 0
    else
      var n := |events| - 1;
      var out := OnMessage(cfg, After(cfg, events[..n]), events[n].dead, events[n].msg).1;
      Closes(cfg, events[..n]) + (if Close in out then 1 else 0)
  }

  /** The hello a text message would be. */
  function HelloIn(f: Fields): Hello {
    Hello(f.v, f.clientIdentity, f.clientEph)
  }

  /** Before authentication: a text message that is a hello the handshake refuses, or, once a hello was
      accepted, anything but a confirm that verifies. */
  predicate IsRefused(cfg: Config, conn: Conn, msg: Incoming) {
    conn.channel.None? && !msg.isBinary && msg.json.Some? &&
    var f := msg.json.value;
    if conn.pending.None? then ServerHandshake(cfg.env, cfg.identity, HelloIn(f), cfg.allow, msg.serverEph).Err?
    else !VerifyConfirm(conn.pending.value.expectedConfirm, Confirm(f.v, f.confirm))
  }

  /** The connection is closed, with the reason, exactly then; a hello that is not refused is answered, and
      nothing else is before authentication. */
  lemma ClosesIff(cfg: Config, conn: Conn, dead: bool, msg: Incoming)
    requires conn.Valid()
    ensures var (conn', out) := OnMessage(cfg, conn, dead, msg);
            && (Close in out <==> IsRefused(cfg, conn, msg))
            && (IsRefused(cfg, conn, msg) ==>
                  conn' == conn.(rejected := conn.rejected + 1) && |out| == 2 && out[1] == Close &&
                  if conn.pending.None? then out[0].Error? else out[0] == BadConfirm)
            && (!IsRefused(cfg, conn, msg) ==> conn'.rejected == conn.rejected)
            && (!IsRefused(cfg, conn, msg) && conn.channel.None? ==>
                  if !msg.isBinary && msg.json.Some? && conn.pending.None? then
                    |out| == 1 && out[0].HelloReply? && conn'.pending.Some? && out[0].reply == conn'.pending.value.reply
                  else out == [])
  {
    if conn.channel.Some? && !dead && Unpack(msg.bytes).Some? {
      var frame := Unpack(msg.bytes).value;
      var (chan, pt) := conn.channel.value.Recv(cfg.aead, frame);
      ChannelStepsKeepKeys(conn.channel.value, cfg.aead, frame, [], 0, 0);
      if pt.Some? {
        PlaintextRefusesNothing(cfg, conn.(channel := Some(chan), heard := conn.heard + [pt.value]), frame.kind, pt.value);
      }
    }
  }

  lemma PlaintextRefusesNothing(cfg: Config, conn: Conn, kind: int, pt: Bytes)
    requires conn.Valid() && conn.channel.Some?
    ensures Close !in OnPlaintext(cfg, conn, kind, pt).1 && OnPlaintext(cfg, conn, kind, pt).0.rejected == conn.rejected
  {
  }

  lemma {:induction false} RejectedCountsCloses(cfg: Config, events: seq<Event>)
    ensures After(cfg, events).rejected == Closes(cfg, events)
  {
    if events == [] {
    } else {
      var n := |events| - 1;
      RejectedCountsCloses(cfg, events[..n]);
      ClosesIff(cfg, After(cfg, events[..n]), events[n].dead, events[n].msg);
    }
  }
}
