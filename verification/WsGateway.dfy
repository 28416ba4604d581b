/** One connection of the WebSocket gateway (transport/ws-gateway.js). */
module WsGateway {
  import opened Bytes
  import opened Primitives
  import opened Frames
  import opened Channels
  import opened Handshake

  /** The gateway's fixed parts. `echo` is the answer to a decrypted command, None where the
      command is not JSON. */
  datatype Config = Config(
    env: Env, aead: Aead, identity: nat, allow: (Bytes, Bytes) -> bool,
    echo: Bytes -> Option<Bytes>, loopback: bool)

  /** A message from the socket: its bytes, whether it came as binary, and, for text that is JSON,
      the fields a hello or a confirm would have. */
  datatype Incoming = Incoming(bytes: Bytes, isBinary: bool, json: Option<Fields>, serverEph: nat)
  datatype Fields = Fields(v: int, clientIdentity: Bytes, clientEph: Bytes, confirm: Mac)

  datatype Outgoing =
    | HelloReply(reply: Reply)
    | Error(error: Handshake.Error)
    | BadConfirm
    | Close
    | SealedFrame(wire: Bytes)

  /** What a connection remembers; `heard` are the plaintexts its channel opened, in order. */
  datatype Conn = Conn(
    channel: Option<ChannelState>, pending: Option<Accepted>, lastAudioSeq: Option<nat>,
    rejected: nat, authenticated: nat, cmds: nat, gaps: nat, audioSeqs: seq<nat>, heard: seq<Bytes>)
  {
    predicate Valid() {
      && (channel.Some? ==> channel.value.Valid())
      && (pending.Some? ==> pending.value.channel.Valid())
    }
  }

  const NEW_CONN := Conn(None, None, None, 0, 0, 0, 0, [], [])

  function SealTo(cfg: Config, conn: Conn, pt: Bytes, kind: byte): (Conn, seq<Outgoing>)
    requires conn.Valid() && conn.channel.Some?
  {
    var (chan, r) := conn.channel.value.Send(cfg.aead, pt, kind, STREAM_WS);
    if r.Refused? then (conn, [])
    else (conn.(channel := Some(chan)), [SealedFrame(Pack(kind, r.frame.nonce, r.frame.box))])
  }

  /** An authenticated message, routed by its type byte. */
  function OnPlaintext(cfg: Config, conn: Conn, kind: int, pt: Bytes): (Conn, seq<Outgoing>)
    requires conn.Valid() && conn.channel.Some?
  {
    if kind == TYPE_PING then SealTo(cfg, conn, [], TYPE_PONG)
    else if kind == TYPE_CMD then
      var counted := conn.(cmds := conn.cmds + 1);
      var reply := cfg.echo(pt);
      if reply.None? then (counted, []) else SealTo(cfg, counted, reply.value, TYPE_CMD)
    else if kind == TYPE_AUDIO then
      var a := UnpackAudio(pt);
      if a.None? then (conn, [])
      else
        var noted := conn.(audioSeqs := conn.audioSeqs + [a.value.seqNo], lastAudioSeq := Some(a.value.seqNo));
        if cfg.loopback then SealTo(cfg, noted, pt, TYPE_AUDIO) else (noted, [])
    else if kind == TYPE_GAP then (conn.(gaps := conn.gaps + 1), [])
    else (conn, [])
  }

  function OnMessage(cfg: Config, conn: Conn, dead: bool, msg: Incoming): (Conn, seq<Outgoing>)
    requires conn.Valid()
  {
    if conn.channel.None? then
      if msg.isBinary || msg.json.None? then (conn, [])
      else
        var f := msg.json.value;
        if conn.pending.None? then
          var hs := ServerHandshake(cfg.env, cfg.identity, Hello(f.v, f.clientIdentity, f.clientEph), cfg.allow, msg.serverEph);
          if hs.Err? then (conn.(rejected := conn.rejected + 1), [Error(hs.error), Close])
          else (conn.(pending := Some(hs.value)), [HelloReply(hs.value.reply)])
        else if !VerifyConfirm(conn.pending.value.expectedConfirm, Confirm(f.v, f.confirm)) then
          (conn.(rejected := conn.rejected + 1), [BadConfirm, Close])
        else
          (conn.(channel := Some(conn.pending.value.channel), pending := None, authenticated := conn.authenticated + 1), [])
    else if dead then (conn, [])
    else
      var frame := Unpack(msg.bytes);
      if frame.None? then (conn, [])
      else
        var (chan, pt) := conn.channel.value.Recv(cfg.aead, frame.value);
        var received := conn.(channel := Some(chan));
        if pt.None? then (received, [])
        else
          ChannelStepsKeepKeys(conn.channel.value, cfg.aead, frame.value, [], 0, 0);
          OnPlaintext(cfg, received.(heard := received.heard + [pt.value]), frame.value.kind, pt.value)
  }

  /** The message handler of one connection, which assigns its variables step by step. */
  class Connection {
    const cfg: Config
    var channel: Option<ChannelState>
    var pending: Option<Accepted>
    var lastAudioSeq: Option<nat>
    var rejected: nat
    var authenticated: nat
    var cmds: nat
    var gaps: nat
    var audioSeqs: seq<nat>
    ghost var heard: seq<Bytes>

    ghost function State(): Conn
      reads this
    {
      Conn(channel, pending, lastAudioSeq, rejected, authenticated, cmds, gaps, audioSeqs, heard)
    }

    constructor (cfg: Config)
      ensures this.cfg == cfg && State() == NEW_CONN
    {
      this.cfg := cfg;
      channel, pending, lastAudioSeq := None, None, None;
      rejected, authenticated, cmds, gaps, audioSeqs, heard := 0, 0, 0, 0, [], [];
    }

    method Seal(pt: Bytes, kind: byte) returns (out: seq<Outgoing>)
      requires State().Valid() && channel.Some?
      modifies `channel
      ensures (State(), out) == SealTo(cfg, old(State()), pt, kind)
    {
      var (chan, r) := channel.value.Send(cfg.aead, pt, kind, STREAM_WS);
      if r.Refused? {
        return [];
      }
      channel := Some(chan);
      out := [SealedFrame(Pack(kind, r.frame.nonce, r.frame.box))];
    }

    method Receive(dead: bool, msg: Incoming) returns (out: seq<Outgoing>)
      requires State().Valid()
      modifies this
      ensures (State(), out) == OnMessage(cfg, old(State()), dead, msg)
      ensures Allows(old(State()), msg, State())
    {
      MessageStep(cfg, State(), dead, msg);
      out := [];
      if channel.None? {
        if msg.isBinary || msg.json.None? {
          return;
        }
        var f := msg.json.value;
        if pending.None? {
          var hs := ServerHandshake(cfg.env, cfg.identity, Hello(f.v, f.clientIdentity, f.clientEph), cfg.allow, msg.serverEph);
          if hs.Err? {
            rejected := rejected + 1;
            return [Error(hs.error), Close];
          }
          pending := Some(hs.value);
          return [HelloReply(hs.value.reply)];
        }
        if !VerifyConfirm(pending.value.expectedConfirm, Confirm(f.v, f.confirm)) {
          rejected := rejected + 1;
          return [BadConfirm, Close];
        }
        channel, pending := Some(pending.value.channel), None;
        authenticated := authenticated + 1;
        return;
      }
      if dead {
        return;
      }
      var frame := Unpack(msg.bytes);
      if frame.None? {
        return;
      }
      var (chan, pt) := channel.value.Recv(cfg.aead, frame.value);
      ChannelStepsKeepKeys(channel.value, cfg.aead, frame.value, [], 0, 0);
      channel := Some(chan);
      if pt.None? {
        return;
      }
      heard := heard + [pt.value];
      out := Route(frame.value.kind, pt.value);
    }

    method Route(kind: int, pt: Bytes) returns (out: seq<Outgoing>)
      requires State().Valid() && channel.Some?
      modifies this
      ensures (State(), out) == OnPlaintext(cfg, old(State()), kind, pt)
      ensures kind == TYPE_PING && old(channel.value.tx[STREAM_WS]) < MAX_COUNTER ==>
                |out| == 1 && out[0].SealedFrame? && |out[0].wire| > 0 && out[0].wire[0] == TYPE_PONG
      ensures cmds == old(cmds) + (if kind == TYPE_CMD then 1 else 0) && gaps == old(gaps) + (if kind == TYPE_GAP then 1 else 0)
    {
      out := [];
      if kind == TYPE_PING {
        out := Seal([], TYPE_PONG);
      } else if kind == TYPE_CMD {
        cmds := cmds + 1;
        var reply := cfg.echo(pt);
        if reply.Some? {
          out := Seal(reply.value, TYPE_CMD);
        }
      } else if kind == TYPE_AUDIO {
        var a := UnpackAudio(pt);
        if a.Some? {
          audioSeqs := audioSeqs + [a.value.seqNo];
          lastAudioSeq := Some(a.value.seqNo);
          if cfg.loopback {
            out := Seal(pt, TYPE_AUDIO);
          }
        }
      } else if kind == TYPE_GAP {
        gaps := gaps + 1;
      }
    }
  }

  // ---- runs -----------------------------------------------------------------------------------------

  lemma SealKeepsKeys(cfg: Config, conn: Conn, pt: Bytes, kind: byte)
    requires conn.Valid() && conn.channel.Some?
    ensures var c := SealTo(cfg, conn, pt, kind).0;
            c.channel.Some? && c == conn.(channel := c.channel) &&
            c.channel.value.Valid() && SameKeys(c.channel.value, conn.channel.value)
  {
    ChannelStepsKeepKeys(conn.channel.value, cfg.aead, Frames.Frame(0, [], Box([], [])), pt, kind, STREAM_WS);
  }

  lemma PlaintextKeepsKeys(cfg: Config, conn: Conn, kind: int, pt: Bytes)
    requires conn.Valid() && conn.channel.Some?
    ensures var c := OnPlaintext(cfg, conn, kind, pt).0;
            c.channel.Some? && c.channel.value.Valid() && SameKeys(c.channel.value, conn.channel.value) &&
            c.pending == conn.pending && c.heard == conn.heard && c.authenticated == conn.authenticated
  {
    if kind == TYPE_PING {
      SealKeepsKeys(cfg, conn, [], TYPE_PONG);
    } else if kind == TYPE_CMD {
      if cfg.echo(pt).Some? {
        SealKeepsKeys(cfg, conn.(cmds := conn.cmds + 1), cfg.echo(pt).value, TYPE_CMD);
      }
    } else if kind == TYPE_AUDIO {
      var a := UnpackAudio(pt);
      if a.Some? && cfg.loopback {
        SealKeepsKeys(cfg, conn.(audioSeqs := conn.audioSeqs + [a.value.seqNo], lastAudioSeq := Some(a.value.seqNo)), pt, TYPE_AUDIO);
      }
    }
  }

  /** Who may become live by one message, and what may be opened: before authentication nothing is
      opened, and only a confirm that verifies makes the pending channel live; afterwards the channel
      stays, with its keys. */
  predicate Allows(conn: Conn, msg: Incoming, c: Conn) {
    if conn.channel.None? then
      && c.heard == conn.heard
      && (c.channel.None? ==> c.authenticated == conn.authenticated)
      && (c.channel.Some? ==>
            && conn.pending.Some? && c.channel.value == conn.pending.value.channel && c.pending.None?
            && !msg.isBinary && msg.json.Some?
            && VerifyConfirm(conn.pending.value.expectedConfirm, Confirm(msg.json.value.v, msg.json.value.confirm))
            && c.authenticated == conn.authenticated + 1)
    else
      && c.channel.Some? && SameKeys(c.channel.value, conn.channel.value)
      && c.pending == conn.pending && c.authenticated == conn.authenticated
  }

  lemma MessageStep(cfg: Config, conn: Conn, dead: bool, msg: Incoming)
    requires conn.Valid()
    ensures OnMessage(cfg, conn, dead, msg).0.Valid()
    ensures Allows(conn, msg, OnMessage(cfg, conn, dead, msg).0)
  {
    if conn.channel.None? {
      if msg.json.Some? && conn.pending.None? {
        var f := msg.json.value;
        var hello := Hello(f.v, f.clientIdentity, f.clientEph);
        if ServerHandshake(cfg.env, cfg.identity, hello, cfg.allow, msg.serverEph).Ok? {
          var tr, ikm := AcceptedShape(cfg.env, cfg.identity, hello, cfg.allow, msg.serverEph);
        }
      }
    } else if !dead && Unpack(msg.bytes).Some? {
      var frame := Unpack(msg.bytes).value;
      ChannelStepsKeepKeys(conn.channel.value, cfg.aead, frame, [], 0, 0);
      var (chan, pt) := conn.channel.value.Recv(cfg.aead, frame);
      if pt.Some? {
        PlaintextKeepsKeys(cfg, conn.(channel := Some(chan), heard := conn.heard + [pt.value]), frame.kind, pt.value);
      }
    }
  }

  /** A message with the partition flag as it stood when the message arrived. */
  datatype Event = Event(dead: bool, msg: Incoming)

  function After(cfg: Config, events: seq<Event>): (conn: Conn)
    ensures conn.Valid()
  {
    if events == [] then NEW_CONN
    else
      var n := |events| - 1;
      MessageStep(cfg, After(cfg, events[..n]), events[n].dead, events[n].msg);
      OnMessage(cfg, After(cfg, events[..n]), events[n].dead, events[n].msg).0
  }

  /** Text message i was a hello the handshake accepts, giving `hs`. */
  ghost predicate Greeted(cfg: Config, events: seq<Event>, i: nat, hs: Accepted)
    requires i < |events|
  {
    var msg := events[i].msg;
    !msg.isBinary && msg.json.Some? &&
    var f := msg.json.value;
    ServerHandshake(cfg.env, cfg.identity, Hello(f.v, f.clientIdentity, f.clientEph), cfg.allow, msg.serverEph) == Ok(hs)
  }

  /** Text message j is a confirm that proves `hs`. */
  ghost predicate Confirmed(events: seq<Event>, j: nat, hs: Accepted)
    requires j < |events|
  {
    var msg := events[j].msg;
    !msg.isBinary && msg.json.Some? &&
    VerifyConfirm(hs.expectedConfirm, Confirm(msg.json.value.v, msg.json.value.confirm))
  }

  ghost predicate PendingGreeted(cfg: Config, events: seq<Event>) {
    var conn := After(cfg, events);
    conn.pending.Some? ==> exists i :: 0 <= i < |events| && Greeted(cfg, events, i, conn.pending.value)
  }

  /** Hello i and confirm j made `hs` the live handshake, before any sealed frame was opened. */
  ghost predicate ProvenBy(cfg: Config, events: seq<Event>, i: nat, j: nat, hs: Accepted)
    requires i < j < |events|
  {
    Greeted(cfg, events, i, hs) && Confirmed(events, j, hs) && After(cfg, events[..j + 1]).heard == []
  }

  lemma ProofPersists(cfg: Config, events: seq<Event>, event: Event, i: nat, j: nat, hs: Accepted)
    requires i < j < |events| && ProvenBy(cfg, events, i, j, hs)
    ensures ProvenBy(cfg, events + [event], i, j, hs)
  {
    assert (events + [event])[..j + 1] == events[..j + 1];
  }

  ghost predicate LiveConfirmed(cfg: Config, events: seq<Event>) {
    var conn := After(cfg, events);
    conn.channel.Some? ==>
      exists i, j, hs :: 0 <= i < j < |events| && ProvenBy(cfg, events, i, j, hs) && SameKeys(conn.channel.value, hs.channel)
  }

  /** Nothing opened before authentication, which comes once and uses up the pending handshake. */
  predicate OpensNothingEarly(conn: Conn) {
    && (conn.channel.None? ==> conn.heard == [] && conn.authenticated == 0)
    && (conn.channel.Some? ==> conn.authenticated == 1 && conn.pending.None?)
  }

  lemma EarlyStep(cfg: Config, conn: Conn, event: Event)
    requires conn.Valid() && OpensNothingEarly(conn)
    ensures OpensNothingEarly(OnMessage(cfg, conn, event.dead, event.msg).0)
  {
    MessageStep(cfg, conn, event.dead, event.msg);
  }

  /** Over every run of a connection: it authenticates at most once, and as long as it has not, no
      sealed frame has been opened; once it has, its channel is the one of a hello whose confirm
      verified, and nothing had been opened when it did. */
  lemma {:induction false} NothingOpenedBeforeConfirm(cfg: Config, events: seq<Event>)
    ensures OpensNothingEarly(After(cfg, events))
    ensures PendingGreeted(cfg, events)
    ensures LiveConfirmed(cfg, events)
  {
    if events == [] {
    } else {
      var n := |events| - 1;
      NothingOpenedBeforeConfirm(cfg, events[..n]);
      assert events == events[..n] + [events[n]];
      EarlyStep(cfg, After(cfg, events[..n]), events[n]);
      GreetedStep(cfg, events[..n], events[n]);
      ConfirmedStep(cfg, events[..n], events[n]);
    }
  }

  /** A pending handshake comes from a hello of the run. */
  lemma GreetedStep(cfg: Config, init: seq<Event>, event: Event)
    requires PendingGreeted(cfg, init)
    ensures PendingGreeted(cfg, init + [event])
  {
    var n, events := |init|, init + [event];
    assert events[..n] == init;
    var conn, conn' := After(cfg, init), After(cfg, events);
    MessageStep(cfg, conn, event.dead, event.msg);
    if conn'.pending.Some? {
      if conn.pending.Some? {
        var i :| 0 <= i < n && Greeted(cfg, init, i, conn.pending.value);
        assert Greeted(cfg, events, i, conn'.pending.value);
      } else {
        assert Greeted(cfg, events, n, conn'.pending.value);
      }
    }
  }

  /** A live channel comes from a hello of the run and a confirm that proved it. */
  lemma ConfirmedStep(cfg: Config, init: seq<Event>, event: Event)
    requires PendingGreeted(cfg, init) && LiveConfirmed(cfg, init)
    requires OpensNothingEarly(After(cfg, init))
    ensures LiveConfirmed(cfg, init + [event])
  {
    var n, events := |init|, init + [event];
    assert events[..n] == init;
    var conn, conn' := After(cfg, init), After(cfg, events);
    MessageStep(cfg, conn, event.dead, event.msg);
    if conn.channel.Some? {
      var i, j, hs :| 0 <= i < j < n && ProvenBy(cfg, init, i, j, hs) && SameKeys(conn.channel.value, hs.channel);
      ProofPersists(cfg, init, event, i, j, hs);
    } else if conn'.channel.Some? {
      var hs := conn.pending.value;
      var i :| 0 <= i < n && Greeted(cfg, init, i, hs);
      assert events[..n + 1] == events;
      assert ProvenBy(cfg, events, i, n, hs);
    }
  }
}
