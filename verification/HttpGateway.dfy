/** The session map of the HTTP gateway (gateway.js): /hello, /confirm and /msg. */
module HttpGateway {
  import opened Bytes
  import opened Primitives
  import opened Frames
  import opened Channels
  import opened Handshake

  const MAX_SESSIONS := 64

  /** The gateway's fixed parts. `answer` is the reply it gives to a decrypted message. */
  datatype Config = Config(
    env: Env, aead: Aead, identity: nat, allow: (Bytes, Bytes) -> bool, answer: Bytes -> Bytes)

  datatype Pending = Pending(channel: ChannelState, expectedConfirm: Mac)

  datatype Session = Session(pending: Option<Pending>, channel: Option<ChannelState>)

  type Sessions = map<Bytes, Session>

  datatype Request =
    | HelloRequest(hello: Hello, serverEph: nat)
    | ConfirmRequest(clientId: Bytes, confirm: Confirm)
    | MsgRequest(clientId: Bytes, frame: Frame)

  datatype Response =
    | HelloOk(reply: Reply)
    | ConfirmOk
    | MsgOk(frame: Frame)
    | Failed(status: int)

  predicate ValidSessions(sessions: Sessions) {
    forall c :: c in sessions ==>
      && (sessions[c].pending.Some? ==> sessions[c].pending.value.channel.Valid())
      && (sessions[c].channel.Some? ==> sessions[c].channel.value.Valid())
  }

  function Handle(cfg: Config, sessions: Sessions, req: Request): (Sessions, Response)
    requires ValidSessions(sessions)
  {
    match req
    case HelloRequest(hello, eph) =>
      var hs := ServerHandshake(cfg.env, cfg.identity, hello, cfg.allow, eph);
      if hs.Err? then (sessions, Failed(403))
      else
        var id := hs.value.clientId;
        if id !in sessions && |sessions| >= MAX_SESSIONS then (sessions, Failed(503))
        else
          var live := if id in sessions then sessions[id].channel else None;
          var s := Session(Some(Pending(hs.value.channel, hs.value.expectedConfirm)), live);
          (sessions[id := s], HelloOk(hs.value.reply))
    case ConfirmRequest(id, confirm) =>
      if id !in sessions || sessions[id].pending.None? then (sessions, Failed(401))
      else if !VerifyConfirm(sessions[id].pending.value.expectedConfirm, confirm) then (sessions, Failed(403))
      else (sessions[id := Session(None, Some(sessions[id].pending.value.channel))], ConfirmOk)
    case MsgRequest(id, frame) =>
      if id !in sessions || sessions[id].channel.None? then (sessions, Failed(401))
      else
        var (received, pt) := sessions[id].channel.value.Recv(cfg.aead, frame);
        if pt.None? then (sessions[id := sessions[id].(channel := Some(received))], Failed(403))
        else
          var (replied, r) := received.Send(cfg.aead, cfg.answer(pt.value), TYPE_CMD, STREAM_WS);
          (sessions[id := sessions[id].(channel := Some(replied))], if r.Sent? then MsgOk(r.frame) else Failed(500))
  }

  class Gateway {
    const cfg: Config
    var sessions: Sessions

    ghost predicate Valid()
      reads this
    {
      ValidSessions(sessions) && |sessions| <= MAX_SESSIONS
    }

    constructor (cfg: Config)
      ensures Valid() && this.cfg == cfg && sessions == map[]
    {
      this.cfg := cfg;
      sessions := map[];
    }

    method OnHello(hello: Hello, serverEph: nat) returns (res: Response)
      requires Valid()
      modifies this
      ensures Valid() && (sessions, res) == Handle(cfg, old(sessions), HelloRequest(hello, serverEph))
      ensures forall c :: c in old(sessions) ==> c in sessions && sessions[c].channel == old(sessions)[c].channel
      ensures !res.HelloOk? ==> sessions == old(sessions)
      ensures res.HelloOk? <==>
                && ServerHandshake(cfg.env, cfg.identity, hello, cfg.allow, serverEph).Ok?
                && (cfg.env.fingerprint(hello.clientIdentity) in old(sessions) || |old(sessions)| < MAX_SESSIONS)
    {
      var hs := ServerHandshake(cfg.env, cfg.identity, hello, cfg.allow, serverEph);
      if hs.Err? {
        return Failed(403);
      }
      var id := hs.value.clientId;
      if id !in sessions && |sessions| >= MAX_SESSIONS {
        return Failed(503);
      }
      HandleKeepsBound(cfg, sessions, HelloRequest(hello, serverEph));
      HandleKeepsValid(cfg, sessions, HelloRequest(hello, serverEph));
      var s := if id in sessions then sessions[id] else Session(None, None);
      sessions := sessions[id := s.(pending := Some(Pending(hs.value.channel, hs.value.expectedConfirm)))];
      return HelloOk(hs.value.reply);
    }

    method OnConfirm(id: Bytes, confirm: Confirm) returns (res: Response)
      requires Valid()
      modifies this
      ensures Valid() && (sessions, res) == Handle(cfg, old(sessions), ConfirmRequest(id, confirm))
      ensures if !res.ConfirmOk? then sessions == old(sessions)
              else
                && id in old(sessions) && old(sessions)[id].pending.Some?
                && VerifyConfirm(old(sessions)[id].pending.value.expectedConfirm, confirm)
                && sessions == old(sessions)[id := Session(None, Some(old(sessions)[id].pending.value.channel))]
    {
      if id !in sessions || sessions[id].pending.None? {
        return Failed(401);
      }
      var pending := sessions[id].pending.value;
      if !VerifyConfirm(pending.expectedConfirm, confirm) {
        return Failed(403);
      }
      HandleKeepsBound(cfg, sessions, ConfirmRequest(id, confirm));
      sessions := sessions[id := Session(None, Some(pending.channel))];
      return ConfirmOk;
    }

    method OnMsg(id: Bytes, frame: Frame) returns (res: Response)
      requires Valid()
      modifies this
      ensures Valid() && (sessions, res) == Handle(cfg, old(sessions), MsgRequest(id, frame))
      ensures sessions.Keys == old(sessions).Keys
      ensures forall c :: c in sessions && c != id ==> sessions[c] == old(sessions)[c]
      ensures id in sessions ==> sessions[id].pending == old(sessions)[id].pending
    {
      if id !in sessions || sessions[id].channel.None? {
        return Failed(401);
      }
      HandleKeepsBound(cfg, sessions, MsgRequest(id, frame));
      AnswerKeepsKeys(cfg, sessions[id].channel.value, frame);
      var s := sessions[id];
      var (received, pt) := s.channel.value.Recv(cfg.aead, frame);
      if pt.None? {
        sessions := sessions[id := s.(channel := Some(received))];
        return Failed(403);
      }
      var (replied, r) := received.Send(cfg.aead, cfg.answer(pt.value), TYPE_CMD, STREAM_WS);
      sessions := sessions[id := s.(channel := Some(replied))];
      return if r.Sent? then MsgOk(r.frame) else Failed(500);
    }
  }

  // ---- runs -----------------------------------------------------------------------------------------

  lemma AnswerKeepsKeys(cfg: Config, chan: ChannelState, frame: Frame)
    requires chan.Valid()
    ensures var (received, pt) := chan.Recv(cfg.aead, frame);
            received.Valid() && SameKeys(received, chan) &&
            (pt.Some? ==>
              var replied := received.Send(cfg.aead, cfg.answer(pt.value), TYPE_CMD, STREAM_WS).0;
              replied.Valid() && SameKeys(replied, chan))
  {
    ChannelStepsKeepKeys(chan, cfg.aead, frame, [], TYPE_CMD, STREAM_WS);
    var (received, pt) := chan.Recv(cfg.aead, frame);
    if pt.Some? {
      ChannelStepsKeepKeys(received, cfg.aead, frame, cfg.answer(pt.value), TYPE_CMD, STREAM_WS);
    }
  }

  lemma AcceptedIsValid(cfg: Config, hello: Hello, eph: nat)
    ensures var hs := ServerHandshake(cfg.env, cfg.identity, hello, cfg.allow, eph);
            hs.Ok? ==> hs.value.channel.Valid()
  {
    if ServerHandshake(cfg.env, cfg.identity, hello, cfg.allow, eph).Ok? {
      var tr, ikm := AcceptedShape(cfg.env, cfg.identity, hello, cfg.allow, eph);
    }
  }

  lemma HandleKeepsValid(cfg: Config, sessions: Sessions, req: Request)
    requires ValidSessions(sessions)
    ensures ValidSessions(Handle(cfg, sessions, req).0)
  {
    match req
    case HelloRequest(hello, eph) => AcceptedIsValid(cfg, hello, eph);
    case ConfirmRequest(id, confirm) =>
    case MsgRequest(id, frame) =>
      if id in sessions && sessions[id].channel.Some? {
        AnswerKeepsKeys(cfg, sessions[id].channel.value, frame);
      }
  }

  /** Sessions are only ever added below the limit. */
  lemma HandleKeepsBound(cfg: Config, sessions: Sessions, req: Request)
    requires ValidSessions(sessions) && |sessions| <= MAX_SESSIONS
    ensures |Handle(cfg, sessions, req).0| <= MAX_SESSIONS
  {
    match req
    case HelloRequest(hello, eph) =>
      var hs := ServerHandshake(cfg.env, cfg.identity, hello, cfg.allow, eph);
      if hs.Ok? {
        var id := hs.value.clientId;
        KeysAfterUpdate(sessions, id, Handle(cfg, sessions, req).0);
      }
    case ConfirmRequest(id, _) => KeysAfterUpdate(sessions, id, Handle(cfg, sessions, req).0);
    case MsgRequest(id, _) => KeysAfterUpdate(sessions, id, Handle(cfg, sessions, req).0);
  }

  lemma KeysAfterUpdate(before: Sessions, id: Bytes, after: Sessions)
    ensures after.Keys == before.Keys ==> |after| == |before|
    ensures after.Keys == before.Keys + {id} ==> |after| <= |before| + 1
  {
    assert |after| == |after.Keys| && |before| == |before.Keys|;
  }

  function After(cfg: Config, reqs: seq<Request>): (sessions: Sessions)
    ensures ValidSessions(sessions) && |sessions| <= MAX_SESSIONS
  {
    if reqs == [] then map[]
    else
      var n := |reqs| - 1;
      HandleKeepsValid(cfg, After(cfg, reqs[..n]), reqs[n]);
      HandleKeepsBound(cfg, After(cfg, reqs[..n]), reqs[n]);
      Handle(cfg, After(cfg, reqs[..n]), reqs[n]).0
  }

  /** The i-th request is a hello that gave client c a new pending session. */
  predicate HelloFor(cfg: Config, reqs: seq<Request>, i: nat, c: Bytes)
    requires i < |reqs|
  {
    && reqs[i].HelloRequest?
    && Handle(cfg, After(cfg, reqs[..i]), reqs[i]).1.HelloOk?
    && cfg.env.fingerprint(reqs[i].hello.clientIdentity) == c
  }

  /** The handshake state of an accepted hello. */
  function HandshakeOf(cfg: Config, reqs: seq<Request>, i: nat): Accepted
    requires i < |reqs| && reqs[i].HelloRequest?
    requires ServerHandshake(cfg.env, cfg.identity, reqs[i].hello, cfg.allow, reqs[i].serverEph).Ok?
  {
    ServerHandshake(cfg.env, cfg.identity, reqs[i].hello, cfg.allow, reqs[i].serverEph).value
  }

  /** Request i is the latest hello accepted for c among the first n. */
  ghost predicate LatestHello(cfg: Config, reqs: seq<Request>, i: nat, n: nat, c: Bytes)
    requires n <= |reqs|
  {
    && i < n && HelloFor(cfg, reqs, i, c)
    && (forall k :: i < k < n ==> !HelloFor(cfg, reqs, k, c))
  }

  /** Request j is the confirm that proved the latest hello i for c. */
  ghost predicate Proven(cfg: Config, reqs: seq<Request>, i: nat, j: nat, c: Bytes)
    requires j < |reqs|
  {
    && LatestHello(cfg, reqs, i, j, c)
    && reqs[j].ConfirmRequest? && reqs[j].clientId == c
    && VerifyConfirm(HandshakeOf(cfg, reqs, i).expectedConfirm, reqs[j].confirm)
  }

  ghost predicate HasProof(cfg: Config, reqs: seq<Request>, c: Bytes, ch: ChannelState) {
    exists i, j :: 0 <= i < j < |reqs| && Proven(cfg, reqs, i, j, c) && SameKeys(ch, HandshakeOf(cfg, reqs, i).channel)
  }

  ghost predicate HasHello(cfg: Config, reqs: seq<Request>, c: Bytes, p: Pending) {
    exists i :: 0 <= i < |reqs| && LatestHello(cfg, reqs, i, |reqs|, c) &&
      var h := HandshakeOf(cfg, reqs, i);
      p == Pending(h.channel, h.expectedConfirm)
  }

  lemma ProofsPersist(cfg: Config, reqs: seq<Request>, req: Request, c: Bytes, ch: ChannelState)
    requires HasProof(cfg, reqs, c, ch)
    ensures HasProof(cfg, reqs + [req], c, ch)
  {
    var i, j :| 0 <= i < j < |reqs| && Proven(cfg, reqs, i, j, c) && SameKeys(ch, HandshakeOf(cfg, reqs, i).channel);
    ProvenPersists(cfg, reqs, req, i, j, c);
  }

  lemma ProvenPersists(cfg: Config, reqs: seq<Request>, req: Request, i: nat, j: nat, c: Bytes)
    requires i < j < |reqs| && Proven(cfg, reqs, i, j, c)
    ensures Proven(cfg, reqs + [req], i, j, c)
    ensures HandshakeOf(cfg, reqs + [req], i) == HandshakeOf(cfg, reqs, i)
  {
    var more := reqs + [req];
    PrefixHellos(cfg, reqs, req, c);
    assert more[i] == reqs[i] && more[j] == reqs[j];
    assert LatestHello(cfg, more, i, j, c);
  }

  lemma PrefixHellos(cfg: Config, reqs: seq<Request>, req: Request, c: Bytes)
    ensures forall k :: 0 <= k < |reqs| ==> HelloFor(cfg, reqs + [req], k, c) == HelloFor(cfg, reqs, k, c)
  {
    forall k | 0 <= k < |reqs|
      ensures HelloFor(cfg, reqs + [req], k, c) == HelloFor(cfg, reqs, k, c)
    {
      assert (reqs + [req])[..k] == reqs[..k];
    }
  }

  /** What one request can do to the sessions: only a confirm that verifies replaces a live
      channel, by the pending one it was checked against; nothing touches another client. */
  lemma OnlyConfirmGoesLive(cfg: Config, sessions: Sessions, req: Request, c: Bytes)
    requires ValidSessions(sessions)
    ensures var after := Handle(cfg, sessions, req).0;
            && sessions.Keys <= after.Keys
            && (c in sessions && after[c] != sessions[c] ==>
                  match req
                  case HelloRequest(h, _) => cfg.env.fingerprint(h.clientIdentity) == c && after[c].channel == sessions[c].channel
                  case ConfirmRequest(id, confirm) =>
                    id == c && sessions[c].pending.Some? && after[c].pending.None? &&
                    after[c].channel == Some(sessions[c].pending.value.channel) &&
                    VerifyConfirm(sessions[c].pending.value.expectedConfirm, confirm)
                  case MsgRequest(id, _) =>
                    id == c && after[c].pending == sessions[c].pending && after[c].channel.Some? &&
                    sessions[c].channel.Some? && SameKeys(after[c].channel.value, sessions[c].channel.value))
            && (c in after && c !in sessions ==> req.HelloRequest? && after[c].channel.None?)
  {
    if req.MsgRequest? && req.clientId in sessions && sessions[req.clientId].channel.Some? {
      AnswerKeepsKeys(cfg, sessions[req.clientId].channel.value, req.frame);
    }
  }

  /** In every run: a live channel was proven by a confirm for the then latest hello of that
      client, whose keys it still has; a pending half belongs to the latest hello. */
  lemma {:induction false} LiveChannelsAreProven(cfg: Config, reqs: seq<Request>, c: Bytes)
    ensures Accounted(cfg, reqs, c)
  {
    if reqs == [] {
    } else {
      var n := |reqs| - 1;
      LiveChannelsAreProven(cfg, reqs[..n], c);
      StepAccounted(cfg, reqs[..n], reqs[n], c);
      assert reqs == reqs[..n] + [reqs[n]];
    }
  }

  ghost predicate Accounted(cfg: Config, reqs: seq<Request>, c: Bytes) {
    var s := After(cfg, reqs);
    && (c in s && s[c].channel.Some? ==> HasProof(cfg, reqs, c, s[c].channel.value))
    && (c in s && s[c].pending.Some? ==> HasHello(cfg, reqs, c, s[c].pending.value))
  }

  lemma StepAccounted(cfg: Config, init: seq<Request>, req: Request, c: Bytes)
    requires Accounted(cfg, init, c)
    ensures Accounted(cfg, init + [req], c)
  {
    var n, reqs := |init|, init + [req];
    assert reqs[..n] == init;
    var s, s' := After(cfg, init), After(cfg, reqs);
    OnlyConfirmGoesLive(cfg, s, req, c);
    if c in s' && s'[c].channel.Some? {
      if req.ConfirmRequest? && s'[c] != s[c] {
        ConfirmProves(cfg, init, req, c);
      } else {
        ProofsPersist(cfg, init, req, c, s[c].channel.value);
      }
    }
    if c in s' && s'[c].pending.Some? {
      PendingAccounted(cfg, init, req, c);
    }
  }

  lemma LatestPersists(cfg: Config, init: seq<Request>, req: Request, i: nat, c: Bytes)
    requires LatestHello(cfg, init, i, |init|, c)
    ensures LatestHello(cfg, init + [req], i, |init|, c)
    ensures HandshakeOf(cfg, init + [req], i) == HandshakeOf(cfg, init, i)
  {
    PrefixHellos(cfg, init, req, c);
    assert (init + [req])[i] == init[i];
  }

  /** A confirm that changes a session proves the pending hello of that client. */
  lemma ConfirmProves(cfg: Config, init: seq<Request>, req: Request, c: Bytes)
    requires Accounted(cfg, init, c) && req.ConfirmRequest? && c in After(cfg, init)
    requires c in After(cfg, init + [req]) && After(cfg, init + [req])[c] != After(cfg, init)[c]
    ensures After(cfg, init + [req])[c].channel.Some?
    ensures HasProof(cfg, init + [req], c, After(cfg, init + [req])[c].channel.value)
  {
    var n, reqs := |init|, init + [req];
    assert reqs[..n] == init;
    var s := After(cfg, init);
    OnlyConfirmGoesLive(cfg, s, req, c);
    var i :| 0 <= i < n && LatestHello(cfg, init, i, n, c) &&
      var h := HandshakeOf(cfg, init, i);
      s[c].pending.value == Pending(h.channel, h.expectedConfirm);
    LatestPersists(cfg, init, req, i, c);
    assert Proven(cfg, reqs, i, n, c);
  }

  lemma HelloBecomesPending(cfg: Config, init: seq<Request>, req: Request, c: Bytes)
    requires HelloFor(cfg, init + [req], |init|, c)
    ensures var h := HandshakeOf(cfg, init + [req], |init|);
            var s := After(cfg, init + [req]);
            c in s && s[c].pending == Some(Pending(h.channel, h.expectedConfirm))
  {
    assert (init + [req])[..|init|] == init;
  }

  lemma PendingAccounted(cfg: Config, init: seq<Request>, req: Request, c: Bytes)
    requires Accounted(cfg, init, c)
    requires var s' := After(cfg, init + [req]); c in s' && s'[c].pending.Some?
    ensures HasHello(cfg, init + [req], c, After(cfg, init + [req])[c].pending.value)
  {
    var n, reqs := |init|, init + [req];
    assert reqs[..n] == init;
    var s, s' := After(cfg, init), After(cfg, reqs);
    OnlyConfirmGoesLive(cfg, s, req, c);
    if HelloFor(cfg, reqs, n, c) {
      HelloBecomesPending(cfg, init, req, c);
      assert LatestHello(cfg, reqs, n, |reqs|, c);
    } else {
      assert c in s && s[c].pending == s'[c].pending;
      var i :| 0 <= i < n && LatestHello(cfg, init, i, n, c) &&
        var h := HandshakeOf(cfg, init, i);
        s[c].pending.value == Pending(h.channel, h.expectedConfirm);
      LatestPersists(cfg, init, req, i, c);
      assert LatestHello(cfg, reqs, i, |reqs|, c);
    }
  }
}
