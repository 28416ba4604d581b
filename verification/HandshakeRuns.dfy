/** Any number of handshakes between one client identity and one server identity, all of whose
    messages pass through an attacker who may change, replay, reorder or make up anything except
    a MAC under a key that only those two identities can derive. */
module HandshakeRuns {
  import opened Bytes
  import opened Primitives
  import opened Channels
  import opened Handshake
  import SecretOrder

  datatype ClientSession =
    | Waiting(eph: nat)
    | Done(eph: nat, reply: Reply, finished: Finished)

  datatype ServerSession = ServerSession(hello: Hello, eph: nat, accepted: Accepted, confirmed: bool)

  /** The two honest parties: their identity scalars, the server's allowlist, the client's pin. */
  datatype Parties = Parties(
    env: Env, client: nat, server: nat, allow: (Bytes, Bytes) -> bool, pin: Option<Bytes>)

  datatype World = World(clients: seq<ClientSession>, servers: seq<ServerSession>)

  datatype Step =
    | Start(eph: nat)
    | OnHello(hello: Hello, serverEph: nat)
    | OnReply(client: nat, reply: Reply)
    | OnConfirm(server: nat, confirm: Confirm)

  function Apply(p: Parties, w: World, step: Step): World {
    match step
    case Start(eph) => w.(clients := w.clients + [Waiting(eph)])
    case OnHello(hello, eph) =>
      var r := ServerHandshake(p.env, p.server, hello, p.allow, eph);
      if r.Err? then w else w.(servers := w.servers + [ServerSession(hello, eph, r.value, false)])
    case OnReply(i, reply) =>
      if i >= |w.clients| || w.clients[i].Done? then w
      else
        var eph := w.clients[i].eph;
        var r := ClientFinish(p.env, p.client, eph, ClientHello(p.env, p.client, eph), reply, p.pin);
        if r.Err? then w else w.(clients := w.clients[i := Done(eph, reply, r.value)])
    case OnConfirm(j, confirm) =>
      if j < |w.servers| && VerifyConfirm(w.servers[j].accepted.expectedConfirm, confirm)
      then w.(servers := w.servers[j := w.servers[j].(confirmed := true)])
      else w
  }

  // ---- what the attacker cannot do ------------------------------------------------------------------

  /** A key derived with the secret that only the two identity keys give. */
  ghost predicate Protected(p: Parties, key: Key) {
    exists secrets: seq<Bytes> ::
      && |secrets| == 4
      && p.env.curve.dh(p.client, p.env.curve.pub(p.server)) == Some(secrets[0])
      && key.ikm == Join(SecretOrder.Sort(secrets))
  }

  ghost predicate Emitted(w: World, mac: Mac) {
    || (exists j :: 0 <= j < |w.servers| && w.servers[j].accepted.reply.mac == mac)
    || (exists i :: 0 <= i < |w.clients| && w.clients[i].Done? && w.clients[i].finished.confirm.confirm == mac)
  }

  /** A MAC under a protected key reaches nobody unless one of the two parties sent it. */
  ghost predicate Presentable(p: Parties, w: World, mac: Mac) {
    mac.Hmac? && Protected(p, mac.key) ==> Emitted(w, mac)
  }

  /** Ephemeral keys are fresh, and presented MACs are presentable. */
  ghost predicate Allowed(p: Parties, w: World, step: Step) {
    match step
    case Start(eph) =>
      forall i :: 0 <= i < |w.clients| ==> p.env.curve.pub(w.clients[i].eph) != p.env.curve.pub(eph)
    case OnHello(_, eph) =>
      forall j :: 0 <= j < |w.servers| ==> p.env.curve.pub(w.servers[j].eph) != p.env.curve.pub(eph)
    case OnReply(_, reply) => Presentable(p, w, reply.mac)
    case OnConfirm(_, confirm) => Presentable(p, w, confirm.confirm)
  }

  ghost predicate Reaches(p: Parties, steps: seq<Step>, w: World)
    decreases |steps|
  {
    if steps == [] then w == World([], [])
    else
      var n := |steps| - 1;
      exists mid :: Reaches(p, steps[..n], mid) && Allowed(p, mid, steps[n]) && w == Apply(p, mid, steps[n])
  }

  // ---- agreement ---------------------------------------------------------------------------------------

  /** The two ends of one handshake: the same four public keys and one session. */
  predicate Matches(p: Parties, c: ClientSession, s: ServerSession) {
    && c.Done?
    && s.hello.clientIdentity == p.env.curve.pub(p.client)
    && s.hello.clientEph == p.env.curve.pub(c.eph)
    && c.reply.serverIdentity == p.env.curve.pub(p.server)
    && c.reply.serverEph == p.env.curve.pub(s.eph)
    && SameSession(c.finished.channel, s.accepted.channel)
  }

  ghost predicate ClientOk(p: Parties, w: World, c: ClientSession) {
    c.Done? ==>
      && ClientFinish(p.env, p.client, c.eph, ClientHello(p.env, p.client, c.eph), c.reply, p.pin) == Ok(c.finished)
      && (c.reply.serverIdentity == p.env.curve.pub(p.server) ==>
            exists j :: 0 <= j < |w.servers| && Matches(p, c, w.servers[j]))
  }

  ghost predicate ServerOk(p: Parties, w: World, s: ServerSession) {
    && ServerHandshake(p.env, p.server, s.hello, p.allow, s.eph) == Ok(s.accepted)
    && (s.confirmed && s.hello.clientIdentity == p.env.curve.pub(p.client) ==>
          exists i :: 0 <= i < |w.clients| && Matches(p, w.clients[i], s))
  }

  ghost predicate SessionsOk(p: Parties, w: World) {
    && (forall i :: 0 <= i < |w.clients| ==> ClientOk(p, w, w.clients[i]))
    && (forall j :: 0 <= j < |w.servers| ==> ServerOk(p, w, w.servers[j]))
  }

  ghost predicate EphemeralsDiffer(p: Parties, w: World) {
    && (forall i, k :: 0 <= i < k < |w.clients| ==>
          p.env.curve.pub(w.clients[i].eph) != p.env.curve.pub(w.clients[k].eph))
    && (forall j, k :: 0 <= j < k < |w.servers| ==>
          p.env.curve.pub(w.servers[j].eph) != p.env.curve.pub(w.servers[k].eph))
  }

  ghost predicate Inv(p: Parties, w: World) {
    SessionsOk(p, w) && EphemeralsDiffer(p, w)
  }

  /** Later worlds keep every session that was there. */
  ghost predicate Extends(w: World, w': World) {
    && |w.clients| <= |w'.clients| && |w.servers| <= |w'.servers|
    && (forall i :: 0 <= i < |w.clients| && w.clients[i].Done? ==> w'.clients[i] == w.clients[i])
    && (forall j :: 0 <= j < |w.servers| ==> w'.servers[j].(confirmed := false) == w.servers[j].(confirmed := false))
  }

  lemma MatchesSurvive(p: Parties, w: World, w': World)
    requires Extends(w, w')
    ensures forall c :: ClientOk(p, w, c) ==> ClientOk(p, w', c)
    ensures forall s :: ServerOk(p, w, s) ==> ServerOk(p, w', s)
  {
    forall c | ClientOk(p, w, c)
      ensures ClientOk(p, w', c)
    {
      if c.Done? && c.reply.serverIdentity == p.env.curve.pub(p.server) {
        var j :| 0 <= j < |w.servers| && Matches(p, c, w.servers[j]);
        assert w'.servers[j].(confirmed := false) == w.servers[j].(confirmed := false);
        assert Matches(p, c, w'.servers[j]);
      }
    }
    forall s | ServerOk(p, w, s)
      ensures ServerOk(p, w', s)
    {
      if s.confirmed && s.hello.clientIdentity == p.env.curve.pub(p.client) {
        var i :| 0 <= i < |w.clients| && Matches(p, w.clients[i], s);
        assert w'.clients[i] == w.clients[i];
        assert Matches(p, w'.clients[i], s);
      }
    }
  }

  /** A reply the client accepts as the server's came from a session of the server. */
  lemma ReplyHasOrigin(p: Parties, w: World, eph: nat, reply: Reply)
    requires SessionsOk(p, w) && Presentable(p, w, reply.mac)
    requires ClientFinish(p.env, p.client, eph, ClientHello(p.env, p.client, eph), reply, p.pin).Ok?
    requires reply.serverIdentity == p.env.curve.pub(p.server)
    ensures var f := ClientFinish(p.env, p.client, eph, ClientHello(p.env, p.client, eph), reply, p.pin).value;
            exists j :: 0 <= j < |w.servers| && Matches(p, Done(eph, reply, f), w.servers[j])
  {
    var hello := ClientHello(p.env, p.client, eph);
    var f := ClientFinish(p.env, p.client, eph, hello, reply, p.pin).value;
    var tr, ikm := FinishedShape(p.env, p.client, eph, hello, reply, p.pin);
    var secrets := Secrets(p.env.curve, p.client, reply.serverIdentity, eph, reply.serverEph).value;
    assert Protected(p, f.channel.authKey) by {
      assert f.channel.authKey.ikm == Join(SecretOrder.Sort(secrets));
    }
    assert Emitted(w, reply.mac);
    if j :| 0 <= j < |w.servers| && w.servers[j].accepted.reply.mac == reply.mac {
      var s := w.servers[j];
      assert ServerOk(p, w, s);
      CompletedMeansAgreement(p.env, p.server, s.eph, s.hello, p.allow, p.client, eph, hello, reply, p.pin);
      assert Matches(p, Done(eph, reply, f), s);
    } else {
      var i :| 0 <= i < |w.clients| && w.clients[i].Done? && w.clients[i].finished.confirm.confirm == reply.mac;
      var c := w.clients[i];
      assert ClientOk(p, w, c);
      var tr', ikm' := FinishedShape(p.env, p.client, c.eph, ClientHello(p.env, p.client, c.eph), c.reply, p.pin);
      MacsSeparate(f.channel, c.finished.channel, tr, tr');
      assert false;
    }
  }

  /** A confirm the server verifies for the client's identity came from a session of the client. */
  lemma ConfirmHasOrigin(p: Parties, w: World, s: ServerSession, confirm: Confirm)
    requires p.env.curve.Commutes()
    requires SessionsOk(p, w) && ServerOk(p, w, s) && Presentable(p, w, confirm.confirm)
    requires VerifyConfirm(s.accepted.expectedConfirm, confirm)
    requires s.hello.clientIdentity == p.env.curve.pub(p.client)
    ensures exists i :: 0 <= i < |w.clients| && Matches(p, w.clients[i], s)
  {
    var tr, ikm := AcceptedShape(p.env, p.server, s.hello, p.allow, s.eph);
    var secrets := Secrets(p.env.curve, p.server, s.hello.clientIdentity, s.eph, s.hello.clientEph).value;
    assert Protected(p, s.accepted.channel.authKey) by {
      assert p.env.curve.dh(p.client, p.env.curve.pub(p.server)) == p.env.curve.dh(p.server, p.env.curve.pub(p.client));
      assert s.accepted.channel.authKey.ikm == Join(SecretOrder.Sort(secrets));
    }
    assert Emitted(w, confirm.confirm);
    if i :| 0 <= i < |w.clients| && w.clients[i].Done? && w.clients[i].finished.confirm.confirm == confirm.confirm {
      var c := w.clients[i];
      assert ClientOk(p, w, c);
      var hello := ClientHello(p.env, p.client, c.eph);
      var tr', ikm' := FinishedShape(p.env, p.client, c.eph, hello, c.reply, p.pin);
      CompletedMeansAgreement(p.env, p.server, s.eph, s.hello, p.allow, p.client, c.eph, hello, c.reply, p.pin);
      assert Matches(p, c, s);
    } else {
      var j :| 0 <= j < |w.servers| && w.servers[j].accepted.reply.mac == confirm.confirm;
      var s' := w.servers[j];
      assert ServerOk(p, w, s');
      var tr', ikm' := AcceptedShape(p.env, p.server, s'.hello, p.allow, s'.eph);
      MacsSeparate(s'.accepted.channel, s.accepted.channel, tr', tr);
      assert false;
    }
  }

  lemma ReplyKeepsSessions(p: Parties, w: World, i: nat, reply: Reply)
    requires SessionsOk(p, w) && Presentable(p, w, reply.mac)
    ensures SessionsOk(p, Apply(p, w, OnReply(i, reply)))
  {
    var w' := Apply(p, w, OnReply(i, reply));
    if w' != w {
      var c := w'.clients[i];
      if reply.serverIdentity == p.env.curve.pub(p.server) {
        ReplyHasOrigin(p, w, c.eph, reply);
      }
      assert ClientOk(p, w, c);
      MatchesSurvive(p, w, w');
      assert forall k :: 0 <= k < |w.clients| ==> w'.clients[k] == if k == i then c else w.clients[k];
    }
  }

  lemma ConfirmedServerOk(p: Parties, w: World, s: ServerSession, confirm: Confirm)
    requires p.env.curve.Commutes()
    requires SessionsOk(p, w) && ServerOk(p, w, s) && Presentable(p, w, confirm.confirm)
    requires VerifyConfirm(s.accepted.expectedConfirm, confirm)
    ensures ServerOk(p, w, s.(confirmed := true))
  {
    if s.hello.clientIdentity == p.env.curve.pub(p.client) {
      ConfirmHasOrigin(p, w, s, confirm);
      var i :| 0 <= i < |w.clients| && Matches(p, w.clients[i], s);
      assert Matches(p, w.clients[i], s.(confirmed := true));
    }
  }

  lemma ConfirmKeepsSessions(p: Parties, w: World, j: nat, confirm: Confirm)
    requires p.env.curve.Commutes() && SessionsOk(p, w) && Presentable(p, w, confirm.confirm)
    ensures SessionsOk(p, Apply(p, w, OnConfirm(j, confirm)))
  {
    var w' := Apply(p, w, OnConfirm(j, confirm));
    if j < |w.servers| && VerifyConfirm(w.servers[j].accepted.expectedConfirm, confirm) {
      var s := w.servers[j].(confirmed := true);
      assert ServerOk(p, w, w.servers[j]);
      ConfirmedServerOk(p, w, w.servers[j], confirm);
      assert w' == w.(servers := w.servers[j := s]);
      MatchesSurvive(p, w, w');
    }
  }

  lemma StepKeepsSessions(p: Parties, w: World, step: Step)
    requires p.env.curve.Commutes() && SessionsOk(p, w) && Allowed(p, w, step)
    ensures SessionsOk(p, Apply(p, w, step))
  {
    match step
    case OnReply(i, reply) => ReplyKeepsSessions(p, w, i, reply);
    case OnConfirm(j, confirm) => ConfirmKeepsSessions(p, w, j, confirm);
    case _ => MatchesSurvive(p, w, Apply(p, w, step));
  }

  lemma StepKeepsEphemerals(p: Parties, w: World, step: Step)
    requires EphemeralsDiffer(p, w) && Allowed(p, w, step)
    ensures EphemeralsDiffer(p, Apply(p, w, step))
  {
  }

  lemma {:induction false} ReachableInv(p: Parties, steps: seq<Step>, w: World)
    requires p.env.curve.Commutes() && Reaches(p, steps, w)
    ensures Inv(p, w)
    decreases |steps|
  {
    if steps == [] {
    } else {
      var n := |steps| - 1;
      var mid :| Reaches(p, steps[..n], mid) && Allowed(p, mid, steps[n]) && w == Apply(p, mid, steps[n]);
      ReachableInv(p, steps[..n], mid);
      StepKeepsSessions(p, mid, steps[n]);
      StepKeepsEphemerals(p, mid, steps[n]);
    }
  }

  lemma ReachesMore(p: Parties, steps: seq<Step>, w: World, step: Step)
    requires Reaches(p, steps, w) && Allowed(p, w, step)
    ensures Reaches(p, steps + [step], Apply(p, w, step))
  {
    var more := steps + [step];
    assert more[..|more| - 1] == steps && more[|more| - 1] == step;
  }

  /** A client has started and its hello was accepted. */
  lemma HelloRun(p: Parties, eph: nat, serverEph: nat, accepted: Accepted) returns (steps: seq<Step>)
    requires ServerHandshake(p.env, p.server, ClientHello(p.env, p.client, eph), p.allow, serverEph) == Ok(accepted)
    ensures Reaches(p, steps, World([Waiting(eph)], [ServerSession(ClientHello(p.env, p.client, eph), serverEph, accepted, false)]))
  {
    var w0, w1 := World([], []), World([Waiting(eph)], []);
    var start, onHello := Start(eph), OnHello(ClientHello(p.env, p.client, eph), serverEph);
    assert Apply(p, w0, start) == w1;
    ReachesMore(p, [], w0, start);
    ReachesMore(p, [] + [start], w1, onHello);
    steps := [] + [start] + [onHello];
  }

  /** The reply comes back and the confirm goes out, both unchanged. */
  lemma FinishRun(p: Parties, eph: nat, s: ServerSession, finished: Finished, before: seq<Step>) returns (steps: seq<Step>)
    requires Reaches(p, before, World([Waiting(eph)], [s])) && !s.confirmed
    requires ClientFinish(p.env, p.client, eph, ClientHello(p.env, p.client, eph), s.accepted.reply, p.pin) == Ok(finished)
    requires VerifyConfirm(s.accepted.expectedConfirm, finished.confirm)
    ensures Reaches(p, steps, World([Done(eph, s.accepted.reply, finished)], [s.(confirmed := true)]))
  {
    var c := Done(eph, s.accepted.reply, finished);
    var w2, w3 := World([Waiting(eph)], [s]), World([c], [s]);
    var onReply, onConfirm := OnReply(0, s.accepted.reply), OnConfirm(0, finished.confirm);
    assert w2.servers[0].accepted.reply.mac == s.accepted.reply.mac;
    assert Apply(p, w2, onReply) == w3;
    ReachesMore(p, before, w2, onReply);
    assert w3.clients[0].finished.confirm.confirm == finished.confirm.confirm;
    assert Apply(p, w3, onConfirm) == World([c], [s.(confirmed := true)]);
    ReachesMore(p, before + [onReply], w3, onConfirm);
    steps := before + [onReply] + [onConfirm];
  }

  /** An undisturbed handshake is a run: an allowed client, and the server it pinned or meets for the
      first time, end with a finished and a confirmed session that match. */
  lemma HonestRun(p: Parties, eph: nat, serverEph: nat) returns (steps: seq<Step>, w: World)
    requires p.env.curve.Commutes() && p.allow(p.env.curve.pub(p.client), p.env.fingerprint(p.env.curve.pub(p.client)))
    requires p.pin.Some? ==> p.pin.value == p.env.curve.pub(p.server)
    requires Ikm(p.env.curve, p.client, p.env.curve.pub(p.server), eph, p.env.curve.pub(serverEph)).Some?
    ensures Reaches(p, steps, w) && |w.clients| == |w.servers| == 1
    ensures w.clients[0].Done? && w.servers[0].confirmed && Matches(p, w.clients[0], w.servers[0])
  {
    var hello := ClientHello(p.env, p.client, eph);
    HonestHandshakeCompletes(p.env, p.server, serverEph, p.client, eph, p.allow, p.pin);
    var accepted := ServerHandshake(p.env, p.server, hello, p.allow, serverEph).value;
    var finished := ClientFinish(p.env, p.client, eph, hello, accepted.reply, p.pin).value;
    steps := HelloRun(p, eph, serverEph, accepted);
    var s := ServerSession(hello, serverEph, accepted, false);
    steps := FinishRun(p, eph, s, finished, steps);
    w := World([Done(eph, accepted.reply, finished)], [s.(confirmed := true)]);
  }

  predicate KnowsServer(p: Parties, c: ClientSession)
    requires c.Done?
  {
    p.pin == Some(p.env.curve.pub(p.server)) || c.finished.serverIdentity == p.env.curve.pub(p.server)
  }

  predicate NamesClient(p: Parties, s: ServerSession) {
    s.hello.clientIdentity == p.env.curve.pub(p.client)
  }

  /** Mutual authentication over every run. A client session that finished with the server's key,
      as it must when that key is pinned, has a server session that saw the same four public keys
      and holds the same session, and no other client session shares it. A server session confirmed
      for the client's key has such a client session, and no other server session shares it. */
  lemma MutualAuthentication(p: Parties, steps: seq<Step>, w: World)
    requires p.env.curve.Commutes() && Reaches(p, steps, w)
    ensures forall i | 0 <= i < |w.clients| && w.clients[i].Done? && KnowsServer(p, w.clients[i]) ::
              exists j :: 0 <= j < |w.servers| && Matches(p, w.clients[i], w.servers[j])
    ensures forall j | 0 <= j < |w.servers| && w.servers[j].confirmed && NamesClient(p, w.servers[j]) ::
              exists i :: 0 <= i < |w.clients| && Matches(p, w.clients[i], w.servers[j])
    ensures forall i, k, j | 0 <= i < k < |w.clients| && 0 <= j < |w.servers| ::
              !(Matches(p, w.clients[i], w.servers[j]) && Matches(p, w.clients[k], w.servers[j]))
    ensures forall i, j, k | 0 <= i < |w.clients| && 0 <= j < k < |w.servers| ::
              !(Matches(p, w.clients[i], w.servers[j]) && Matches(p, w.clients[i], w.servers[k]))
  {
    ReachableInv(p, steps, w);
    forall i | 0 <= i < |w.clients| && w.clients[i].Done?
      ensures w.clients[i].finished.serverIdentity == w.clients[i].reply.serverIdentity
      ensures p.pin.Some? ==> p.pin.value == w.clients[i].reply.serverIdentity
    {
      var c := w.clients[i];
      assert ClientOk(p, w, c);
      var tr, ikm := FinishedShape(p.env, p.client, c.eph, ClientHello(p.env, p.client, c.eph), c.reply, p.pin);
    }
    assert forall i :: 0 <= i < |w.clients| ==> ClientOk(p, w, w.clients[i]);
    assert forall j :: 0 <= j < |w.servers| ==> ServerOk(p, w, w.servers[j]);
  }
}
