/** Whose channel is live under a client's name (gateway.js over proto.js): the session map composed
    with any number of attacked handshakes. The gateway names a client by the fingerprint of the
    identity key it presents, and its channel goes live only behind a confirm. */
module GatewayTakeover {
  import opened Bytes
  import opened Primitives
  import opened Channels
  import opened Handshake
  import opened HandshakeRuns
  import opened HttpGateway
  import SecretOrder

  /** The gateway is the server of these handshakes. */
  ghost predicate SameServer(cfg: Config, p: Parties) {
    p.env == cfg.env && p.server == cfg.identity && p.allow == cfg.allow
  }

  /** No confirm brings a protected MAC that neither party sent in this world. */
  ghost predicate ConfirmsPresentable(p: Parties, w: World, reqs: seq<Request>) {
    forall j :: 0 <= j < |reqs| && reqs[j].ConfirmRequest? ==> Presentable(p, w, reqs[j].confirm.confirm)
  }

  /** The client finished this session with the server's own key. */
  ghost predicate ClientHolds(p: Parties, w: World, ch: ChannelState) {
    exists k :: 0 <= k < |w.clients| && w.clients[k].Done? &&
      w.clients[k].reply.serverIdentity == p.env.curve.pub(p.server) &&
      SameSession(w.clients[k].finished.channel, ch)
  }

  /** Request i is the hello behind the live channel ch of client c, and request j its confirm. */
  ghost predicate ProvesLive(cfg: Config, reqs: seq<Request>, c: Bytes, i: nat, j: nat, ch: ChannelState) {
    i < j < |reqs| && Proven(cfg, reqs, i, j, c) && SameKeys(ch, HandshakeOf(cfg, reqs, i).channel)
  }

  function SessionOf(cfg: Config, reqs: seq<Request>, i: nat): ServerSession
    requires i < |reqs| && reqs[i].HelloRequest?
    requires ServerHandshake(cfg.env, cfg.identity, reqs[i].hello, cfg.allow, reqs[i].serverEph).Ok?
  {
    ServerSession(reqs[i].hello, reqs[i].serverEph, HandshakeOf(cfg, reqs, i), false)
  }

  /** A confirmed hello with the client's own key is one the client took part in. */
  lemma OwnHelloIsOwnSession(cfg: Config, p: Parties, w: World, reqs: seq<Request>, c: Bytes, i: nat, j: nat, ch: ChannelState)
    requires SameServer(cfg, p) && p.env.curve.Commutes() && SessionsOk(p, w) && ConfirmsPresentable(p, w, reqs)
    requires ProvesLive(cfg, reqs, c, i, j, ch)
    requires reqs[i].hello.clientIdentity == p.env.curve.pub(p.client)
    ensures ClientHolds(p, w, ch)
  {
    var s := SessionOf(cfg, reqs, i);
    assert ServerOk(p, w, s);
    ConfirmHasOrigin(p, w, s, reqs[j].confirm);
    var k :| 0 <= k < |w.clients| && Matches(p, w.clients[k], s);
    assert SameSession(w.clients[k].finished.channel, ch);
  }

  /** A MAC the server accepts as a confirm, under a protected key, was some client session's. */
  lemma AcceptedConfirmIsClients(p: Parties, w: World, s: ServerSession, confirm: Confirm) returns (k: nat)
    requires SessionsOk(p, w) && ServerOk(p, w, s) && Presentable(p, w, confirm.confirm)
    requires VerifyConfirm(s.accepted.expectedConfirm, confirm) && Protected(p, s.accepted.channel.authKey)
    ensures k < |w.clients| && w.clients[k].Done? && w.clients[k].finished.confirm.confirm == confirm.confirm
  {
    var tr, ikm := AcceptedShape(p.env, p.server, s.hello, p.allow, s.eph);
    assert Emitted(w, confirm.confirm);
    if i :| 0 <= i < |w.clients| && w.clients[i].Done? && w.clients[i].finished.confirm.confirm == confirm.confirm {
      k := i;
    } else {
      var j :| 0 <= j < |w.servers| && w.servers[j].accepted.reply.mac == confirm.confirm;
      var s' := w.servers[j];
      assert ServerOk(p, w, s');
      var tr', ikm' := AcceptedShape(p.env, p.server, s'.hello, p.allow, s'.eph);
      MacsSeparate(s'.accepted.channel, s.accepted.channel, tr', tr);
      assert false;
    }
  }

  lemma FinishedIsProtected(p: Parties, w: World, c: ClientSession)
    requires ClientOk(p, w, c) && c.Done? && c.reply.serverIdentity == p.env.curve.pub(p.server)
    ensures Protected(p, c.finished.channel.authKey)
  {
    var tr, ikm := FinishedShape(p.env, p.client, c.eph, ClientHello(p.env, p.client, c.eph), c.reply, p.pin);
    var secrets := Secrets(p.env.curve, p.client, c.reply.serverIdentity, c.eph, c.reply.serverEph).value;
    assert c.finished.channel.authKey.ikm == Join(SecretOrder.Sort(secrets));
  }

  /** A confirmed session the client holds began with the client's own key. */
  lemma OwnSessionIsOwnHello(cfg: Config, p: Parties, w: World, reqs: seq<Request>, c: Bytes, i: nat, j: nat, ch: ChannelState)
    requires SameServer(cfg, p) && SessionsOk(p, w) && ConfirmsPresentable(p, w, reqs)
    requires ProvesLive(cfg, reqs, c, i, j, ch) && ClientHolds(p, w, ch)
    ensures reqs[i].hello.clientIdentity == p.env.curve.pub(p.client)
  {
    var s := SessionOf(cfg, reqs, i);
    assert ServerOk(p, w, s);
    var k :| 0 <= k < |w.clients| && w.clients[k].Done? &&
      w.clients[k].reply.serverIdentity == p.env.curve.pub(p.server) && SameSession(w.clients[k].finished.channel, ch);
    assert ClientOk(p, w, w.clients[k]);
    FinishedIsProtected(p, w, w.clients[k]);
    AcceptedConfirmNamesClient(p, w, s, reqs[j].confirm);
  }

  lemma AcceptedConfirmNamesClient(p: Parties, w: World, s: ServerSession, confirm: Confirm)
    requires SessionsOk(p, w) && ServerOk(p, w, s) && Presentable(p, w, confirm.confirm)
    requires VerifyConfirm(s.accepted.expectedConfirm, confirm) && Protected(p, s.accepted.channel.authKey)
    ensures s.hello.clientIdentity == p.env.curve.pub(p.client)
  {
    var m := AcceptedConfirmIsClients(p, w, s, confirm);
    var cl := w.clients[m];
    assert ClientOk(p, w, cl);
    var hello := ClientHello(p.env, p.client, cl.eph);
    var tr, ikm := FinishedShape(p.env, p.client, cl.eph, hello, cl.reply, p.pin);
    CompletedMeansAgreement(p.env, p.server, s.eph, s.hello, p.allow, p.client, cl.eph, hello, cl.reply, p.pin);
  }

  /** Over every run of the gateway and every attacked world of handshakes: the channel live under a
      name was proven by a confirmed hello, and it is a session the client itself holds exactly when
      that hello carried the client's own identity key. */
  lemma LiveChannelIsClientsIff(cfg: Config, p: Parties, hsteps: seq<HandshakeRuns.Step>, w: World, reqs: seq<Request>, c: Bytes)
    returns (i: nat, j: nat)
    requires SameServer(cfg, p) && p.env.curve.Commutes() && HandshakeRuns.Reaches(p, hsteps, w) && ConfirmsPresentable(p, w, reqs)
    requires c in HttpGateway.After(cfg, reqs) && HttpGateway.After(cfg, reqs)[c].channel.Some?
    ensures ProvesLive(cfg, reqs, c, i, j, HttpGateway.After(cfg, reqs)[c].channel.value)
    ensures ClientHolds(p, w, HttpGateway.After(cfg, reqs)[c].channel.value) <==>
            reqs[i].hello.clientIdentity == p.env.curve.pub(p.client)
  {
    var ch := HttpGateway.After(cfg, reqs)[c].channel.value;
    LiveChannelsAreProven(cfg, reqs, c);
    i, j :| 0 <= i < j < |reqs| && Proven(cfg, reqs, i, j, c) && SameKeys(ch, HandshakeOf(cfg, reqs, i).channel);
    HandshakeRuns.ReachableInv(p, hsteps, w);
    if reqs[i].hello.clientIdentity == p.env.curve.pub(p.client) {
      OwnHelloIsOwnSession(cfg, p, w, reqs, c, i, j, ch);
    } else if ClientHolds(p, w, ch) {
      OwnSessionIsOwnHello(cfg, p, w, reqs, c, i, j, ch);
    }
  }

  /** No hello of the run brings another allowed key with the client's fingerprint. */
  ghost predicate NoCollision(cfg: Config, p: Parties, reqs: seq<Request>) {
    var c := p.env.fingerprint(p.env.curve.pub(p.client));
    forall i | 0 <= i < |reqs| && reqs[i].HelloRequest? ::
      var key := reqs[i].hello.clientIdentity;
      cfg.env.fingerprint(key) == c && cfg.allow(key, c) ==> key == p.env.curve.pub(p.client)
  }

  /** So nobody takes over a client's session by name, as long as nobody presents another allowed key of
      the same fingerprint. */
  lemma NoTakeoverByName(cfg: Config, p: Parties, hsteps: seq<HandshakeRuns.Step>, w: World, reqs: seq<Request>)
    requires SameServer(cfg, p) && p.env.curve.Commutes() && HandshakeRuns.Reaches(p, hsteps, w) && ConfirmsPresentable(p, w, reqs)
    requires NoCollision(cfg, p, reqs)
    requires var c := p.env.fingerprint(p.env.curve.pub(p.client));
             c in HttpGateway.After(cfg, reqs) && HttpGateway.After(cfg, reqs)[c].channel.Some?
    ensures var c := p.env.fingerprint(p.env.curve.pub(p.client));
            ClientHolds(p, w, HttpGateway.After(cfg, reqs)[c].channel.value)
  {
    var i, j := LiveChannelIsClientsIff(cfg, p, hsteps, w, reqs, p.env.fingerprint(p.env.curve.pub(p.client)));
  }

  /** The two requests of a holder of key `other`: its hello, and the confirm it computes. */
  function TwoRequests(cfg: Config, other: nat, otherEph: nat, serverEph: nat): seq<Request>
    requires CanConnect(cfg, other, otherEph, serverEph)
  {
    var hello := ClientHello(cfg.env, other, otherEph);
    var reply := ServerHandshake(cfg.env, cfg.identity, hello, cfg.allow, serverEph).value.reply;
    [HelloRequest(hello, serverEph),
     ConfirmRequest(cfg.env.fingerprint(cfg.env.curve.pub(other)), ClientFinish(cfg.env, other, otherEph, hello, reply, None).value.confirm)]
  }

  /** The gateway accepts the hello, and its reply satisfies the client half of the handshake. */
  predicate CanConnect(cfg: Config, other: nat, otherEph: nat, serverEph: nat) {
    var hello := ClientHello(cfg.env, other, otherEph);
    var server := ServerHandshake(cfg.env, cfg.identity, hello, cfg.allow, serverEph);
    server.Ok? &&
    var client := ClientFinish(cfg.env, other, otherEph, hello, server.value.reply, None);
    client.Ok? && VerifyConfirm(server.value.expectedConfirm, client.value.confirm)
  }

  lemma AllowedCanConnect(cfg: Config, other: nat, otherEph: nat, serverEph: nat)
    requires cfg.env.curve.Commutes()
    requires cfg.allow(cfg.env.curve.pub(other), cfg.env.fingerprint(cfg.env.curve.pub(other)))
    requires Ikm(cfg.env.curve, other, cfg.env.curve.pub(cfg.identity), otherEph, cfg.env.curve.pub(serverEph)).Some?
    ensures CanConnect(cfg, other, otherEph, serverEph)
  {
    HonestHandshakeCompletes(cfg.env, cfg.identity, serverEph, other, otherEph, cfg.allow, None);
  }

  lemma AfterOne(cfg: Config, before: seq<Request>, a: Request)
    ensures HttpGateway.After(cfg, before + [a]) == Handle(cfg, HttpGateway.After(cfg, before), a).0
  {
    assert (before + [a])[..|before|] == before;
  }

  lemma AfterTwo(cfg: Config, before: seq<Request>, a: Request, b: Request)
    ensures HttpGateway.After(cfg, before + [a]) == Handle(cfg, HttpGateway.After(cfg, before), a).0
    ensures HttpGateway.After(cfg, before + [a, b]) == Handle(cfg, HttpGateway.After(cfg, before + [a]), b).0
  {
    AfterOne(cfg, before, a);
    AfterOne(cfg, before + [a], b);
    Regroup(before, [a], [b]);
    assert [a] + [b] == [a, b];
  }

  /** Anybody with an allowed key of the same fingerprint does take the name over, whatever happened
      before and whoever is live under it: two requests later the channel is that key's. */
  lemma SameFingerprintTakesOver(cfg: Config, before: seq<Request>, other: nat, otherEph: nat, serverEph: nat)
    requires CanConnect(cfg, other, otherEph, serverEph)
    requires cfg.env.fingerprint(cfg.env.curve.pub(other)) in HttpGateway.After(cfg, before)
    ensures var c, hello := cfg.env.fingerprint(cfg.env.curve.pub(other)), ClientHello(cfg.env, other, otherEph);
            var s := HttpGateway.After(cfg, before + TwoRequests(cfg, other, otherEph, serverEph));
            c in s && s[c].channel == Some(ServerHandshake(cfg.env, cfg.identity, hello, cfg.allow, serverEph).value.channel)
  {
    var hello := ClientHello(cfg.env, other, otherEph);
    var accepted := ServerHandshake(cfg.env, cfg.identity, hello, cfg.allow, serverEph).value;
    var reqs := TwoRequests(cfg, other, otherEph, serverEph);
    AfterTwo(cfg, before, reqs[0], reqs[1]);
    var c := cfg.env.fingerprint(cfg.env.curve.pub(other));
    assert accepted.clientId == c;
    var s1 := HttpGateway.After(cfg, before + [reqs[0]]);
    assert c in s1 && s1[c].pending == Some(Pending(accepted.channel, accepted.expectedConfirm));
  }

  /** And the client holds no session on it. */
  lemma TakenOverIsNotClients(
    cfg: Config, p: Parties, hsteps: seq<HandshakeRuns.Step>, w: World, before: seq<Request>, other: nat, otherEph: nat, serverEph: nat)
    requires CanConnect(cfg, other, otherEph, serverEph) && cfg.env.curve.pub(other) != cfg.env.curve.pub(p.client)
    requires cfg.env.fingerprint(cfg.env.curve.pub(other)) in HttpGateway.After(cfg, before)
    requires SameServer(cfg, p) && p.env.curve.Commutes() && HandshakeRuns.Reaches(p, hsteps, w)
    requires ConfirmsPresentable(p, w, before + TwoRequests(cfg, other, otherEph, serverEph))
    ensures var c := cfg.env.fingerprint(cfg.env.curve.pub(other));
            var s := HttpGateway.After(cfg, before + TwoRequests(cfg, other, otherEph, serverEph));
            c in s && s[c].channel.Some? && !ClientHolds(p, w, s[c].channel.value)
  {
    SameFingerprintTakesOver(cfg, before, other, otherEph, serverEph);
    HandshakeRuns.ReachableInv(p, hsteps, w);
    var c, n := cfg.env.fingerprint(cfg.env.curve.pub(other)), |before|;
    var reqs := before + TwoRequests(cfg, other, otherEph, serverEph);
    var ch := HttpGateway.After(cfg, reqs)[c].channel.value;
    TwoRequestsProve(cfg, before, other, otherEph, serverEph);
    if ClientHolds(p, w, ch) {
      OwnSessionIsOwnHello(cfg, p, w, reqs, c, n, n + 1, ch);
      assert false;
    }
  }

  lemma TwoRequestsProve(cfg: Config, before: seq<Request>, other: nat, otherEph: nat, serverEph: nat)
    requires CanConnect(cfg, other, otherEph, serverEph)
    requires cfg.env.fingerprint(cfg.env.curve.pub(other)) in HttpGateway.After(cfg, before)
    ensures var reqs, n := before + TwoRequests(cfg, other, otherEph, serverEph), |before|;
            var hello := ClientHello(cfg.env, other, otherEph);
            && reqs[n] == HelloRequest(hello, serverEph)
            && ProvesLive(cfg, reqs, cfg.env.fingerprint(cfg.env.curve.pub(other)), n, n + 1,
                 ServerHandshake(cfg.env, cfg.identity, hello, cfg.allow, serverEph).value.channel)
  {
    var c, two := cfg.env.fingerprint(cfg.env.curve.pub(other)), TwoRequests(cfg, other, otherEph, serverEph);
    LatestHelloIs(cfg, before, two[0], two[1], c);
    assert before + two == before + [two[0], two[1]];
    assert Proven(cfg, before + two, |before|, |before| + 1, c);
  }

  lemma LatestHelloIs(cfg: Config, before: seq<Request>, a: Request, b: Request, c: Bytes)
    requires a.HelloRequest? && cfg.env.fingerprint(a.hello.clientIdentity) == c && c in HttpGateway.After(cfg, before)
    requires ServerHandshake(cfg.env, cfg.identity, a.hello, cfg.allow, a.serverEph).Ok?
    ensures LatestHello(cfg, before + [a, b], |before|, |before| + 1, c)
  {
    assert (before + [a, b])[..|before|] == before;
    var accepted := ServerHandshake(cfg.env, cfg.identity, a.hello, cfg.allow, a.serverEph).value;
    assert accepted.clientId == c;
  }
}
