/** The three-message, four-Diffie-Hellman handshake (proto.js, mirrored by KoCrypto.java). */
module Handshake {
  import opened Bytes
  import opened Primitives
  import opened Frames
  import opened Channels
  import SecretOrder

  const PROTO_VERSION := 2
  const HKDF_INFO := "agent-mobile/v2"

  /** The curve, and the short fingerprint of an identity key. Key pairs are given by their
      private half; generating one means choosing a scalar. */
  datatype Env = Env(curve: Curve, fingerprint: Bytes -> Bytes)

  /** Handshake messages with their base64 fields decoded; an absent field is empty. */
  datatype Hello = Hello(v: int, clientIdentity: Bytes, clientEph: Bytes)
  datatype Reply = Reply(v: int, serverIdentity: Bytes, serverEph: Bytes, mac: Mac)
  datatype Confirm = Confirm(v: int, confirm: Mac)

  datatype Error =
    | BadVersion
    | BadField(field: string)
    | UnknownClient
    | KeyAgreementFailed
    | FieldTooLong
    | IdentityMismatch
    | MacMismatch

  datatype Accepted = Accepted(
    reply: Reply, channel: ChannelState, clientIdentity: Bytes, clientId: Bytes, expectedConfirm: Mac)

  datatype Finished = Finished(channel: ChannelState, serverIdentity: Bytes, agentId: Bytes, confirm: Confirm)

  // ---- key derivation -------------------------------------------------------------------------

  /** The four secrets of one side, in the order that side computes them. */
  function Secrets(curve: Curve, identity: nat, theirId: Bytes, eph: nat, theirEph: Bytes): Option<seq<Bytes>> {
    var s1 := curve.dh(identity, theirId);
    var s2 := curve.dh(identity, theirEph);
    var s3 := curve.dh(eph, theirId);
    var s4 := curve.dh(eph, theirEph);
    if s1.None? || s2.None? || s3.None? || s4.None? then None
    else Some([s1.value, s2.value, s3.value, s4.value])
  }

  function Ikm(curve: Curve, identity: nat, theirId: Bytes, eph: nat, theirEph: Bytes): Option<Bytes> {
    var secrets := Secrets(curve, identity, theirId, eph, theirEph);
    if secrets.None? then None else Some(Join(SecretOrder.Sort(secrets.value)))
  }

  datatype Role = ClientRole | AgentRole

  function SessionFrom(role: Role, ikm: Bytes): (c: ChannelState)
    ensures c.Valid()
  {
    var k0, k1 := Derived(ikm, 0), Derived(ikm, 1);
    if role.AgentRole? then NewChannel(k1, k0, Derived(ikm, 2)) else NewChannel(k0, k1, Derived(ikm, 2))
  }

  // ---- transcript and MACs ----------------------------------------------------------------------

  predicate FitsLength(field: Bytes) {
    |field| < 0x1_0000
  }

  /** Each field behind its two-byte length. */
  function LenPrefixed(fields: seq<Bytes>): Bytes {
    if fields == [] then [] else BigEndian(|fields[0]|, 2) + fields[0] + LenPrefixed(fields[1..])
  }

  /** None where a field is too long for its two-byte length. */
  function Transcript(cId: Bytes, cEph: Bytes, sId: Bytes, sEph: Bytes): Option<Bytes> {
    if FitsLength(cId) && FitsLength(cEph) && FitsLength(sId) && FitsLength(sEph)
    then Some(Ascii(HKDF_INFO) + LenPrefixed([cId, cEph, sId, sEph]))
    else None
  }

  /** Channel.handshakeMac: HMAC(authKey, label, 0, transcript). */
  function HandshakeMac(chan: ChannelState, who: string, transcript: Bytes): Mac {
    Hmac(chan.authKey, Join([Ascii(who), [0], transcript]))
  }

  /** Length prefixes make a list of fields readable again from the bytes alone. */
  lemma {:induction false} LenPrefixedInjective(xs: seq<Bytes>, ys: seq<Bytes>)
    requires forall f :: f in xs ==> FitsLength(f)
    requires forall f :: f in ys ==> FitsLength(f)
    requires |xs| == |ys| && LenPrefixed(xs) == LenPrefixed(ys)
    ensures xs == ys
  {
    if xs == [] {
    } else {
      var x, y := xs[0], ys[0];
      SplitField(x, LenPrefixed(xs[1..]), y, LenPrefixed(ys[1..]));
      LenPrefixedInjective(xs[1..], ys[1..]);
      assert xs == [x] + xs[1..] && ys == [y] + ys[1..];
    }
  }

  lemma SplitField(x: Bytes, u: Bytes, y: Bytes, v: Bytes)
    requires FitsLength(x) && FitsLength(y)
    requires BigEndian(|x|, 2) + x + u == BigEndian(|y|, 2) + y + v
    ensures x == y && u == v
  {
    FieldSizes();
    BigEndianRoundTrip(|x|, 2);
    BigEndianRoundTrip(|y|, 2);
    var b := BigEndian(|x|, 2) + x + u;
    assert b[..2] == BigEndian(|x|, 2) == BigEndian(|y|, 2);
    assert b[2..2 + |x|] == x && b[2..2 + |y|] == y;
    assert b[2 + |x|..] == u && b[2 + |y|..] == v;
  }

  /** One transcript, one quadruple of public keys; and every transcript names the protocol first. */
  lemma TranscriptInjective(a1: Bytes, a2: Bytes, a3: Bytes, a4: Bytes, b1: Bytes, b2: Bytes, b3: Bytes, b4: Bytes)
    requires Transcript(a1, a2, a3, a4).Some? && Transcript(a1, a2, a3, a4) == Transcript(b1, b2, b3, b4)
    ensures a1 == b1 && a2 == b2 && a3 == b3 && a4 == b4
    ensures Ascii("agent-mobile/v2") <= Transcript(a1, a2, a3, a4).value
  {
    var a, b := [a1, a2, a3, a4], [b1, b2, b3, b4];
    SplitEqual(Ascii(HKDF_INFO), LenPrefixed(a), Ascii(HKDF_INFO), LenPrefixed(b));
    LenPrefixedInjective(a, b);
    assert a[0] == b[0] && a[1] == b[1] && a[2] == b[2] && a[3] == b[3];
  }

  /** Equal MACs under equal labels are MACs of one transcript under one key, and a server MAC
      is never a client's confirm value. */
  lemma MacsSeparate(c: ChannelState, s: ChannelState, tc: Bytes, ts: Bytes)
    ensures HandshakeMac(c, "server", tc) == HandshakeMac(s, "server", ts) ==> c.authKey == s.authKey && tc == ts
    ensures HandshakeMac(c, "client", tc) == HandshakeMac(s, "client", ts) ==> c.authKey == s.authKey && tc == ts
    ensures HandshakeMac(c, "server", tc) != HandshakeMac(s, "client", ts)
  {
    MacInput("server", tc);
    MacInput("server", ts);
    MacInput("client", tc);
    MacInput("client", ts);
    if HandshakeMac(c, "server", tc) == HandshakeMac(s, "server", ts) {
      SplitEqual(Ascii("server") + [0], tc, Ascii("server") + [0], ts);
    }
    if HandshakeMac(c, "client", tc) == HandshakeMac(s, "client", ts) {
      SplitEqual(Ascii("client") + [0], tc, Ascii("client") + [0], ts);
    }
    assert Join([Ascii("server"), [0], tc])[0] == 's' as int;
    assert Join([Ascii("client"), [0], ts])[0] == 'c' as int;
  }

  lemma MacInput(who: string, transcript: Bytes)
    ensures Join([Ascii(who), [0], transcript]) == Ascii(who) + [0] + transcript
  {
    var parts := [Ascii(who), [0], transcript];
    assert parts[1..] == [[0], transcript] && parts[1..][1..] == [transcript];
    assert Join([transcript]) == transcript + Join([]) == transcript;
    assert Join([[0], transcript]) == [0] + transcript;
    assert Ascii(who) + ([0] + transcript) == Ascii(who) + [0] + transcript;
  }

  // ---- the three steps ----------------------------------------------------------------------------

  function ClientHello(env: Env, identity: nat, eph: nat): Hello {
    Hello(PROTO_VERSION, env.curve.pub(identity), env.curve.pub(eph))
  }

  /** `allow` is the allowlist gate; pairing mode is the gate that lets everyone through. */
  function ServerHandshake(env: Env, identity: nat, hello: Hello, allow: (Bytes, Bytes) -> bool, serverEph: nat)
    : (r: Result<Accepted, Error>)
  {
    if hello.v != PROTO_VERSION then Err(BadVersion)
    else if hello.clientIdentity == [] then Err(BadField("client_identity"))
    else if hello.clientEph == [] then Err(BadField("client_eph"))
    else
      var clientId := env.fingerprint(hello.clientIdentity);
      if !allow(hello.clientIdentity, clientId) then Err(UnknownClient)
      else
        var ikm := Ikm(env.curve, identity, hello.clientIdentity, serverEph, hello.clientEph);
        if ikm.None? then Err(KeyAgreementFailed)
        else
          var channel := SessionFrom(AgentRole, ikm.value);
          var serverIdentity, ephPub := env.curve.pub(identity), env.curve.pub(serverEph);
          var tr := Transcript(hello.clientIdentity, hello.clientEph, serverIdentity, ephPub);
          if tr.None? then Err(FieldTooLong)
          else
            Ok(Accepted(
              Reply(PROTO_VERSION, serverIdentity, ephPub, HandshakeMac(channel, "server", tr.value)),
              channel, hello.clientIdentity, clientId, HandshakeMac(channel, "client", tr.value)))
  }

  /** `pin` is the pinned server key; None is trust on first use. */
  function ClientFinish(env: Env, identity: nat, eph: nat, hello: Hello, reply: Reply, pin: Option<Bytes>)
    : (r: Result<Finished, Error>)
  {
    if reply.v != PROTO_VERSION then Err(BadVersion)
    else if reply.serverIdentity == [] then Err(BadField("server_identity"))
    else if reply.serverEph == [] then Err(BadField("server_eph"))
    else if reply.mac == Noise([]) then Err(BadField("mac"))
    else if pin.Some? && pin.value != reply.serverIdentity then Err(IdentityMismatch)
    else
      var ikm := Ikm(env.curve, identity, reply.serverIdentity, eph, reply.serverEph);
      if ikm.None? then Err(KeyAgreementFailed)
      else if hello.clientIdentity == [] then Err(BadField("client_identity"))
      else if hello.clientEph == [] then Err(BadField("client_eph"))
      else
        var channel := SessionFrom(ClientRole, ikm.value);
        var tr := Transcript(hello.clientIdentity, hello.clientEph, reply.serverIdentity, reply.serverEph);
        if tr.None? then Err(FieldTooLong)
        else if reply.mac != HandshakeMac(channel, "server", tr.value) then Err(MacMismatch)
        else
          Ok(Finished(channel, reply.serverIdentity, env.fingerprint(reply.serverIdentity),
            Confirm(PROTO_VERSION, HandshakeMac(channel, "client", tr.value))))
  }

  predicate VerifyConfirm(expected: Mac, msg: Confirm) {
    msg.v == PROTO_VERSION && msg.confirm != Noise([]) && msg.confirm == expected
  }

  // ---- agreement and completeness -------------------------------------------------------------------

  /** Both ends of one session: same MAC key, and each sends under the key the other receives with. */
  predicate SameSession(client: ChannelState, server: ChannelState) {
    Mirrored(client, server) && client.authKey == server.authKey
  }

  /** Whoever carried the messages and whatever they changed: if the client finished on a reply
      bearing the server's MAC, or the server verified the client's confirm, both hold the same
      four public keys and mirrored session keys. */
  lemma CompletedMeansAgreement(
    env: Env, serverId: nat, serverEph: nat, hello: Hello, allow: (Bytes, Bytes) -> bool,
    clientId: nat, eph: nat, ownHello: Hello, reply: Reply, pin: Option<Bytes>)
    requires ServerHandshake(env, serverId, hello, allow, serverEph).Ok?
    requires ClientFinish(env, clientId, eph, ownHello, reply, pin).Ok?
    requires var s := ServerHandshake(env, serverId, hello, allow, serverEph).value;
             var c := ClientFinish(env, clientId, eph, ownHello, reply, pin).value;
             reply.mac == s.reply.mac || VerifyConfirm(s.expectedConfirm, c.confirm)
    ensures hello.clientIdentity == ownHello.clientIdentity && hello.clientEph == ownHello.clientEph
    ensures reply.serverIdentity == env.curve.pub(serverId) && reply.serverEph == env.curve.pub(serverEph)
    ensures SameSession(ClientFinish(env, clientId, eph, ownHello, reply, pin).value.channel,
                        ServerHandshake(env, serverId, hello, allow, serverEph).value.channel)
  {
    var s := ServerHandshake(env, serverId, hello, allow, serverEph).value;
    var c := ClientFinish(env, clientId, eph, ownHello, reply, pin).value;
    var ts, si := AcceptedShape(env, serverId, hello, allow, serverEph);
    var tc, ci := FinishedShape(env, clientId, eph, ownHello, reply, pin);
    MacsSeparate(c.channel, s.channel, tc, ts);
    TranscriptInjective(ownHello.clientIdentity, ownHello.clientEph, reply.serverIdentity, reply.serverEph,
      hello.clientIdentity, hello.clientEph, env.curve.pub(serverId), env.curve.pub(serverEph));
  }

  /** What the server holds after accepting a hello: the transcript and keying material behind it. */
  lemma AcceptedShape(env: Env, identity: nat, hello: Hello, allow: (Bytes, Bytes) -> bool, eph: nat)
    returns (tr: Bytes, ikm: Bytes)
    requires ServerHandshake(env, identity, hello, allow, eph).Ok?
    ensures Some(tr) == Transcript(hello.clientIdentity, hello.clientEph, env.curve.pub(identity), env.curve.pub(eph))
    ensures Some(ikm) == Ikm(env.curve, identity, hello.clientIdentity, eph, hello.clientEph)
    ensures var s := ServerHandshake(env, identity, hello, allow, eph).value;
            && s.channel == SessionFrom(AgentRole, ikm)
            && s.reply.mac == HandshakeMac(s.channel, "server", tr)
            && s.expectedConfirm == HandshakeMac(s.channel, "client", tr)
  {
    tr := Transcript(hello.clientIdentity, hello.clientEph, env.curve.pub(identity), env.curve.pub(eph)).value;
    ikm := Ikm(env.curve, identity, hello.clientIdentity, eph, hello.clientEph).value;
  }

  lemma FinishedShape(env: Env, identity: nat, eph: nat, hello: Hello, reply: Reply, pin: Option<Bytes>)
    returns (tr: Bytes, ikm: Bytes)
    requires ClientFinish(env, identity, eph, hello, reply, pin).Ok?
    ensures Some(tr) == Transcript(hello.clientIdentity, hello.clientEph, reply.serverIdentity, reply.serverEph)
    ensures Some(ikm) == Ikm(env.curve, identity, reply.serverIdentity, eph, reply.serverEph)
    ensures pin.Some? ==> pin.value == reply.serverIdentity
    ensures var c := ClientFinish(env, identity, eph, hello, reply, pin).value;
            && c.channel == SessionFrom(ClientRole, ikm) && c.serverIdentity == reply.serverIdentity
            && reply.mac == HandshakeMac(c.channel, "server", tr)
            && c.confirm == Confirm(PROTO_VERSION, HandshakeMac(c.channel, "client", tr))
  {
    tr := Transcript(hello.clientIdentity, hello.clientEph, reply.serverIdentity, reply.serverEph).value;
    ikm := Ikm(env.curve, identity, reply.serverIdentity, eph, reply.serverEph).value;
  }

  /** The two sides derive the same keying material although they meet the secrets in
      mirror-image order. */
  lemma IkmAgrees(curve: Curve, c: nat, ce: nat, s: nat, se: nat)
    requires curve.Commutes()
    ensures Ikm(curve, c, curve.pub(s), ce, curve.pub(se)) == Ikm(curve, s, curve.pub(c), se, curve.pub(ce))
  {
    assert curve.dh(c, curve.pub(s)) == curve.dh(s, curve.pub(c));
    assert curve.dh(c, curve.pub(se)) == curve.dh(se, curve.pub(c));
    assert curve.dh(ce, curve.pub(s)) == curve.dh(s, curve.pub(ce));
    assert curve.dh(ce, curve.pub(se)) == curve.dh(se, curve.pub(ce));
    var mine := Secrets(curve, c, curve.pub(s), ce, curve.pub(se));
    var theirs := Secrets(curve, s, curve.pub(c), se, curve.pub(ce));
    if mine.Some? {
      assert theirs.value == [mine.value[0], mine.value[2], mine.value[1], mine.value[3]];
      assert multiset(mine.value) == multiset(theirs.value);
      SecretOrder.SortCanonical(mine.value, theirs.value);
    }
  }

  lemma {:induction false} JoinInjective(xs: seq<Bytes>, ys: seq<Bytes>, n: nat)
    requires |xs| == |ys| && (forall x :: x in xs ==> |x| == n) && (forall y :: y in ys ==> |y| == n)
    requires Join(xs) == Join(ys)
    ensures xs == ys
  {
    if xs == [] {
    } else {
      assert xs[0] in xs && ys[0] in ys && (forall x :: x in xs[1..] ==> x in xs) && (forall y :: y in ys[1..] ==> y in ys);
      SplitEqual(xs[0], Join(xs[1..]), ys[0], Join(ys[1..]));
      JoinInjective(xs[1..], ys[1..], n);
      HeadTail(xs);
      HeadTail(ys);
    }
  }

  /** The four secrets of one side: identity and ephemeral key with identity and ephemeral key. */
  ghost predicate FourSecrets(curve: Curve, identity: nat, theirId: Bytes, eph: nat, theirEph: Bytes, secrets: multiset<Bytes>) {
    exists a, b, c, d ::
      && curve.dh(identity, theirId) == Some(a) && curve.dh(identity, theirEph) == Some(b)
      && curve.dh(eph, theirId) == Some(c) && curve.dh(eph, theirEph) == Some(d)
      && secrets == multiset{a, b, c, d}
  }

  /** The keying material is made of all four secrets: where secrets have one length, as those of a curve do,
      it is the same exactly if they are, in whatever order. */
  lemma IkmIsFourSecrets(
    curve: Curve, i: nat, ti: Bytes, e: nat, te: Bytes, j: nat, tj: Bytes, f: nat, tf: Bytes, m1: multiset<Bytes>, m2: multiset<Bytes>, n: nat)
    requires FourSecrets(curve, i, ti, e, te, m1) && FourSecrets(curve, j, tj, f, tf, m2)
    requires (forall x :: x in m1 ==> |x| == n) && (forall x :: x in m2 ==> |x| == n)
    ensures Ikm(curve, i, ti, e, te).Some? && Ikm(curve, j, tj, f, tf).Some?
    ensures Ikm(curve, i, ti, e, te) == Ikm(curve, j, tj, f, tf) <==> m1 == m2
  {
    var s := Secrets(curve, i, ti, e, te).value;
    var t := Secrets(curve, j, tj, f, tf).value;
    assert multiset(s) == m1 && multiset(t) == m2;
    SecretOrder.SortSorts(s);
    SecretOrder.SortSorts(t);
    if m1 == m2 {
      SecretOrder.SortCanonical(s, t);
    } else if Ikm(curve, i, ti, e, te) == Ikm(curve, j, tj, f, tf) {
      SameSizes(SecretOrder.Sort(s), m1, n);
      SameSizes(SecretOrder.Sort(t), m2, n);
      SameCount(SecretOrder.Sort(s), s);
      SameCount(SecretOrder.Sort(t), t);
      JoinInjective(SecretOrder.Sort(s), SecretOrder.Sort(t), n);
    }
  }

  lemma SameSizes(s: seq<Bytes>, m: multiset<Bytes>, n: nat)
    requires multiset(s) == m && forall x :: x in m ==> |x| == n
    ensures forall x :: x in s ==> |x| == n
  {
    assert forall x :: x in s ==> x in multiset(s);
  }

  lemma SameCount(s: seq<Bytes>, t: seq<Bytes>)
    requires multiset(s) == multiset(t)
    ensures |s| == |t|
  {
    assert |multiset(s)| == |s| && |multiset(t)| == |t|;
  }

  /** The server accepts an allowed client's own hello exactly when the key agreement works. */
  lemma HonestHelloAccepted(env: Env, s: nat, se: nat, c: nat, ce: nat, allow: (Bytes, Bytes) -> bool)
    requires env.curve.Commutes()
    requires allow(env.curve.pub(c), env.fingerprint(env.curve.pub(c)))
    ensures var server := ServerHandshake(env, s, ClientHello(env, c, ce), allow, se);
            if Ikm(env.curve, c, env.curve.pub(s), ce, env.curve.pub(se)).None?
            then server == Err(KeyAgreementFailed) else server.Ok?
  {
    IkmAgrees(env.curve, c, ce, s, se);
  }

  lemma HonestReplyFinishes(
    env: Env, s: nat, se: nat, c: nat, ce: nat, allow: (Bytes, Bytes) -> bool, pin: Option<Bytes>)
    returns (tr: Bytes, ikm: Bytes)
    requires env.curve.Commutes()
    requires ServerHandshake(env, s, ClientHello(env, c, ce), allow, se).Ok?
    requires pin.Some? ==> pin.value == env.curve.pub(s)
    ensures ServerHandshake(env, s, ClientHello(env, c, ce), allow, se).value.channel == SessionFrom(AgentRole, ikm)
    ensures ServerHandshake(env, s, ClientHello(env, c, ce), allow, se).value.expectedConfirm ==
            HandshakeMac(SessionFrom(AgentRole, ikm), "client", tr)
    ensures ClientFinish(env, c, ce, ClientHello(env, c, ce),
              ServerHandshake(env, s, ClientHello(env, c, ce), allow, se).value.reply, pin) ==
            Ok(Finished(SessionFrom(ClientRole, ikm), env.curve.pub(s), env.fingerprint(env.curve.pub(s)),
              Confirm(PROTO_VERSION, HandshakeMac(SessionFrom(ClientRole, ikm), "client", tr))))
  {
    IkmAgrees(env.curve, c, ce, s, se);
    var hello := ClientHello(env, c, ce);
    tr, ikm := AcceptedShape(env, s, hello, allow, se);
    var reply := ServerHandshake(env, s, hello, allow, se).value.reply;
    assert HandshakeMac(SessionFrom(ClientRole, ikm), "server", tr) == reply.mac;
  }

  /** Messages delivered unchanged between an allowed client and the server it pinned (or meets
      for the first time): the handshake completes on both sides exactly when the key agreement
      works, and then both hold one session. */
  lemma HonestHandshakeCompletes(
    env: Env, s: nat, se: nat, c: nat, ce: nat, allow: (Bytes, Bytes) -> bool, pin: Option<Bytes>)
    requires env.curve.Commutes()
    requires allow(env.curve.pub(c), env.fingerprint(env.curve.pub(c)))
    requires pin.Some? ==> pin.value == env.curve.pub(s)
    ensures var hello := ClientHello(env, c, ce);
            var server := ServerHandshake(env, s, hello, allow, se);
            if Ikm(env.curve, c, env.curve.pub(s), ce, env.curve.pub(se)).None?
            then server == Err(KeyAgreementFailed)
            else
              server.Ok? &&
              var client := ClientFinish(env, c, ce, hello, server.value.reply, pin);
              client.Ok? && VerifyConfirm(server.value.expectedConfirm, client.value.confirm) &&
              SameSession(client.value.channel, server.value.channel)
  {
    HonestHelloAccepted(env, s, se, c, ce, allow);
    var server := ServerHandshake(env, s, ClientHello(env, c, ce), allow, se);
    if server.Ok? {
      var tr, ikm := HonestReplyFinishes(env, s, se, c, ce, allow, pin);
    }
  }

  // ---- exactly what is accepted -----------------------------------------------------------------------

  /** A key that was sent, and is short enough for its length prefix. */
  predicate UsableField(field: Bytes) {
    0 < |field| && FitsLength(field)
  }

  /** Exactly which hellos a server accepts: of this version, with two usable keys, from a client that is
      allowed, and such that all four secrets can be computed. What it notes of the client is what the
      hello says. */
  lemma HelloAcceptedIff(env: Env, identity: nat, hello: Hello, allow: (Bytes, Bytes) -> bool, serverEph: nat)
    requires env.curve.Commutes()
    ensures var r := ServerHandshake(env, identity, hello, allow, serverEph);
            && (r.Ok? <==>
                  && hello.v == PROTO_VERSION && UsableField(hello.clientIdentity) && UsableField(hello.clientEph)
                  && allow(hello.clientIdentity, env.fingerprint(hello.clientIdentity))
                  && Ikm(env.curve, identity, hello.clientIdentity, serverEph, hello.clientEph).Some?)
            && (r.Ok? ==>
                  r.value.clientIdentity == hello.clientIdentity && r.value.clientId == env.fingerprint(hello.clientIdentity))
  {
    assert FitsLength(env.curve.pub(identity)) && FitsLength(env.curve.pub(serverEph));
  }

  /** Exactly which replies under a server's keys its client accepts: the one that server makes of the
      client's own hello, if the key is the one pinned. */
  lemma ReplyAcceptedIff(env: Env, s: nat, se: nat, c: nat, ce: nat, reply: Reply, pin: Option<Bytes>)
    requires env.curve.Commutes()
    requires reply.serverIdentity == env.curve.pub(s) && reply.serverEph == env.curve.pub(se)
    ensures var hello := ClientHello(env, c, ce);
            var made := ServerHandshake(env, s, hello, (pub, id) => true, se);
            ClientFinish(env, c, ce, hello, reply, pin).Ok? <==>
            made.Ok? && reply == made.value.reply && (pin.Some? ==> pin.value == env.curve.pub(s))
  {
    var hello, everyone := ClientHello(env, c, ce), (pub: Bytes, id: Bytes) => true;
    HonestHandshakeCompletes(env, s, se, c, ce, everyone, None);
    if ClientFinish(env, c, ce, hello, reply, pin).Ok? {
      var tr, ikm := FinishedShape(env, c, ce, hello, reply, pin);
      var ts, si := AcceptedShape(env, s, hello, everyone, se);
      IkmAgrees(env.curve, c, ce, s, se);
    }
    if ServerHandshake(env, s, hello, everyone, se).Ok? {
      if pin.Some? ==> pin.value == env.curve.pub(s) {
        HonestHandshakeCompletes(env, s, se, c, ce, everyone, pin);
      }
    }
  }

  /** Exactly which confirms a server accepts for a client's own hello: the one that client makes of the
      server's reply. */
  lemma ConfirmAcceptedIff(env: Env, s: nat, se: nat, c: nat, ce: nat, allow: (Bytes, Bytes) -> bool, confirm: Confirm)
    requires env.curve.Commutes() && ServerHandshake(env, s, ClientHello(env, c, ce), allow, se).Ok?
    ensures var accepted := ServerHandshake(env, s, ClientHello(env, c, ce), allow, se).value;
            var finished := ClientFinish(env, c, ce, ClientHello(env, c, ce), accepted.reply, None);
            finished.Ok? && (VerifyConfirm(accepted.expectedConfirm, confirm) <==> confirm == finished.value.confirm)
  {
    var tr, ikm := HonestReplyFinishes(env, s, se, c, ce, allow, None);
  }
}
