/** A UDP media receiver on one end of the attacked network: its channel is the one the WebSocket
    side uses too, its datagrams are whatever the network delivers, and its probe answers go out
    over the same channel. */
module MediaRuns {
  import opened Bytes
  import opened Primitives
  import opened Frames
  import opened Channels
  import Jitter
  import opened JitterRuns
  import opened Network
  import opened UdpMedia

  /** Both ends of the link, the receiver, and the network steps taken so far. */
  datatype System = System(link: Link, receiver: Receiver, steps: seq<Network.Step>)

  datatype MediaStep =
    | Datagram(msg: Bytes, from: Addr, nowMs: int, clockMs: nat)
    | Second
    | Elsewhere(step: Network.Step)

  /** The sequence number of the probe a datagram carries, if this receiver is to answer it. */
  function ProbeToAnswer(cfg: Options, r: Receiver, msg: Bytes): Option<nat>
    requires r.chan.Valid()
  {
    var pt := Open(cfg, r, msg).1;
    if pt.None? || UnpackMedia(pt.value).None? then None
    else
      var m := UnpackMedia(pt.value).value;
      if m.kind == KIND_PROBE && cfg.respondToProbes then Some(m.audio.seqNo) else None
  }

  /** What a datagram amounts to on the link: nothing from a disallowed address, otherwise a
      delivery, followed by a send when a probe is answered. */
  function Behind(cfg: Options, side: Side, r: Receiver, d: MediaStep): seq<Network.Step>
    requires d.Datagram? && r.chan.Valid()
  {
    if !cfg.allow(d.from) then []
    else
      var probe := ProbeToAnswer(cfg, r, d.msg);
      [Deliver(side, d.msg)] +
        if probe.None? then []
        else [Send(side, PackMedia(Media(KIND_PROBE, Audio(probe.value, d.clockMs, []))), TYPE_AUDIO, STREAM_UDP)]
  }

  /** A few steps in a row, each allowed where it is taken. */
  ghost predicate Follows(aead: Aead, link: Link, steps: seq<Network.Step>, link': Link)
    decreases |steps|
  {
    if steps == [] then link' == link
    else
      && link.client.chan.Valid() && link.server.chan.Valid() && Allowed(aead, link, steps[0])
      && Follows(aead, Network.Apply(aead, link, steps[0]), steps[1..], link')
  }

  ghost predicate Next(cfg: Options, side: Side, sys: System, step: MediaStep, sys': System) {
    var r := sys.receiver;
    r.chan.Valid() && (r.jitter.Some? ==> Jitter.Inv(Jitter.DEFAULT_CONFIG, r.jitter.value)) &&
    match step
    case Datagram(msg, from, nowMs, clockMs) =>
      && sys'.receiver == OnDatagram(cfg, r, msg, from, nowMs, clockMs).0
      && sys'.steps == sys.steps + Behind(cfg, side, r, step)
      && Follows(cfg.aead, sys.link, Behind(cfg, side, r, step), sys'.link)
    case Second => sys' == sys.(receiver := OnTick(r))
    case Elsewhere(s) =>
      && sys'.steps == sys.steps + [s]
      && Follows(cfg.aead, sys.link, [s], sys'.link)
      && sys'.receiver == r.(chan := sys'.link.At(side).chan)
  }

  ghost predicate Runs(cfg: Options, side: Side, start: Link, steps: seq<MediaStep>, sys: System)
    decreases |steps|
  {
    if steps == [] then sys == System(start, NewReceiver(start.At(side).chan), [])
    else
      var init, last := steps[..|steps| - 1], steps[|steps| - 1];
      exists mid :: Runs(cfg, side, start, init, mid) && Next(cfg, side, mid, last, sys)
  }

  // ---- the receiver and its end of the link move together --------------------------------------------

  /** Everything the receiver opened was handed up by its end of the link. */
  ghost predicate HeardFrom(heard: seq<Bytes>, got: seq<Sealed>) {
    forall pt :: pt in heard ==> exists g :: g in got && g.pt == pt
  }

  ghost predicate Coupled(e: Endpoint, r: Receiver) {
    e.chan == r.chan && HeardFrom(r.heard, e.got)
  }

  ghost predicate SystemInv(cfg: Options, side: Side, start: Link, sys: System) {
    && Network.Reaches(cfg.aead, start, sys.steps, sys.link)
    && Consistent(sys.receiver)
    && Coupled(sys.link.At(side), sys.receiver)
  }

  lemma ReachesMore(aead: Aead, start: Link, steps: seq<Network.Step>, link: Link, step: Network.Step)
    requires Network.Reaches(aead, start, steps, link) && link.client.chan.Valid() && link.server.chan.Valid()
    requires Allowed(aead, link, step)
    ensures Network.Reaches(aead, start, steps + [step], Network.Apply(aead, link, step))
  {
    var more := steps + [step];
    assert more[..|more| - 1] == steps && more[|more| - 1] == step;
  }

  lemma {:induction false} FollowsReaches(aead: Aead, start: Link, steps: seq<Network.Step>, link: Link, more: seq<Network.Step>, link': Link)
    requires Network.Reaches(aead, start, steps, link) && Follows(aead, link, more, link')
    ensures Network.Reaches(aead, start, steps + more, link')
    decreases |more|
  {
    if more == [] {
      AppendNothing(steps);
    } else {
      ReachesMore(aead, start, steps, link, more[0]);
      FollowsReaches(aead, start, steps + [more[0]], Network.Apply(aead, link, more[0]), more[1..], link');
      HeadTail(more);
      Regroup(steps, [more[0]], more[1..]);
    }
  }

  lemma HeardMore(heard: seq<Bytes>, got: seq<Sealed>, g: Sealed)
    requires HeardFrom(heard, got)
    ensures HeardFrom(heard, got + [g]) && HeardFrom(heard + [g.pt], got + [g])
  {
    assert g in got + [g];
    assert forall x :: x in got ==> x in got + [g];
  }

  /** Opening a datagram is a delivery. */
  lemma OpenIsDelivery(cfg: Options, e: Endpoint, r: Receiver, msg: Bytes)
    requires Coupled(e, r) && r.chan.Valid()
    ensures Coupled(DoDeliver(cfg.aead, e, msg), Open(cfg, r, msg).0)
  {
    var e' := DoDeliver(cfg.aead, e, msg);
    if Open(cfg, r, msg).1.Some? {
      HeardMore(r.heard, e.got, e'.got[|e.got|]);
    }
  }

  /** Answering a probe is a send. */
  lemma AnswerIsSend(cfg: Options, e: Endpoint, r: Receiver, m: Media, from: Addr, clockMs: nat)
    requires Coupled(e, r) && r.chan.Valid() && cfg.respondToProbes
    ensures var body := PackMedia(Media(KIND_PROBE, Audio(m.audio.seqNo, clockMs, [])));
            Coupled(DoSend(cfg.aead, e, body, TYPE_AUDIO, STREAM_UDP), Acknowledge(cfg, r, m, from, clockMs).0)
  {
  }

  /** Playing a frame leaves the channel and what was heard alone. */
  lemma AcceptKeepsCoupled(e: Endpoint, r: Receiver, m: Media, from: Addr, nowMs: int)
    requires Coupled(e, r) && (r.jitter.Some? ==> Jitter.Inv(Jitter.DEFAULT_CONFIG, r.jitter.value))
    ensures Coupled(e, Accept(r, m, from, nowMs).0)
  {
  }

  lemma FollowsOne(aead: Aead, link: Link, step: Network.Step, link': Link)
    requires Follows(aead, link, [step], link')
    ensures link' == Network.Apply(aead, link, step)
  {
  }

  lemma FollowsTwo(aead: Aead, link: Link, s1: Network.Step, s2: Network.Step, link': Link)
    requires Follows(aead, link, [s1, s2], link')
    ensures var mid := Network.Apply(aead, link, s1);
            mid.client.chan.Valid() && mid.server.chan.Valid() && link' == Network.Apply(aead, mid, s2)
  {
    assert [s1, s2][1..] == [s2];
    FollowsOne(aead, Network.Apply(aead, link, s1), s2, link');
  }

  lemma DatagramCoupled(cfg: Options, side: Side, sys: System, d: MediaStep, sys': System)
    requires d.Datagram? && Next(cfg, side, sys, d, sys') && Coupled(sys.link.At(side), sys.receiver)
    ensures Coupled(sys'.link.At(side), sys'.receiver)
  {
    var r, e := sys.receiver, sys.link.At(side);
    if cfg.allow(d.from) {
      var (r1, pt) := Open(cfg, r, d.msg);
      var e1 := DoDeliver(cfg.aead, e, d.msg);
      OpenIsDelivery(cfg, e, r, d.msg);
      var probe := ProbeToAnswer(cfg, r, d.msg);
      if probe.Some? {
        var m := UnpackMedia(pt.value).value;
        var body := PackMedia(Media(KIND_PROBE, Audio(probe.value, d.clockMs, [])));
        var answer := Send(side, body, TYPE_AUDIO, STREAM_UDP);
        assert [Deliver(side, d.msg)] + [answer] == [Deliver(side, d.msg), answer];
        FollowsTwo(cfg.aead, sys.link, Deliver(side, d.msg), answer, sys'.link);
        AnswerIsSend(cfg, e1, r1.(peer := Some(d.from)), m, d.from, d.clockMs);
      } else {
        AppendNothing([Deliver(side, d.msg)]);
        FollowsOne(cfg.aead, sys.link, Deliver(side, d.msg), sys'.link);
        if pt.Some? && UnpackMedia(pt.value).Some? && UnpackMedia(pt.value).value.kind != KIND_PROBE {
          AcceptKeepsCoupled(e1, r1.(peer := Some(d.from)), UnpackMedia(pt.value).value, d.from, d.nowMs);
        }
      }
    }
  }

  /** What happens elsewhere on the link changes at most the channel and adds to what was handed up. */
  lemma ElsewhereCoupled(cfg: Options, side: Side, sys: System, s: Network.Step, sys': System)
    requires Next(cfg, side, sys, Elsewhere(s), sys') && Coupled(sys.link.At(side), sys.receiver)
    ensures Coupled(sys'.link.At(side), sys'.receiver)
  {
    FollowsOne(cfg.aead, sys.link, s, sys'.link);
    var e, e' := sys.link.At(side), sys'.link.At(side);
    assert e.got <= e'.got;
    assert forall g :: g in e.got ==> g in e'.got;
  }

  lemma StepKeepsSystem(cfg: Options, side: Side, start: Link, sys: System, step: MediaStep, sys': System)
    requires Start(start) && SystemInv(cfg, side, start, sys) && Next(cfg, side, sys, step, sys')
    ensures SystemInv(cfg, side, start, sys')
  {
    match step
    case Datagram(msg, from, nowMs, clockMs) =>
      FollowsReaches(cfg.aead, start, sys.steps, sys.link, Behind(cfg, side, sys.receiver, step), sys'.link);
      DatagramKeepsConsistent(cfg, sys.receiver, msg, from, nowMs, clockMs);
      DatagramCoupled(cfg, side, sys, step, sys');
    case Second => TickKeepsConsistent(sys.receiver);
    case Elsewhere(s) =>
      FollowsReaches(cfg.aead, start, sys.steps, sys.link, [s], sys'.link);
      ElsewhereCoupled(cfg, side, sys, s, sys');
      Network.ReachableInv(cfg.aead, start, sys'.steps, sys'.link);
  }

  lemma {:induction false} RunsInv(cfg: Options, side: Side, start: Link, steps: seq<MediaStep>, sys: System)
    requires Start(start) && Runs(cfg, side, start, steps, sys)
    ensures SystemInv(cfg, side, start, sys)
    decreases |steps|
  {
    if steps == [] {
    } else {
      var init, last := steps[..|steps| - 1], steps[|steps| - 1];
      var mid :| Runs(cfg, side, start, init, mid) && Next(cfg, side, mid, last, sys);
      RunsInv(cfg, side, start, init, mid);
      StepKeepsSystem(cfg, side, start, mid, last, sys);
    }
  }

  // ---- end to end ------------------------------------------------------------------------------------------

  /** A plaintext the receiver takes for media. */
  predicate MediaBody(pt: Bytes) {
    UnpackMedia(pt).Some? && UnpackMedia(pt).value.kind != KIND_PROBE
  }

  /** Sealed the way media messages are. The receiver checks neither. */
  predicate OnMediaPath(g: Sealed) {
    g.stream == STREAM_UDP && g.kind == TYPE_AUDIO
  }

  /** The plaintext of this output. */
  function BodyOf(o: Jitter.Out): Bytes
    requires o.Real? && o.seqNo >= 0 && o.tsMs >= 0
  {
    PackMedia(Media(o.payload.kind, Audio(o.seqNo, o.tsMs, o.payload.opus)))
  }

  /** The peer sealed a plaintext with this content, on whatever stream and as whatever type. */
  ghost predicate PeerSealed(peerSent: seq<Sealed>, o: Jitter.Out)
    requires o.Real?
  {
    && 0 <= o.seqNo && 0 <= o.tsMs && o.payload.kind != KIND_PROBE
    && Encodable(Audio(o.seqNo, o.tsMs, o.payload.opus))
    && exists g :: g in peerSent && g.pt == BodyOf(o)
  }

  /** The peer sealed it as a media message. */
  ghost predicate PeerSealedMedia(peerSent: seq<Sealed>, o: Jitter.Out)
    requires o.Real?
  {
    && 0 <= o.seqNo && 0 <= o.tsMs && o.payload.kind != KIND_PROBE
    && exists g :: g in peerSent && OnMediaPath(g) && g.pt == BodyOf(o)
  }

  /** Nothing else the peer seals could be taken for media. */
  ghost predicate KeepsApart(peerSent: seq<Sealed>) {
    forall g :: g in peerSent && MediaBody(g.pt) ==> OnMediaPath(g)
  }

  /** End to end, over every run of the receiver on an attacked network: everything it plays for
      real is a plaintext its peer sealed, with that kind, sequence number, time and audio, and no
      probe; it was sealed as media if the peer keeps media plaintexts apart; and sequence numbers
      only ever go up, so nothing plays twice. */
  lemma PlayedWasSealedByPeer(cfg: Options, side: Side, start: Link, steps: seq<MediaStep>, sys: System)
    requires Start(start) && Runs(cfg, side, start, steps, sys)
    ensures forall i | 0 <= i < |sys.receiver.played| && sys.receiver.played[i].Real? ::
              PeerSealed(sys.link.At(side.Peer()).sent, sys.receiver.played[i])
    ensures KeepsApart(sys.link.At(side.Peer()).sent) ==>
              forall i | 0 <= i < |sys.receiver.played| && sys.receiver.played[i].Real? ::
                PeerSealedMedia(sys.link.At(side.Peer()).sent, sys.receiver.played[i])
    ensures forall i, j :: 0 <= i < j < |sys.receiver.played| ==>
              sys.receiver.played[i].seqNo < sys.receiver.played[j].seqNo
  {
    RunsInv(cfg, side, start, steps, sys);
    var r, sent := sys.receiver, sys.link.At(side.Peer()).sent;
    DeliveredWasSentOnce(cfg.aead, start, sys.steps, sys.link, side);
    PlayoutAccounted(Jitter.DEFAULT_CONFIG, r.log);
    PlayedWasPushed(Jitter.DEFAULT_CONFIG, r.log);
    forall i | 0 <= i < |r.played| && r.played[i].Real?
      ensures PeerSealed(sent, r.played[i])
      ensures KeepsApart(sent) ==> PeerSealedMedia(sent, r.played[i])
    {
      PlayedIsSealed(sys.link, side, r, r.played[i]);
      if KeepsApart(sent) {
        SealedIsMedia(sent, r.played[i]);
      }
    }
  }

  lemma SealedIsMedia(sent: seq<Sealed>, o: Jitter.Out)
    requires o.Real? && PeerSealed(sent, o) && KeepsApart(sent)
    ensures PeerSealedMedia(sent, o)
  {
    var g :| g in sent && g.pt == BodyOf(o);
    MediaRoundTrip(Media(o.payload.kind, Audio(o.seqNo, o.tsMs, o.payload.opus)));
    assert OnMediaPath(g);
  }

  lemma PlayedIsSealed(link: Link, side: Side, r: Receiver, o: Jitter.Out)
    requires o.Real? && Push(o.seqNo, o.tsMs, o.payload) in r.log
    requires Consistent(r) && HeardFrom(r.heard, link.At(side).got)
    requires forall i :: 0 <= i < |link.At(side).got| ==> link.At(side).got[i] in link.At(side.Peer()).sent
    ensures PeerSealed(link.At(side.Peer()).sent, o)
  {
    assert Heard(r.heard, Push(o.seqNo, o.tsMs, o.payload));
    var g :| g in link.At(side).got && g.pt == BodyOf(o);
    assert g in link.At(side.Peer()).sent;
  }

  /** The address replies go to moves only when a datagram from it carries a message the peer sealed
      and that was never handed up before: a replayed datagram from elsewhere cannot redirect them. */
  lemma ReplyAddressIsAuthentic(cfg: Options, side: Side, start: Link, steps: seq<MediaStep>, sys: System, step: MediaStep, sys': System)
    requires Start(start) && Runs(cfg, side, start, steps, sys) && Next(cfg, side, sys, step, sys')
    ensures sys'.receiver.peer != sys.receiver.peer ==>
              && step.Datagram? && cfg.allow(step.from) && sys'.receiver.peer == Some(step.from)
              && FirstFromPeer(sys.link.At(side.Peer()).sent, sys.link.At(side).got, sys'.link.At(side).got)
  {
    RunsInv(cfg, side, start, steps, sys);
    Network.ReachableInv(cfg.aead, start, sys.steps, sys.link);
    if sys'.receiver.peer != sys.receiver.peer {
      StepKeepsSystem(cfg, side, start, sys, step, sys');
      NewPeerHeard(cfg, side, sys, step, sys');
    }
  }

  /** What it takes for one datagram to move the reply address. */
  lemma PeerMoves(cfg: Options, r: Receiver, d: MediaStep)
    requires d.Datagram? && r.chan.Valid() && (r.jitter.Some? ==> Jitter.Inv(Jitter.DEFAULT_CONFIG, r.jitter.value))
    ensures var r' := OnDatagram(cfg, r, d.msg, d.from, d.nowMs, d.clockMs).0;
            r'.peer != r.peer ==>
              cfg.allow(d.from) && r'.peer == Some(d.from) && Unpack(d.msg).Some? && r.chan.Recv(cfg.aead, Unpack(d.msg).value).1.Some?
  {
  }

  lemma NewPeerHeard(cfg: Options, side: Side, sys: System, d: MediaStep, sys': System)
    requires Next(cfg, side, sys, d, sys') && Coupled(sys.link.At(side), sys.receiver) && Network.Inv(sys.link)
    requires sys'.receiver.peer != sys.receiver.peer
    ensures d.Datagram? && cfg.allow(d.from) && sys'.receiver.peer == Some(d.from)
    ensures FirstFromPeer(sys.link.At(side.Peer()).sent, sys.link.At(side).got, sys'.link.At(side).got)
  {
    PeerMoves(cfg, sys.receiver, d);
    FirstAllowed(cfg, side, sys, d, sys');
    AcceptedIsFirst(cfg.aead, sys.link, side, d.msg);
    DeliveryStays(cfg, side, sys, d, sys');
  }

  lemma FirstAllowed(cfg: Options, side: Side, sys: System, d: MediaStep, sys': System)
    requires d.Datagram? && cfg.allow(d.from) && Next(cfg, side, sys, d, sys')
    ensures Allowed(cfg.aead, sys.link, Deliver(side, d.msg))
  {
    assert Behind(cfg, side, sys.receiver, d)[0] == Deliver(side, d.msg);
  }

  /** Whatever else the datagram causes, what its delivery handed up stays handed up. */
  lemma DeliveryStays(cfg: Options, side: Side, sys: System, d: MediaStep, sys': System)
    requires d.Datagram? && cfg.allow(d.from) && Next(cfg, side, sys, d, sys') && sys.link.At(side).chan.Valid()
    ensures sys'.link.At(side).got == DoDeliver(cfg.aead, sys.link.At(side), d.msg).got
  {
    var probe := ProbeToAnswer(cfg, sys.receiver, d.msg);
    if probe.Some? {
      var answer := Send(side, PackMedia(Media(KIND_PROBE, Audio(probe.value, d.clockMs, []))), TYPE_AUDIO, STREAM_UDP);
      assert [Deliver(side, d.msg)] + [answer] == [Deliver(side, d.msg), answer];
      FollowsTwo(cfg.aead, sys.link, Deliver(side, d.msg), answer, sys'.link);
    } else {
      AppendNothing([Deliver(side, d.msg)]);
      FollowsOne(cfg.aead, sys.link, Deliver(side, d.msg), sys'.link);
    }
  }

  // ---- what the receiver takes for media ---------------------------------------------------------------

  /** The message a datagram that opens turns out to be. */
  function Carried(cfg: Options, r: Receiver, msg: Bytes): (g: Sealed)
    requires r.chan.Valid() && Open(cfg, r, msg).1.Some?
  {
    var frame := Unpack(msg).value;
    var meta := ChannelState.Meta(frame).value;
    Sealed(frame.kind % 256, meta.stream, meta.counter, Open(cfg, r, msg).1.value)
  }

  /** The datagram is allowed, opens, and its plaintext goes to the jitter buffer. */
  predicate Takes(cfg: Options, r: Receiver, d: MediaStep)
    requires d.Datagram? && r.chan.Valid()
  {
    cfg.allow(d.from) && Open(cfg, r, d.msg).1.Some? && MediaBody(Open(cfg, r, d.msg).1.value)
  }

  /** What the receiving end makes of the frame of a message that is new and recent. */
  lemma GenuineRecv(aead: Aead, e: Endpoint, g: Sealed)
    requires aead.Sound() && e.chan.Valid() && GotOnce(e.chan, e.got) && NewAndRecent(e.got, g)
    requires g.stream < MAX_STREAMS && g.counter <= MAX_COUNTER
    ensures var wire, frame := WireOf(aead, e.chan.rxKey, g), FrameOf(aead, e.chan.rxKey, g);
            && Unpack(wire) == Some(frame) && ChannelState.Meta(frame) == Some(NonceMeta(g.stream, g.counter))
            && e.chan.Recv(aead, frame).1 == Some(g.pt) && DoDeliver(aead, e, wire).got == e.got + [g]
  {
    var frame := FrameOf(aead, e.chan.rxKey, g);
    assert |frame.box.tag| == TAG_LEN;
    UnpackPack(g.kind, frame.nonce, frame.box);
    FrameOfDecrypts(aead, e.chan.rxKey, g);
    AcceptsIffNewAndRecent(e.chan, e.got, g);
  }

  lemma GenuineAllowed(aead: Aead, link: Link, side: Side, g: Sealed)
    requires aead.Sound() && Network.Inv(link) && g in link.At(side.Peer()).sent
    ensures Unforged(aead, link, link.At(side).chan.rxKey, FrameOf(aead, link.At(side).chan.rxKey, g))
  {
    var j :| 0 <= j < |link.At(side.Peer()).sent| && link.At(side.Peer()).sent[j] == g;
    var key := link.At(side).chan.rxKey;
    assert link.At(side.Peer()).chan.txKey == key;
    FrameOfDecrypts(aead, key, g);
    SealedIsUnforged(aead, link, key, FrameOf(aead, key, g), side.Peer(), j);
  }

  lemma GenuineCarried(cfg: Options, r: Receiver, g: Sealed)
    requires r.chan.Valid()
    requires var wire, frame := WireOf(cfg.aead, r.chan.rxKey, g), FrameOf(cfg.aead, r.chan.rxKey, g);
             Unpack(wire) == Some(frame) && ChannelState.Meta(frame) == Some(NonceMeta(g.stream, g.counter)) &&
             r.chan.Recv(cfg.aead, frame).1 == Some(g.pt)
    ensures var wire := WireOf(cfg.aead, r.chan.rxKey, g);
            Open(cfg, r, wire).1 == Some(g.pt) && Carried(cfg, r, wire) == g
  {
  }

  /** A genuine message that is new and recent, sent to the UDP socket, opens. */
  lemma GenuineOpens(cfg: Options, side: Side, link: Link, r: Receiver, g: Sealed)
    requires cfg.aead.Sound() && Network.Inv(link) && Coupled(link.At(side), r) && r.chan.Valid()
    requires g in link.At(side.Peer()).sent && NewAndRecent(link.At(side).got, g)
    ensures var msg := WireOf(cfg.aead, link.At(side.Peer()).chan.txKey, g);
            && Allowed(cfg.aead, link, Deliver(side, msg))
            && Open(cfg, r, msg).1 == Some(g.pt) && Carried(cfg, r, msg) == g
            && DoDeliver(cfg.aead, link.At(side), msg).got == link.At(side).got + [g]
  {
    assert link.At(side.Peer()).chan.txKey == link.At(side).chan.rxKey;
    GenuineRecv(cfg.aead, link.At(side), g);
    GenuineAllowed(cfg.aead, link, side, g);
    GenuineCarried(cfg, r, g);
  }

  /** What the next datagram can carry into the jitter buffer. */
  ghost predicate TakesOnlyMedia(cfg: Options, side: Side, sys: System)
    requires sys.receiver.chan.Valid()
  {
    forall d: MediaStep |
      d.Datagram? && Allowed(cfg.aead, sys.link, Deliver(side, d.msg)) && Takes(cfg, sys.receiver, d) ::
      OnMediaPath(Carried(cfg, sys.receiver, d.msg))
  }

  lemma TakenIsPeers(cfg: Options, side: Side, sys: System, d: MediaStep)
    requires Network.Inv(sys.link) && Coupled(sys.link.At(side), sys.receiver) && sys.receiver.chan.Valid()
    requires d.Datagram? && Allowed(cfg.aead, sys.link, Deliver(side, d.msg)) && Takes(cfg, sys.receiver, d)
    ensures var g := Carried(cfg, sys.receiver, d.msg);
            g in sys.link.At(side.Peer()).sent && NewAndRecent(sys.link.At(side).got, g) && MediaBody(g.pt)
  {
    var frame := Unpack(d.msg).value;
    AcceptedIsPeers(cfg.aead, sys.link, side, frame);
    var g := Carried(cfg, sys.receiver, d.msg);
    AcceptsIffNewAndRecent(sys.link.At(side).chan, sys.link.At(side).got, g);
  }

  /** In every reachable state, only media messages can reach the jitter buffer next exactly when each
      message of the peer's that is still acceptable and looks like media is one. */
  lemma TakesOnlyMediaIff(cfg: Options, side: Side, start: Link, steps: seq<MediaStep>, sys: System, from: Addr)
    requires cfg.aead.Sound() && Start(start) && Runs(cfg, side, start, steps, sys) && cfg.allow(from)
    ensures sys.receiver.chan.Valid()
    ensures TakesOnlyMedia(cfg, side, sys) <==>
            forall g | g in sys.link.At(side.Peer()).sent && NewAndRecent(sys.link.At(side).got, g) && MediaBody(g.pt) ::
              OnMediaPath(g)
  {
    RunsInv(cfg, side, start, steps, sys);
    Network.ReachableInv(cfg.aead, start, sys.steps, sys.link);
    var r, key := sys.receiver, sys.link.At(side.Peer()).chan.txKey;
    if TakesOnlyMedia(cfg, side, sys) {
      forall g | g in sys.link.At(side.Peer()).sent && NewAndRecent(sys.link.At(side).got, g) && MediaBody(g.pt)
        ensures OnMediaPath(g)
      {
        GenuineOpens(cfg, side, sys.link, r, g);
        var d := Datagram(WireOf(cfg.aead, key, g), from, 0, 0);
        assert Takes(cfg, r, d);
      }
    } else {
      var d: MediaStep :| d.Datagram? && Allowed(cfg.aead, sys.link, Deliver(side, d.msg)) && Takes(cfg, r, d) &&
                          !OnMediaPath(Carried(cfg, r, d.msg));
      TakenIsPeers(cfg, side, sys, d);
    }
  }
}
