/** Commands and the UDP receiver (transport/udp-media.js): it checks neither the stream nor the type of
    a message that opens, and every command, being JSON text that begins with its number, has the media
    layout with one and the same sequence number. Carried to the UDP socket, a command plays, uses up
    its place on the WebSocket stream, and makes all real audio late. */
module CommandAsMedia {
  import opened Bytes
  import opened Primitives
  import opened Frames
  import opened Channels
  import opened Network
  import opened UdpMedia
  import opened MediaRuns
  import Jitter
  import JitterRuns
  import JitterTiming

  // ---- what a command looks like ---------------------------------------------------------------------------

  /** The text both ends send: the number first, then the payload as a JSON value. */
  function CommandText(digits: string, d: Bytes): Bytes {
    Ascii("{\"i\":") + (Ascii(digits) + (Ascii(",\"d\":") + (d + Ascii("}"))))
  }

  /** The bytes `"i":` read as a sequence number. */
  const COMMAND_SEQ: nat := 0x2269223A

  lemma FromFour(b0: byte, b1: byte, b2: byte, b3: byte)
    ensures FromBigEndian([b0, b1, b2, b3]) == ((b0 as int * 256 + b1) * 256 + b2) * 256 + b3
  {
    var b := [b0, b1, b2, b3];
    assert b[..3] == [b0, b1, b2] && b[..3][..2] == [b0, b1] && b[..3][..2][..1] == [b0] && [b0][..0] == [];
    assert FromBigEndian([b0]) == b0;
    assert FromBigEndian([b0, b1]) == b0 as int * 256 + b1;
    assert FromBigEndian([b0, b1, b2]) == (b0 as int * 256 + b1) * 256 + b2;
  }

  /** Every command is a media plaintext to the receiver, and always with the same sequence number. */
  lemma CommandLooksLikeMedia(digits: string, d: Bytes)
    requires |digits| >= 1 && |d| >= 1
    ensures var pt := CommandText(digits, d);
            MediaBody(pt) && UnpackMedia(pt).value.audio.seqNo == COMMAND_SEQ
  {
    var pt := CommandText(digits, d);
    assert |pt| >= 13;
    assert pt[0] == 0x7B;
    assert pt[1..5] == [0x22, 0x69, 0x22, 0x3A];
    FromFour(0x22, 0x69, 0x22, 0x3A);
  }

  /** What the receiver makes of a command. */
  function MediaOf(pt: Bytes): Media
    requires MediaBody(pt)
  {
    UnpackMedia(pt).value
  }

  function PayloadOf(pt: Bytes): Jitter.Payload
    requires MediaBody(pt)
  {
    Jitter.Payload(MediaOf(pt).kind, MediaOf(pt).audio.opus)
  }

  // ---- the run ------------------------------------------------------------------------------------------------

  lemma RunsMore(cfg: Options, side: Side, start: Link, steps: seq<MediaStep>, sys: System, step: MediaStep, sys': System)
    requires Runs(cfg, side, start, steps, sys) && MediaRuns.Next(cfg, side, sys, step, sys')
    ensures Runs(cfg, side, start, steps + [step], sys')
  {
    var more := steps + [step];
    assert more[..|more| - 1] == steps && more[|more| - 1] == step;
  }

  /** What every state of a run has. */
  ghost predicate Sane(cfg: Options, side: Side, start: Link, sys: System) {
    && SystemInv(cfg, side, start, sys) && Network.Inv(sys.link)
    && (sys.receiver.jitter.Some? ==> Jitter.Inv(Jitter.DEFAULT_CONFIG, sys.receiver.jitter.value))
  }

  lemma RunsSane(cfg: Options, side: Side, start: Link, steps: seq<MediaStep>, sys: System)
    requires Start(start) && Runs(cfg, side, start, steps, sys)
    ensures Sane(cfg, side, start, sys)
  {
    RunsInv(cfg, side, start, steps, sys);
    Network.ReachableInv(cfg.aead, start, sys.steps, sys.link);
    JitterRuns.ReachableInv(Jitter.DEFAULT_CONFIG, sys.receiver.log);
  }

  lemma FollowsSingle(aead: Aead, link: Link, step: Network.Step)
    requires link.client.chan.Valid() && link.server.chan.Valid() && Allowed(aead, link, step)
    ensures Follows(aead, link, [step], Network.Apply(aead, link, step))
  {
    assert [step][1..] == [];
  }

  /** The peer sends a command. */
  lemma Command(cfg: Options, side: Side, start: Link, steps: seq<MediaStep>, sys: System, pt: Bytes)
    returns (steps': seq<MediaStep>, sys': System)
    requires Start(start) && Runs(cfg, side, start, steps, sys)
    requires sys.link.At(side.Peer()).chan.Valid()
    ensures Runs(cfg, side, start, steps', sys')
    ensures sys'.receiver == sys.receiver
    ensures sys'.link == sys.link.With(side.Peer(), DoSend(cfg.aead, sys.link.At(side.Peer()), pt, TYPE_CMD, STREAM_WS))
  {
    RunsSane(cfg, side, start, steps, sys);
    var s := Send(side.Peer(), pt, TYPE_CMD, STREAM_WS);
    var link' := Network.Apply(cfg.aead, sys.link, s);
    FollowsSingle(cfg.aead, sys.link, s);
    sys' := System(link', sys.receiver.(chan := link'.At(side).chan), sys.steps + [s]);
    assert link'.At(side) == sys.link.At(side);
    steps' := steps + [Elsewhere(s)];
    RunsMore(cfg, side, start, steps, sys, Elsewhere(s), sys');
  }

  /** A datagram that carries one of the peer's messages is taken for media. */
  lemma MisdeliverNext(cfg: Options, side: Side, start: Link, sys: System, g: Sealed, from: Addr, nowMs: int) returns (sys': System)
    requires cfg.aead.Sound() && Sane(cfg, side, start, sys) && cfg.allow(from)
    requires g in sys.link.At(side.Peer()).sent && NewAndRecent(sys.link.At(side).got, g) && MediaBody(g.pt)
    ensures MediaRuns.Next(cfg, side, sys, Datagram(WireOf(cfg.aead, sys.link.At(side.Peer()).chan.txKey, g), from, nowMs, 0), sys')
    ensures sys'.link == sys.link.With(side,
              DoDeliver(cfg.aead, sys.link.At(side), WireOf(cfg.aead, sys.link.At(side.Peer()).chan.txKey, g)))
    ensures sys'.receiver ==
            OnDatagram(cfg, sys.receiver, WireOf(cfg.aead, sys.link.At(side.Peer()).chan.txKey, g), from, nowMs, 0).0
  {
    GenuineOpens(cfg, side, sys.link, sys.receiver, g);
    var msg := WireOf(cfg.aead, sys.link.At(side.Peer()).chan.txKey, g);
    var d := Datagram(msg, from, nowMs, 0);
    FollowsSingle(cfg.aead, sys.link, Deliver(side, msg));
    AppendNothing([Deliver(side, msg)]);
    assert Behind(cfg, side, sys.receiver, d) == [Deliver(side, msg)];
    sys' := System(Network.Apply(cfg.aead, sys.link, Deliver(side, msg)),
      OnDatagram(cfg, sys.receiver, msg, from, nowMs, 0).0, sys.steps + [Deliver(side, msg)]);
  }

  lemma TakenIsFed(cfg: Options, r: Receiver, d: MediaStep)
    requires d.Datagram? && r.chan.Valid() && (r.jitter.Some? ==> Jitter.Inv(Jitter.DEFAULT_CONFIG, r.jitter.value))
    requires Takes(cfg, r, d)
    ensures Feeds(r, OnDatagram(cfg, r, d.msg, d.from, d.nowMs, d.clockMs).0, UnpackMedia(Open(cfg, r, d.msg).1.value).value, d.nowMs)
  {
    var m := UnpackMedia(Open(cfg, r, d.msg).1.value).value;
    var jb := if r.jitter.Some? then r.jitter.value else Jitter.Initial(Jitter.DEFAULT_CONFIG);
    Jitter.PushKeepsInv(Jitter.DEFAULT_CONFIG, jb, m.audio.seqNo, m.audio.tsMs, Jitter.Payload(m.kind, m.audio.opus));
  }

  /** One of the peer's messages is carried to the UDP socket. */
  lemma Misdeliver(cfg: Options, side: Side, start: Link, steps: seq<MediaStep>, sys: System, g: Sealed, from: Addr, nowMs: int)
    returns (steps': seq<MediaStep>, sys': System)
    requires cfg.aead.Sound() && Start(start) && Runs(cfg, side, start, steps, sys) && cfg.allow(from)
    requires g in sys.link.At(side.Peer()).sent && NewAndRecent(sys.link.At(side).got, g) && MediaBody(g.pt)
    ensures Runs(cfg, side, start, steps', sys')
    ensures sys'.link.At(side.Peer()) == sys.link.At(side.Peer())
    ensures sys'.link.At(side).got == sys.link.At(side).got + [g]
    ensures Feeds(sys.receiver, sys'.receiver, UnpackMedia(g.pt).value, nowMs)
  {
    RunsSane(cfg, side, start, steps, sys);
    var d := Datagram(WireOf(cfg.aead, sys.link.At(side.Peer()).chan.txKey, g), from, nowMs, 0);
    sys' := MisdeliverNext(cfg, side, start, sys, g, from, nowMs);
    steps' := steps + [d];
    RunsMore(cfg, side, start, steps, sys, d, sys');
    GenuineOpens(cfg, side, sys.link, sys.receiver, g);
    TakenIsFed(cfg, sys.receiver, d);
  }

  /** The message went into the jitter buffer, which was then drained. */
  ghost predicate Feeds(r: Receiver, r': Receiver, m: Media, nowMs: int) {
    var jb := if r.jitter.Some? then r.jitter.value else Jitter.Initial(Jitter.DEFAULT_CONFIG);
    var fed := Jitter.Pushed(Jitter.DEFAULT_CONFIG, jb, m.audio.seqNo, m.audio.tsMs, Jitter.Payload(m.kind, m.audio.opus));
    Jitter.WaitsForHead(fed) &&
    var (jb', outs) := JitterTiming.Drain(Jitter.DEFAULT_CONFIG, fed, nowMs);
    r'.jitter == Some(jb') && r'.played == r.played + outs
  }

  /** A packet with number q is held by a pull at time 1. */
  predicate HeldAlone(s: Jitter.Jitter, q: nat, e: Jitter.Entry) {
    && s.buf == map[q := e] && s.next == Some(q) && !s.started && s.waitingSince == 1 && s.waitingForLate == map[]
    && s.prevSeq == Some(q) && s.prevTsMs == Some(e.tsMs) && s.ewmaJitterMs == 0.0 && s.lossPenalty == 0
  }

  /** Fed at time 1, the first packet is held. */
  lemma FirstIsHeld(q: nat, e: Jitter.Entry)
    ensures var cfg := Jitter.DEFAULT_CONFIG;
            var fed := Jitter.Pushed(cfg, Jitter.Initial(cfg), q, e.tsMs, e.payload);
            Jitter.WaitsForHead(fed) &&
            var (s, outs) := JitterTiming.Drain(cfg, fed, 1);
            outs == [] && HeldAlone(s, q, e)
  {
    var cfg := Jitter.DEFAULT_CONFIG;
    var fed := Jitter.Pushed(cfg, Jitter.Initial(cfg), q, e.tsMs, e.payload);
    JitterTiming.CeilBounds(0.0, 20.0);
    assert fed.buf == map[q := e] && fed.next == Some(q) && fed.target == 6 && fed.waitingForLate == map[];
    assert !Jitter.Primed(fed) by { assert q + 1 !in fed.buf; }
    DrainEndsAtOnce(cfg, fed, 1);
  }

  lemma DrainEndsAtOnce(cfg: Jitter.Config, s: Jitter.Jitter, nowMs: int)
    requires cfg.frameMs <= cfg.maxHoldMs && Jitter.WaitsForHead(s) && s.next.Some?
    requires Jitter.Pulled(cfg, s, nowMs).0.next == s.next
    ensures JitterTiming.Drain(cfg, s, nowMs) == (Jitter.Pulled(cfg, s, nowMs).0, [])
  {
  }

  /** Fed at time 101, another packet of the same number replaces it and plays, and the number is past. */
  lemma SecondPlays(s: Jitter.Jitter, q: nat, e: Jitter.Entry, e': Jitter.Entry)
    requires HeldAlone(s, q, e)
    ensures var cfg := Jitter.DEFAULT_CONFIG;
            var fed := Jitter.Pushed(cfg, s, q, e'.tsMs, e'.payload);
            Jitter.WaitsForHead(fed) ==>
            var (s', outs) := JitterTiming.Drain(cfg, fed, 101);
            outs == [Jitter.Real(q, e'.payload, e'.tsMs)] && s'.buf == map[] && s'.next == Some(q + 1)
  {
    var cfg := Jitter.DEFAULT_CONFIG;
    var fed := Jitter.Pushed(cfg, s, q, e'.tsMs, e'.payload);
    assert fed.buf == map[q := e'] && fed.next == Some(q) && fed.waitingSince == 1 && !fed.started && fed.waitingForLate == map[];
    var (s1, out) := Jitter.Pulled(cfg, fed, 101);
    assert out == Some(Jitter.Real(q, e'.payload, e'.tsMs));
    assert s1.buf == map[] && s1.next == Some(q + 1) && s1.waitingForLate == map[];
    DrainEndsAtOnce(cfg, s1, 101);
  }

  const FIRST := Sealed(TYPE_CMD, STREAM_WS, 0, CommandText("1", Ascii("\"\"")))
  const SECOND := Sealed(TYPE_CMD, STREAM_WS, 1, CommandText("2", Ascii("\"\"")))

  lemma BothLookLikeMedia()
    ensures MediaBody(FIRST.pt) && MediaOf(FIRST.pt).audio.seqNo == COMMAND_SEQ
    ensures MediaBody(SECOND.pt) && MediaOf(SECOND.pt).audio.seqNo == COMMAND_SEQ
  {
    CommandLooksLikeMedia("1", Ascii("\"\""));
    CommandLooksLikeMedia("2", Ascii("\"\""));
  }

  function EntryOf(pt: Bytes): Jitter.Entry
    requires MediaBody(pt)
  {
    Jitter.Entry(PayloadOf(pt), MediaOf(pt).audio.tsMs)
  }

  lemma TwoCommands(cfg: Options, side: Side, start: Link)
    returns (steps: seq<MediaStep>, sys: System)
    requires Start(start)
    ensures Runs(cfg, side, start, steps, sys)
    ensures sys.receiver == NewReceiver(start.At(side).chan) && sys.link.At(side) == start.At(side)
    ensures sys.link.At(side.Peer()).sent == [FIRST, SECOND]
  {
    var sys0 := System(start, NewReceiver(start.At(side).chan), []);
    assert Runs(cfg, side, start, [], sys0);
    var steps1, sys1 := Command(cfg, side, start, [], sys0, FIRST.pt);
    var e1 := sys1.link.At(side.Peer());
    assert e1.sent == [FIRST] && e1.chan.Valid() && e1.chan.tx[STREAM_WS] == 1;
    steps, sys := Command(cfg, side, start, steps1, sys1, SECOND.pt);
    assert sys.link.At(side.Peer()).sent == [FIRST] + [SECOND];
  }

  lemma FirstMisdelivered(cfg: Options, side: Side, start: Link, from: Addr)
    returns (steps: seq<MediaStep>, sys: System)
    requires cfg.aead.Sound() && Start(start) && cfg.allow(from)
    ensures MediaBody(FIRST.pt)
    ensures Runs(cfg, side, start, steps, sys)
    ensures sys.receiver.played == [] && sys.receiver.jitter.Some?
    ensures HeldAlone(sys.receiver.jitter.value, COMMAND_SEQ, EntryOf(FIRST.pt))
    ensures sys.link.At(side.Peer()).sent == [FIRST, SECOND] && sys.link.At(side).got == [FIRST]
  {
    var steps2, sys2 := TwoCommands(cfg, side, start);
    BothLookLikeMedia();
    assert FIRST in [FIRST, SECOND];
    steps, sys := Misdeliver(cfg, side, start, steps2, sys2, FIRST, from, 1);
    FirstIsHeld(COMMAND_SEQ, EntryOf(FIRST.pt));
    AppendNothing(sys2.receiver.played);
  }

  /** The peer sends two commands on the WebSocket stream and nothing else, and the receiver plays one;
      delivered where they belong, both are then refused; and every packet with a number up to
      COMMAND_SEQ is late from now on. */
  lemma CommandPlaysAsMedia(cfg: Options, side: Side, start: Link, from: Addr)
    returns (steps: seq<MediaStep>, sys: System)
    requires cfg.aead.Sound() && Start(start) && cfg.allow(from)
    ensures Runs(cfg, side, start, steps, sys)
    ensures sys.link.At(side.Peer()).sent == [FIRST, SECOND]
    ensures MediaBody(SECOND.pt)
    ensures sys.receiver.played == [Jitter.Real(COMMAND_SEQ, PayloadOf(SECOND.pt), MediaOf(SECOND.pt).audio.tsMs)]
    ensures UsedUp(cfg, side, sys, FIRST) && UsedUp(cfg, side, sys, SECOND)
    ensures Deaf(sys.receiver, COMMAND_SEQ + 1)
  {
    var steps3, sys3 := FirstMisdelivered(cfg, side, start, from);
    BothLookLikeMedia();
    assert FIRST in [FIRST, SECOND] && SECOND in [FIRST, SECOND];
    steps, sys := Misdeliver(cfg, side, start, steps3, sys3, SECOND, from, 101);
    SecondPlays(sys3.receiver.jitter.value, COMMAND_SEQ, EntryOf(FIRST.pt), EntryOf(SECOND.pt));
    assert sys.link.At(side).got == [FIRST, SECOND];
    BothUsedUp(cfg, side, start, steps, sys);
  }

  lemma BothUsedUp(cfg: Options, side: Side, start: Link, steps: seq<MediaStep>, sys: System)
    requires cfg.aead.Sound() && Start(start) && Runs(cfg, side, start, steps, sys)
    requires sys.link.At(side.Peer()).sent == sys.link.At(side).got == [FIRST, SECOND]
    ensures UsedUp(cfg, side, sys, FIRST) && UsedUp(cfg, side, sys, SECOND)
  {
    assert FIRST in [FIRST, SECOND] && SECOND in [FIRST, SECOND];
    HandedUpIsUsedUp(cfg, side, start, steps, sys, FIRST);
    HandedUpIsUsedUp(cfg, side, start, steps, sys, SECOND);
  }

  /** Delivered intact over the WebSocket, the message is not handed up. */
  ghost predicate UsedUp(cfg: Options, side: Side, sys: System, g: Sealed) {
    && sys.link.At(side).chan.Valid()
    && DoDeliver(cfg.aead, sys.link.At(side), WireOf(cfg.aead, sys.link.At(side.Peer()).chan.txKey, g)).got ==
       sys.link.At(side).got
  }

  lemma HandedUpIsUsedUp(cfg: Options, side: Side, start: Link, steps: seq<MediaStep>, sys: System, g: Sealed)
    requires cfg.aead.Sound() && Start(start) && Runs(cfg, side, start, steps, sys)
    requires g in sys.link.At(side.Peer()).sent && g in sys.link.At(side).got
    ensures UsedUp(cfg, side, sys, g)
  {
    RunsSane(cfg, side, start, steps, sys);
    IntactDelivery(cfg.aead, start, sys.steps, sys.link, side, g);
  }

  // ---- what it does to real audio -------------------------------------------------------------------------------

  /** Nothing is buffered, and every packet below m is late. */
  predicate Deaf(r: Receiver, m: int) {
    r.jitter.Some? && r.jitter.value.buf == map[] && r.jitter.value.next.Some? && r.jitter.value.next.value >= m
  }

  /** Later outputs are all concealments. */
  predicate OnlyConcealed(played: seq<Jitter.Out>, played': seq<Jitter.Out>) {
    played <= played' && forall i :: |played| <= i < |played'| ==> played'[i].Concealed?
  }

  lemma {:induction false} DrainOfNothing(cfg: Jitter.Config, s: Jitter.Jitter, nowMs: int)
    requires cfg.frameMs <= cfg.maxHoldMs && Jitter.WaitsForHead(s) && s.buf == map[] && s.next.Some?
    ensures var (s', outs) := JitterTiming.Drain(cfg, s, nowMs);
            && s'.buf == map[] && s'.next.Some? && s'.next.value >= s.next.value && s'.droppedLate == s.droppedLate
            && forall i :: 0 <= i < |outs| ==> outs[i].Concealed?
    decreases JitterTiming.Remaining(s)
  {
    var (s1, out) := Jitter.Pulled(cfg, s, nowMs);
    if out.None? {
    } else {
      JitterTiming.PullShrinks(cfg, s, nowMs);
      DrainOfNothing(cfg, s1, nowMs);
    }
  }

  /** A message that is taken for media carries a number below m. */
  predicate BelowIfTaken(cfg: Options, r: Receiver, d: MediaStep, m: int)
    requires d.Datagram? && r.chan.Valid()
  {
    Takes(cfg, r, d) ==> MediaOf(Open(cfg, r, d.msg).1.value).audio.seqNo < m
  }

  /** One step in which what is taken for media carries a number below m. */
  ghost predicate NextBelow(cfg: Options, side: Side, sys: System, step: MediaStep, sys': System, m: int) {
    MediaRuns.Next(cfg, side, sys, step, sys') && (step.Datagram? ==> BelowIfTaken(cfg, sys.receiver, step, m))
  }

  /** 1 for a datagram taken for media, 0 otherwise. */
  function TakenBy(cfg: Options, r: Receiver, step: MediaStep): nat
    requires r.chan.Valid()
  {
    if step.Datagram? && Takes(cfg, r, step) then 1 else 0
  }

  lemma FeedDeaf(r: Receiver, r': Receiver, media: Media, nowMs: int, m: int)
    requires Deaf(r, m) && Feeds(r, r', media, nowMs) && media.audio.seqNo < m
    ensures Deaf(r', m) && OnlyConcealed(r.played, r'.played)
    ensures r'.jitter.value.droppedLate == r.jitter.value.droppedLate + 1
  {
    var s := r.jitter.value;
    var fed := Jitter.Pushed(Jitter.DEFAULT_CONFIG, s, media.audio.seqNo, media.audio.tsMs, Jitter.Payload(media.kind, media.audio.opus));
    assert fed == s.(droppedLate := s.droppedLate + 1);
    DrainOfNothing(Jitter.DEFAULT_CONFIG, fed, nowMs);
  }

  /** A datagram that is not taken for media, a second, and whatever else happens on the link. */
  lemma OtherStepsDeaf(cfg: Options, side: Side, sys: System, step: MediaStep, sys': System, m: int)
    requires MediaRuns.Next(cfg, side, sys, step, sys') && Deaf(sys.receiver, m)
    requires step.Datagram? ==> !Takes(cfg, sys.receiver, step)
    ensures Deaf(sys'.receiver, m) && sys'.receiver.played == sys.receiver.played
    ensures sys'.receiver.jitter.value.droppedLate == sys.receiver.jitter.value.droppedLate
  {
  }

  lemma StepDeaf(cfg: Options, side: Side, sys: System, step: MediaStep, sys': System, m: int)
    requires NextBelow(cfg, side, sys, step, sys', m) && Deaf(sys.receiver, m)
    ensures Deaf(sys'.receiver, m) && OnlyConcealed(sys.receiver.played, sys'.receiver.played)
    ensures sys'.receiver.jitter.value.droppedLate == sys.receiver.jitter.value.droppedLate + TakenBy(cfg, sys.receiver, step)
  {
    if step.Datagram? && Takes(cfg, sys.receiver, step) {
      TakenIsFed(cfg, sys.receiver, step);
      FeedDeaf(sys.receiver, sys'.receiver, MediaOf(Open(cfg, sys.receiver, step.msg).1.value), step.nowMs, m);
    } else {
      OtherStepsDeaf(cfg, side, sys, step, sys', m);
    }
  }

  /** The run goes on, and what is taken for media carries numbers below m; `taken` counts it. */
  ghost predicate GoesOn(cfg: Options, side: Side, sys: System, steps: seq<MediaStep>, sys': System, m: int, taken: nat)
    decreases |steps|
  {
    if steps == [] then sys' == sys && taken == 0
    else
      exists mid ::
        && NextBelow(cfg, side, sys, steps[0], mid, m)
        && taken >= TakenBy(cfg, sys.receiver, steps[0])
        && GoesOn(cfg, side, mid, steps[1..], sys', m, taken - TakenBy(cfg, sys.receiver, steps[0]))
  }

  lemma FirstDeaf(cfg: Options, side: Side, sys: System, steps: seq<MediaStep>, sys': System, m: int, taken: nat)
    returns (mid: System, now: nat)
    requires Deaf(sys.receiver, m) && steps != [] && GoesOn(cfg, side, sys, steps, sys', m, taken)
    ensures Deaf(mid.receiver, m) && OnlyConcealed(sys.receiver.played, mid.receiver.played)
    ensures mid.receiver.jitter.value.droppedLate == sys.receiver.jitter.value.droppedLate + now
    ensures now <= taken && GoesOn(cfg, side, mid, steps[1..], sys', m, taken - now)
  {
    now := TakenBy(cfg, sys.receiver, steps[0]);
    mid :| NextBelow(cfg, side, sys, steps[0], mid, m) && taken >= now &&
           GoesOn(cfg, side, mid, steps[1..], sys', m, taken - now);
    StepDeaf(cfg, side, sys, steps[0], mid, m);
  }

  lemma OnlyConcealedTwice(a: seq<Jitter.Out>, b: seq<Jitter.Out>, c: seq<Jitter.Out>)
    requires OnlyConcealed(a, b) && OnlyConcealed(b, c)
    ensures OnlyConcealed(a, c)
  {
    assert forall i :: |a| <= i < |b| ==> c[i] == b[i];
  }

  /** However the run goes on: of real audio with numbers below m nothing is played, and all of it is
      dropped as late. */
  lemma {:induction false} DeafForever(cfg: Options, side: Side, sys: System, steps: seq<MediaStep>, sys': System, m: int, taken: nat)
    requires Deaf(sys.receiver, m) && GoesOn(cfg, side, sys, steps, sys', m, taken)
    ensures Deaf(sys'.receiver, m) && OnlyConcealed(sys.receiver.played, sys'.receiver.played)
    ensures sys'.receiver.jitter.value.droppedLate == sys.receiver.jitter.value.droppedLate + taken
    decreases |steps|
  {
    if steps == [] {
    } else {
      var mid, now := FirstDeaf(cfg, side, sys, steps, sys', m, taken);
      DeafForever(cfg, side, mid, steps[1..], sys', m, taken - now);
      OnlyConcealedTwice(sys.receiver.played, mid.receiver.played, sys'.receiver.played);
    }
  }
}
