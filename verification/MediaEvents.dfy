/** What the consumers of the UDP receiver are handed (transport/udp-media.js): every frame event over
    every run, what each of the other events reports, and the probe's way there and back. */
module MediaEvents {
  import opened Bytes
  import opened Primitives
  import opened Frames
  import opened Channels
  import Jitter
  import opened JitterRuns
  import opened JitterTiming
  import opened Network
  import opened UdpMedia
  import opened MediaRuns

  // ---- frame events and outputs ----------------------------------------------------------------------------

  ghost predicate Ready(r: Receiver) {
    r.chan.Valid() && (r.jitter.Some? ==> Jitter.Inv(Jitter.DEFAULT_CONFIG, r.jitter.value))
  }

  /** What a step of a run emits. Only datagrams emit anything. */
  ghost function EmittedBy(cfg: Options, r: Receiver, step: MediaStep): seq<Emit>
    requires Ready(r)
  {
    if step.Datagram? then OnDatagram(cfg, r, step.msg, step.from, step.nowMs, step.clockMs).1 else []
  }

  /** The frame events among them. */
  function FrameEvents(emits: seq<Emit>): seq<Emit> {
    if emits == [] then []
    else (if emits[0].MediaOut? then [emits[0]] else []) + FrameEvents(emits[1..])
  }

  lemma {:induction false} FrameEventsAppend(a: seq<Emit>, b: seq<Emit>)
    ensures FrameEvents(a + b) == FrameEvents(a) + FrameEvents(b)
  {
    if a == [] {
      assert a + b == b;
    } else {
      FrameEventsAppend(a[1..], b);
      assert (a + b)[1..] == a[1..] + b && (a + b)[0] == a[0];
      Regroup(if a[0].MediaOut? then [a[0]] else [], FrameEvents(a[1..]), FrameEvents(b));
    }
  }

  lemma {:induction false} AllFrameEvents(kind: byte, outs: seq<Jitter.Out>)
    ensures FrameEvents(ToMediaAll(kind, outs)) == ToMediaAll(kind, outs)
  {
    if outs == [] {
    } else {
      AllFrameEvents(kind, outs[1..]);
      var rest := ToMediaAll(kind, outs[1..]);
      assert ([ToMedia(kind, outs[0])] + rest)[1..] == rest;
    }
  }

  lemma AcceptEvents(r: Receiver, m: Media, from: Addr, nowMs: int)
    requires Ready(r)
    ensures var (r', emits) := Accept(r, m, from, nowMs);
            && r.played <= r'.played && r'.lastKind == m.kind && r'.lastTsMs == m.audio.tsMs
            && emits == ToMediaAll(m.kind, r'.played[|r.played|..]) + [Received(m.kind, m.audio.seqNo, m.audio.tsMs, from)]
  {
    var (r', emits) := Accept(r, m, from, nowMs);
    var outs := r'.played[|r.played|..];
    assert r'.played == r.played + outs;
  }

  /** Frame events are the new outputs, in order. */
  lemma DatagramFrames(cfg: Options, r: Receiver, d: MediaStep)
    requires Ready(r) && d.Datagram?
    ensures var (r', emits) := OnDatagram(cfg, r, d.msg, d.from, d.nowMs, d.clockMs);
            r.played <= r'.played && FrameEvents(emits) == ToMediaAll(r'.lastKind, r'.played[|r.played|..])
  {
    if Takes(cfg, r, d) {
      var (r1, pt) := Open(cfg, r, d.msg);
      var m := UnpackMedia(pt.value).value;
      var r2 := r1.(peer := Some(d.from));
      AcceptEvents(r2, m, d.from, d.nowMs);
      var (r', emits) := Accept(r2, m, d.from, d.nowMs);
      var learned := if r1.peer == Some(d.from) then [] else [PeerLearned(d.from)];
      var outs := ToMediaAll(m.kind, r'.played[|r.played|..]);
      assert OnDatagram(cfg, r, d.msg, d.from, d.nowMs, d.clockMs) == (r', learned + emits);
      FrameEventsAppend(learned, emits);
      FrameEventsAppend(outs, [Received(m.kind, m.audio.seqNo, m.audio.tsMs, d.from)]);
      AllFrameEvents(m.kind, r'.played[|r.played|..]);
      assert FrameEvents(learned) == [] && FrameEvents([Received(m.kind, m.audio.seqNo, m.audio.tsMs, d.from)]) == [];
    } else {
      NothingPlayed(cfg, r, d);
    }
  }

  /** A datagram that is not taken for media plays nothing. */
  lemma NothingPlayed(cfg: Options, r: Receiver, d: MediaStep)
    requires Ready(r) && d.Datagram? && !Takes(cfg, r, d)
    ensures var (r', emits) := OnDatagram(cfg, r, d.msg, d.from, d.nowMs, d.clockMs);
            && r'.played == r.played && r'.log == r.log && r'.lastKind == r.lastKind && r'.lastTsMs == r.lastTsMs
            && FrameEvents(emits) == []
  {
    var (r1, pt) := Open(cfg, r, d.msg);
    if cfg.allow(d.from) && pt.Some? && UnpackMedia(pt.value).Some? {
      var m := UnpackMedia(pt.value).value;
      var learned := if r1.peer == Some(d.from) then [] else [PeerLearned(d.from)];
      FrameEventsAppend(learned, Acknowledge(cfg, r1.(peer := Some(d.from)), m, d.from, d.clockMs).1);
      assert FrameEvents(learned) == [];
      AcknowledgeFrames(cfg, r1.(peer := Some(d.from)), m, d.from, d.clockMs);
    }
  }

  lemma AcknowledgeFrames(cfg: Options, r: Receiver, m: Media, from: Addr, clockMs: nat)
    requires r.chan.Valid()
    ensures FrameEvents(Acknowledge(cfg, r, m, from, clockMs).1) == []
  {
    NoFrameEvents(Acknowledge(cfg, r, m, from, clockMs).1);
  }

  lemma {:induction false} NoFrameEvents(emits: seq<Emit>)
    requires forall e :: e in emits ==> !e.MediaOut?
    ensures FrameEvents(emits) == []
  {
    if emits == [] {
    } else {
      assert emits[0] in emits && forall e :: e in emits[1..] ==> e in emits;
      NoFrameEvents(emits[1..]);
    }
  }

  // ---- what the frame events carry -----------------------------------------------------------------------

  /** The last packet fed to the jitter buffer, late or not. */
  function Newest(log: seq<Event>): (e: Option<Event>)
    ensures e.Some? ==> e.value.Push?
  {
    if log == [] then None
    else if log[|log| - 1].Push? then Some(log[|log| - 1])
    else Newest(log[..|log| - 1])
  }

  lemma {:induction false} NewestBehindPulls(log: seq<Event>, pulls: seq<Event>)
    requires forall e :: e in pulls ==> e.Pull?
    ensures Newest(log + pulls) == Newest(log)
  {
    if pulls == [] {
      AppendNothing(log);
    } else {
      var init, last := pulls[..|pulls| - 1], pulls[|pulls| - 1];
      assert last in pulls && forall e :: e in init ==> e in pulls;
      NewestBehindPulls(log, init);
      assert (log + pulls)[..|log + pulls| - 1] == log + init;
    }
  }

  /** The receiver's notes on the newest frame are right. */
  predicate NotesNewest(r: Receiver) {
    var e := Newest(r.log);
    e.Some? ==> r.lastKind == e.value.payload.kind && r.lastTsMs == e.value.tsMs
  }

  lemma AcceptNotesNewest(r: Receiver, m: Media, from: Addr, nowMs: int)
    requires Ready(r)
    ensures NotesNewest(Accept(r, m, from, nowMs).0) && Newest(Accept(r, m, from, nowMs).0.log).Some?
  {
    var push := Push(m.audio.seqNo, m.audio.tsMs, Jitter.Payload(m.kind, m.audio.opus));
    var jb := if r.jitter.Some? then r.jitter.value else Jitter.Initial(Jitter.DEFAULT_CONFIG);
    Jitter.PushKeepsInv(Jitter.DEFAULT_CONFIG, jb, push.seqNo, push.tsMs, push.payload);
    var fed := Jitter.Pushed(Jitter.DEFAULT_CONFIG, jb, push.seqNo, push.tsMs, push.payload);
    DrainEventsPull(Jitter.DEFAULT_CONFIG, fed, nowMs);
    NewestBehindPulls(r.log + [push], DrainEvents(Jitter.DEFAULT_CONFIG, fed, nowMs));
  }

  lemma StepNotesNewest(cfg: Options, side: Side, sys: System, step: MediaStep, sys': System)
    requires Next(cfg, side, sys, step, sys') && NotesNewest(sys.receiver)
    ensures NotesNewest(sys'.receiver)
  {
    if step.Datagram? {
      if Takes(cfg, sys.receiver, step) {
        var (r1, pt) := Open(cfg, sys.receiver, step.msg);
        AcceptNotesNewest(r1.(peer := Some(step.from)), UnpackMedia(pt.value).value, step.from, step.nowMs);
      } else {
        NothingPlayed(cfg, sys.receiver, step);
      }
    } else if step.Second? && sys.receiver.jitter.Some? {
      assert (sys.receiver.log + [Tick])[..|sys.receiver.log|] == sys.receiver.log;
    }
  }

  lemma {:induction false} NewestIsNoted(cfg: Options, side: Side, start: Link, steps: seq<MediaStep>, sys: System)
    requires Runs(cfg, side, start, steps, sys)
    ensures NotesNewest(sys.receiver)
    decreases |steps|
  {
    if steps == [] {
    } else {
      var init, last := steps[..|steps| - 1], steps[|steps| - 1];
      var mid :| Runs(cfg, side, start, init, mid) && Next(cfg, side, mid, last, sys);
      NewestIsNoted(cfg, side, start, init, mid);
      StepNotesNewest(cfg, side, mid, last, sys);
    }
  }

  ghost predicate NeverPushed(log: seq<Event>, n: int) {
    forall e :: e in log && e.Push? ==> e.seqNo != n
  }

  lemma {:induction false} NoneIsNever(log: seq<Event>, n: int)
    ensures LastPushed(log, n).None? ==> NeverPushed(log, n)
  {
    if log == [] {
    } else {
      NoneIsNever(log[..|log| - 1], n);
      assert log == log[..|log| - 1] + [log[|log| - 1]];
    }
  }

  /** What a drain conceals had not come. */
  lemma {:induction false} DrainConceals(cfg: Jitter.Config, evs: seq<Event>, s: Jitter.Jitter, nowMs: int)
    requires cfg.Sane() && cfg.frameMs <= cfg.maxHoldMs && s == After(cfg, evs) && Jitter.WaitsForHead(s)
    ensures forall o :: o in Drain(cfg, s, nowMs).1 && o.Concealed? ==> NeverPushed(evs, o.seqNo)
    decreases Remaining(s)
  {
    var (s1, out) := Jitter.Pulled(cfg, s, nowMs);
    if out.Some? {
      ConcealedWasNeverPushed(cfg, evs, nowMs);
      NoneIsNever(evs, out.value.seqNo);
      PullShrinks(cfg, s, nowMs);
      AppendOne(cfg, evs, Pull(nowMs));
      DrainConceals(cfg, evs + [Pull(nowMs)], s1, nowMs);
      forall o | o in Drain(cfg, s1, nowMs).1 && o.Concealed?
        ensures NeverPushed(evs, o.seqNo)
      {
        assert forall e :: e in evs ==> e in evs + [Pull(nowMs)];
      }
    }
  }

  /** What a taken frame makes the buffer conceal had not come, and does not come with it. */
  lemma AcceptConceals(r: Receiver, m: Media, from: Addr, nowMs: int)
    requires Consistent(r) && Ready(r)
    ensures var r' := Accept(r, m, from, nowMs).0;
            r.played <= r'.played && forall o :: o in r'.played[|r.played|..] && o.Concealed? ==> NeverPushed(r'.log, o.seqNo)
  {
    var push := Push(m.audio.seqNo, m.audio.tsMs, Jitter.Payload(m.kind, m.audio.opus));
    var pushed, cfg := r.log + [push], Jitter.DEFAULT_CONFIG;
    AppendOne(cfg, r.log, push);
    JitterRuns.ReachableInv(cfg, pushed);
    var fed := After(cfg, pushed);
    DrainConceals(cfg, pushed, fed, nowMs);
    DrainEventsPull(cfg, fed, nowMs);
    var r' := Accept(r, m, from, nowMs).0;
    assert r'.log == pushed + DrainEvents(cfg, fed, nowMs);
    assert r'.played[|r.played|..] == Drain(cfg, fed, nowMs).1;
  }

  /** The event hands out a media plaintext the peer sealed: kind, number, time and audio. */
  ghost predicate IsPeers(e: Emit, peerSent: seq<Sealed>)
    requires e.MediaOut?
  {
    && !e.concealed && e.seqNo >= 0 && e.tsMs.Some? && e.tsMs.value >= 0 && e.opus.Some? && e.kind != KIND_PROBE
    && exists g :: g in peerSent && g.pt == PackMedia(Media(e.kind, Audio(e.seqNo, e.tsMs.value, e.opus.value)))
  }

  /** The event asks for concealment: it has no audio and no time, the number of a packet that never came,
      and the kind of the newest packet. */
  ghost predicate IsConcealment(e: Emit, log: seq<Event>)
    requires e.MediaOut?
  {
    && e.concealed && e.tsMs.None? && e.opus.None?
    && NeverPushed(log, e.seqNo) && Newest(log).Some? && e.kind == Newest(log).value.payload.kind
  }

  /** End to end, for every step of every run on the attacked network: each frame event hands the consumer
      a media plaintext of the peer's, or asks to conceal a packet that never came; and the frame events
      are the step's outputs, one for one and in order. */
  lemma FramesHandedOut(cfg: Options, side: Side, start: Link, steps: seq<MediaStep>, sys: System, step: MediaStep, sys': System)
    requires Start(start) && Runs(cfg, side, start, steps, sys) && Next(cfg, side, sys, step, sys')
    ensures forall e :: e in FrameEvents(EmittedBy(cfg, sys.receiver, step)) ==>
              e.MediaOut? && (IsPeers(e, sys'.link.At(side.Peer()).sent) || IsConcealment(e, sys'.receiver.log))
    ensures sys.receiver.played <= sys'.receiver.played
    ensures var events, outs := FrameEvents(EmittedBy(cfg, sys.receiver, step)), sys'.receiver.played[|sys.receiver.played|..];
            |events| == |outs| &&
            forall i :: 0 <= i < |events| ==> events[i].MediaOut? && events[i].seqNo == outs[i].seqNo
  {
    RunsInv(cfg, side, start, steps, sys);
    var r, r', sent := sys.receiver, sys'.receiver, sys'.link.At(side.Peer()).sent;
    if step.Datagram? {
      DatagramFrames(cfg, r, step);
      var outs := r'.played[|r.played|..];
      forall o | o in outs
        ensures Backed(o, r'.lastKind, sent, r'.log)
      {
        NewOutputBacked(cfg, side, start, steps, sys, step, sys', o);
      }
      EventsTell(r'.lastKind, outs, sent, r'.log);
    }
  }

  /** What an output stands for. */
  ghost predicate Backed(o: Jitter.Out, kind: byte, sent: seq<Sealed>, log: seq<Event>) {
    if o.Real? then PeerSealed(sent, o)
    else NeverPushed(log, o.seqNo) && Newest(log).Some? && kind == Newest(log).value.payload.kind
  }

  lemma NewOutputBacked(cfg: Options, side: Side, start: Link, steps: seq<MediaStep>, sys: System, step: MediaStep, sys': System, o: Jitter.Out)
    requires Start(start) && Runs(cfg, side, start, steps, sys) && Next(cfg, side, sys, step, sys') && step.Datagram?
    requires sys.receiver.played <= sys'.receiver.played && o in sys'.receiver.played[|sys.receiver.played|..]
    ensures Backed(o, sys'.receiver.lastKind, sys'.link.At(side.Peer()).sent, sys'.receiver.log)
  {
    if o.Real? {
      RunsMore(cfg, side, start, steps, sys, step, sys');
      PlayedWasSealedByPeer(cfg, side, start, steps + [step], sys');
      var i :| 0 <= i < |sys'.receiver.played| && sys'.receiver.played[i] == o;
    } else {
      ConcealedIn(cfg, side, start, steps, sys, step, sys', o);
    }
  }

  /** Events made of backed outputs, one for one. */
  lemma EventsTell(kind: byte, outs: seq<Jitter.Out>, sent: seq<Sealed>, log: seq<Event>)
    requires forall o :: o in outs ==> Backed(o, kind, sent, log)
    ensures var events := ToMediaAll(kind, outs);
            && |events| == |outs|
            && (forall i :: 0 <= i < |events| ==> events[i].MediaOut? && events[i].seqNo == outs[i].seqNo)
            && (forall e :: e in events ==> e.MediaOut? && (IsPeers(e, sent) || IsConcealment(e, log)))
  {
    AllHandedOut(kind, outs);
    forall i | 0 <= i < |outs|
      ensures var e := ToMediaAll(kind, outs)[i]; e.MediaOut? && (IsPeers(e, sent) || IsConcealment(e, log))
    {
      assert outs[i] in outs && HandsOut(ToMediaAll(kind, outs)[i], outs[i], kind);
    }
  }

  lemma RunsMore(cfg: Options, side: Side, start: Link, steps: seq<MediaStep>, sys: System, step: MediaStep, sys': System)
    requires Runs(cfg, side, start, steps, sys) && Next(cfg, side, sys, step, sys')
    ensures Runs(cfg, side, start, steps + [step], sys')
  {
    var more := steps + [step];
    assert more[..|more| - 1] == steps && more[|more| - 1] == step;
  }

  lemma ConcealedIn(cfg: Options, side: Side, start: Link, steps: seq<MediaStep>, sys: System, step: MediaStep, sys': System, o: Jitter.Out)
    requires Start(start) && Runs(cfg, side, start, steps, sys) && Next(cfg, side, sys, step, sys') && step.Datagram?
    requires sys.receiver.played <= sys'.receiver.played && o in sys'.receiver.played[|sys.receiver.played|..] && o.Concealed?
    ensures NeverPushed(sys'.receiver.log, o.seqNo)
    ensures Newest(sys'.receiver.log).Some? && Newest(sys'.receiver.log).value.payload.kind == sys'.receiver.lastKind
  {
    RunsInv(cfg, side, start, steps, sys);
    var r := sys.receiver;
    if Takes(cfg, r, step) {
      var (r1, pt) := Open(cfg, r, step.msg);
      var m, r2 := UnpackMedia(pt.value).value, r1.(peer := Some(step.from));
      assert Consistent(r2);
      AcceptConceals(r2, m, step.from, step.nowMs);
      AcceptNotesNewest(r2, m, step.from, step.nowMs);
    } else {
      NothingPlayed(cfg, r, step);
    }
  }

  // ---- the other events ------------------------------------------------------------------------------------

  lemma {:induction false} OnlyFrameEvents(kind: byte, outs: seq<Jitter.Out>)
    ensures forall e :: e in ToMediaAll(kind, outs) ==> e.MediaOut?
  {
    if outs == [] {
    } else {
      OnlyFrameEvents(kind, outs[1..]);
    }
  }

  /** The receiver reports a change of the reply address. */
  ghost predicate ReportsPeer(emits: seq<Emit>, before: Option<Addr>, after: Option<Addr>) {
    forall x :: PeerLearned(x) in emits <==> after != before && after == Some(x)
  }

  /** It reports one frame taken, or none. */
  ghost predicate ReportsFrame(emits: seq<Emit>, taken: Option<Media>, from: Addr) {
    forall k, n, t, x :: Received(k, n, t, x) in emits <==>
      x == from && taken.Some? && taken.value.kind == k && taken.value.audio.seqNo == n && taken.value.audio.tsMs == t
  }

  /** It reports one probe, or none. */
  ghost predicate ReportsProbe(emits: seq<Emit>, probe: Option<nat>, from: Addr) {
    forall n: nat, x :: ProbeSeen(n, x) in emits <==> x == from && probe == Some(n)
  }

  ghost predicate ReportsFailure(emits: seq<Emit>, failed: bool, from: Addr) {
    forall x :: AuthFail(x) in emits <==> x == from && failed
  }

  function Learned(peer: Option<Addr>, from: Addr): seq<Emit> {
    if peer == Some(from) then [] else [PeerLearned(from)]
  }

  /** What a taken frame emits, in order. */
  lemma TakenShape(cfg: Options, r: Receiver, d: MediaStep, m: Media) returns (frames: seq<Emit>)
    requires Ready(r) && d.Datagram? && Takes(cfg, r, d) && UnpackMedia(Open(cfg, r, d.msg).1.value) == Some(m)
    ensures forall e :: e in frames ==> e.MediaOut?
    ensures var (r', emits) := OnDatagram(cfg, r, d.msg, d.from, d.nowMs, d.clockMs);
            && r'.peer == Some(d.from)
            && emits == Learned(r.peer, d.from) + (frames + [Received(m.kind, m.audio.seqNo, m.audio.tsMs, d.from)])
  {
    var r2 := Open(cfg, r, d.msg).0.(peer := Some(d.from));
    AcceptEvents(r2, m, d.from, d.nowMs);
    var outs := Accept(r2, m, d.from, d.nowMs).0.played[|r2.played|..];
    frames := ToMediaAll(m.kind, outs);
    OnlyFrameEvents(m.kind, outs);
  }

  lemma TakenReports(peer: Option<Addr>, from: Addr, frames: seq<Emit>, m: Media)
    requires forall e :: e in frames ==> e.MediaOut?
    ensures var emits := Learned(peer, from) + (frames + [Received(m.kind, m.audio.seqNo, m.audio.tsMs, from)]);
            && ReportsPeer(emits, peer, Some(from)) && ReportsFailure(emits, false, from)
            && ReportsFrame(emits, Some(m), from) && ReportsProbe(emits, None, from) && SendFailed !in emits
  {
  }

  lemma ProbeShape(cfg: Options, r: Receiver, d: MediaStep, m: Media)
    requires Ready(r) && d.Datagram? && cfg.allow(d.from) && m.kind == KIND_PROBE
    requires Open(cfg, r, d.msg).1.Some? && UnpackMedia(Open(cfg, r, d.msg).1.value) == Some(m)
    ensures var (r', emits) := OnDatagram(cfg, r, d.msg, d.from, d.nowMs, d.clockMs);
            var answer := Acknowledge(cfg, Open(cfg, r, d.msg).0.(peer := Some(d.from)), m, d.from, d.clockMs).1;
            r'.peer == Some(d.from) && emits == Learned(r.peer, d.from) + answer
  {
  }

  lemma ProbeReports(cfg: Options, r: Receiver, peer: Option<Addr>, m: Media, from: Addr, clockMs: nat)
    requires r.chan.Valid()
    ensures var emits := Learned(peer, from) + Acknowledge(cfg, r, m, from, clockMs).1;
            && ReportsPeer(emits, peer, Some(from)) && ReportsFailure(emits, false, from) && ReportsFrame(emits, None, from)
            && ReportsProbe(emits, if SendFailed in emits then None else Some(m.audio.seqNo), from)
  {
    var answer := Acknowledge(cfg, r, m, from, clockMs).1;
    assert answer == [SendFailed] || answer == [ProbeSeen(m.audio.seqNo, from)] ||
           (|answer| == 2 && answer[0].AckSent? && answer[1] == ProbeSeen(m.audio.seqNo, from));
  }

  /** What each of the other events reports: a datagram that does not open, a new reply address, a frame that
      was taken, a probe that was seen, unless its answer could not be sealed. Nothing at all comes of a
      datagram from an address that is not allowed. */
  lemma EventsOfDatagram(cfg: Options, r: Receiver, d: MediaStep)
    requires Ready(r) && d.Datagram?
    ensures var (r', emits) := OnDatagram(cfg, r, d.msg, d.from, d.nowMs, d.clockMs);
            var pt := Open(cfg, r, d.msg).1;
            if !cfg.allow(d.from) then emits == [] && r' == r
            else
              && ReportsPeer(emits, r.peer, r'.peer) && ReportsFailure(emits, pt.None?, d.from)
              && ReportsFrame(emits, if Takes(cfg, r, d) then UnpackMedia(pt.value) else None, d.from)
              && ReportsProbe(emits, if SendFailed in emits then None else ProbeIn(pt), d.from)
  {
    var (r1, pt) := Open(cfg, r, d.msg);
    if cfg.allow(d.from) && pt.Some? && UnpackMedia(pt.value).Some? {
      var m := UnpackMedia(pt.value).value;
      if m.kind == KIND_PROBE {
        ProbeShape(cfg, r, d, m);
        ProbeReports(cfg, r1.(peer := Some(d.from)), r.peer, m, d.from, d.clockMs);
      } else {
        var frames := TakenShape(cfg, r, d, m);
        TakenReports(r.peer, d.from, frames, m);
      }
    }
  }

  /** The number of the probe in a plaintext. */
  function ProbeIn(pt: Option<Bytes>): Option<nat> {
    if pt.Some? && UnpackMedia(pt.value).Some? && UnpackMedia(pt.value).value.kind == KIND_PROBE
    then Some(UnpackMedia(pt.value).value.audio.seqNo) else None
  }

  // ---- there and back --------------------------------------------------------------------------------------

  /** The datagram in which a peer sends this plaintext next. */
  function Sends(aead: Aead, peer: ChannelState, body: Bytes): (ChannelState, Bytes)
    requires peer.Valid() && peer.tx[STREAM_UDP] < MAX_COUNTER
  {
    var (peer', sent) := peer.Send(aead, body, TYPE_AUDIO, STREAM_UDP);
    (peer', Pack(TYPE_AUDIO, sent.frame.nonce, sent.frame.box))
  }

  /** The other end of the channel takes it apart and opens it. */
  lemma SentIsUnpacked(aead: Aead, a: ChannelState, b: ChannelState, body: Bytes) returns (frame: Frame, b': ChannelState)
    requires aead.Sound() && InStep(a, b) && a.tx[STREAM_UDP] < MAX_COUNTER
    ensures var (a', wire) := Sends(aead, a, body);
            && Unpack(wire) == Some(frame) && frame.kind == TYPE_AUDIO
            && b.Recv(aead, frame) == (b', Some(body)) && InStep(a', b') && b'.tx == b.tx
  {
    SentIsReceived(aead, a, b, body, TYPE_AUDIO, STREAM_UDP);
    frame := a.Send(aead, body, TYPE_AUDIO, STREAM_UDP).1.frame;
    UnpackPack(TYPE_AUDIO, frame.nonce, frame.box);
    b' := b.Recv(aead, frame).0;
  }

  lemma WhenUnpacked(cfg: Options, r: Receiver, wire: Bytes, frame: Frame, chan: ChannelState, body: Bytes)
    requires r.chan.Valid() && Unpack(wire) == Some(frame) && r.chan.Recv(cfg.aead, frame) == (chan, Some(body))
    ensures Open(cfg, r, wire) == (r.(chan := chan, heard := r.heard + [body]), Some(body))
  {
  }

  lemma ProbeBody(n: nat, clockMs: nat)
    requires n < 0x1_0000_0000
    ensures var m := UnpackMedia(PackMedia(Media(KIND_PROBE, Audio(n, clockMs, []))));
            m.Some? && m.value.kind == KIND_PROBE && m.value.audio.seqNo == n && m.value.audio.opus == []
  {
    FieldSizes();
    BigEndianRoundTrip(n, 4);
    var pt := PackMedia(Media(KIND_PROBE, Audio(n, clockMs, [])));
    assert pt[1..5] == BigEndian(n, 4) && pt[13..] == [];
  }

  /** An acknowledgement of probe n, as the prober opens it. */
  predicate Acknowledges(aead: Aead, prober: ChannelState, wire: Bytes, n: nat)
    requires prober.Valid()
  {
    Unpack(wire).Some? && Unpack(wire).value.kind == TYPE_AUDIO &&
    var pt := prober.Recv(aead, Unpack(wire).value).1;
    pt.Some? && UnpackMedia(pt.value).Some? &&
    var m := UnpackMedia(pt.value).value;
    m.kind == KIND_PROBE && m.audio.seqNo == n && m.audio.opus == []
  }

  /** What a prober sends next is acknowledged to where it came from, and it opens the acknowledgement to a
      probe with its own number. */
  lemma ProbeIsAcknowledged(
    cfg: Options, r: Receiver, prober: ChannelState, probe: Audio, from: Addr, nowMs: int, clockMs: nat) returns (ack: Bytes)
    requires cfg.aead.Sound() && Ready(r) && InStep(prober, r.chan) && Encodable(probe)
    requires cfg.allow(from) && cfg.respondToProbes
    requires prober.tx[STREAM_UDP] < MAX_COUNTER && r.chan.tx[STREAM_UDP] < MAX_COUNTER
    ensures var (prober', wire) := Sends(cfg.aead, prober, PackMedia(Media(KIND_PROBE, probe)));
            && AckSent(from, ack) in OnDatagram(cfg, r, wire, from, nowMs, clockMs).1
            && prober'.Valid() && Acknowledges(cfg.aead, prober', ack, probe.seqNo)
  {
    var body, answer := PackMedia(Media(KIND_PROBE, probe)), PackMedia(Media(KIND_PROBE, Audio(probe.seqNo, clockMs, [])));
    var (prober', wire) := Sends(cfg.aead, prober, body);
    var frame, chan := SentIsUnpacked(cfg.aead, prober, r.chan, body);
    WhenUnpacked(cfg, r, wire, frame, chan, body);
    MediaRoundTrip(Media(KIND_PROBE, probe));
    ProbeShape(cfg, r, Datagram(wire, from, nowMs, clockMs), Media(KIND_PROBE, probe));
    ack := Sends(cfg.aead, chan, answer).1;
    var back, prober'' := SentIsUnpacked(cfg.aead, chan, prober', answer);
    ProbeBody(probe.seqNo, clockMs);
    assert AckSent(from, ack) in Acknowledge(cfg, Open(cfg, r, wire).0.(peer := Some(from)), Media(KIND_PROBE, probe), from, clockMs).1;
  }

  /** A frame a peer sends next is taken: it is reported as it was sent, fed to the jitter buffer, and replies
      go to where it came from. */
  lemma FrameIsTaken(cfg: Options, r: Receiver, peer: ChannelState, m: Media, from: Addr, nowMs: int, clockMs: nat)
    requires cfg.aead.Sound() && Ready(r) && InStep(peer, r.chan) && Encodable(m.audio) && m.kind != KIND_PROBE
    requires cfg.allow(from) && peer.tx[STREAM_UDP] < MAX_COUNTER
    ensures var (r', emits) := OnDatagram(cfg, r, Sends(cfg.aead, peer, PackMedia(m)).1, from, nowMs, clockMs);
            && Received(m.kind, m.audio.seqNo, m.audio.tsMs, from) in emits
            && Push(m.audio.seqNo, m.audio.tsMs, Jitter.Payload(m.kind, m.audio.opus)) in r'.log
            && r'.peer == Some(from)
  {
    var wire := Sends(cfg.aead, peer, PackMedia(m)).1;
    var frame, chan := SentIsUnpacked(cfg.aead, peer, r.chan, PackMedia(m));
    WhenUnpacked(cfg, r, wire, frame, chan, PackMedia(m));
    MediaRoundTrip(m);
    var frames := TakenShape(cfg, r, Datagram(wire, from, nowMs, clockMs), m);
    assert OnDatagram(cfg, r, wire, from, nowMs, clockMs).0.log == Accept(Open(cfg, r, wire).0.(peer := Some(from)), m, from, nowMs).0.log;
  }
}
