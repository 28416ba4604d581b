/** The UDP media receiver (transport/udp-media.js; the drain loop also in UdpMedia.java):
    authenticated datagrams in, ordered and gap-concealed frames out. */
module UdpMedia {
  import opened Bytes
  import opened Primitives
  import opened Frames
  import opened Channels
  import opened Jitter
  import opened JitterRuns
  import opened JitterTiming

  const KIND_PROBE: byte := 2

  datatype Addr = Addr(host: string, port: nat)

  datatype Options = Options(aead: Aead, allow: Addr -> bool, respondToProbes: bool)

  datatype Emit =
    | AuthFail(from: Addr)
    | PeerLearned(from: Addr)
    | ProbeSeen(probeSeq: nat, from: Addr)
    | AckSent(to: Addr, wire: Bytes)
    | SendFailed
    | Received(kind: byte, rcvSeq: nat, rcvTsMs: nat, from: Addr)
    | MediaOut(kind: byte, seqNo: int, tsMs: Option<int>, opus: Option<Bytes>, concealed: bool)

  /** A concealed output is attributed to the kind of the newest frame. */
  function ToMedia(lastKind: byte, out: Out): Emit {
    match out
    case Real(seqNo, payload, tsMs) => MediaOut(payload.kind, seqNo, Some(tsMs), Some(payload.opus), false)
    case Concealed(seqNo) => MediaOut(lastKind, seqNo, None, None, true)
  }

  /** The event hands out this output as it is; a concealed one has the kind of the newest frame. */
  predicate HandsOut(e: Emit, o: Out, newest: byte) {
    e.MediaOut? && e.seqNo == o.seqNo && e.concealed == o.Concealed? &&
    if o.Real? then e.kind == o.payload.kind && e.tsMs == Some(o.tsMs) && e.opus == Some(o.payload.opus)
    else e.kind == newest && e.tsMs.None? && e.opus.None?
  }

  function ToMediaAll(lastKind: byte, outs: seq<Out>): seq<Emit> {
    if outs == [] then [] else [ToMedia(lastKind, outs[0])] + ToMediaAll(lastKind, outs[1..])
  }

  /** The receiver as a value. `heard`, `log` and `played` record its history: plaintexts opened,
      jitter buffer events, and outputs. */
  datatype Receiver = Receiver(
    chan: ChannelState, jitter: Option<Jitter>, lastKind: byte, lastTsMs: nat, peer: Option<Addr>,
    heard: seq<Bytes>, log: seq<Event>, played: seq<Out>)

  function NewReceiver(chan: ChannelState): Receiver {
    Receiver(chan, None, 0, 0, None, [], [], [])
  }

  /** The pulls a drain makes, including the last one, which finds nothing. */
  function DrainEvents(cfg: Config, s: Jitter, nowMs: int): seq<Event>
    requires cfg.frameMs <= cfg.maxHoldMs && WaitsForHead(s)
    decreases Remaining(s)
  {
    var (s1, out) := Pulled(cfg, s, nowMs);
    [Pull(nowMs)] +
      if out.None? then [] else
        PullShrinks(cfg, s, nowMs);
        DrainEvents(cfg, s1, nowMs)
  }

  /** A media frame: into the jitter buffer, then everything that can be played. */
  ghost function Accept(r: Receiver, m: Media, from: Addr, nowMs: int): (Receiver, seq<Emit>)
    requires r.jitter.Some? ==> Inv(DEFAULT_CONFIG, r.jitter.value)
  {
    var a := m.audio;
    var payload := Payload(m.kind, a.opus);
    var jb := if r.jitter.Some? then r.jitter.value else Initial(DEFAULT_CONFIG);
    PushKeepsInv(DEFAULT_CONFIG, jb, a.seqNo, a.tsMs, payload);
    var fed := Pushed(DEFAULT_CONFIG, jb, a.seqNo, a.tsMs, payload);
    var (jb', outs) := Drain(DEFAULT_CONFIG, fed, nowMs);
    (r.(jitter := Some(jb'), lastKind := m.kind, lastTsMs := a.tsMs,
        log := r.log + [Push(a.seqNo, a.tsMs, payload)] + DrainEvents(DEFAULT_CONFIG, fed, nowMs),
        played := r.played + outs),
     ToMediaAll(m.kind, outs) + [Received(m.kind, a.seqNo, a.tsMs, from)])
  }

  /** An authenticated probe is acknowledged, and never reaches the jitter buffer. */
  function Acknowledge(cfg: Options, r: Receiver, m: Media, from: Addr, clockMs: nat): (Receiver, seq<Emit>)
    requires r.chan.Valid()
  {
    if !cfg.respondToProbes then (r, [ProbeSeen(m.audio.seqNo, from)])
    else
      var body := PackMedia(Media(KIND_PROBE, Audio(m.audio.seqNo, clockMs, [])));
      var (chan, s) := r.chan.Send(cfg.aead, body, TYPE_AUDIO, STREAM_UDP);
      if s.Refused? then (r, [SendFailed])
      else
        (r.(chan := chan),
         [AckSent(from, Pack(TYPE_AUDIO, s.frame.nonce, s.frame.box)), ProbeSeen(m.audio.seqNo, from)])
  }

  /** An authenticated media message: follow the sender, then answer it or play it. */
  ghost function OnMedia(cfg: Options, r: Receiver, m: Media, from: Addr, nowMs: int, clockMs: nat): (Receiver, seq<Emit>)
    requires r.chan.Valid() && (r.jitter.Some? ==> Inv(DEFAULT_CONFIG, r.jitter.value))
  {
    var learned := if r.peer == Some(from) then [] else [PeerLearned(from)];
    var r1 := r.(peer := Some(from));
    var (r2, emits) :=
      if m.kind == KIND_PROBE then Acknowledge(cfg, r1, m, from, clockMs) else Accept(r1, m, from, nowMs);
    (r2, learned + emits)
  }

  /** Opening a datagram: the receiver afterwards and the plaintext, if it is a fresh authentic one. */
  function Open(cfg: Options, r: Receiver, msg: Bytes): (o: (Receiver, Option<Bytes>))
    requires r.chan.Valid()
    ensures o.0.chan.Valid() && o.0.jitter == r.jitter
  {
    var frame := Unpack(msg);
    if frame.None? then (r, None)
    else
      var (chan, pt) := r.chan.Recv(cfg.aead, frame.value);
      ChannelStepsKeepKeys(r.chan, cfg.aead, frame.value, [], 0, 0);
      (r.(chan := chan, heard := if pt.None? then r.heard else r.heard + [pt.value]), pt)
  }

  ghost function OnDatagram(cfg: Options, r: Receiver, msg: Bytes, from: Addr, nowMs: int, clockMs: nat): (Receiver, seq<Emit>)
    requires r.chan.Valid() && (r.jitter.Some? ==> Inv(DEFAULT_CONFIG, r.jitter.value))
  {
    if !cfg.allow(from) then (r, [])
    else
      var (r1, pt) := Open(cfg, r, msg);
      if pt.None? then (r1, [AuthFail(from)])
      else
        var m := UnpackMedia(pt.value);
        if m.None? then (r1, []) else OnMedia(cfg, r1, m.value, from, nowMs, clockMs)
  }

  ghost function OnTick(r: Receiver): Receiver {
    if r.jitter.None? then r
    else r.(jitter := Some(Ticked(r.jitter.value)), log := r.log + [Tick])
  }

  // ---- the object -----------------------------------------------------------------------------------

  class MediaReceiver {
    const cfg: Options
    const channel: Channel
    var jb: JitterBuffer?
    var lastKind: byte
    var lastTsMs: nat
    var peer: Option<Addr>
    ghost var heard: seq<Bytes>
    ghost var log: seq<Event>
    ghost var played: seq<Out>

    ghost predicate BufferValid()
      reads this, jb
    {
      jb != null ==> jb.cfg == DEFAULT_CONFIG && Inv(DEFAULT_CONFIG, jb.State())
    }

    ghost predicate Valid()
      reads this, channel.Repr, jb
    {
      && this !in channel.Repr && jb !in channel.Repr
      && channel.Valid() && channel.aead == cfg.aead
      && BufferValid()
    }

    /** The receiver's state around a given state of its channel. */
    ghost function StateWith(chan: ChannelState): Receiver
      reads this, jb
    {
      Receiver(chan, if jb == null then None else Some(jb.State()), lastKind, lastTsMs, peer, heard, log, played)
    }

    ghost function State(): Receiver
      requires Valid()
      reads this, channel.Repr, jb
    {
      StateWith(channel.State())
    }

    constructor (cfg: Options, channel: Channel)
      requires channel.Valid() && channel.aead == cfg.aead
      ensures Valid() && this.cfg == cfg && this.channel == channel && State() == NewReceiver(channel.State())
    {
      this.cfg, this.channel := cfg, channel;
      jb, lastKind, lastTsMs, peer := null, 0, 0, None;
      heard, log, played := [], [], [];
    }

    /** Pull until nothing comes, handing each output to the consumers. */
    method Pump(jb: JitterBuffer, nowMs: int) returns (emits: seq<Emit>, ghost outs: seq<Out>)
      requires jb.cfg.frameMs <= jb.cfg.maxHoldMs && WaitsForHead(jb.State())
      modifies jb
      ensures (jb.State(), outs) == Drain(jb.cfg, old(jb.State()), nowMs)
      ensures emits == ToMediaAll(lastKind, outs)
      ensures |emits| == |outs| && forall i :: 0 <= i < |outs| ==> HandsOut(emits[i], outs[i], lastKind)
    {
      emits, outs := [], [];
      ghost var all := Drain(jb.cfg, jb.State(), nowMs);
      var out := jb.Pull(nowMs);
      ghost var before := old(jb.State());
      while out.Some?
        invariant WaitsForHead(before)
        invariant (jb.State(), out) == Pulled(jb.cfg, before, nowMs)
        invariant Drain(jb.cfg, before, nowMs).0 == all.0
        invariant outs + Drain(jb.cfg, before, nowMs).1 == all.1
        invariant emits == ToMediaAll(lastKind, outs)
        decreases Remaining(before)
      {
        PullShrinks(jb.cfg, before, nowMs);
        ToMediaAppend(lastKind, outs, out.value);
        Regroup(outs, [out.value], Drain(jb.cfg, jb.State(), nowMs).1);
        emits, outs := emits + [ToMedia(lastKind, out.value)], outs + [out.value];
        before := jb.State();
        out := jb.Pull(nowMs);
      }
      AppendNothing(outs);
      AllHandedOut(lastKind, outs);
    }

    method EnsureBuffer() returns (buffer: JitterBuffer)
      requires Valid()
      modifies `jb
      ensures Valid() && jb == buffer && (old(jb) == null ==> fresh(buffer)) && (old(jb) != null ==> jb == old(jb))
      ensures State() == old(State()).(jitter := Some(if old(jb) == null then Initial(DEFAULT_CONFIG) else old(jb.State())))
    {
      if jb == null {
        jb := new JitterBuffer(DEFAULT_CONFIG);
      }
      buffer := jb;
    }

    method OnFrame(m: Media, from: Addr, nowMs: int) returns (emits: seq<Emit>)
      requires Valid()
      modifies this, jb
      ensures Valid()
      ensures (State(), emits) == Accept(old(State()), m, from, nowMs)
    {
      var buffer := EnsureBuffer();
      ghost var chan := channel.State();
      emits := PlayFrame(chan, buffer, m, from, nowMs);
    }

    method PlayFrame(ghost chan: ChannelState, buffer: JitterBuffer, m: Media, from: Addr, nowMs: int) returns (emits: seq<Emit>)
      requires BufferValid() && buffer == jb
      modifies this, buffer
      ensures BufferValid() && jb == old(jb)
      ensures (StateWith(chan), emits) == Accept(old(StateWith(chan)), m, from, nowMs)
    {
      lastKind, lastTsMs := m.kind, m.audio.tsMs;
      emits := Play(chan, buffer, m, nowMs);
      emits := emits + [Received(m.kind, m.audio.seqNo, m.audio.tsMs, from)];
    }

    /** Push the frame and pump. */
    method Play(ghost chan: ChannelState, buffer: JitterBuffer, m: Media, nowMs: int) returns (emits: seq<Emit>)
      requires BufferValid() && buffer == jb && lastKind == m.kind
      modifies buffer, `log, `played
      ensures BufferValid()
      ensures var payload := Payload(m.kind, m.audio.opus);
              var fed := Pushed(DEFAULT_CONFIG, old(jb.State()), m.audio.seqNo, m.audio.tsMs, payload);
              Inv(DEFAULT_CONFIG, fed) &&
              var (drained, outs) := Drain(DEFAULT_CONFIG, fed, nowMs);
              && emits == ToMediaAll(m.kind, outs)
              && StateWith(chan) == old(StateWith(chan)).(
                   jitter := Some(drained), played := old(played) + outs,
                   log := old(log) + [Push(m.audio.seqNo, m.audio.tsMs, payload)] + DrainEvents(DEFAULT_CONFIG, fed, nowMs))
    {
      var payload := Payload(m.kind, m.audio.opus);
      PushKeepsInv(DEFAULT_CONFIG, buffer.State(), m.audio.seqNo, m.audio.tsMs, payload);
      buffer.Push(m.audio.seqNo, m.audio.tsMs, payload);
      ghost var fed := buffer.State();
      DrainKeepsInv(DEFAULT_CONFIG, fed, nowMs);
      ghost var outs;
      emits, outs := Pump(buffer, nowMs);
      log := log + [Push(m.audio.seqNo, m.audio.tsMs, payload)] + DrainEvents(DEFAULT_CONFIG, fed, nowMs);
      played := played + outs;
    }

    method OnProbe(m: Media, from: Addr, clockMs: nat) returns (emits: seq<Emit>)
      requires Valid()
      modifies channel.tx
      ensures Valid()
      ensures (State(), emits) == Acknowledge(cfg, old(State()), m, from, clockMs)
    {
      if !cfg.respondToProbes {
        return [ProbeSeen(m.audio.seqNo, from)];
      }
      var body := PackMedia(Media(KIND_PROBE, Audio(m.audio.seqNo, clockMs, [])));
      var s := channel.Send(body, TYPE_AUDIO, STREAM_UDP);
      if s.Refused? {
        return [SendFailed];
      }
      emits := [AckSent(from, Pack(TYPE_AUDIO, s.frame.nonce, s.frame.box)), ProbeSeen(m.audio.seqNo, from)];
    }

    method OpenDatagram(msg: Bytes) returns (pt: Option<Bytes>)
      requires Valid()
      modifies `heard, channel.Repr
      ensures Valid()
      ensures (State(), pt) == Open(cfg, old(State()), msg)
    {
      var frame := Unpack(msg);
      if frame.None? {
        return None;
      }
      pt := channel.RecvBytes(frame.value);
      if pt.Some? {
        heard := heard + [pt.value];
      }
    }

    method Dispatch(m: Media, from: Addr, nowMs: int, clockMs: nat) returns (emits: seq<Emit>)
      requires Valid()
      modifies this, channel.tx, jb
      ensures Valid()
      ensures (State(), emits) == OnMedia(cfg, old(State()), m, from, nowMs, clockMs)
    {
      var learned := [];
      if peer != Some(from) {
        learned := [PeerLearned(from)];
      }
      peer := Some(from);
      if m.kind == KIND_PROBE {
        emits := OnProbe(m, from, clockMs);
      } else {
        emits := OnFrame(m, from, nowMs);
      }
      emits := learned + emits;
    }

    method Receive(msg: Bytes, from: Addr, nowMs: int, clockMs: nat) returns (emits: seq<Emit>)
      requires Valid()
      modifies this, channel.Repr, jb
      ensures Valid()
      ensures (State(), emits) == OnDatagram(cfg, old(State()), msg, from, nowMs, clockMs)
    {
      if !cfg.allow(from) {
        return [];
      }
      var pt := OpenDatagram(msg);
      if pt.None? {
        return [AuthFail(from)];
      }
      var m := UnpackMedia(pt.value);
      if m.None? {
        return [];
      }
      emits := Dispatch(m.value, from, nowMs, clockMs);
    }

    /** Once a second. */
    method TickSecond()
      requires Valid()
      modifies `log, jb
      ensures Valid() && State() == OnTick(old(State()))
    {
      if jb != null {
        StepKeepsInv(DEFAULT_CONFIG, jb.State(), Tick);
        jb.Tick();
        log := log + [Tick];
      }
    }
  }

  lemma {:induction false} AllHandedOut(lastKind: byte, outs: seq<Out>)
    ensures var emits := ToMediaAll(lastKind, outs);
            |emits| == |outs| && forall i :: 0 <= i < |outs| ==> HandsOut(emits[i], outs[i], lastKind)
  {
    if outs == [] {
    } else {
      AllHandedOut(lastKind, outs[1..]);
    }
  }

  lemma {:induction false} ToMediaAppend(lastKind: byte, outs: seq<Out>, o: Out)
    ensures ToMediaAll(lastKind, outs + [o]) == ToMediaAll(lastKind, outs) + [ToMedia(lastKind, o)]
  {
    if outs == [] {
    } else {
      ToMediaAppend(lastKind, outs[1..], o);
      assert (outs + [o])[1..] == outs[1..] + [o];
    }
  }

  lemma {:induction false} DrainKeepsInv(cfg: Config, s: Jitter, nowMs: int)
    requires Inv(cfg, s) && cfg.frameMs <= cfg.maxHoldMs
    ensures Inv(cfg, Drain(cfg, s, nowMs).0)
    decreases Remaining(s)
  {
    var (s1, out) := Pulled(cfg, s, nowMs);
    PullKeepsInv(cfg, s, nowMs);
    if out.Some? {
      PullShrinks(cfg, s, nowMs);
      DrainKeepsInv(cfg, s1, nowMs);
    }
  }

  // ---- runs -----------------------------------------------------------------------------------------

  lemma AppendOne(cfg: Config, evs: seq<Event>, e: Event)
    requires cfg.Sane()
    ensures After(cfg, evs + [e]) == Step(cfg, After(cfg, evs), e)
    ensures Outs(cfg, evs + [e]) == Outs(cfg, evs) + Emitted(cfg, After(cfg, evs), e)
  {
    assert (evs + [e])[..|evs|] == evs;
  }

  /** A drain is a run of pulls. */
  lemma {:induction false} DrainIsPulls(cfg: Config, evs: seq<Event>, s: Jitter, nowMs: int)
    requires cfg.Sane() && cfg.frameMs <= cfg.maxHoldMs
    requires s == After(cfg, evs) && WaitsForHead(s)
    ensures var (s', outs) := Drain(cfg, s, nowMs);
            && After(cfg, evs + DrainEvents(cfg, s, nowMs)) == s'
            && Outs(cfg, evs + DrainEvents(cfg, s, nowMs)) == Outs(cfg, evs) + outs
    decreases Remaining(s)
  {
    var (s1, out) := Pulled(cfg, s, nowMs);
    var more := evs + [Pull(nowMs)];
    AppendOne(cfg, evs, Pull(nowMs));
    if out.Some? {
      PullShrinks(cfg, s, nowMs);
      DrainIsPulls(cfg, more, s1, nowMs);
      Regroup(evs, [Pull(nowMs)], DrainEvents(cfg, s1, nowMs));
      Regroup(Outs(cfg, evs), [out.value], Drain(cfg, s1, nowMs).1);
    } else {
      AppendNothing([Pull(nowMs)]);
    }
  }

  lemma {:induction false} DrainEventsPull(cfg: Config, s: Jitter, nowMs: int)
    requires cfg.frameMs <= cfg.maxHoldMs && WaitsForHead(s)
    ensures forall e :: e in DrainEvents(cfg, s, nowMs) ==> e.Pull?
    decreases Remaining(s)
  {
    var (s1, out) := Pulled(cfg, s, nowMs);
    if out.Some? {
      PullShrinks(cfg, s, nowMs);
      DrainEventsPull(cfg, s1, nowMs);
    }
  }

  /** The media message behind a push came out of the channel, and was no probe. */
  ghost predicate Heard(heard: seq<Bytes>, e: Event) {
    e.Push? ==>
      0 <= e.seqNo && 0 <= e.tsMs && e.payload.kind != KIND_PROBE &&
      Encodable(Audio(e.seqNo, e.tsMs, e.payload.opus)) &&
      PackMedia(Media(e.payload.kind, Audio(e.seqNo, e.tsMs, e.payload.opus))) in heard
  }

  ghost predicate Consistent(r: Receiver) {
    && r.chan.Valid()
    && (r.jitter.None? ==> r.log == [])
    && (r.jitter.Some? ==> r.jitter.value == After(DEFAULT_CONFIG, r.log))
    && r.played == Outs(DEFAULT_CONFIG, r.log)
    && (forall e :: e in r.log ==> Heard(r.heard, e))
  }

  lemma AcceptKeepsConsistent(r: Receiver, m: Media, from: Addr, nowMs: int)
    requires Consistent(r) && PackMedia(m) in r.heard && m.kind != KIND_PROBE && Encodable(m.audio)
    ensures r.jitter.Some? ==> Inv(DEFAULT_CONFIG, r.jitter.value)
    ensures Consistent(Accept(r, m, from, nowMs).0)
  {
    ReachableInv(DEFAULT_CONFIG, r.log);
    var push := Push(m.audio.seqNo, m.audio.tsMs, Payload(m.kind, m.audio.opus));
    var pushed := r.log + [push];
    AppendOne(DEFAULT_CONFIG, r.log, push);
    ReachableInv(DEFAULT_CONFIG, pushed);
    var fed := After(DEFAULT_CONFIG, pushed);
    DrainIsPulls(DEFAULT_CONFIG, pushed, fed, nowMs);
    DrainEventsPull(DEFAULT_CONFIG, fed, nowMs);
    var log := pushed + DrainEvents(DEFAULT_CONFIG, fed, nowMs);
    assert Outs(DEFAULT_CONFIG, pushed) == r.played + [] == r.played;
    assert Heard(r.heard, push) && forall e :: e in log ==> e in r.log || e == push || e.Pull?;
    assert Accept(r, m, from, nowMs).0.log == log;
  }

  lemma DatagramKeepsConsistent(cfg: Options, r: Receiver, msg: Bytes, from: Addr, nowMs: int, clockMs: nat)
    requires Consistent(r)
    ensures r.jitter.Some? ==> Inv(DEFAULT_CONFIG, r.jitter.value)
    ensures Consistent(OnDatagram(cfg, r, msg, from, nowMs, clockMs).0)
  {
    ReachableInv(DEFAULT_CONFIG, r.log);
    var (r1, pt) := Open(cfg, r, msg);
    assert Consistent(r1);
    if pt.Some? && UnpackMedia(pt.value).Some? {
      MediaCanonical(pt.value);
      MediaKeepsConsistent(cfg, r1, UnpackMedia(pt.value).value, from, nowMs, clockMs);
    }
  }

  lemma MediaKeepsConsistent(cfg: Options, r: Receiver, m: Media, from: Addr, nowMs: int, clockMs: nat)
    requires Consistent(r) && PackMedia(m) in r.heard && Encodable(m.audio)
    ensures r.jitter.Some? ==> Inv(DEFAULT_CONFIG, r.jitter.value)
    ensures Consistent(OnMedia(cfg, r, m, from, nowMs, clockMs).0)
  {
    ReachableInv(DEFAULT_CONFIG, r.log);
    var r1 := r.(peer := Some(from));
    assert Consistent(r1);
    if m.kind == KIND_PROBE {
      var body := PackMedia(Media(KIND_PROBE, Audio(m.audio.seqNo, clockMs, [])));
      ChannelStepsKeepKeys(r.chan, cfg.aead, Frame(0, [], Box([], [])), body, TYPE_AUDIO, STREAM_UDP);
    } else {
      AcceptKeepsConsistent(r1, m, from, nowMs);
    }
  }

  lemma TickKeepsConsistent(r: Receiver)
    requires Consistent(r)
    ensures Consistent(OnTick(r))
  {
    if r.jitter.Some? {
      assert (r.log + [Tick])[..|r.log|] == r.log;
    }
  }

  lemma {:induction false} PlayedWasPushed(cfg: Config, evs: seq<Event>)
    requires cfg.Sane()
    ensures forall i | 0 <= i < |Outs(cfg, evs)| && Outs(cfg, evs)[i].Real? ::
              var o := Outs(cfg, evs)[i]; Push(o.seqNo, o.tsMs, o.payload) in evs
  {
    if evs == [] {
    } else {
      var init, e := evs[..|evs| - 1], evs[|evs| - 1];
      PlayedWasPushed(cfg, init);
      if e.Pull? {
        RealIsLastPushed(cfg, init, e.nowMs);
        var out := Pulled(cfg, After(cfg, init), e.nowMs).1;
        if out.Some? && out.value.Real? {
          LastPushedIn(init, out.value.seqNo);
        }
      }
      assert forall x :: x in init ==> x in evs;
    }
  }

  lemma {:induction false} LastPushedIn(evs: seq<Event>, seqNo: int)
    requires LastPushed(evs, seqNo).Some?
    ensures var e := LastPushed(evs, seqNo).value; Push(seqNo, e.tsMs, e.payload) in evs
  {
    var e := evs[|evs| - 1];
    if !(e.Push? && e.seqNo == seqNo) {
      LastPushedIn(evs[..|evs| - 1], seqNo);
    }
  }
}
