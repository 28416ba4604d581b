/** Two mirrored channels over a network that may drop, duplicate, reorder and inject wire
    messages: what the receivers hand up, over every run. */
module Network {
  import opened Bytes
  import opened Primitives
  import opened Frames
  import opened Replay
  import opened Channels

  /** One end: its channel, everything it sealed and everything it handed to the application. */
  datatype Endpoint = Endpoint(chan: ChannelState, sent: seq<Sealed>, got: seq<Sealed>)

  datatype Side = Client | Server
  {
    function Peer(): Side {
      if Client? then Server else Client
    }
  }

  datatype Link = Link(client: Endpoint, server: Endpoint)
  {
    function At(side: Side): Endpoint {
      if side.Client? then client else server
    }

    function With(side: Side, e: Endpoint): Link {
      if side.Client? then this.(client := e) else this.(server := e)
    }
  }

  /** A send, or a wire message reaching one side. A message that is never delivered was
      dropped; delivering one twice, late or out of order is up to the run. */
  datatype Step =
    | Send(from: Side, pt: Bytes, kind: int, stream: int)
    | Deliver(to: Side, wire: Bytes)

  function DoSend(aead: Aead, e: Endpoint, pt: Bytes, kind: int, stream: int): Endpoint
    requires e.chan.Valid()
  {
    var (chan, r) := e.chan.Send(aead, pt, kind, stream);
    if r.Refused? then e
    else Endpoint(chan, e.sent + [Sealed(kind % 256, stream, r.counter, pt)], e.got)
  }

  function DoDeliver(aead: Aead, e: Endpoint, wire: Bytes): Endpoint
    requires e.chan.Valid()
  {
    var frame := Unpack(wire);
    if frame.None? then e
    else
      var (chan, pt) := e.chan.Recv(aead, frame.value);
      if pt.None? then e.(chan := chan)
      else
        var meta := ChannelState.Meta(frame.value);
        Endpoint(chan, e.sent, e.got + [Sealed(frame.value.kind % 256, meta.value.stream, meta.value.counter, pt.value)])
  }

  function Apply(aead: Aead, link: Link, step: Step): (link': Link)
    requires link.client.chan.Valid() && link.server.chan.Valid()
  {
    match step
    case Send(from, pt, kind, stream) => link.With(from, DoSend(aead, link.At(from), pt, kind, stream))
    case Deliver(to, wire) => link.With(to, DoDeliver(aead, link.At(to), wire))
  }

  /** The ideal AEAD: a frame opens under a key only if some end holding that key for sending
      sealed exactly its nonce, its type byte and its plaintext. */
  ghost predicate Unforged(aead: Aead, link: Link, key: Key, frame: Frame) {
    var pt := ChannelState.Decrypt(aead, key, frame);
    pt.Some? ==>
      exists side, j :: 0 <= j < |link.At(side).sent| && link.At(side).chan.txKey == key &&
        var r := link.At(side).sent[j];
        NonceFor(r.stream, r.counter) == frame.nonce && r.kind == frame.kind % 256 && r.pt == pt.value
  }

  lemma SealedIsUnforged(aead: Aead, link: Link, key: Key, frame: Frame, side: Side, j: nat)
    requires j < |link.At(side).sent| && link.At(side).chan.txKey == key
    requires var r := link.At(side).sent[j];
             NonceFor(r.stream, r.counter) == frame.nonce && r.kind == frame.kind % 256 &&
             ChannelState.Decrypt(aead, key, frame) == Some(r.pt)
    ensures Unforged(aead, link, key, frame)
  {
  }

  ghost predicate Allowed(aead: Aead, link: Link, step: Step) {
    step.Deliver? && Unpack(step.wire).Some? ==>
      Unforged(aead, link, link.At(step.to).chan.rxKey, Unpack(step.wire).value)
  }

  /** The states of all runs from two fresh channels with mirrored keys. */
  ghost predicate Reaches(aead: Aead, start: Link, steps: seq<Step>, link: Link)
    decreases |steps|
  {
    if steps == [] then link == start
    else
      exists mid ::
        && Reaches(aead, start, steps[..|steps| - 1], mid)
        && mid.client.chan.Valid() && mid.server.chan.Valid()
        && Allowed(aead, mid, steps[|steps| - 1])
        && link == Apply(aead, mid, steps[|steps| - 1])
  }

  ghost predicate Start(link: Link) {
    && link.client == Endpoint(NewChannel(link.client.chan.txKey, link.client.chan.rxKey, link.client.chan.authKey), [], [])
    && link.server == Endpoint(NewChannel(link.server.chan.txKey, link.server.chan.rxKey, link.server.chan.authKey), [], [])
    && Mirrored(link.client.chan, link.server.chan)
  }

  // ---- the invariant ----------------------------------------------------------------------

  /** Every sealed message has its own place in its stream's count. */
  ghost predicate SentInOrder(chan: ChannelState, sent: seq<Sealed>)
    requires chan.Valid()
  {
    && (forall j :: 0 <= j < |sent| ==> sent[j].stream < MAX_STREAMS && sent[j].counter < chan.tx[sent[j].stream])
    && (forall j, k :: 0 <= j < k < |sent| && sent[j].stream == sent[k].stream ==> sent[j].counter < sent[k].counter)
  }

  /** The message with this counter of this stream was handed up. */
  ghost predicate HandedUp(got: seq<Sealed>, s: nat, c: int) {
    exists i :: 0 <= i < |got| && got[i].stream == s && got[i].counter == c
  }

  /** The windows have accepted exactly the messages handed up, each once. */
  ghost predicate GotOnce(chan: ChannelState, got: seq<Sealed>)
    requires chan.Valid()
  {
    Recorded(chan.rx, got) && Covered(chan.rx, got) && NoRepeats(got)
  }

  ghost predicate Recorded(rx: seq<Window>, got: seq<Sealed>) {
    forall i :: 0 <= i < |got| ==> got[i].stream < |rx| && got[i].counter in rx[got[i].stream].accepted
  }

  ghost predicate Covered(rx: seq<Window>, got: seq<Sealed>) {
    forall s, c :: 0 <= s < |rx| && c in rx[s].accepted ==> HandedUp(got, s, c)
  }

  ghost predicate NoRepeats(got: seq<Sealed>) {
    forall i, k :: 0 <= i < k < |got| && got[i].stream == got[k].stream ==> got[i].counter != got[k].counter
  }

  ghost predicate Good(e: Endpoint, peerSent: seq<Sealed>) {
    && e.chan.Valid()
    && SentInOrder(e.chan, e.sent)
    && GotOnce(e.chan, e.got)
    && (forall r :: r in e.got ==> r in peerSent)
  }

  ghost predicate Inv(link: Link) {
    && Good(link.client, link.server.sent)
    && Good(link.server, link.client.sent)
    && Mirrored(link.client.chan, link.server.chan)
  }

  lemma SendKeepsGood(aead: Aead, e: Endpoint, peer: Endpoint, pt: Bytes, kind: int, stream: int)
    requires Good(e, peer.sent) && Good(peer, e.sent)
    ensures var e' := DoSend(aead, e, pt, kind, stream);
            Good(e', peer.sent) && Good(peer, e'.sent) && e'.chan.txKey == e.chan.txKey && e'.chan.rxKey == e.chan.rxKey
  {
  }

  /** What an accepted delivery hands up was sealed by the peer. */
  lemma AcceptedIsPeers(aead: Aead, link: Link, to: Side, frame: Frame)
    requires Inv(link) && Unforged(aead, link, link.At(to).chan.rxKey, frame)
    requires link.At(to).chan.Recv(aead, frame).1.Some?
    ensures var meta := ChannelState.Meta(frame).value;
            Sealed(frame.kind % 256, meta.stream, meta.counter, link.At(to).chan.Recv(aead, frame).1.value)
              in link.At(to.Peer()).sent
  {
    var key := link.At(to).chan.rxKey;
    var side, j :| 0 <= j < |link.At(side).sent| && link.At(side).chan.txKey == key &&
      var r := link.At(side).sent[j];
      NonceFor(r.stream, r.counter) == frame.nonce && r.kind == frame.kind % 256 &&
      r.pt == ChannelState.Decrypt(aead, key, frame).value;
    assert side == to.Peer();
    var r := link.At(side).sent[j];
    NonceRoundTrip(r.stream, r.counter);
  }

  lemma DeliverKeepsGood(aead: Aead, e: Endpoint, peerSent: seq<Sealed>, wire: Bytes)
    requires Good(e, peerSent)
    requires Unpack(wire).Some? && e.chan.Recv(aead, Unpack(wire).value).1.Some? ==>
               var frame := Unpack(wire).value;
               var meta := ChannelState.Meta(frame).value;
               Sealed(frame.kind % 256, meta.stream, meta.counter, e.chan.Recv(aead, frame).1.value) in peerSent
    ensures var e' := DoDeliver(aead, e, wire);
            Good(e', peerSent) && e'.sent == e.sent && e'.chan.txKey == e.chan.txKey && e'.chan.rxKey == e.chan.rxKey
  {
    if Unpack(wire).Some? && e.chan.Recv(aead, Unpack(wire).value).1.Some? {
      var frame := Unpack(wire).value;
      var meta := ChannelState.Meta(frame).value;
      MarkKeepsGotOnce(e.chan, e.got, Sealed(frame.kind % 256, meta.stream, meta.counter, e.chan.Recv(aead, frame).1.value));
    }
  }

  lemma HandedUpMore(got: seq<Sealed>, r: Sealed)
    ensures HandedUp(got + [r], r.stream, r.counter)
    ensures forall s, c :: HandedUp(got, s, c) ==> HandedUp(got + [r], s, c)
  {
    var got' := got + [r];
    assert got'[|got|] == r;
    forall s, c | HandedUp(got, s, c)
      ensures HandedUp(got', s, c)
    {
      var i :| 0 <= i < |got| && got[i].stream == s && got[i].counter == c;
      assert got'[i] == got[i];
    }
  }

  /** Handing a message up and marking its counter keeps the windows and the history in step. */
  lemma MarkKeepsGotOnce(chan: ChannelState, got: seq<Sealed>, r: Sealed)
    requires chan.Valid() && GotOnce(chan, got) && r.stream < MAX_STREAMS && chan.rx[r.stream].Accepts(r.counter)
    ensures var chan' := chan.(rx := chan.rx[r.stream := chan.rx[r.stream].Mark(r.counter)]);
            chan'.Valid() && GotOnce(chan', got + [r])
  {
    var win := chan.rx[r.stream].Mark(r.counter);
    var rx' := chan.rx[r.stream := win];
    assert chan.rx[r.stream].Valid() && win.Valid();
    MarkRecords(chan.rx, got, r);
    MarkCovers(chan.rx, got, r);
    assert NoRepeats(got + [r]) by {
      assert forall i :: 0 <= i < |got| && got[i].stream == r.stream ==> got[i].counter != r.counter;
    }
  }

  lemma MarkRecords(rx: seq<Window>, got: seq<Sealed>, r: Sealed)
    requires Recorded(rx, got) && r.stream < |rx|
    ensures Recorded(rx[r.stream := rx[r.stream].Mark(r.counter)], got + [r])
  {
  }

  lemma MarkCovers(rx: seq<Window>, got: seq<Sealed>, r: Sealed)
    requires Covered(rx, got) && r.stream < |rx|
    ensures Covered(rx[r.stream := rx[r.stream].Mark(r.counter)], got + [r])
  {
    HandedUpMore(got, r);
  }

  lemma {:induction false} ReachableInv(aead: Aead, start: Link, steps: seq<Step>, link: Link)
    requires Start(start) && Reaches(aead, start, steps, link)
    ensures Inv(link)
    decreases |steps|
  {
    if steps == [] {
    } else {
      var n := |steps| - 1;
      var mid :| Reaches(aead, start, steps[..n], mid) && mid.client.chan.Valid() && mid.server.chan.Valid() &&
                 Allowed(aead, mid, steps[n]) && link == Apply(aead, mid, steps[n]);
      ReachableInv(aead, start, steps[..n], mid);
      StepKeepsInv(aead, mid, steps[n]);
    }
  }

  lemma StepKeepsInv(aead: Aead, link: Link, step: Step)
    requires Inv(link) && Allowed(aead, link, step)
    ensures Inv(Apply(aead, link, step))
  {
    match step
    case Send(from, pt, kind, stream) =>
      SendKeepsGood(aead, link.At(from), link.At(from.Peer()), pt, kind, stream);
    case Deliver(to, wire) =>
      if Unpack(wire).Some? && link.At(to).chan.Recv(aead, Unpack(wire).value).1.Some? {
        AcceptedIsPeers(aead, link, to, Unpack(wire).value);
      }
      DeliverKeepsGood(aead, link.At(to), link.At(to.Peer()).sent, wire);
  }

  // ---- the theorems ---------------------------------------------------------------------------

  /** Authenticity and no replay, over every run: each message a side handed up is one the peer
      sealed, with the same type byte, stream, counter and plaintext, and different messages
      handed up are different messages sealed. */
  lemma DeliveredWasSentOnce(aead: Aead, start: Link, steps: seq<Step>, link: Link, side: Side)
    requires Start(start) && Reaches(aead, start, steps, link)
    ensures forall i :: 0 <= i < |link.At(side).got| ==> link.At(side).got[i] in link.At(side.Peer()).sent
    ensures forall i, k :: 0 <= i < k < |link.At(side).got| ==> link.At(side).got[i] != link.At(side).got[k]
    ensures forall j, k :: 0 <= j < k < |link.At(side).sent| ==> link.At(side).sent[j] != link.At(side).sent[k]
  {
    ReachableInv(aead, start, steps, link);
    assert forall r :: r in link.At(side).got ==> r in link.At(side.Peer()).sent;
  }

  /** A message the peer sealed was handed up, for the first time. */
  ghost predicate FirstFromPeer(peerSent: seq<Sealed>, got: seq<Sealed>, got': seq<Sealed>) {
    exists g :: g in peerSent && g !in got && g in got'
  }

  /** An accepted delivery hands up a message of the peer's that was not handed up before. */
  lemma AcceptedIsFirst(aead: Aead, link: Link, to: Side, wire: Bytes)
    requires Inv(link) && Unpack(wire).Some? && Unforged(aead, link, link.At(to).chan.rxKey, Unpack(wire).value)
    requires link.At(to).chan.Recv(aead, Unpack(wire).value).1.Some?
    ensures FirstFromPeer(link.At(to.Peer()).sent, link.At(to).got, DoDeliver(aead, link.At(to), wire).got)
  {
    var e, frame := link.At(to), Unpack(wire).value;
    AcceptedIsPeers(aead, link, to, frame);
    var meta := ChannelState.Meta(frame).value;
    var g := Sealed(frame.kind % 256, meta.stream, meta.counter, e.chan.Recv(aead, frame).1.value);
    assert Recorded(e.chan.rx, e.got);
    assert g !in e.got;
    assert g in e.got + [g];
  }

  /** The wire message that carries r under the given key. */
  function WireOf(aead: Aead, key: Key, r: Sealed): Bytes {
    var frame := FrameOf(aead, key, r);
    Pack(r.kind, frame.nonce, frame.box)
  }

  /** Not handed up yet, and less than the window behind every message of its stream that was. */
  predicate NewAndRecent(got: seq<Sealed>, r: Sealed) {
    forall g :: g in got && g.stream == r.stream ==>
      g.counter != r.counter && g.counter - r.counter < REPLAY_WINDOW
  }

  /** A sealed message that reaches its peer intact is handed up exactly when it was not handed
      up before and its counter is less than the window behind the newest one handed up. */
  lemma IntactDelivery(aead: Aead, start: Link, steps: seq<Step>, link: Link, to: Side, r: Sealed)
    requires aead.Sound() && Start(start) && Reaches(aead, start, steps, link)
    requires r in link.At(to.Peer()).sent
    ensures link.At(to).chan.Valid()
    ensures DoDeliver(aead, link.At(to), WireOf(aead, link.At(to.Peer()).chan.txKey, r)).got ==
            if NewAndRecent(link.At(to).got, r) then link.At(to).got + [r] else link.At(to).got
  {
    ReachableInv(aead, start, steps, link);
    IntactAtEndpoint(aead, link.At(to), r);
  }

  lemma IntactAtEndpoint(aead: Aead, e: Endpoint, r: Sealed)
    requires aead.Sound() && e.chan.Valid() && GotOnce(e.chan, e.got)
    requires r.stream < MAX_STREAMS && r.counter <= MAX_COUNTER
    ensures DoDeliver(aead, e, WireOf(aead, e.chan.rxKey, r)).got ==
            if NewAndRecent(e.got, r) then e.got + [r] else e.got
  {
    var frame := FrameOf(aead, e.chan.rxKey, r);
    assert |frame.box.tag| == TAG_LEN;
    UnpackPack(r.kind, frame.nonce, frame.box);
    FrameOfDecrypts(aead, e.chan.rxKey, r);
    AcceptsIffNewAndRecent(e.chan, e.got, r);
  }

  lemma AcceptsIffNewAndRecent(chan: ChannelState, got: seq<Sealed>, r: Sealed)
    requires chan.Valid() && GotOnce(chan, got) && r.stream < MAX_STREAMS
    ensures chan.rx[r.stream].Accepts(r.counter) <==>
            NewAndRecent(got, r)
  {
    var win := chan.rx[r.stream];
    assert forall g :: g in got && g.stream == r.stream ==> g.counter in win.accepted;
    if win.max >= 0 {
      assert win.max in win.accepted;
    }
    if r.counter in win.accepted {
      var i :| 0 <= i < |got| && got[i].stream == r.stream && got[i].counter == r.counter;
      assert got[i] in got;
    }
  }

  // ---- what is sent next -----------------------------------------------------------------------------------

  /** The highest counter a side has accepted is one its peer has used. */
  lemma WindowBehindSender(e: Endpoint, peer: Endpoint, s: nat)
    requires Good(e, peer.sent) && Good(peer, e.sent) && s < MAX_STREAMS
    ensures e.chan.rx[s].max < peer.chan.tx[s]
  {
    var max := e.chan.rx[s].max;
    if max >= 0 {
      assert max in e.chan.rx[s].accepted;
      var i :| 0 <= i < |e.got| && e.got[i].stream == s && e.got[i].counter == max;
      assert e.got[i] in peer.sent;
    }
  }

  /** However much was lost, repeated or forged, the two ends stay in step. */
  lemma AlwaysInStep(aead: Aead, start: Link, steps: seq<Step>, link: Link, side: Side)
    requires Start(start) && Reaches(aead, start, steps, link)
    ensures InStep(link.At(side).chan, link.At(side.Peer()).chan)
  {
    ReachableInv(aead, start, steps, link);
    forall s | 0 <= s < MAX_STREAMS
      ensures link.client.chan.rx[s].max < link.server.chan.tx[s] && link.server.chan.rx[s].max < link.client.chan.tx[s]
    {
      WindowBehindSender(link.client, link.server, s);
      WindowBehindSender(link.server, link.client, s);
    }
  }

  /** A delivery that opens, in terms of what its frame turns out to be. */
  lemma DeliverOpens(aead: Aead, e: Endpoint, wire: Bytes, frame: Frame, meta: NonceMeta, pt: Bytes)
    requires e.chan.Valid() && Unpack(wire) == Some(frame)
    requires ChannelState.Meta(frame) == Some(meta) && e.chan.Recv(aead, frame).1 == Some(pt)
    ensures DoDeliver(aead, e, wire).got == e.got + [Sealed(frame.kind % 256, meta.stream, meta.counter, pt)]
  {
  }

  lemma NextAtEndpoint(aead: Aead, e: Endpoint, from: ChannelState, m: Sealed)
    requires aead.Sound() && InStep(from, e.chan) && m.stream < MAX_STREAMS && m.counter == from.tx[m.stream] < MAX_COUNTER
    ensures var frame := FrameOf(aead, from.txKey, m);
            && from.Send(aead, m.pt, m.kind, m.stream).1 == Sent(frame, m.counter)
            && DoDeliver(aead, e, Pack(m.kind, frame.nonce, frame.box)).got == e.got + [m]
  {
    var frame := FrameOf(aead, from.txKey, m);
    SentIsReceived(aead, from, e.chan, m.pt, m.kind, m.stream);
    UnpackPack(m.kind, frame.nonce, frame.box);
    FrameOfDecrypts(aead, from.txKey, m);
    DeliverOpens(aead, e, Pack(m.kind, frame.nonce, frame.box), frame, NonceMeta(m.stream, m.counter), m.pt);
  }

  /** In every reachable state: a send is refused only for a stream that does not exist or has no counter
      left, and what it puts on the wire is handed up if it arrives next. */
  lemma NextIsDelivered(aead: Aead, start: Link, steps: seq<Step>, link: Link, to: Side, pt: Bytes, kind: byte, stream: int)
    requires aead.Sound() && Start(start) && Reaches(aead, start, steps, link)
    ensures link.At(to).chan.Valid() && link.At(to.Peer()).chan.Valid()
    ensures var from := link.At(to.Peer()).chan;
            var r := from.Send(aead, pt, kind, stream).1;
            if 0 <= stream < MAX_STREAMS && from.tx[stream] < MAX_COUNTER then
              r.Sent? && DoDeliver(aead, link.At(to), Pack(kind, r.frame.nonce, r.frame.box)).got ==
                         link.At(to).got + [Sealed(kind, stream, from.tx[stream], pt)]
            else r.Refused?
  {
    AlwaysInStep(aead, start, steps, link, to.Peer());
    var from := link.At(to.Peer()).chan;
    if 0 <= stream < MAX_STREAMS && from.tx[stream] < MAX_COUNTER {
      NextAtEndpoint(aead, link.At(to), from, Sealed(kind, stream, from.tx[stream], pt));
    }
  }

  // ---- every delivery is accounted for ------------------------------------------------------------------

  predicate Reaching(step: Step, side: Side) {
    step.Deliver? && step.to == side
  }

  function DeliveriesTo(steps: seq<Step>, side: Side): nat {
    if steps == [] then 0
    else
      var last := steps[|steps| - 1];
      DeliveriesTo(steps[..|steps| - 1], side) + (if Reaching(last, side) then 1 else 0)
  }

  /** Too short for a frame, or a nonce no sender makes. */
  predicate Malformed(wire: Bytes) {
    Unpack(wire).None? || ChannelState.Meta(Unpack(wire).value).None?
  }

  function MalformedTo(steps: seq<Step>, side: Side): nat {
    if steps == [] then 0
    else
      var last := steps[|steps| - 1];
      MalformedTo(steps[..|steps| - 1], side) + (if Reaching(last, side) && Malformed(last.wire) then 1 else 0)
  }

  /** What became of the deliveries to one side. */
  predicate Accounted(e: Endpoint, deliveries: nat, malformed: nat) {
    deliveries == |e.got| + e.chan.replayRejected + e.chan.authRejected + malformed
  }

  lemma SendAccounted(aead: Aead, e: Endpoint, pt: Bytes, kind: int, stream: int)
    requires e.chan.Valid()
    ensures var e' := DoSend(aead, e, pt, kind, stream);
            e'.got == e.got && e'.chan.replayRejected == e.chan.replayRejected &&
            e'.chan.authRejected == e.chan.authRejected && SameKeys(e'.chan, e.chan)
  {
    ChannelStepsKeepKeys(e.chan, aead, Frame(0, [], Box([], [])), pt, kind, stream);
  }

  lemma DeliverAccounted(aead: Aead, e: Endpoint, wire: Bytes, deliveries: nat, malformed: nat)
    requires e.chan.Valid() && Accounted(e, deliveries, malformed)
    ensures var e' := DoDeliver(aead, e, wire);
            Accounted(e', deliveries + 1, malformed + if Malformed(wire) then 1 else 0) && SameKeys(e'.chan, e.chan)
  {
    if Unpack(wire).Some? {
      ChannelStepsKeepKeys(e.chan, aead, Unpack(wire).value, [], 0, 0);
    }
  }

  lemma StepAccounted(aead: Aead, link: Link, step: Step, side: Side, deliveries: nat, malformed: nat)
    requires link.client.chan.Valid() && link.server.chan.Valid()
    requires Accounted(link.At(side), deliveries, malformed)
    ensures var e' := Apply(aead, link, step).At(side);
            && Accounted(e', deliveries + (if Reaching(step, side) then 1 else 0),
                         malformed + (if Reaching(step, side) && Malformed(step.wire) then 1 else 0))
            && SameKeys(e'.chan, link.At(side).chan)
  {
    match step
    case Send(from, pt, kind, stream) => SendAccounted(aead, link.At(from), pt, kind, stream);
    case Deliver(to, wire) =>
      if to == side {
        DeliverAccounted(aead, link.At(side), wire, deliveries, malformed);
      }
  }

  /** Every wire message that reaches a side is handed up, refused as a replay, refused as a
      forgery, or was no frame; the channel's counters count the middle two exactly. */
  lemma {:induction false} DeliveriesAccounted(aead: Aead, start: Link, steps: seq<Step>, link: Link, side: Side)
    requires Start(start) && Reaches(aead, start, steps, link)
    ensures Accounted(link.At(side), DeliveriesTo(steps, side), MalformedTo(steps, side))
    ensures SameKeys(link.At(side).chan, start.At(side).chan)
    decreases |steps|
  {
    if steps == [] {
    } else {
      var init, last := steps[..|steps| - 1], steps[|steps| - 1];
      var mid :| Reaches(aead, start, init, mid) && mid.client.chan.Valid() && mid.server.chan.Valid() &&
                 Allowed(aead, mid, last) && link == Apply(aead, mid, last);
      DeliveriesAccounted(aead, start, init, mid, side);
      StepAccounted(aead, mid, last, side, DeliveriesTo(init, side), MalformedTo(init, side));
    }
  }

  /** The wire bytes of some sealed message under a key, unchanged. */
  ghost predicate Genuine(aead: Aead, key: Key, wire: Bytes) {
    exists r: Sealed :: r.stream < MAX_STREAMS && r.counter <= MAX_COUNTER && wire == WireOf(aead, key, r)
  }

  lemma GenuineNotForged(aead: Aead, e: Endpoint, wire: Bytes)
    requires aead.Sound() && e.chan.Valid() && Genuine(aead, e.chan.rxKey, wire)
    ensures !Malformed(wire) && DoDeliver(aead, e, wire).chan.authRejected == e.chan.authRejected
  {
    var r: Sealed :| r.stream < MAX_STREAMS && r.counter <= MAX_COUNTER && wire == WireOf(aead, e.chan.rxKey, r);
    var frame := FrameOf(aead, e.chan.rxKey, r);
    assert |frame.box.tag| == TAG_LEN;
    UnpackPack(r.kind, frame.nonce, frame.box);
    FrameOfDecrypts(aead, e.chan.rxKey, r);
  }

  lemma StepForgesNothing(aead: Aead, link: Link, step: Step, side: Side)
    requires aead.Sound() && link.client.chan.Valid() && link.server.chan.Valid()
    requires Reaching(step, side) ==> Genuine(aead, link.At(side).chan.rxKey, step.wire)
    ensures Apply(aead, link, step).At(side).chan.authRejected == link.At(side).chan.authRejected
    ensures !(Reaching(step, side) && Malformed(step.wire))
  {
    match step
    case Send(from, pt, kind, stream) => SendAccounted(aead, link.At(from), pt, kind, stream);
    case Deliver(to, wire) =>
      if to == side {
        GenuineNotForged(aead, link.At(side), wire);
      }
  }

  ghost predicate AllGenuine(aead: Aead, key: Key, steps: seq<Step>, side: Side) {
    forall i :: 0 <= i < |steps| && Reaching(steps[i], side) ==> Genuine(aead, key, steps[i].wire)
  }

  lemma {:induction false} NothingForged(aead: Aead, start: Link, steps: seq<Step>, link: Link, side: Side)
    requires aead.Sound() && Start(start) && Reaches(aead, start, steps, link)
    requires AllGenuine(aead, start.At(side).chan.rxKey, steps, side)
    ensures link.At(side).chan.authRejected == 0 && MalformedTo(steps, side) == 0
    decreases |steps|
  {
    if steps == [] {
    } else {
      var init, last := steps[..|steps| - 1], steps[|steps| - 1];
      var mid :| Reaches(aead, start, init, mid) && mid.client.chan.Valid() && mid.server.chan.Valid() &&
                 Allowed(aead, mid, last) && link == Apply(aead, mid, last);
      NothingForged(aead, start, init, mid, side);
      DeliveriesAccounted(aead, start, init, mid, side);
      StepForgesNothing(aead, mid, last, side);
    }
  }

  /** On a network that only drops, duplicates, delays and reorders, nothing ever counts as forged
      or malformed: what is not handed up is a repeat or too old. */
  lemma HonestNetworkForgesNothing(aead: Aead, start: Link, steps: seq<Step>, link: Link, side: Side)
    requires aead.Sound() && Start(start) && Reaches(aead, start, steps, link)
    requires AllGenuine(aead, start.At(side).chan.rxKey, steps, side)
    ensures link.At(side).chan.authRejected == 0
    ensures DeliveriesTo(steps, side) == |link.At(side).got| + link.At(side).chan.replayRejected
  {
    NothingForged(aead, start, steps, link, side);
    DeliveriesAccounted(aead, start, steps, link, side);
  }
}
