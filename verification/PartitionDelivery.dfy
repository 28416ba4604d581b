/** The phone's wire frames at the agent's channel: which of the sealed messages are handed up, when
    every frame arrives intact and in the order it was sent (AgentChannelPlugin.java, proto.js). */
module PartitionDelivery {
  import opened Bytes
  import opened Primitives
  import Frames
  import opened Channels
  import opened Network
  import opened Partition
  import PartitionRuns
  import Replay

  /** The message a buffered item is the sealed form of; `pt` gives the plaintext by counter. */
  function Message(pt: nat -> Bytes, x: Item): Sealed {
    Sealed(x.kind, STREAM_WS, x.counter, pt(x.counter))
  }

  lemma DeliverKeepsValid(aead: Aead, e: Endpoint, wire: Bytes)
    requires e.chan.Valid()
    ensures DoDeliver(aead, e, wire).chan.Valid()
  {
    if Frames.Unpack(wire).Some? {
      ChannelStepsKeepKeys(e.chan, aead, Frames.Unpack(wire).value, [], 0, 0);
    }
  }

  /** The agent's end after the frames of the first n items have come in, one by one. */
  function Receives(aead: Aead, e: Endpoint, key: Key, pt: nat -> Bytes, wire: seq<Item>, n: nat): (e': Endpoint)
    requires e.chan.Valid() && n <= |wire|
    ensures e'.chan.Valid()
  {
    if n == 0 then e
    else
      var mid := Receives(aead, e, key, pt, wire, n - 1);
      var frame := WireOf(aead, key, Message(pt, wire[n - 1]));
      DeliverKeepsValid(aead, mid, frame);
      DoDeliver(aead, mid, frame)
  }

  lemma OneReceived(aead: Aead, e: Endpoint, r: Sealed)
    requires aead.Sound() && e.chan.Valid() && r.stream == STREAM_WS && r.counter <= Frames.MAX_COUNTER
    ensures var e' := DoDeliver(aead, e, WireOf(aead, e.chan.rxKey, r));
            && e'.chan.rxKey == e.chan.rxKey
            && e'.chan.rx[STREAM_WS] == e.chan.rx[STREAM_WS].Offer(r.counter)
            && e'.got == e.got + (if e.chan.rx[STREAM_WS].Accepts(r.counter) then [r] else [])
  {
    var frame := FrameOf(aead, e.chan.rxKey, r);
    assert |frame.box.tag| == TAG_LEN;
    Frames.UnpackPack(r.kind, frame.nonce, frame.box);
    FrameOfReceived(aead, e.chan, r);
    AppendNothing(e.got);
    MetaOfFrame(aead, e.chan.rxKey, r);
  }

  lemma MetaOfFrame(aead: Aead, key: Key, r: Sealed)
    requires aead.Sound() && r.stream < MAX_STREAMS && r.counter <= Frames.MAX_COUNTER
    ensures ChannelState.Meta(FrameOf(aead, key, r)) == Some(Frames.NonceMeta(r.stream, r.counter))
  {
    FrameOfDecrypts(aead, key, r);
  }

  ghost predicate Sealable(items: seq<Item>) {
    forall x :: x in items ==> x.counter <= Frames.MAX_COUNTER
  }

  lemma OfferedMore(size: nat, cs: seq<int>, n: nat)
    requires 0 < n <= |cs|
    ensures Replay.Offered(size, cs[..n]) == Replay.Offered(size, cs[..n - 1]).Offer(cs[n - 1])
  {
    assert cs[..n][..n - 1] == cs[..n - 1];
  }

  /** The window after the counters of the first n items. */
  function WindowAt(wire: seq<Item>, n: nat): Replay.Window
    requires n <= |wire|
  {
    Replay.Offered(REPLAY_WINDOW, PartitionRuns.Counters(wire)[..n])
  }

  /** The agent's window is that of the counters that came in. */
  lemma {:induction false} WindowIsOffered(aead: Aead, e: Endpoint, pt: nat -> Bytes, wire: seq<Item>, n: nat)
    requires aead.Sound() && e.chan.Valid() && e.chan.rx[STREAM_WS] == Replay.Fresh(REPLAY_WINDOW)
    requires Sealable(wire) && n <= |wire|
    ensures var e' := Receives(aead, e, e.chan.rxKey, pt, wire, n);
            e'.chan.rxKey == e.chan.rxKey && e'.chan.rx[STREAM_WS] == WindowAt(wire, n)
  {
    if n == 0 {
    } else {
      WindowIsOffered(aead, e, pt, wire, n - 1);
      OneReceived(aead, Receives(aead, e, e.chan.rxKey, pt, wire, n - 1), Message(pt, wire[n - 1]));
      OfferedMore(REPLAY_WINDOW, PartitionRuns.Counters(wire), n);
    }
  }

  /** What a run of the phone puts on the wire: counters that can be sealed, each once. */
  ghost predicate Wire(wire: seq<Item>) {
    Sealable(wire) && PartitionRuns.Distinct(wire)
  }

  lemma RunsWire(steps: seq<PartitionRuns.Step>, p: PartitionRuns.Phone)
    requires PartitionRuns.Reaches(steps, p)
    ensures Wire(p.wire)
  {
    PartitionRuns.ReachableInv(steps, p);
    PartitionRuns.BufferIssued(p);
    PartitionRuns.OrderAndNoLoss(steps, p);
  }

  /** Not a window or more behind anything sent before. */
  predicate NotOvertaken(wire: seq<Item>, i: nat)
    requires i < |wire|
  {
    forall j :: 0 <= j < i ==> wire[j].counter - wire[i].counter < REPLAY_WINDOW
  }

  lemma AcceptedIsNotOvertaken(wire: seq<Item>, i: nat)
    requires Wire(wire) && i < |wire|
    ensures WindowAt(wire, i).Accepts(wire[i].counter) == NotOvertaken(wire, i)
  {
    Replay.AcceptedIffNotOvertaken(REPLAY_WINDOW, PartitionRuns.Counters(wire), i);
  }

  /** Whether the agent's window takes the n-th frame. */
  lemma NextIsTaken(aead: Aead, e: Endpoint, pt: nat -> Bytes, wire: seq<Item>, n: nat)
    requires aead.Sound() && e.chan.Valid() && e.chan.rx[STREAM_WS] == Replay.Fresh(REPLAY_WINDOW)
    requires Wire(wire) && n < |wire|
    ensures var mid := Receives(aead, e, e.chan.rxKey, pt, wire, n);
            && mid.chan.rxKey == e.chan.rxKey
            && mid.chan.rx[STREAM_WS].Accepts(wire[n].counter) == NotOvertaken(wire, n)
  {
    WindowIsOffered(aead, e, pt, wire, n);
    AcceptedIsNotOvertaken(wire, n);
  }

  lemma NextGot(aead: Aead, e: Endpoint, pt: nat -> Bytes, wire: seq<Item>, n: nat, accepted: bool)
    requires aead.Sound() && e.chan.Valid() && 0 < n <= |wire| && wire[n - 1].counter <= Frames.MAX_COUNTER
    requires var mid := Receives(aead, e, e.chan.rxKey, pt, wire, n - 1);
             mid.chan.rxKey == e.chan.rxKey && mid.chan.rx[STREAM_WS].Accepts(wire[n - 1].counter) == accepted
    ensures Receives(aead, e, e.chan.rxKey, pt, wire, n).got ==
            Receives(aead, e, e.chan.rxKey, pt, wire, n - 1).got +
            (if accepted then [Message(pt, wire[n - 1])] else [])
  {
    OneReceived(aead, Receives(aead, e, e.chan.rxKey, pt, wire, n - 1), Message(pt, wire[n - 1]));
  }

  /** What the n-th frame adds to what was handed up: its message, opened, with its type, counter and
      plaintext, exactly when nothing sent before it is a window or more ahead of it. */
  lemma HandedUpIff(aead: Aead, e: Endpoint, pt: nat -> Bytes, wire: seq<Item>, n: nat)
    requires aead.Sound() && e.chan.Valid() && e.chan.rx[STREAM_WS] == Replay.Fresh(REPLAY_WINDOW)
    requires Wire(wire) && 0 < n <= |wire|
    ensures Receives(aead, e, e.chan.rxKey, pt, wire, n).got ==
            Receives(aead, e, e.chan.rxKey, pt, wire, n - 1).got +
            (if NotOvertaken(wire, n - 1) then [Message(pt, wire[n - 1])] else [])
  {
    NextIsTaken(aead, e, pt, wire, n - 1);
    NextGot(aead, e, pt, wire, n, NotOvertaken(wire, n - 1));
  }

  /** The messages of the first n frames that nothing sent before outran. */
  function NotOvertakenMessages(pt: nat -> Bytes, wire: seq<Item>, n: nat): seq<Sealed>
    requires n <= |wire|
  {
    if n == 0 then []
    else NotOvertakenMessages(pt, wire, n - 1) + (if NotOvertaken(wire, n - 1) then [Message(pt, wire[n - 1])] else [])
  }

  lemma {:induction false} WireHandedUp(aead: Aead, e: Endpoint, pt: nat -> Bytes, wire: seq<Item>, n: nat)
    requires aead.Sound() && e.chan.Valid() && e.chan.rx[STREAM_WS] == Replay.Fresh(REPLAY_WINDOW) && e.got == []
    requires Wire(wire) && n <= |wire|
    ensures Receives(aead, e, e.chan.rxKey, pt, wire, n).got == NotOvertakenMessages(pt, wire, n)
  {
    if n == 0 {
    } else {
      WireHandedUp(aead, e, pt, wire, n - 1);
      NextHandedUp(aead, e, pt, wire, n);
    }
  }

  lemma NextHandedUp(aead: Aead, e: Endpoint, pt: nat -> Bytes, wire: seq<Item>, n: nat)
    requires aead.Sound() && e.chan.Valid() && e.chan.rx[STREAM_WS] == Replay.Fresh(REPLAY_WINDOW)
    requires Wire(wire) && 0 < n <= |wire|
    requires Receives(aead, e, e.chan.rxKey, pt, wire, n - 1).got == NotOvertakenMessages(pt, wire, n - 1)
    ensures Receives(aead, e, e.chan.rxKey, pt, wire, n).got == NotOvertakenMessages(pt, wire, n)
  {
    HandedUpIff(aead, e, pt, wire, n);
    MessagesNext(pt, wire, n);
  }

  lemma MessagesNext(pt: nat -> Bytes, wire: seq<Item>, n: nat)
    requires 0 < n <= |wire|
    ensures NotOvertakenMessages(pt, wire, n) ==
            NotOvertakenMessages(pt, wire, n - 1) + (if NotOvertaken(wire, n - 1) then [Message(pt, wire[n - 1])] else [])
  {
  }

  /** Over every run of the phone: what the agent has handed up in the end is exactly the messages
      nothing outran, each once and in the order they were sent. */
  lemma HandedUpInOrder(
    aead: Aead, e: Endpoint, pt: nat -> Bytes, steps: seq<PartitionRuns.Step>, p: PartitionRuns.Phone)
    requires aead.Sound() && e.chan.Valid() && e.chan.rx[STREAM_WS] == Replay.Fresh(REPLAY_WINDOW) && e.got == []
    requires PartitionRuns.Reaches(steps, p)
    ensures Receives(aead, e, e.chan.rxKey, pt, p.wire, |p.wire|).got == NotOvertakenMessages(pt, p.wire, |p.wire|)
  {
    RunsWire(steps, p);
    WireHandedUp(aead, e, pt, p.wire, |p.wire|);
  }
}
