/** A run in which buffering does lose frames: the frames are buffered and flushed in order, but a
    keepalive ping sealed after them reaches the peer before them (AgentChannelPlugin.java). */
module PartitionLoss {
  import opened Bytes
  import Frames
  import opened Partition
  import opened PartitionRuns
  import Replay
  import Channels

  const AUDIO_SIZE := 160
  const PING_SIZE := Frames.HEADER_LEN

  /** The frames with counters 0 to n - 1. */
  function Spoken(n: nat): (items: seq<Item>)
    ensures |items| == n
  {
    seq(n, i requires 0 <= i < n => Item(Frames.TYPE_AUDIO, i, AUDIO_SIZE))
  }

  lemma {:induction false} SpokenSize(items: seq<Item>)
    requires forall x :: x in items ==> x.size == AUDIO_SIZE
    ensures Size(items) == |items| * AUDIO_SIZE
  {
    if items == [] {
    } else {
      SpokenSize(items[1..]);
    }
  }

  /** A failed probe is on record and n frames are buffered. */
  function Partitioned(n: nat): Phone {
    Phone(n, map[], None, None, Idle, 1, Spoken(n), n * AUDIO_SIZE, [], Spoken(n), {})
  }

  /** The ping went out, then an authenticated frame came in, and k frames are flushed. */
  function Flushing(n: nat, k: nat): Phone
    requires k <= n
  {
    var ping := Item(Frames.TYPE_PING, n, PING_SIZE);
    Phone(n + 1, map[], None, None, Cleared(true), 0, Spoken(n)[k..], (n - k) * AUDIO_SIZE,
      [ping] + Spoken(n)[..k], Spoken(n) + [ping], {})
  }

  lemma Extend(steps: seq<Step>, p: Phone, step: Step, p': Phone)
    requires Reaches(steps, p) && Next(p, step, p')
    ensures Reaches(steps + [step], p')
  {
    var more := steps + [step];
    var init := more[..|more| - 1];
    assert init == steps;
    assert Reaches(init, p) && Next(p, more[|more| - 1], p');
  }

  /** As many frames as the frame cap allows are buffered without trimming. */
  lemma {:induction false} Fill(n: nat) returns (steps: seq<Step>)
    requires n <= MAX_BUFFER_FRAMES
    ensures Reaches(steps, Partitioned(n))
  {
    if n == 0 {
      var probed := START.(probe := Some(0));
      Extend([], START, ReadFailures, probed);
      Extend([] + [ReadFailures], probed, WriteFailures, Partitioned(0));
      steps := [] + [ReadFailures] + [WriteFailures];
    } else {
      steps := Fill(n - 1);
      var p := Partitioned(n - 1);
      var f := Item(Frames.TYPE_AUDIO, n - 1, AUDIO_SIZE);
      var sealed := p.(tx := n, hands := map[0 := f]);
      Extend(steps, p, Seal(0, Frames.TYPE_AUDIO, AUDIO_SIZE), sealed);
      BufferOne(n, sealed);
      Extend(steps + [Seal(0, Frames.TYPE_AUDIO, AUDIO_SIZE)], sealed, Outbound(0), Partitioned(n));
      steps := steps + [Seal(0, Frames.TYPE_AUDIO, AUDIO_SIZE)] + [Outbound(0)];
    }
  }

  lemma BufferOne(n: nat, sealed: Phone)
    requires 0 < n <= MAX_BUFFER_FRAMES
    requires sealed == Partitioned(n - 1).(tx := n, hands := map[0 := Item(Frames.TYPE_AUDIO, n - 1, AUDIO_SIZE)])
    ensures Next(sealed, Outbound(0), Partitioned(n))
  {
    var f := sealed.hands[0];
    var all := sealed.buffer + [f];
    assert all == Spoken(n);
    SpokenSize(sealed.buffer);
    SpokenSize(all);
    FittingIsKept(all, 0);
    assert sealed.Held().Excess() == 0;
    assert sealed.hands - {0} == map[];
    assert Partitioned(n).trimmed == sealed.trimmed + (CounterSet(all) - CounterSet(all));
  }

  /** From the partition to the flush with k frames sent. */
  lemma {:induction false} Release(n: nat, k: nat) returns (steps: seq<Step>)
    requires 0 < n <= MAX_BUFFER_FRAMES && k <= n
    ensures Reaches(steps, Flushing(n, k))
    decreases k
  {
    if k == 0 {
      steps := Fill(n);
      steps := PingFirst(n, steps);
    } else {
      steps := Release(n, k - 1);
      var p := Flushing(n, k - 1);
      assert p.buffer[0] == Spoken(n)[k - 1] && p.buffer[1..] == Spoken(n)[k..];
      assert Spoken(n)[..k] == Spoken(n)[..k - 1] + [Spoken(n)[k - 1]];
      Regroup([Item(Frames.TYPE_PING, n, PING_SIZE)], Spoken(n)[..k - 1], [Spoken(n)[k - 1]]);
      assert p.bufferedBytes - AUDIO_SIZE == (n - k) * AUDIO_SIZE;
      Extend(steps, p, FlushOne, Flushing(n, k));
      steps := steps + [FlushOne];
    }
  }

  lemma PingFirst(n: nat, before: seq<Step>) returns (steps: seq<Step>)
    requires Reaches(before, Partitioned(n)) && n <= MAX_BUFFER_FRAMES
    ensures Reaches(steps, Flushing(n, 0))
  {
    var p := Partitioned(n);
    var ping := Item(Frames.TYPE_PING, n, PING_SIZE);
    var sealed := p.(tx := n + 1, pingInHand := Some(ping));
    var sent := p.(tx := n + 1, wire := [ping], issued := Spoken(n) + [ping]);
    var entered := sent.(rx := Entered(true));
    Extend(before, p, SealPing(PING_SIZE), sealed);
    assert sealed.wire + [ping] == [ping];
    steps := before + [SealPing(PING_SIZE)];
    Extend(steps, sealed, SendPing, sent);
    steps := steps + [SendPing];
    Extend(steps, sent, RxEnter, entered);
    steps := steps + [RxEnter];
    assert Spoken(n)[0..] == Spoken(n) && [ping] + Spoken(n)[..0] == [ping];
    Extend(steps, entered, RxClear, Flushing(n, 0));
    steps := steps + [RxClear];
  }

  /** For every number n of buffered frames there is a run that trims nothing and flushes all of
      them in order behind one ping; the peer takes exactly the newest REPLAY_WINDOW - 1 of them. So
      a partition that buffers a window or more loses its oldest frames after all. */
  lemma PingOutrunsBuffer(n: nat) returns (steps: seq<Step>, p: Phone)
    requires 0 < n <= MAX_BUFFER_FRAMES
    ensures Reaches(steps, p) && p.buffer == [] && p.trimmed == {}
    ensures |p.wire| == n + 1 && Select(p.wire, false) == Spoken(n)
    ensures forall i | 1 <= i <= n ::
              Replay.AcceptedAt(Channels.REPLAY_WINDOW, Counters(p.wire), i) <==> n - (i - 1) < Channels.REPLAY_WINDOW
  {
    steps := Release(n, n);
    p := Flushing(n, n);
    FlushedWire(n);
    forall i | 1 <= i <= n
      ensures Replay.AcceptedAt(Channels.REPLAY_WINDOW, Counters(p.wire), i) <==> n - (i - 1) < Channels.REPLAY_WINDOW
    {
      AcceptedBehindPing(n, steps, i);
    }
  }

  lemma FlushedWire(n: nat)
    ensures |Flushing(n, n).wire| == n + 1 && Flushing(n, n).wire[0].counter == n
    ensures forall i :: 1 <= i <= n ==> Flushing(n, n).wire[i].counter == i - 1
    ensures Select(Flushing(n, n).wire, false) == Spoken(n)
  {
    var wire := Flushing(n, n).wire;
    NoPings(Spoken(n));
    assert wire[1..] == Spoken(n);
    assert Select(wire, false) == [] + Select(Spoken(n), false) == Spoken(n);
  }

  lemma AcceptedBehindPing(n: nat, steps: seq<Step>, i: nat)
    requires Reaches(steps, Flushing(n, n)) && 1 <= i <= n
    ensures |Flushing(n, n).wire| == n + 1
    ensures Replay.AcceptedAt(Channels.REPLAY_WINDOW, Counters(Flushing(n, n).wire), i) <==>
            n - (i - 1) < Channels.REPLAY_WINDOW
  {
    FlushedWire(n);
    PeerAcceptsIff(steps, Flushing(n, n), i);
  }

  lemma {:induction false} NoPings(items: seq<Item>)
    requires forall x :: x in items ==> x.kind != Frames.TYPE_PING
    ensures Select(items, false) == items
  {
    if items == [] {
    } else {
      NoPings(items[1..]);
      assert items == [items[0]] + items[1..];
    }
  }
}
