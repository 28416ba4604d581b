/** The phone's sending side over every interleaving of its threads (AgentChannelPlugin.java), at
    the granularity of its lock, and what the peer's replay window makes of the frames it sends.
    One session, with a live socket: sealing takes a counter before the lock is taken, keepalive
    pings go straight to the socket, the failure count is read and written in two steps, and a
    flush sends one frame at a time while pings may slip in between. */
module PartitionRuns {
  import opened Bytes
  import Frames
  import opened Partition
  import Replay
  import Channels

  /** Where onFrame is: outside the lock, holding it before clearing the failure count, or after. */
  datatype RxStage = Idle | Entered(wasBuffering: bool) | Cleared(wasBuffering: bool)

  /** The shared fields and the threads' local state. `hands` are sealed frames on their way to
      outbound, by thread; `issued` records, in order, the frames that outbound was called with
      and the pings sent; `trimmed` the counters of frames that trimming threw away. */
  datatype Phone = Phone(
    tx: nat, hands: map<nat, Item>, pingInHand: Option<Item>, probe: Option<nat>,
    rx: RxStage, failures: nat, buffer: seq<Item>, bufferedBytes: int, wire: seq<Item>,
    issued: seq<Item>, trimmed: set<nat>)
  {
    /** The fields of the partition buffer. */
    function Held(): Held {
      Partition.Held(buffer, bufferedBytes, failures, wire)
    }
  }

  const START := Phone(0, map[], None, None, Idle, 0, [], 0, [], [], {})

  datatype Step =
    | Seal(thread: nat, kind: byte, size: nat)
    | Outbound(thread: nat)
    | SealPing(pingSize: nat)
    | SendPing
    | ReadFailures
    | WriteFailures
    | RxEnter
    | RxClear
    | FlushOne
    | RxLeave

  ghost predicate Enabled(p: Phone, step: Step) {
    match step
    case Seal(t, kind, size) => t !in p.hands && kind != Frames.TYPE_PING && p.tx < Frames.MAX_COUNTER
    case Outbound(t) => t in p.hands && p.rx.Idle?
    case SealPing(_) => p.pingInHand.None? && p.tx < Frames.MAX_COUNTER
    case SendPing => p.pingInHand.Some?
    case ReadFailures => true
    case WriteFailures => p.probe.Some?
    case RxEnter => p.rx.Idle?
    case RxClear => p.rx.Entered?
    case FlushOne => p.rx.Cleared? && p.rx.wasBuffering && p.buffer != []
    case RxLeave => p.rx.Cleared? && (!p.rx.wasBuffering || p.buffer == [])
  }

  function Counters(items: seq<Item>): (cs: seq<int>)
    ensures |cs| == |items| && forall i :: 0 <= i < |items| ==> cs[i] == items[i].counter
  {
    seq(|items|, i requires 0 <= i < |items| => items[i].counter)
  }

  function CounterSet(items: seq<Item>): (cs: set<nat>)
    ensures forall c :: c in cs <==> exists i :: 0 <= i < |items| && items[i].counter == c
  {
    set i | 0 <= i < |items| :: items[i].counter
  }

  /** One step. Outbound is the operation of the partition buffer itself, with the socket up; sealing
      fails once the counters are used up. */
  ghost predicate Next(p: Phone, step: Step, p': Phone) {
    Enabled(p, step) &&
    match step
    case Seal(t, kind, size) => p' == p.(tx := p.tx + 1, hands := p.hands[t := Item(kind, p.tx, size)])
    case Outbound(t) =>
      var f := p.hands[t];
      && Enqueues(p.Held(), f, true, p'.Held())
      && p' == p.(hands := p.hands - {t}, issued := p.issued + [f],
                  buffer := p'.buffer, bufferedBytes := p'.bufferedBytes, wire := p'.wire,
                  trimmed := if p.failures > 0 then p.trimmed + (CounterSet(p.buffer + [f]) - CounterSet(p'.buffer)) else p.trimmed)
    case SealPing(size) => p' == p.(tx := p.tx + 1, pingInHand := Some(Item(Frames.TYPE_PING, p.tx, size)))
    case SendPing =>
      var f := p.pingInHand.value;
      p' == p.(wire := p.wire + [f], issued := p.issued + [f], pingInHand := None)
    case ReadFailures => p' == p.(probe := Some(p.failures))
    case WriteFailures => p' == p.(failures := p.probe.value + 1, probe := None)
    case RxEnter => p' == p.(rx := Entered(p.failures > 0))
    case RxClear => p' == p.(failures := 0, rx := Cleared(p.rx.wasBuffering))
    case FlushOne =>
      var f := p.buffer[0];
      p' == p.(buffer := p.buffer[1..], bufferedBytes := p.bufferedBytes - f.size, wire := p.wire + [f])
    case RxLeave => p' == p.(rx := Idle, bufferedBytes := if p.buffer == [] then 0 else p.bufferedBytes)
  }

  ghost predicate Reaches(steps: seq<Step>, p: Phone)
    decreases |steps|
  {
    if steps == [] then p == START
    else
      var init, last := steps[..|steps| - 1], steps[|steps| - 1];
      exists mid :: Reaches(init, mid) && Next(mid, last, p)
  }

  // ---- no frame is left behind ---------------------------------------------------------------------------

  /** A frame waits in the buffer only while a failure is on record, or while onFrame, holding the
      lock, has noted that there was one. */
  ghost predicate NoneStranded(p: Phone) {
    p.buffer != [] ==> if p.rx.Idle? then p.failures > 0 else p.rx.wasBuffering
  }

  lemma NoneStrandedStep(p: Phone, step: Step, p': Phone)
    requires NoneStranded(p) && Next(p, step, p')
    ensures NoneStranded(p')
  {
  }

  // ---- selecting from sequences ----------------------------------------------------------------------------

  /** The pings, or the other frames, in order. */
  function Select(items: seq<Item>, pings: bool): seq<Item> {
    if items == [] then []
    else (if (items[0].kind == Frames.TYPE_PING) == pings then [items[0]] else []) + Select(items[1..], pings)
  }

  /** The items whose counters are not in a set. */
  function Without(items: seq<Item>, gone: set<nat>): seq<Item> {
    if items == [] then []
    else (if items[0].counter in gone then [] else [items[0]]) + Without(items[1..], gone)
  }

  ghost predicate Distinct(items: seq<Item>) {
    forall i, j :: 0 <= i < j < |items| ==> items[i].counter != items[j].counter
  }

  lemma {:induction false} SelectAppend(a: seq<Item>, b: seq<Item>, pings: bool)
    ensures Select(a + b, pings) == Select(a, pings) + Select(b, pings)
  {
    if a == [] {
      assert a + b == b;
    } else {
      SelectAppend(a[1..], b, pings);
      assert (a + b)[1..] == a[1..] + b && (a + b)[0] == a[0];
      Regroup(if (a[0].kind == Frames.TYPE_PING) == pings then [a[0]] else [], Select(a[1..], pings), Select(b, pings));
    }
  }

  lemma {:induction false} WithoutAppend(a: seq<Item>, b: seq<Item>, gone: set<nat>)
    ensures Without(a + b, gone) == Without(a, gone) + Without(b, gone)
  {
    if a == [] {
      assert a + b == b;
    } else {
      WithoutAppend(a[1..], b, gone);
      assert (a + b)[1..] == a[1..] + b && (a + b)[0] == a[0];
      Regroup(if a[0].counter in gone then [] else [a[0]], Without(a[1..], gone), Without(b, gone));
    }
  }

  lemma {:induction false} SelectMembers(items: seq<Item>, pings: bool)
    ensures forall x :: x in Select(items, pings) <==> x in items && (x.kind == Frames.TYPE_PING) == pings
  {
    if items == [] {
    } else {
      SelectMembers(items[1..], pings);
      assert items == [items[0]] + items[1..];
    }
  }

  lemma {:induction false} WithoutMembers(items: seq<Item>, gone: set<nat>)
    ensures forall x :: x in Without(items, gone) <==> x in items && x.counter !in gone
  {
    if items == [] {
    } else {
      WithoutMembers(items[1..], gone);
      assert items == [items[0]] + items[1..];
    }
  }

  lemma DistinctTail(items: seq<Item>)
    requires items != [] && Distinct(items)
    ensures Distinct(items[1..]) && forall x :: x in items[1..] ==> x.counter != items[0].counter
  {
  }

  lemma DistinctCons(x: Item, rest: seq<Item>)
    requires Distinct(rest) && forall y :: y in rest ==> y.counter != x.counter
    ensures Distinct([x] + rest)
  {
  }

  lemma {:induction false} SelectDistinct(items: seq<Item>, pings: bool)
    requires Distinct(items)
    ensures Distinct(Select(items, pings))
  {
    if items == [] {
    } else {
      DistinctTail(items);
      SelectDistinct(items[1..], pings);
      SelectMembers(items[1..], pings);
      DistinctCons(items[0], Select(items[1..], pings));
    }
  }

  lemma {:induction false} WithoutDistinct(items: seq<Item>, gone: set<nat>)
    requires Distinct(items)
    ensures Distinct(Without(items, gone))
  {
    if items == [] {
    } else {
      DistinctTail(items);
      WithoutDistinct(items[1..], gone);
      WithoutMembers(items[1..], gone);
      DistinctCons(items[0], Without(items[1..], gone));
    }
  }

  lemma {:induction false} WithoutNone(items: seq<Item>, gone: set<nat>)
    requires forall x :: x in items ==> x.counter !in gone
    ensures Without(items, gone) == items
  {
    if items == [] {
    } else {
      WithoutNone(items[1..], gone);
    }
  }

  lemma {:induction false} WithoutTwice(items: seq<Item>, a: set<nat>, b: set<nat>)
    ensures Without(items, a + b) == Without(Without(items, a), b)
  {
    if items == [] {
    } else {
      WithoutTwice(items[1..], a, b);
      var rest := Without(items[1..], a);
      if items[0].counter !in a {
        assert Without(items, a) == [items[0]] + rest;
        assert ([items[0]] + rest)[1..] == rest;
      } else {
        assert Without(items, a) == [] + rest == rest;
      }
      if items[0].counter in a + b {
        assert Without(items, a + b) == [] + Without(items[1..], a + b) == Without(items[1..], a + b);
      }
    }
  }

  lemma {:induction false} SubsequenceMembers(a: seq<Item>, b: seq<Item>)
    requires Subsequence(a, b)
    ensures forall x :: x in a ==> x in b
    decreases |b|
  {
    if a == [] {
    } else {
      assert b == [b[0]] + b[1..];
      if a[0] == b[0] && Subsequence(a[1..], b[1..]) {
        SubsequenceMembers(a[1..], b[1..]);
        assert a == [a[0]] + a[1..];
      } else {
        SubsequenceMembers(a, b[1..]);
      }
    }
  }

  /** A subsequence is what remains without the counters it lacks. */
  lemma {:induction false} SubsequenceIsWithout(a: seq<Item>, b: seq<Item>, gone: set<nat>)
    requires Subsequence(a, b) && Distinct(b)
    requires forall x :: x in b ==> (x.counter in gone <==> x !in a)
    ensures Without(b, gone) == a
    decreases |b|
  {
    if b == [] {
    } else {
      DistinctTail(b);
      assert b == [b[0]] + b[1..];
      if a != [] && a[0] == b[0] && Subsequence(a[1..], b[1..]) {
        assert a == [a[0]] + a[1..];
        SubsequenceIsWithout(a[1..], b[1..], gone);
      } else {
        if a != [] {
          SubsequenceMembers(a, b[1..]);
        }
        assert b[0] !in a;
        SubsequenceIsWithout(a, b[1..], gone);
      }
    }
  }

  /** Same counter, same frame. */
  lemma DistinctSame(items: seq<Item>, x: Item, y: Item)
    requires Distinct(items) && x in items && y in items && x.counter == y.counter
    ensures x == y
  {
  }

  // ---- the invariant ---------------------------------------------------------------------------------------------

  /** Everything outbound was called with, except what was trimmed, is on the wire or in the buffer,
      in that order; the pings on the wire are those sent. */
  ghost predicate Conserved(p: Phone) {
    && Without(Select(p.issued, false), p.trimmed) == Select(p.wire, false) + p.buffer
    && Select(p.issued, true) == Select(p.wire, true)
    && p.bufferedBytes == Size(p.buffer)
  }

  /** A counter is spent on one frame only. */
  ghost predicate Unique(p: Phone) {
    && Distinct(p.issued) && p.tx <= Frames.MAX_COUNTER
    && (forall x :: x in p.issued ==> x.counter < p.tx)
    && (forall t :: t in p.hands ==>
          var x := p.hands[t];
          x.kind != Frames.TYPE_PING && x.counter < p.tx && x.counter !in CounterSet(p.issued))
    && (forall t, u :: t in p.hands && u in p.hands && t != u ==> p.hands[t].counter != p.hands[u].counter)
    && (p.pingInHand.Some? ==>
          var x := p.pingInHand.value;
          && x.kind == Frames.TYPE_PING && x.counter < p.tx && x.counter !in CounterSet(p.issued)
          && (forall t :: t in p.hands ==> p.hands[t].counter != x.counter))
    && p.trimmed <= CounterSet(p.issued)
  }

  lemma CounterSetAppend(items: seq<Item>, f: Item)
    ensures CounterSet(items + [f]) == CounterSet(items) + {f.counter}
  {
    var more := items + [f];
    forall c
      ensures c in CounterSet(more) <==> c in CounterSet(items) + {f.counter}
    {
      if c in CounterSet(items) {
        var i :| 0 <= i < |items| && items[i].counter == c;
        assert more[i].counter == c;
      }
      if c == f.counter {
        assert more[|items|].counter == c;
      }
    }
  }

  lemma CounterSetHas(items: seq<Item>, x: Item)
    requires x in items
    ensures x.counter in CounterSet(items)
  {
  }

  lemma DistinctAppend(items: seq<Item>, f: Item)
    requires Distinct(items) && f.counter !in CounterSet(items)
    ensures Distinct(items + [f])
  {
  }

  lemma BufferIssued(p: Phone)
    requires Conserved(p)
    ensures forall x :: x in p.buffer || (x in p.wire && x.kind != Frames.TYPE_PING) ==> x in p.issued && x.counter !in p.trimmed
    ensures forall x :: x in p.buffer ==> x.kind != Frames.TYPE_PING
    ensures forall x :: x in p.wire && x.kind == Frames.TYPE_PING ==> x in p.issued
  {
    SelectMembers(p.issued, false);
    SelectMembers(p.issued, true);
    SelectMembers(p.wire, false);
    SelectMembers(p.wire, true);
    WithoutMembers(Select(p.issued, false), p.trimmed);
    var kept := Select(p.wire, false) + p.buffer;
    assert forall x :: x in kept <==> x in Select(p.wire, false) || x in p.buffer;
  }

  lemma TrimmedIssued(p: Phone, f: Item)
    requires Conserved(p)
    ensures CounterSet(p.buffer + [f]) <= CounterSet(p.issued + [f])
  {
    BufferIssued(p);
    CounterSetAppend(p.buffer, f);
    CounterSetAppend(p.issued, f);
    forall c | c in CounterSet(p.buffer)
      ensures c in CounterSet(p.issued)
    {
      var i :| 0 <= i < |p.buffer| && p.buffer[i].counter == c;
      CounterSetHas(p.issued, p.buffer[i]);
    }
  }

  lemma UniqueStep(p: Phone, step: Step, p': Phone)
    requires Unique(p) && Conserved(p) && Next(p, step, p')
    ensures Unique(p')
  {
    match step
    case Outbound(t) => OutboundUnique(p, t, p');
    case SendPing =>
      CounterSetAppend(p.issued, p.pingInHand.value);
      DistinctAppend(p.issued, p.pingInHand.value);
    case Seal(_, _, _) =>
      assert p.tx !in CounterSet(p.issued);
    case SealPing(_) =>
      assert p.tx !in CounterSet(p.issued);
    case _ =>
  }

  lemma OutboundUnique(p: Phone, t: nat, p': Phone)
    requires Unique(p) && Conserved(p) && Next(p, Outbound(t), p')
    ensures Unique(p')
  {
    TrimmedIssued(p, p.hands[t]);
    CounterSetAppend(p.issued, p.hands[t]);
    DistinctAppend(p.issued, p.hands[t]);
  }

  lemma ConservedStep(p: Phone, step: Step, p': Phone)
    requires Unique(p) && Conserved(p) && NoneStranded(p) && Next(p, step, p')
    ensures Conserved(p')
  {
    match step
    case Outbound(t) =>
      if p.failures > 0 {
        BufferedConserved(p, t, p');
      } else {
        SentConserved(p, p.hands[t]);
      }
    case SendPing =>
      PingConserved(p, p.pingInHand.value);
    case FlushOne =>
      var f := p.buffer[0];
      BufferIssued(p);
      SelectOne(p.wire, f);
      assert p.buffer == [f] + p.buffer[1..];
      Regroup(Select(p.wire, false), [f], p.buffer[1..]);
    case _ =>
  }

  lemma SelectOne(items: seq<Item>, f: Item)
    ensures Select(items + [f], f.kind == Frames.TYPE_PING) == Select(items, f.kind == Frames.TYPE_PING) + [f]
    ensures Select(items + [f], f.kind != Frames.TYPE_PING) == Select(items, f.kind != Frames.TYPE_PING)
  {
    SelectAppend(items, [f], true);
    SelectAppend(items, [f], false);
    assert Select([f], f.kind == Frames.TYPE_PING) == [f] + Select([], f.kind == Frames.TYPE_PING) == [f];
    assert Select([f], f.kind != Frames.TYPE_PING) == [] + Select([], f.kind != Frames.TYPE_PING) == [];
    AppendNothing(Select(items, f.kind != Frames.TYPE_PING));
  }

  lemma WithoutOne(items: seq<Item>, f: Item, gone: set<nat>)
    requires f.counter !in gone
    ensures Without(items + [f], gone) == Without(items, gone) + [f]
  {
    WithoutAppend(items, [f], gone);
    assert Without([f], gone) == [f] + Without([], gone) == [f];
  }

  /** A frame sent at once: nothing is buffered then. */
  lemma SentConserved(p: Phone, f: Item)
    requires Conserved(p) && p.buffer == [] && f.kind != Frames.TYPE_PING && f.counter !in p.trimmed
    ensures Conserved(p.(wire := p.wire + [f], issued := p.issued + [f]))
  {
    SelectOne(p.issued, f);
    SelectOne(p.wire, f);
    WithoutOne(Select(p.issued, false), f, p.trimmed);
    AppendNothing(Select(p.wire, false));
    AppendNothing(Select(p.wire, false) + [f]);
  }

  lemma PingConserved(p: Phone, f: Item)
    requires Conserved(p) && f.kind == Frames.TYPE_PING
    ensures Conserved(p.(wire := p.wire + [f], issued := p.issued + [f]))
  {
    SelectOne(p.issued, f);
    SelectOne(p.wire, f);
  }

  /** A frame buffered and the buffer trimmed. */
  lemma BufferedConserved(p: Phone, t: nat, p': Phone)
    requires Unique(p) && Conserved(p) && Next(p, Outbound(t), p') && p.failures > 0
    ensures Conserved(p')
  {
    var f := p.hands[t];
    var left := p'.buffer;
    var gone := CounterSet(p.buffer + [f]) - CounterSet(left);
    var sent, enq := Select(p.wire, false), Select(p.issued, false);
    SelectOne(p.issued, f);
    WithoutOne(enq, f, p.trimmed);
    Regroup(sent, p.buffer, [f]);
    WithoutTwice(enq + [f], p.trimmed, gone);
    assert Without(enq + [f], p.trimmed) == sent + (p.buffer + [f]);
    DistinctAppend(p.issued, f);
    SelectDistinct(p.issued + [f], false);
    WithoutDistinct(enq + [f], p.trimmed);
    TrimConserves(sent, p.buffer + [f], left, gone);
  }

  lemma TrimConserves(sent: seq<Item>, buf: seq<Item>, left: seq<Item>, gone: set<nat>)
    requires Distinct(sent + buf) && Trims(buf, 0, left) && gone == CounterSet(buf) - CounterSet(left)
    ensures Without(sent + buf, gone) == sent + left
  {
    TrimKeepsOrder(buf, 0, left);
    SubsequenceMembers(left, buf);
    WithoutAppend(sent, buf, gone);
    DistinctParts(sent, buf);
    WithoutNone(sent, gone);
    GoneOrLeft(buf, left, gone);
    SubsequenceIsWithout(left, buf, gone);
  }

  lemma DistinctParts(sent: seq<Item>, buf: seq<Item>)
    requires Distinct(sent + buf)
    ensures Distinct(buf)
    ensures forall x :: x in sent ==> x.counter !in CounterSet(buf)
  {
    assert forall i :: 0 <= i < |buf| ==> (sent + buf)[|sent| + i] == buf[i];
    forall x | x in sent
      ensures x.counter !in CounterSet(buf)
    {
      var i :| 0 <= i < |sent| && sent[i] == x;
      assert (sent + buf)[i] == x;
    }
  }

  lemma GoneOrLeft(buf: seq<Item>, left: seq<Item>, gone: set<nat>)
    requires Distinct(buf) && gone == CounterSet(buf) - CounterSet(left) && forall x :: x in left ==> x in buf
    ensures forall x :: x in buf ==> (x.counter in gone <==> x !in left)
  {
    forall x | x in buf
      ensures x.counter in gone <==> x !in left
    {
      CounterSetHas(buf, x);
      if x in left {
        CounterSetHas(left, x);
      } else if x.counter in CounterSet(left) {
        var i :| 0 <= i < |left| && left[i].counter == x.counter;
        DistinctSame(buf, x, left[i]);
      }
    }
  }

  lemma {:induction false} ReachableInv(steps: seq<Step>, p: Phone)
    requires Reaches(steps, p)
    ensures NoneStranded(p) && Conserved(p) && Unique(p)
    decreases |steps|
  {
    if steps == [] {
    } else {
      var init, last := steps[..|steps| - 1], steps[|steps| - 1];
      var mid :| Reaches(init, mid) && Next(mid, last, p);
      ReachableInv(init, mid);
      NoneStrandedStep(mid, last, p);
      UniqueStep(mid, last, p);
      ConservedStep(mid, last, p);
    }
  }

  // ---- the runs are those of the buffer's operations --------------------------------------------------------------

  /** A run from one state to another. */
  ghost predicate Leads(p: Phone, steps: seq<Step>, p': Phone)
    decreases |steps|
  {
    if steps == [] then p' == p
    else exists mid :: Next(p, steps[0], mid) && Leads(mid, steps[1..], p')
  }

  lemma LeadsFirst(p: Phone, step: Step, mid: Phone, steps: seq<Step>, p': Phone)
    requires Next(p, step, mid) && Leads(mid, steps, p')
    ensures Leads(p, [step] + steps, p')
  {
    assert ([step] + steps)[1..] == steps;
  }

  function Repeat(step: Step, n: nat): seq<Step> {
    if n == 0 then [] else [step] + Repeat(step, n - 1)
  }

  /** Flushing frame by frame, and leaving. */
  lemma {:induction false} FlushLeads(p: Phone, p': Phone)
    requires p.rx == Cleared(true) && p.bufferedBytes == Size(p.buffer)
    requires p' == p.(rx := Idle, buffer := [], bufferedBytes := 0, wire := p.wire + p.buffer)
    ensures Leads(p, Repeat(FlushOne, |p.buffer|) + [RxLeave], p')
    decreases |p.buffer|
  {
    if p.buffer == [] {
      AppendNothing(p.wire);
      assert Next(p, RxLeave, p');
      LeadsFirst(p, RxLeave, p', [], p');
      assert Repeat(FlushOne, 0) + [RxLeave] == [RxLeave] + [];
    } else {
      var f := p.buffer[0];
      var mid := p.(buffer := p.buffer[1..], bufferedBytes := p.bufferedBytes - f.size, wire := p.wire + [f]);
      assert [f] + p.buffer[1..] == p.buffer;
      Regroup(p.wire, [f], p.buffer[1..]);
      FlushLeads(mid, p');
      LeadsFirst(p, FlushOne, mid, Repeat(FlushOne, |mid.buffer|) + [RxLeave], p');
      Regroup([FlushOne], Repeat(FlushOne, |mid.buffer|), [RxLeave]);
    }
  }

  /** An authenticated frame, undisturbed, is the run that enters, clears the failure count, flushes
      what is buffered if there had been a failure, and leaves: the buffer's own operation. */
  lemma AuthenticatedLeads(p: Phone) returns (steps: seq<Step>, p': Phone)
    requires p.rx.Idle? && p.bufferedBytes == Size(p.buffer)
    ensures Leads(p, steps, p') && p'.Held() == Authenticated(p.Held(), true)
    ensures steps == [RxEnter, RxClear] + (if p.failures > 0 then Repeat(FlushOne, |p.buffer|) else []) + [RxLeave]
    ensures p' == p.(failures := p'.failures, buffer := p'.buffer, bufferedBytes := p'.bufferedBytes, wire := p'.wire)
  {
    var was := p.failures > 0;
    var entered := p.(rx := Entered(was));
    var cleared := entered.(failures := 0, rx := Cleared(was));
    var rest := if was then Repeat(FlushOne, |p.buffer|) + [RxLeave] else [RxLeave];
    if was {
      p' := p.(failures := 0, buffer := [], bufferedBytes := 0, wire := p.wire + p.buffer);
      FlushLeads(cleared, p');
    } else {
      p' := p.(failures := 0);
      LeaveLeads(cleared, p');
    }
    assert Next(entered, RxClear, cleared) && Next(p, RxEnter, entered);
    LeadsFirst(entered, RxClear, cleared, rest, p');
    LeadsFirst(p, RxEnter, entered, [RxClear] + rest, p');
    steps := [RxEnter] + ([RxClear] + rest);
    assert steps == [RxEnter, RxClear] + rest;
    if was {
      Regroup([RxEnter, RxClear], Repeat(FlushOne, |p.buffer|), [RxLeave]);
    } else {
      AppendNothing([RxEnter, RxClear]);
    }
  }

  lemma LeaveLeads(p: Phone, p': Phone)
    requires p.rx == Cleared(false) && p' == p.(rx := Idle) && p.bufferedBytes == Size(p.buffer)
    ensures Leads(p, [RxLeave], p')
  {
    assert p.buffer == [] ==> Size(p.buffer) == 0;
    assert Next(p, RxLeave, p');
    LeadsFirst(p, RxLeave, p', [], p');
    AppendNothing([RxLeave]);
  }

  // ---- the failure count -------------------------------------------------------------------------------------------

  function Count(steps: seq<Step>, step: Step): nat {
    if steps == [] then 0 else (if steps[0] == step then 1 else 0) + Count(steps[1..], step)
  }

  /** As long as no authenticated frame clears it, the count is exactly that of the failed probes, whatever
      the other threads do. */
  lemma {:induction false} FailuresAddUp(p: Phone, steps: seq<Step>, p': Phone)
    requires Leads(p, steps, p') && RxClear !in steps && (p.probe.Some? ==> p.probe.value == p.failures)
    ensures p'.failures == p.failures + Count(steps, WriteFailures)
    decreases |steps|
  {
    if steps == [] {
    } else {
      var mid :| Next(p, steps[0], mid) && Leads(mid, steps[1..], p');
      assert steps[0] in steps && forall x :: x in steps[1..] ==> x in steps;
      FailuresAddUp(mid, steps[1..], p');
    }
  }

  /** But the count is read and written in two steps: an authenticated frame in between clears it for nothing,
      and the phone goes on buffering with all the failures it had and one more. */
  lemma StaleWrite(p: Phone) returns (p': Phone)
    requires p.rx.Idle? && p.buffer == [] && p.bufferedBytes == 0
    ensures Leads(p, [ReadFailures, RxEnter, RxClear, RxLeave, WriteFailures], p')
    ensures p' == p.(failures := p.failures + 1, probe := None)
  {
    FiveSteps(ReadFailures, RxEnter, RxClear, RxLeave, WriteFailures);
    var was := p.failures > 0;
    var p1 := p.(probe := Some(p.failures));
    var p2 := p1.(rx := Entered(was));
    var p3 := p2.(failures := 0, rx := Cleared(was));
    var p4 := p3.(rx := Idle);
    p' := p.(failures := p.failures + 1, probe := None);
    assert Next(p4, WriteFailures, p') && Next(p3, RxLeave, p4) && Next(p2, RxClear, p3) && Next(p1, RxEnter, p2) && Next(p, ReadFailures, p1);
    LeadsFirst(p4, WriteFailures, p', [], p');
    LeadsFirst(p3, RxLeave, p4, [WriteFailures], p');
    LeadsFirst(p2, RxClear, p3, [RxLeave, WriteFailures], p');
    LeadsFirst(p1, RxEnter, p2, [RxClear, RxLeave, WriteFailures], p');
    LeadsFirst(p, ReadFailures, p1, [RxEnter, RxClear, RxLeave, WriteFailures], p');
  }

  lemma FiveSteps(a: Step, b: Step, c: Step, d: Step, e: Step)
    ensures [a] + [b, c, d, e] == [a, b, c, d, e] && [b] + [c, d, e] == [b, c, d, e]
    ensures [c] + [d, e] == [c, d, e] && [d] + [e] == [d, e] && [e] + [] == [e]
  {
  }

  // ---- the theorems ----------------------------------------------------------------------------------------------

  /** No frame is lost, repeated or reordered by the threads: the frames on the wire followed by the
      buffered ones are exactly those outbound was called with, in order, minus the trimmed ones; the
      wire repeats no counter; and outside the lock a frame is buffered only while a failure is on
      record, so that some authenticated frame will flush it. */
  lemma OrderAndNoLoss(steps: seq<Step>, p: Phone)
    requires Reaches(steps, p)
    ensures Select(p.wire, false) + p.buffer == Without(Select(p.issued, false), p.trimmed)
    ensures Select(p.wire, true) == Select(p.issued, true)
    ensures Distinct(p.wire)
    ensures p.rx.Idle? && p.buffer != [] ==> p.failures > 0
    ensures p.bufferedBytes == Size(p.buffer)
  {
    ReachableInv(steps, p);
    BufferIssued(p);
    SelectDistinct(p.issued, true);
    SelectDistinct(p.issued, false);
    WithoutDistinct(Select(p.issued, false), p.trimmed);
    assert forall i :: 0 <= i < |Select(p.wire, false)| ==> (Select(p.wire, false) + p.buffer)[i] == Select(p.wire, false)[i];
    MergeDistinct(p.wire, p.issued);
  }

  lemma {:induction false} MergeDistinct(wire: seq<Item>, issued: seq<Item>)
    requires Distinct(Select(wire, true)) && Distinct(Select(wire, false))
    requires Distinct(issued) && forall x :: x in wire ==> x in issued
    ensures Distinct(wire)
  {
    if wire == [] {
    } else {
      assert wire == [wire[0]] + wire[1..];
      var ping := wire[0].kind == Frames.TYPE_PING;
      DistinctTail(Select(wire, ping));
      assert Select(wire, ping)[1..] == Select(wire[1..], ping);
      assert Select(wire, !ping) == [] + Select(wire[1..], !ping) == Select(wire[1..], !ping);
      MergeDistinct(wire[1..], issued);
      forall x | x in wire[1..]
        ensures x.counter != wire[0].counter
      {
        if x.counter == wire[0].counter {
          DistinctSame(issued, x, wire[0]);
          SelectMembers(wire[1..], ping);
        }
      }
      DistinctCons(wire[0], wire[1..]);
    }
  }

  /** What the peer makes of it. Frame i on the wire is accepted exactly when no frame sent before it
      is a window or more ahead; each accepted frame is accepted once. */
  lemma PeerAcceptsIff(steps: seq<Step>, p: Phone, i: nat)
    requires Reaches(steps, p) && i < |p.wire|
    ensures Replay.AcceptedAt(Channels.REPLAY_WINDOW, Counters(p.wire), i) <==>
            forall j :: 0 <= j < i ==> p.wire[j].counter - p.wire[i].counter < Channels.REPLAY_WINDOW
  {
    OrderAndNoLoss(steps, p);
    Replay.AcceptedIffNotOvertaken(Channels.REPLAY_WINDOW, Counters(p.wire), i);
  }

  ghost predicate Ascending(items: seq<Item>) {
    forall i, j :: 0 <= i < j < |items| ==> items[i].counter < items[j].counter
  }

  /** When outbound is called in the order of sealing, only pings overtake: a frame is accepted by
      the peer exactly when every ping sent before it is less than a window ahead of it. */
  lemma AcceptedIffNoFarPing(steps: seq<Step>, p: Phone, i: nat)
    requires Reaches(steps, p) && Ascending(Select(p.issued, false))
    requires i < |p.wire| && p.wire[i].kind != Frames.TYPE_PING
    ensures Replay.AcceptedAt(Channels.REPLAY_WINDOW, Counters(p.wire), i) <==>
            forall j :: 0 <= j < i && p.wire[j].kind == Frames.TYPE_PING ==>
              p.wire[j].counter - p.wire[i].counter < Channels.REPLAY_WINDOW
  {
    PeerAcceptsIff(steps, p, i);
    OrderAndNoLoss(steps, p);
    WithoutAscending(Select(p.issued, false), p.trimmed);
    var sent := Select(p.wire, false);
    assert Ascending(sent) by {
      assert forall k :: 0 <= k < |sent| ==> (sent + p.buffer)[k] == sent[k];
    }
    forall j | 0 <= j < i && p.wire[j].kind != Frames.TYPE_PING
      ensures p.wire[j].counter < p.wire[i].counter
    {
      SelectAscending(p.wire, j, i);
    }
  }

  lemma AscendingTail(items: seq<Item>)
    requires items != [] && Ascending(items)
    ensures Ascending(items[1..]) && forall x :: x in items[1..] ==> x.counter > items[0].counter
  {
  }

  lemma {:induction false} WithoutAscending(items: seq<Item>, gone: set<nat>)
    requires Ascending(items)
    ensures Ascending(Without(items, gone))
  {
    if items == [] {
    } else {
      AscendingTail(items);
      WithoutAscending(items[1..], gone);
      WithoutMembers(items[1..], gone);
    }
  }

  /** Two non-pings of a sequence keep their order among its non-pings. */
  lemma {:induction false} SelectAscending(items: seq<Item>, i: nat, j: nat)
    requires i < j < |items| && items[i].kind != Frames.TYPE_PING && items[j].kind != Frames.TYPE_PING
    requires Ascending(Select(items, false))
    ensures items[i].counter < items[j].counter
  {
    var rest := Select(items[1..], false);
    if i == 0 {
      AscendingTail(Select(items, false));
      SelectMembers(items[1..], false);
      assert Select(items, false)[1..] == rest;
      assert items[1..][j - 1] == items[j];
    } else {
      if items[0].kind != Frames.TYPE_PING {
        AscendingTail(Select(items, false));
        assert Select(items, false)[1..] == rest;
      } else {
        assert Select(items, false) == [] + rest == rest;
      }
      SelectAscending(items[1..], i - 1, j - 1);
    }
  }
}
