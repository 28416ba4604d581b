/** The jitter buffer over arbitrary interleavings of pushes, pulls and ticks: order of playout,
    what became of every position and every frame, and what the loss counter means. */
module JitterRuns {
  import opened Bytes
  import opened Maps
  import opened Jitter

  datatype Event =
    | Push(seqNo: int, tsMs: int, payload: Payload)
    | Pull(nowMs: int)
    | Tick

  ghost function Step(cfg: Config, s: Jitter, e: Event): Jitter
    requires cfg.Sane()
  {
    match e
    case Push(seqNo, tsMs, payload) => Pushed(cfg, s, seqNo, tsMs, payload)
    case Pull(nowMs) => Pulled(cfg, s, nowMs).0
    case Tick => Ticked(s)
  }

  function Emitted(cfg: Config, s: Jitter, e: Event): seq<Out> {
    if e.Pull? && Pulled(cfg, s, e.nowMs).1.Some? then [Pulled(cfg, s, e.nowMs).1.value] else []
  }

  ghost function After(cfg: Config, evs: seq<Event>): Jitter
    requires cfg.Sane()
  {
    if evs == [] then Initial(cfg) else Step(cfg, After(cfg, evs[..|evs| - 1]), evs[|evs| - 1])
  }

  /** Everything played, in order. */
  ghost function Outs(cfg: Config, evs: seq<Event>): seq<Out>
    requires cfg.Sane()
  {
    if evs == [] then []
    else Outs(cfg, evs[..|evs| - 1]) + Emitted(cfg, After(cfg, evs[..|evs| - 1]), evs[|evs| - 1])
  }

  lemma StepKeepsInv(cfg: Config, s: Jitter, e: Event)
    requires Inv(cfg, s)
    ensures Inv(cfg, Step(cfg, s, e))
  {
    match e
    case Push(seqNo, tsMs, payload) => PushKeepsInv(cfg, s, seqNo, tsMs, payload);
    case Pull(nowMs) => PullKeepsInv(cfg, s, nowMs);
    case Tick =>
  }

  lemma {:induction false} ReachableInv(cfg: Config, evs: seq<Event>)
    requires cfg.Sane()
    ensures Inv(cfg, After(cfg, evs))
    ensures |After(cfg, evs).buf| <= 4 * cfg.max + 1
  {
    if evs == [] {
    } else {
      ReachableInv(cfg, evs[..|evs| - 1]);
      StepKeepsInv(cfg, After(cfg, evs[..|evs| - 1]), evs[|evs| - 1]);
    }
    BufferBounded(cfg, After(cfg, evs));
  }

  // ---- how full the buffer gets ------------------------------------------------------------------------

  /** The packets 0 to n - 1 in order and on time. */
  function Burst(cfg: Config, n: nat, payload: Payload): (evs: seq<Event>)
    ensures |evs| == n
  {
    seq(n, i => Push(i, i * cfg.frameMs, payload))
  }

  /** Held are exactly the packets 0 to n - 1, and 0 is the head. */
  ghost predicate HoldsFirst(s: Jitter, n: nat) {
    (forall k :: k in s.buf <==> 0 <= k < n) && if n == 0 then s.next.None? else s.next == Some(0)
  }

  lemma OneMoreHeld(cfg: Config, s: Jitter, n: nat, tsMs: int, payload: Payload)
    requires Inv(cfg, s) && HoldsFirst(s, n) && n <= 4 * cfg.max
    ensures HoldsFirst(Pushed(cfg, s, n, tsMs, payload), n + 1)
    ensures |Pushed(cfg, s, n, tsMs, payload).buf| == |s.buf| + 1
  {
    PushSize(cfg, s, n, tsMs, payload);
    var buf := s.buf[n := Entry(payload, tsMs)];
    assert 0 in buf && forall k :: k in buf <==> 0 <= k < n + 1;
    assert IsLowest(buf, 0);
  }

  /** Nothing is evicted from a burst as long as it does not reach the jump. */
  lemma {:induction false} BurstHeld(cfg: Config, n: nat, payload: Payload)
    requires cfg.Sane() && n <= 4 * cfg.max + 1
    ensures var s := After(cfg, Burst(cfg, n, payload)); |s.buf| == n && HoldsFirst(s, n)
  {
    if n == 0 {
    } else {
      BurstHeld(cfg, n - 1, payload);
      assert Burst(cfg, n, payload)[..n - 1] == Burst(cfg, n - 1, payload);
      ReachableInv(cfg, Burst(cfg, n - 1, payload));
      OneMoreHeld(cfg, After(cfg, Burst(cfg, n - 1, payload)), n - 1, (n - 1) * cfg.frameMs, payload);
    }
  }

  /** The numbers of frames that can be held: all up to 4 * max + 1, and no others. */
  lemma ReachableSizes(cfg: Config, n: nat, payload: Payload)
    requires cfg.Sane()
    ensures n <= 4 * cfg.max + 1 <==> exists evs :: |After(cfg, evs).buf| == n
  {
    if n <= 4 * cfg.max + 1 {
      BurstHeld(cfg, n, payload);
      assert |After(cfg, Burst(cfg, n, payload)).buf| == n;
    }
    forall evs
      ensures |After(cfg, evs).buf| <= 4 * cfg.max + 1
    {
      ReachableInv(cfg, evs);
    }
  }

  /** Where the head is after a packet that is not late: at that packet if it jumps, at the lowest packet
      held if the limit is exceeded, and otherwise where it was. So an overfull buffer never waits for a
      missing head. */
  lemma HeadAfterPush(cfg: Config, s: Jitter, seqNo: int, tsMs: int, payload: Payload)
    requires Inv(cfg, s) && !Late(s, seqNo)
    ensures var s' := Pushed(cfg, s, seqNo, tsMs, payload);
            s'.next.Some? &&
            if Jumps(cfg, s, seqNo) then s'.next.value == seqNo
            else if |s'.buf| > cfg.max then IsLowest(s'.buf, s'.next.value)
            else s'.next.value == if s.next.Some? then s.next.value else seqNo
  {
  }

  // ---- every position is played once or skipped once --------------------------------------------------

  function Range(lo: int, hi: int): (ks: set<int>)
    ensures forall k :: k in ks <==> lo <= k < hi
    decreases hi - lo
  {
    if lo >= hi then {} else Range(lo, hi - 1) + {hi - 1}
  }

  lemma {:induction false} RangeSize(lo: int, hi: int)
    requires lo <= hi
    ensures |Range(lo, hi)| == hi - lo
    decreases hi - lo
  {
    if lo < hi {
      RangeSize(lo, hi - 1);
    }
  }

  /** The positions a push passes over without playing them. */
  ghost function SkippedBy(cfg: Config, s: Jitter, e: Event): set<int>
    requires cfg.Sane()
  {
    var s' := Step(cfg, s, e);
    if e.Push? && s.next.Some? && s'.next.Some? then Range(s.next.value, s'.next.value) else {}
  }

  ghost function Skipped(cfg: Config, evs: seq<Event>): set<int>
    requires cfg.Sane()
  {
    if evs == [] then {}
    else Skipped(cfg, evs[..|evs| - 1]) + SkippedBy(cfg, After(cfg, evs[..|evs| - 1]), evs[|evs| - 1])
  }

  /** The sequence number of the first packet. */
  function First(evs: seq<Event>): Option<int> {
    if evs == [] then None else if evs[0].Push? then Some(evs[0].seqNo) else First(evs[1..])
  }

  lemma {:induction false} FirstOfPrefix(evs: seq<Event>)
    requires evs != []
    ensures First(evs) ==
            var init, last := First(evs[..|evs| - 1]), evs[|evs| - 1];
            if init.Some? then init else if last.Push? then Some(last.seqNo) else None
  {
    if |evs| > 1 && !evs[0].Push? {
      FirstOfPrefix(evs[1..]);
      assert evs[1..][..|evs| - 2] == evs[..|evs| - 1][1..];
    } else if |evs| > 1 {
      assert evs[..|evs| - 1][0] == evs[0];
    }
  }

  /** Positions from the first packet to the playout head: played strictly in order, or skipped. */
  ghost predicate Accounted(first: int, next: int, outs: seq<Out>, skipped: set<int>) {
    && first <= next
    && (forall i, j :: 0 <= i < j < |outs| ==> outs[i].seqNo < outs[j].seqNo)
    && (forall i :: 0 <= i < |outs| ==> first <= outs[i].seqNo < next && outs[i].seqNo !in skipped)
    && (forall k :: k in skipped ==> first <= k < next)
    && |outs| + |skipped| == next - first
  }

  lemma PlayNext(first: int, next: int, outs: seq<Out>, skipped: set<int>, o: Out)
    requires Accounted(first, next, outs, skipped) && o.seqNo == next
    ensures Accounted(first, next + 1, outs + [o], skipped)
  {
  }

  lemma SkipTo(first: int, next: int, outs: seq<Out>, skipped: set<int>, next': int)
    requires Accounted(first, next, outs, skipped) && next <= next'
    ensures Accounted(first, next', outs, skipped + Range(next, next'))
  {
    RangeSize(next, next');
    assert skipped !! Range(next, next');
    assert |skipped + Range(next, next')| == |skipped| + |Range(next, next')|;
  }

  function CountConcealed(outs: seq<Out>): nat {
    if outs == [] then 0 else CountConcealed(outs[..|outs| - 1]) + (if outs[|outs| - 1].Concealed? then 1 else 0)
  }

  lemma CountOneMore(outs: seq<Out>, o: Out)
    ensures CountConcealed(outs + [o]) == CountConcealed(outs) + (if o.Concealed? then 1 else 0)
  {
    assert (outs + [o])[..|outs|] == outs;
  }

  /** Playout so far, given as the head and the two ledgers, and the code's own counter. */
  ghost predicate Playout(first: Option<int>, next: Option<int>, outs: seq<Out>, skipped: set<int>, concealed: int) {
    && (first.Some? <==> next.Some?)
    && (first.Some? ==> Accounted(first.value, next.value, outs, skipped))
    && (first.None? ==> outs == [] && skipped == {})
    && concealed == CountConcealed(outs)
  }

  /** Over any interleaving: outputs have strictly increasing sequence numbers, and every position
      from the first packet to the playout head was played once, really or concealed, or skipped
      once by a jump or an overflow. */
  lemma {:induction false} PlayoutAccounted(cfg: Config, evs: seq<Event>)
    requires cfg.Sane()
    ensures Playout(First(evs), After(cfg, evs).next, Outs(cfg, evs), Skipped(cfg, evs), After(cfg, evs).concealed)
  {
    if evs == [] {
    } else {
      var init, e := evs[..|evs| - 1], evs[|evs| - 1];
      PlayoutAccounted(cfg, init);
      FirstOfPrefix(evs);
      ReachableInv(cfg, init);
      var s := After(cfg, init);
      NextMoves(cfg, s, e);
      PlayoutStep(First(init), s, e, Step(cfg, s, e), Emitted(cfg, s, e), Outs(cfg, init), Skipped(cfg, init));
    }
  }

  lemma PlayoutStep(first: Option<int>, s: Jitter, e: Event, s': Jitter, out: seq<Out>, outs: seq<Out>, skipped: set<int>)
    requires Playout(first, s.next, outs, skipped, s.concealed) && Moves(s, e, s', out)
    ensures Playout(if first.Some? then first else if e.Push? then Some(e.seqNo) else None, s'.next, outs + out,
              skipped + (if e.Push? && s.next.Some? then Range(s.next.value, s'.next.value) else {}), s'.concealed)
  {
    if s.next.Some? {
      if out != [] {
        PlayNext(first.value, s.next.value, outs, skipped, out[0]);
        CountOneMore(outs, out[0]);
      } else {
        SkipTo(first.value, s.next.value, outs, skipped, s'.next.value);
        assert outs + out == outs;
        assert !e.Push? ==> skipped + Range(s.next.value, s'.next.value) == skipped + {};
      }
      assert out != [] ==> skipped + {} == skipped && out == [out[0]];
    }
  }

  /** How one event moves the playout head. */
  ghost predicate Moves(s: Jitter, e: Event, s': Jitter, out: seq<Out>) {
    && |out| <= 1 && (e.Push? ==> out == [])
    && (s.next.Some? ==>
          s'.next.Some? && s.next.value <= s'.next.value
          && (out != [] ==> out[0].seqNo == s.next.value && s'.next.value == s.next.value + 1)
          && (!e.Push? && out == [] ==> s'.next == s.next))
    && (s.next.None? ==> out == [] && s'.next == if e.Push? then Some(e.seqNo) else None)
    && s'.concealed == s.concealed + (if out != [] && out[0].Concealed? then 1 else 0)
  }

  lemma NextMoves(cfg: Config, s: Jitter, e: Event)
    requires Inv(cfg, s)
    ensures Moves(s, e, Step(cfg, s, e), Emitted(cfg, s, e))
  {
    if e.Push? && s.next.None? {
      assert s.buf[e.seqNo := Entry(e.payload, e.tsMs)] == map[e.seqNo := Entry(e.payload, e.tsMs)];
    }
  }

  // ---- what is played is what was pushed -----------------------------------------------------------------

  /** The packet pushed last under a sequence number. */
  function LastPushed(evs: seq<Event>, seqNo: int): Option<Entry> {
    if evs == [] then None
    else
      var e := evs[|evs| - 1];
      if e.Push? && e.seqNo == seqNo then Some(Entry(e.payload, e.tsMs))
      else LastPushed(evs[..|evs| - 1], seqNo)
  }

  lemma {:induction false} BufferIsLastPushed(cfg: Config, evs: seq<Event>)
    requires cfg.Sane()
    ensures forall k :: k in After(cfg, evs).buf ==> LastPushed(evs, k) == Some(After(cfg, evs).buf[k])
  {
    if evs == [] {
    } else {
      var init, e := evs[..|evs| - 1], evs[|evs| - 1];
      BufferIsLastPushed(cfg, init);
      ReachableInv(cfg, init);
      var s, s' := After(cfg, init), After(cfg, evs);
      forall k | k in s'.buf
        ensures LastPushed(evs, k) == Some(s'.buf[k])
      {
        if e.Push? && Late(s, e.seqNo) {
          assert k != e.seqNo;
        }
      }
    }
  }

  /** A real output carries the packet that was last pushed under its sequence number. */
  lemma RealIsLastPushed(cfg: Config, evs: seq<Event>, nowMs: int)
    requires cfg.Sane()
    ensures var out := Pulled(cfg, After(cfg, evs), nowMs).1;
            out.Some? && out.value.Real? ==>
              LastPushed(evs, out.value.seqNo) == Some(Entry(out.value.payload, out.value.tsMs))
  {
    BufferIsLastPushed(cfg, evs);
  }

  /** Every packet pushed at or ahead of the head is still buffered. */
  lemma {:induction false} PushedIsBuffered(cfg: Config, evs: seq<Event>, k: int)
    requires cfg.Sane() && After(cfg, evs).next.Some? && k >= After(cfg, evs).next.value
    ensures LastPushed(evs, k).Some? <==> k in After(cfg, evs).buf
  {
    if evs == [] {
    } else {
      var init, e := evs[..|evs| - 1], evs[|evs| - 1];
      ReachableInv(cfg, init);
      var s := After(cfg, init);
      BufferIsLastPushed(cfg, evs);
      NextMoves(cfg, s, e);
      if s.next.Some? {
        PushedIsBuffered(cfg, init, k);
        AheadIsKept(cfg, s, e, k);
      } else {
        NothingPushed(cfg, init, k);
      }
    }
  }

  lemma AheadIsKept(cfg: Config, s: Jitter, e: Event, k: int)
    requires Inv(cfg, s) && Step(cfg, s, e).next.Some? && k >= Step(cfg, s, e).next.value
    ensures k in Step(cfg, s, e).buf <==> k in s.buf || (e.Push? && e.seqNo == k)
  {
    if e.Push? && !Late(s, e.seqNo) {
      StoreKeepsAhead(cfg, Observe(cfg, s, e.seqNo, e.tsMs), e.seqNo, Entry(e.payload, e.tsMs), k);
    }
  }

  lemma StoreKeepsAhead(cfg: Config, s: Jitter, seqNo: int, e: Entry, k: int)
    requires Store(cfg, s, seqNo, e).next.Some? && k >= Store(cfg, s, seqNo, e).next.value
    ensures k in Store(cfg, s, seqNo, e).buf <==> k in s.buf || k == seqNo
  {
  }

  lemma {:induction false} NothingPushed(cfg: Config, evs: seq<Event>, k: int)
    requires cfg.Sane() && After(cfg, evs).next.None?
    ensures LastPushed(evs, k).None?
  {
    if evs == [] {
    } else {
      var init, e := evs[..|evs| - 1], evs[|evs| - 1];
      ReachableInv(cfg, init);
      NextMoves(cfg, After(cfg, init), e);
      NothingPushed(cfg, init, k);
    }
  }

  /** Whatever is played, real or concealed, is the position at the head; it is concealed only if no
      packet of that number was ever pushed, and real, as it was pushed last, otherwise. */
  lemma ConcealedWasNeverPushed(cfg: Config, evs: seq<Event>, nowMs: int)
    requires cfg.Sane()
    ensures var s, out := After(cfg, evs), Pulled(cfg, After(cfg, evs), nowMs).1;
            out.Some? ==>
              && s.next == Some(out.value.seqNo)
              && (out.value.Concealed? <==> LastPushed(evs, out.value.seqNo).None?)
  {
    var s, out := After(cfg, evs), Pulled(cfg, After(cfg, evs), nowMs).1;
    if out.Some? {
      PushedIsBuffered(cfg, evs, s.next.value);
    }
  }

  // ---- every frame is accounted for --------------------------------------------------------------------------

  function Pushes(evs: seq<Event>): nat {
    if evs == [] then 0 else Pushes(evs[..|evs| - 1]) + (if evs[|evs| - 1].Push? then 1 else 0)
  }

  /** Pushes that replaced a frame still waiting under the same sequence number. */
  ghost function Overwritten(cfg: Config, evs: seq<Event>): nat
    requires cfg.Sane()
  {
    if evs == [] then 0
    else
      var s, e := After(cfg, evs[..|evs| - 1]), evs[|evs| - 1];
      Overwritten(cfg, evs[..|evs| - 1]) + (if e.Push? && e.seqNo in s.buf then 1 else 0)
  }

  /** Positions an overflow skipped; the code counts these into droppedLate as well. */
  ghost function OverflowSkips(cfg: Config, evs: seq<Event>): int
    requires cfg.Sane()
  {
    if evs == [] then 0
    else
      var s, e := After(cfg, evs[..|evs| - 1]), evs[|evs| - 1];
      OverflowSkips(cfg, evs[..|evs| - 1]) +
        (if e.Push? && s.next.Some? && !Jumps(cfg, s, e.seqNo)
         then Step(cfg, s, e).next.value - s.next.value else 0)
  }

  /** Conservation: every frame pushed was dropped (late, or evicted by a jump), overwritten,
      played, or is still buffered; droppedLate counts the dropped frames and the positions
      overflow skipped, nothing else. */
  lemma {:induction false} FramesConserved(cfg: Config, evs: seq<Event>)
    requires cfg.Sane()
    ensures var s, outs := After(cfg, evs), Outs(cfg, evs);
            Pushes(evs) + OverflowSkips(cfg, evs) ==
              s.droppedLate + Overwritten(cfg, evs) + (|outs| - CountConcealed(outs)) + |s.buf|
  {
    if evs == [] {
    } else {
      var init, e := evs[..|evs| - 1], evs[|evs| - 1];
      FramesConserved(cfg, init);
      ReachableInv(cfg, init);
      var s := After(cfg, init);
      NextMoves(cfg, s, e);
      assert Emitted(cfg, s, e) == [] ==> Outs(cfg, evs) == Outs(cfg, init);
      if e.Push? {
        PushConserves(cfg, s, e.seqNo, e.tsMs, e.payload);
      } else if Emitted(cfg, s, e) != [] {
        CountOneMore(Outs(cfg, init), Emitted(cfg, s, e)[0]);
        PullConserves(cfg, s, e.nowMs);
      }
    }
  }

  lemma PushConserves(cfg: Config, s: Jitter, seqNo: int, tsMs: int, payload: Payload)
    requires Inv(cfg, s)
    ensures var s' := Pushed(cfg, s, seqNo, tsMs, payload);
            s'.next.Some? &&
            1 + (if s.next.Some? && !Jumps(cfg, s, seqNo) then s'.next.value - s.next.value else 0) ==
              s'.droppedLate - s.droppedLate + (if seqNo in s.buf then 1 else 0) + |s'.buf| - |s.buf|
  {
    if Jumps(cfg, s, seqNo) {
      JumpLeavesOnlyNewest(cfg, s, seqNo, tsMs, payload);
    } else if !Late(s, seqNo) {
      StoreConserves(cfg, Observe(cfg, s, seqNo, tsMs), seqNo, Entry(payload, tsMs));
    }
  }

  lemma StoreConserves(cfg: Config, s: Jitter, seqNo: int, e: Entry)
    requires cfg.Sane() && !Late(s, seqNo) && (s.next.None? ==> s.buf == map[])
    requires !Jumps(cfg, s, seqNo) && (s.next.Some? ==> InWindow(cfg, s))
    ensures var s' := Store(cfg, s, seqNo, e);
            s'.next.Some? &&
            1 + (if s.next.Some? then s'.next.value - s.next.value else 0) ==
              s'.droppedLate - s.droppedLate + (if seqNo in s.buf then 1 else 0) + |s'.buf| - |s.buf|
  {
    var buf := s.buf[seqNo := e];
    AddKey(s.buf, seqNo, e);
    if s.next.None? {
      assert buf == map[seqNo := e];
    }
  }

  lemma PullConserves(cfg: Config, s: Jitter, nowMs: int)
    requires Pulled(cfg, s, nowMs).1.Some?
    ensures var (s', out) := Pulled(cfg, s, nowMs);
            s'.droppedLate == s.droppedLate && |s'.buf| == |s.buf| - (if out.value.Real? then 1 else 0)
  {
    var n := s.next.value;
    if n in s.buf {
      RemoveKey(s.buf, n);
    }
  }

  // ---- what the loss counter means --------------------------------------------------------------------------------

  /** Sequence numbers accepted, that is, not late when they came. */
  ghost function Accepted(cfg: Config, evs: seq<Event>): set<int>
    requires cfg.Sane()
  {
    if evs == [] then {}
    else
      var e := evs[|evs| - 1];
      Accepted(cfg, evs[..|evs| - 1]) +
        (if e.Push? && !Late(After(cfg, evs[..|evs| - 1]), e.seqNo) then {e.seqNo} else {})
  }

  /** The highest sequence number accepted. */
  ghost function Highest(cfg: Config, evs: seq<Event>): int
    requires cfg.Sane() && First(evs).Some?
  {
    FirstOfPrefix(evs);
    var init, e := evs[..|evs| - 1], evs[|evs| - 1];
    if First(init).None? then e.seqNo
    else if e.Push? && !Late(After(cfg, init), e.seqNo) then Max(Highest(cfg, init), e.seqNo)
    else Highest(cfg, init)
  }

  /** Never accepted, and strictly between the first and the highest accepted. */
  ghost function Missing(cfg: Config, evs: seq<Event>): set<int>
    requires cfg.Sane()
  {
    if First(evs).None? then {} else MissingFrom(First(evs).value, Highest(cfg, evs), Accepted(cfg, evs))
  }

  /** Accepted packets came in strictly increasing order. */
  ghost predicate InOrder(cfg: Config, evs: seq<Event>)
    requires cfg.Sane()
  {
    evs != [] ==>
      var s, e := After(cfg, evs[..|evs| - 1]), evs[|evs| - 1];
      InOrder(cfg, evs[..|evs| - 1]) &&
      (e.Push? && !Late(s, e.seqNo) && s.prevSeq.Some? ==> s.prevSeq.value < e.seqNo)
  }

  lemma {:induction false} NoPacketsYet(cfg: Config, evs: seq<Event>)
    requires cfg.Sane() && First(evs).None?
    ensures Accepted(cfg, evs) == {} && After(cfg, evs).lost == 0
  {
    if evs == [] {
    } else {
      FirstOfPrefix(evs);
      NoPacketsYet(cfg, evs[..|evs| - 1]);
    }
  }

  /** The packets never accepted strictly between the first and the highest accepted one. */
  function MissingFrom(first: int, hi: int, accepted: set<int>): set<int> {
    Range(first, hi) - accepted
  }

  /** How the loss counter and the last accepted packet relate to the accepted packets. */
  predicate Tracked(first: int, hi: int, accepted: set<int>, inOrder: bool, prevSeq: int, lost: int) {
    && first in accepted && hi in accepted && prevSeq in accepted
    && (forall k :: k in accepted ==> first <= k <= hi)
    && lost >= |MissingFrom(first, hi, accepted)|
    && (inOrder ==> prevSeq == hi && lost == |MissingFrom(first, hi, accepted)|)
  }

  lemma AcceptOne(first: int, hi: int, accepted: set<int>, inOrder: bool, prevSeq: int, lost: int, seqNo: int)
    requires Tracked(first, hi, accepted, inOrder, prevSeq, lost) && first <= seqNo
    ensures Tracked(first, Max(hi, seqNo), accepted + {seqNo}, inOrder && prevSeq < seqNo, seqNo,
                    lost + (if seqNo > prevSeq then seqNo - prevSeq - 1 else 0))
  {
    MissingGrowth(first, hi, accepted, seqNo);
  }

  lemma LostByPush(cfg: Config, s: Jitter, seqNo: int, tsMs: int, payload: Payload)
    requires cfg.Sane() && !Late(s, seqNo)
    ensures var s' := Pushed(cfg, s, seqNo, tsMs, payload);
            s'.prevSeq == Some(seqNo) &&
            s'.lost == s.lost + (if s.prevSeq.Some? && seqNo > s.prevSeq.value then seqNo - s.prevSeq.value - 1 else 0)
  {
  }

  /** How accepting one more packet changes the set of missing ones. */
  lemma MissingGrowth(first: int, hi: int, accepted: set<int>, seqNo: int)
    requires first <= hi && first <= seqNo && hi in accepted && (forall k :: k in accepted ==> first <= k <= hi)
    ensures var missing, missing' := MissingFrom(first, hi, accepted), MissingFrom(first, Max(hi, seqNo), accepted + {seqNo});
            if seqNo > hi then |missing'| == |missing| + (seqNo - hi - 1) else |missing'| <= |missing|
  {
    var missing, missing' := MissingFrom(first, hi, accepted), MissingFrom(first, Max(hi, seqNo), accepted + {seqNo});
    if seqNo > hi {
      var more := Range(hi + 1, seqNo);
      RangeSize(hi + 1, seqNo);
      assert forall k :: k in missing' <==> k in missing || k in more;
      assert missing' == missing + more && missing !! more;
      assert |missing + more| == |missing| + |more|;
    } else {
      assert missing' <= missing;
      SubsetSize(missing', missing);
    }
  }

  lemma SubsetSize(a: set<int>, b: set<int>)
    requires a <= b
    ensures |a| <= |b|
  {
    assert b == a + (b - a);
    assert |b| == |a| + |b - a|;
  }

  ghost predicate LossTracked(cfg: Config, evs: seq<Event>)
    requires cfg.Sane()
  {
    if First(evs).None? then After(cfg, evs).lost == 0
    else
      && After(cfg, evs).prevSeq.Some?
      && Tracked(First(evs).value, Highest(cfg, evs), Accepted(cfg, evs), InOrder(cfg, evs),
           After(cfg, evs).prevSeq.value, After(cfg, evs).lost)
  }

  lemma OtherStep(cfg: Config, s: Jitter, e: Event)
    requires cfg.Sane() && (!e.Push? || Late(s, e.seqNo))
    ensures Step(cfg, s, e).lost == s.lost && Step(cfg, s, e).prevSeq == s.prevSeq
  {
  }

  /** The first packet: accepted, with nothing missing. */
  lemma LossFirst(cfg: Config, evs: seq<Event>)
    requires cfg.Sane() && evs != [] && evs[|evs| - 1].Push? && First(evs[..|evs| - 1]).None?
    ensures LossTracked(cfg, evs)
  {
    var init, e := evs[..|evs| - 1], evs[|evs| - 1];
    FirstOfPrefix(evs);
    NoPacketsYet(cfg, init);
    PlayoutAccounted(cfg, init);
    ReachableInv(cfg, init);
    LostByPush(cfg, After(cfg, init), e.seqNo, e.tsMs, e.payload);
    assert Accepted(cfg, evs) == {e.seqNo};
    assert MissingFrom(e.seqNo, e.seqNo, {e.seqNo}) == {};
  }

  lemma LossAccepted(cfg: Config, evs: seq<Event>)
    requires cfg.Sane() && evs != [] && LossTracked(cfg, evs[..|evs| - 1]) && First(evs[..|evs| - 1]).Some?
    requires evs[|evs| - 1].Push? && !Late(After(cfg, evs[..|evs| - 1]), evs[|evs| - 1].seqNo)
    ensures LossTracked(cfg, evs)
  {
    var init, e := evs[..|evs| - 1], evs[|evs| - 1];
    var s := After(cfg, init);
    FirstOfPrefix(evs);
    PlayoutAccounted(cfg, init);
    LostByPush(cfg, s, e.seqNo, e.tsMs, e.payload);
    AcceptOne(First(init).value, Highest(cfg, init), Accepted(cfg, init), InOrder(cfg, init), s.prevSeq.value, s.lost, e.seqNo);
  }

  lemma LossUntouched(cfg: Config, evs: seq<Event>)
    requires cfg.Sane() && evs != [] && LossTracked(cfg, evs[..|evs| - 1])
    requires var e := evs[|evs| - 1];
             !e.Push? || (Late(After(cfg, evs[..|evs| - 1]), e.seqNo) && First(evs[..|evs| - 1]).Some?)
    ensures LossTracked(cfg, evs)
  {
    var init, e := evs[..|evs| - 1], evs[|evs| - 1];
    FirstOfPrefix(evs);
    OtherStep(cfg, After(cfg, init), e);
    assert Accepted(cfg, evs) == Accepted(cfg, init);
  }

  lemma {:induction false} LossIsTracked(cfg: Config, evs: seq<Event>)
    requires cfg.Sane()
    ensures LossTracked(cfg, evs)
  {
    if evs == [] {
    } else {
      var init, e := evs[..|evs| - 1], evs[|evs| - 1];
      LossIsTracked(cfg, init);
      PlayoutAccounted(cfg, init);
      if !e.Push? || (Late(After(cfg, init), e.seqNo) && First(init).Some?) {
        LossUntouched(cfg, evs);
      } else if First(init).Some? {
        LossAccepted(cfg, evs);
      } else {
        LossFirst(cfg, evs);
      }
    }
  }

  /** The loss counter never under-reports: under any reordering it is at least the number of
      packets never accepted between the first and the highest accepted one; and it is exactly
      that number when packets were accepted in increasing order. */
  lemma LostNeverUnderReports(cfg: Config, evs: seq<Event>)
    requires cfg.Sane()
    ensures After(cfg, evs).lost >= |Missing(cfg, evs)|
    ensures InOrder(cfg, evs) ==> After(cfg, evs).lost == |Missing(cfg, evs)|
  {
    LossIsTracked(cfg, evs);
  }
}
