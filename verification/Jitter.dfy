/** The adaptive jitter buffer (transport/adaptive-jitter.js, Ajb.java): as a value with one
    function per operation, and as the object whose methods update its fields. */
module Jitter {
  import opened Bytes
  import opened Maps

  /** A stored frame is opaque to the buffer; the media path stores a kind and its Opus bytes. */
  datatype Payload = Payload(kind: byte, opus: Bytes)

  datatype Entry = Entry(payload: Payload, tsMs: int)

  /** What pull returns: a frame, or the marker that asks the decoder to conceal a loss. */
  datatype Out =
    | Real(seqNo: int, payload: Payload, tsMs: int)
    | Concealed(seqNo: int)

  datatype Config = Config(baseline: int, max: int, frameMs: int, maxHoldMs: int, reholdMs: int)
  {
    /** Frames last some time, and the frame limit is not negative. */
    predicate Sane() {
      frameMs > 0 && max >= 0
    }
  }

  const DEFAULT_CONFIG := Config(6, 60, 20, 80, 100)

  datatype Jitter = Jitter(
    buf: map<int, Entry>, next: Option<int>, target: int, started: bool,
    prevTsMs: Option<int>, prevSeq: Option<int>,
    ewmaJitterMs: real, lossPenalty: int, lossTimer: int,
    waitingSince: int, waitingForLate: map<int, int>,
    lost: int, concealed: int, droppedLate: int)

  function Initial(cfg: Config): Jitter {
    Jitter(map[], None, cfg.baseline, false, None, None, 0.0, 0, 0, 0, map[], 0, 0, 0)
  }

  function Abs(x: int): nat {
    if x < 0 then -x else x
  }

  function Max(x: int, y: int): int {
    if x < y then y else x
  }

  function Min(x: int, y: int): int {
    if x < y then x else y
  }

  function Ceil(x: real): int {
    -((-x).Floor)
  }

  // ---- push -----------------------------------------------------------------------------------

  /** How far the spacing to the previous packet is from its nominal spacing. */
  function Spike(cfg: Config, prevTsMs: int, prevSeq: int, seqNo: int, tsMs: int): real {
    Abs((tsMs - prevTsMs) - (seqNo - prevSeq) * cfg.frameMs) as real
  }

  function Smooth(ewma: real, spike: real): real {
    if ewma == 0.0 then spike else 0.75 * ewma + 0.25 * spike
  }

  /** The statistics an accepted packet contributes to. */
  function Observe(cfg: Config, s: Jitter, seqNo: int, tsMs: int): Jitter {
    var newer := s.prevSeq.Some? && seqNo > s.prevSeq.value;
    var ewma :=
      if newer && s.prevTsMs.Some?
      then Smooth(s.ewmaJitterMs, Spike(cfg, s.prevTsMs.value, s.prevSeq.value, seqNo, tsMs))
      else s.ewmaJitterMs;
    var skipped := if newer then seqNo - s.prevSeq.value - 1 else 0;
    s.(ewmaJitterMs := ewma,
       lost := s.lost + skipped,
       lossPenalty := if skipped > 0 then Min(10, s.lossPenalty + skipped) else s.lossPenalty,
       lossTimer := if skipped > 0 then 500 else s.lossTimer,
       prevTsMs := Some(tsMs), prevSeq := Some(seqNo))
  }

  ghost predicate IsLowest(buf: map<int, Entry>, k: int) {
    k in buf && forall j :: j in buf ==> k <= j
  }

  lemma {:induction false} LowestExists(buf: map<int, Entry>)
    requires buf != map[]
    ensures exists k :: IsLowest(buf, k)
    decreases |buf|
  {
    assert (forall k :: k !in buf) ==> buf == map[];
    var k :| k in buf;
    var rest := buf - {k};
    assert rest.Keys == buf.Keys - {k};
    assert forall j :: j in buf && j != k ==> j in rest;
    if rest == map[] {
      assert IsLowest(buf, k);
    } else {
      LowestExists(rest);
      var m :| IsLowest(rest, m);
      assert IsLowest(buf, if k < m then k else m);
    }
  }

  ghost function Lowest(buf: map<int, Entry>): (k: int)
    requires buf != map[]
    ensures IsLowest(buf, k)
  {
    LowestExists(buf);
    var k :| IsLowest(buf, k);
    k
  }

  /** Keep the packet, then bound the buffer. */
  ghost function Store(cfg: Config, s: Jitter, seqNo: int, e: Entry): Jitter {
    var next := if s.next.None? then seqNo else s.next.value;
    Bounded(cfg, s.(buf := s.buf[seqNo := e], next := Some(next)), seqNo)
  }

  /** Jump to the live edge, or skip a missing head, or neither. */
  ghost function Bounded(cfg: Config, s: Jitter, seqNo: int): Jitter
    requires s.next.Some? && seqNo in s.buf
  {
    if seqNo - s.next.value > cfg.max * 4 then
      s.(buf := map k | k in s.buf && k >= seqNo :: s.buf[k], next := Some(seqNo), started := false,
         waitingForLate := map[], droppedLate := s.droppedLate + Max(0, |s.buf| - 1))
    else if |s.buf| > cfg.max then
      assert s.buf != map[];
      s.(next := Some(Lowest(s.buf)), waitingForLate := map[],
         droppedLate := s.droppedLate + Max(0, Lowest(s.buf) - s.next.value))
    else s
  }

  function Target(cfg: Config, ewma: real, lossPenalty: int): int
    requires cfg.Sane()
  {
    Min(cfg.max, cfg.baseline + Ceil(ewma / cfg.frameMs as real) + lossPenalty)
  }

  /** So far ahead of the head that playout jumps to it. */
  predicate Jumps(cfg: Config, s: Jitter, seqNo: int) {
    s.next.Some? && seqNo - s.next.value > 4 * cfg.max
  }

  predicate Late(s: Jitter, seqNo: int) {
    s.next.Some? && seqNo < s.next.value
  }

  ghost function Pushed(cfg: Config, s: Jitter, seqNo: int, tsMs: int, payload: Payload): Jitter
    requires cfg.Sane()
  {
    if Late(s, seqNo) then s.(droppedLate := s.droppedLate + 1)
    else
      var stored := Store(cfg, Observe(cfg, s, seqNo, tsMs), seqNo, Entry(payload, tsMs));
      stored.(target := Target(cfg, stored.ewmaJitterMs, stored.lossPenalty))
  }

  // ---- pull -----------------------------------------------------------------------------------

  /** As many frames in a row as the target asks for are buffered from the head on. */
  predicate Primed(s: Jitter)
    requires s.next.Some?
  {
    forall k :: s.next.value <= k < s.next.value + s.target ==> k in s.buf
  }

  /** A start still waiting for its pre-buffer: too shallow, and the hold is not over. */
  predicate Gated(cfg: Config, s: Jitter, nowMs: int)
    requires s.next.Some?
  {
    !s.started && !Primed(s) &&
    nowMs - (if s.waitingSince == 0 then nowMs else s.waitingSince) < cfg.reholdMs
  }

  function Waited(cfg: Config, s: Jitter, n: int): int {
    (if n in s.waitingForLate then s.waitingForLate[n] else 0) + cfg.frameMs
  }

  function Pulled(cfg: Config, s: Jitter, nowMs: int): (Jitter, Option<Out>) {
    if s.next.None? then (s, None)
    else
      var n := s.next.value;
      if n in s.buf then
        if Gated(cfg, s, nowMs) then
          (s.(waitingSince := if s.waitingSince == 0 then nowMs else s.waitingSince), None)
        else
          (s.(buf := s.buf - {n}, waitingForLate := s.waitingForLate - {n}, next := Some(n + 1),
              waitingSince := if s.started then s.waitingSince else 0, started := true),
           Some(Real(n, s.buf[n].payload, s.buf[n].tsMs)))
      else if Waited(cfg, s, n) <= cfg.maxHoldMs then
        (s.(waitingForLate := s.waitingForLate[n := Waited(cfg, s, n)]), None)
      else
        (s.(waitingForLate := s.waitingForLate - {n}, waitingSince := 0, started := true,
            next := Some(n + 1), concealed := s.concealed + 1),
         Some(Concealed(n)))
  }

  /** Once a second: the loss penalty ends when its timer runs out. */
  function Ticked(s: Jitter): Jitter {
    if s.lossTimer > 0 then
      s.(lossTimer := s.lossTimer - 1000, lossPenalty := if s.lossTimer <= 1000 then 0 else s.lossPenalty)
    else s
  }

  // ---- the invariant ----------------------------------------------------------------------------

  /** Nothing but the head is being waited for. */
  predicate WaitsForHead(s: Jitter) {
    forall k :: k in s.waitingForLate ==> s.next == Some(k) && s.waitingForLate[k] >= 0
  }

  predicate InWindow(cfg: Config, s: Jitter)
    requires s.next.Some?
  {
    var n := s.next.value;
    && (forall k :: k in s.buf ==> n <= k <= n + 4 * cfg.max)
    && (!s.started ==> n in s.buf)
  }

  /** Every state a run reaches: buffered frames lie in the 4 * max + 1 positions from the head on,
      only the head can be waited for, an unstarted buffer holds its head, and a started one is not
      in a hold. */
  ghost predicate Inv(cfg: Config, s: Jitter) {
    && cfg.Sane()
    && (s.prevSeq.Some? <==> s.next.Some?) && (s.prevTsMs.Some? <==> s.next.Some?)
    && WaitsForHead(s)
    && (s.started ==> s.waitingSince == 0)
    && s.ewmaJitterMs >= 0.0 && 0 <= s.lossPenalty <= 10 && (s.lossPenalty > 0 ==> s.lossTimer == 500)
    && (s.next.None? ==> s.buf == map[])
    && (s.next.Some? ==> InWindow(cfg, s))
  }

  lemma PushKeepsInv(cfg: Config, s: Jitter, seqNo: int, tsMs: int, payload: Payload)
    requires Inv(cfg, s)
    ensures Inv(cfg, Pushed(cfg, s, seqNo, tsMs, payload))
  {
    if !Late(s, seqNo) {
      var o, e := Observe(cfg, s, seqNo, tsMs), Entry(payload, tsMs);
      StoreKeepsWindow(cfg, o, seqNo, e);
    }
  }

  /** Keeping a packet that is not late keeps the buffered frames within reach of the head. */
  lemma StoreKeepsWindow(cfg: Config, s: Jitter, seqNo: int, e: Entry)
    requires cfg.Sane() && !Late(s, seqNo) && WaitsForHead(s) && (s.next.None? ==> s.buf == map[])
    requires s.next.Some? ==> InWindow(cfg, s)
    ensures var s' := Store(cfg, s, seqNo, e);
            s'.next.Some? && WaitsForHead(s') && InWindow(cfg, s') &&
            s' == s.(buf := s'.buf, next := s'.next, started := s'.started,
                     waitingForLate := s'.waitingForLate, droppedLate := s'.droppedLate)
  {
  }

  lemma PullKeepsInv(cfg: Config, s: Jitter, nowMs: int)
    requires Inv(cfg, s)
    ensures Inv(cfg, Pulled(cfg, s, nowMs).0)
  {
  }

  lemma {:induction false} IntervalSize(ks: set<int>, lo: int, n: nat)
    requires forall k :: k in ks ==> lo <= k < lo + n
    ensures |ks| <= n
    decreases n
  {
    if n > 0 {
      var last := lo + n - 1;
      IntervalSize(ks - {last}, lo, n - 1);
      assert |ks| <= |ks - {last}| + 1;
    } else {
      assert forall k :: k !in ks;
    }
  }

  /** No more than 4 * max + 1 frames are ever held. */
  lemma BufferBounded(cfg: Config, s: Jitter)
    requires Inv(cfg, s)
    ensures |s.buf| <= 4 * cfg.max + 1
  {
    if s.next.Some? {
      IntervalSize(s.buf.Keys, s.next.value, 4 * cfg.max + 1);
      assert |s.buf.Keys| == |s.buf|;
    }
  }

  /** A jump to the live edge leaves exactly the packet that caused it, unstarted. */
  lemma JumpLeavesOnlyNewest(cfg: Config, s: Jitter, seqNo: int, tsMs: int, payload: Payload)
    requires Inv(cfg, s) && Jumps(cfg, s, seqNo)
    ensures var s' := Pushed(cfg, s, seqNo, tsMs, payload);
            s'.buf == map[seqNo := Entry(payload, tsMs)] && s'.next == Some(seqNo) && !s'.started &&
            s'.droppedLate == s.droppedLate + |s.buf|
  {
    var e := Entry(payload, tsMs);
    var buf := s.buf[seqNo := e];
    assert seqNo !in s.buf && |buf| == |s.buf| + 1;
    assert (map k | k in buf && k >= seqNo :: buf[k]) == map[seqNo := e];
  }

  /** The exact effect of a push on the number of frames held. The overflow branch evicts nothing. */
  lemma PushSize(cfg: Config, s: Jitter, seqNo: int, tsMs: int, payload: Payload)
    requires Inv(cfg, s)
    ensures |Pushed(cfg, s, seqNo, tsMs, payload).buf| ==
            if Late(s, seqNo) then |s.buf|
            else if Jumps(cfg, s, seqNo) then 1
            else |s.buf| + (if seqNo in s.buf then 0 else 1)
  {
    if Jumps(cfg, s, seqNo) {
      JumpLeavesOnlyNewest(cfg, s, seqNo, tsMs, payload);
    } else if !Late(s, seqNo) {
      StoreSize(cfg, Observe(cfg, s, seqNo, tsMs), seqNo, Entry(payload, tsMs));
    }
  }

  lemma StoreSize(cfg: Config, s: Jitter, seqNo: int, e: Entry)
    requires !Late(s, seqNo) && !Jumps(cfg, s, seqNo) && cfg.max >= 0
    ensures |Store(cfg, s, seqNo, e).buf| == |s.buf| + (if seqNo in s.buf then 0 else 1)
  {
    AddKey(s.buf, seqNo, e);
  }

  /** When a push leaves more frames than the frame limit: a new packet that does not jump and finds
      the limit used up. A late one leaves the size alone; a jump leaves one frame. */
  lemma OverfullIff(cfg: Config, s: Jitter, seqNo: int, tsMs: int, payload: Payload)
    requires Inv(cfg, s)
    ensures |Pushed(cfg, s, seqNo, tsMs, payload).buf| > cfg.max <==>
            if Late(s, seqNo) then |s.buf| > cfg.max
            else if Jumps(cfg, s, seqNo) then cfg.max == 0
            else |s.buf| + (if seqNo in s.buf then 0 else 1) > cfg.max
  {
    PushSize(cfg, s, seqNo, tsMs, payload);
  }

  // ---- the object ---------------------------------------------------------------------------------

  class JitterBuffer {
    const cfg: Config
    var buf: map<int, Entry>
    var next: Option<int>
    var target: int
    var started: bool
    var prevTsMs: Option<int>
    var prevSeq: Option<int>
    var ewmaJitterMs: real
    var lossPenalty: int
    var lossTimer: int
    var waitingSince: int
    var waitingForLate: map<int, int>
    var lost: int
    var concealed: int
    var droppedLate: int

    ghost function State(): Jitter
      reads this
    {
      Jitter(buf, next, target, started, prevTsMs, prevSeq, ewmaJitterMs, lossPenalty, lossTimer,
        waitingSince, waitingForLate, lost, concealed, droppedLate)
    }

    constructor (cfg: Config)
      ensures this.cfg == cfg && State() == Initial(cfg)
    {
      this.cfg := cfg;
      buf, next, target, started := map[], None, cfg.baseline, false;
      prevTsMs, prevSeq, ewmaJitterMs, lossPenalty, lossTimer := None, None, 0.0, 0, 0;
      waitingSince, waitingForLate := 0, map[];
      lost, concealed, droppedLate := 0, 0, 0;
    }

    method Push(seqNo: int, tsMs: int, payload: Payload)
      requires cfg.Sane()
      modifies this
      ensures State() == Pushed(cfg, old(State()), seqNo, tsMs, payload)
    {
      if next.Some? && seqNo < next.value {
        droppedLate := droppedLate + 1;
        return;
      }
      NoteArrival(seqNo, tsMs);
      Keep(seqNo, Entry(payload, tsMs));
      var jitterFrames := Ceil(ewmaJitterMs / cfg.frameMs as real);
      target := Min(cfg.max, cfg.baseline + jitterFrames + lossPenalty);
    }

    method NoteArrival(seqNo: int, tsMs: int)
      modifies this
      ensures State() == Observe(cfg, old(State()), seqNo, tsMs)
      ensures lost >= old(lost) && (old(lossPenalty) <= 10 ==> lossPenalty == Min(10, old(lossPenalty) + (lost - old(lost))))
    {
      if prevTsMs.Some? && prevSeq.Some? && seqNo > prevSeq.value {
        var gapMs := tsMs - prevTsMs.value;
        var expected := (seqNo - prevSeq.value) * cfg.frameMs;
        var spike := Abs(gapMs - expected) as real;
        ewmaJitterMs := if ewmaJitterMs == 0.0 then spike else 0.75 * ewmaJitterMs + 0.25 * spike;
      }
      if prevSeq.Some? && seqNo > prevSeq.value + 1 {
        var skipped := seqNo - prevSeq.value - 1;
        lost := lost + skipped;
        lossPenalty := Min(10, lossPenalty + skipped);
        lossTimer := 500;
      }
      prevTsMs, prevSeq := Some(tsMs), Some(seqNo);
    }

    method Keep(seqNo: int, e: Entry)
      modifies this
      ensures State() == Store(cfg, old(State()), seqNo, e)
    {
      buf := buf[seqNo := e];
      if next.None? {
        next := Some(seqNo);
      }
      Bound(seqNo);
    }

    method Bound(seqNo: int)
      requires next.Some? && seqNo in buf
      modifies this
      ensures State() == Bounded(cfg, old(State()), seqNo)
    {
      if seqNo - next.value > cfg.max * 4 {
        droppedLate := droppedLate + Max(0, |buf| - 1);
        DeleteBelow(seqNo);
        next, started, waitingForLate := Some(seqNo), false, map[];
      } else if |buf| > cfg.max {
        var lowest := LowestKey();
        droppedLate := droppedLate + Max(0, lowest - next.value);
        next, waitingForLate := Some(lowest), map[];
      }
    }

    method DeleteBelow(seqNo: int)
      modifies `buf
      ensures buf == map k | k in old(buf) && k >= seqNo :: old(buf)[k]
    {
      var keys := buf.Keys;
      while keys != {}
        invariant keys <= buf.Keys <= old(buf).Keys
        invariant forall k :: k in buf ==> buf[k] == old(buf)[k]
        invariant forall k :: k in old(buf) && k !in keys ==> (k in buf <==> k >= seqNo)
      {
        assert (forall k :: k !in keys) ==> keys == {};
        var k :| k in keys;
        keys := keys - {k};
        if k < seqNo {
          buf := buf - {k};
        }
      }
      assert forall k :: k in buf <==> k in old(buf) && k >= seqNo;
    }

    method LowestKey() returns (lowest: int)
      requires buf != map[]
      ensures lowest == Lowest(buf)
    {
      var keys := buf.Keys;
      assert (forall k :: k !in buf) ==> buf == map[];
      lowest :| lowest in keys;
      keys := keys - {lowest};
      while keys != {}
        invariant keys <= buf.Keys && lowest in buf
        invariant forall k :: k in buf && k !in keys ==> lowest <= k
      {
        assert (forall k :: k !in keys) ==> keys == {};
        var k :| k in keys;
        keys := keys - {k};
        if k < lowest {
          lowest := k;
        }
      }
    }

    method RunAhead(n: int) returns (depth: nat)
      ensures forall k :: n <= k < n + depth ==> k in buf
      ensures n + depth !in buf
    {
      depth := 0;
      ghost var rest := buf.Keys;
      while n + depth in buf
        invariant forall k :: n <= k < n + depth ==> k in buf
        invariant forall k :: k in rest <==> k in buf && !(n <= k < n + depth)
        decreases rest
      {
        rest := rest - {n + depth};
        depth := depth + 1;
      }
    }

    method Pull(nowMs: int) returns (out: Option<Out>)
      modifies this
      ensures (State(), out) == Pulled(cfg, old(State()), nowMs)
    {
      if next.None? {
        return None;
      }
      var n := next.value;
      if n in buf {
        var cur := buf[n];
        if !started {
          var depth := RunAhead(n);
          assert depth < target <==> !Primed(State());
          if depth < target {
            if waitingSince == 0 {
              waitingSince := nowMs;
            }
            if nowMs - waitingSince < cfg.reholdMs {
              return None;
            }
          }
          waitingSince, started := 0, true;
        }
        buf := buf - {n};
        waitingForLate := waitingForLate - {n};
        next := Some(n + 1);
        return Some(Real(n, cur.payload, cur.tsMs));
      }
      var waited := (if n in waitingForLate then waitingForLate[n] else 0) + cfg.frameMs;
      waitingForLate := waitingForLate[n := waited];
      if waited <= cfg.maxHoldMs {
        return None;
      }
      waitingForLate := waitingForLate - {n};
      waitingSince, started := 0, true;
      next := Some(n + 1);
      concealed := concealed + 1;
      out := Some(Concealed(n));
      assert waitingForLate == old(waitingForLate) - {n};
    }

    method Tick()
      modifies this
      ensures State() == Ticked(old(State()))
    {
      if lossTimer > 0 {
        lossTimer := lossTimer - 1000;
        if lossTimer <= 0 {
          lossPenalty := 0;
        }
      }
    }
  }
}
