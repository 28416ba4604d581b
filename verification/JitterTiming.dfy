/** When the jitter buffer conceals, how far its target moves, and when draining it ends. */
module JitterTiming {
  import opened Bytes
  import opened Maps
  import opened Jitter
  import opened JitterRuns

  ghost function RunFrom(cfg: Config, s: Jitter, evs: seq<Event>): Jitter
    requires cfg.Sane()
    decreases |evs|
  {
    if evs == [] then s else RunFrom(cfg, Step(cfg, s, evs[0]), evs[1..])
  }

  function Pulls(evs: seq<Event>): nat {
    if evs == [] then 0 else (if evs[0].Pull? then 1 else 0) + Pulls(evs[1..])
  }

  // ---- concealment -------------------------------------------------------------------------------

  /** Throughout the run the head stays at n and n has not arrived. */
  ghost predicate MissingThroughout(cfg: Config, s: Jitter, evs: seq<Event>, n: int)
    requires cfg.Sane()
    decreases |evs|
  {
    && s.next == Some(n) && n !in s.buf
    && (evs != [] ==> MissingThroughout(cfg, Step(cfg, s, evs[0]), evs[1..], n))
  }

  /** How many pulls a missing head is given before the one that conceals it. */
  function Grace(cfg: Config): nat
    requires cfg.Sane()
  {
    if cfg.maxHoldMs < 0 then 0 else cfg.maxHoldMs / cfg.frameMs
  }

  lemma ScaleLeq(a: int, b: int, f: nat)
    requires a <= b
    ensures a * f <= b * f
  {
  }

  lemma GraceIsLast(cfg: Config, k: nat)
    requires cfg.Sane()
    ensures (k + 1) * cfg.frameMs <= cfg.maxHoldMs <==> k < Grace(cfg)
  {
    var q, f := Grace(cfg), cfg.frameMs;
    if cfg.maxHoldMs < 0 {
      ScaleLeq(0, k + 1, f);
    } else if k < q {
      ScaleLeq(k + 1, q, f);
    } else {
      ScaleLeq(q + 1, k + 1, f);
    }
  }

  /** How long position n has been waited for. */
  function WaitOf(s: Jitter, n: int): int {
    if n in s.waitingForLate then s.waitingForLate[n] else 0
  }

  /** A pull that finds the head missing after it was already waited for k times. */
  lemma PullOnMissing(cfg: Config, s: Jitter, nowMs: int, n: int, k: nat)
    requires cfg.Sane() && s.next == Some(n) && n !in s.buf && WaitOf(s, n) == k * cfg.frameMs
    ensures var (s', out) := Pulled(cfg, s, nowMs);
            if k < Grace(cfg)
            then out == None && s'.next == Some(n) && WaitOf(s', n) == (k + 1) * cfg.frameMs
            else out == Some(Concealed(n)) && s'.next == Some(n + 1)
  {
    GraceIsLast(cfg, k);
    assert Waited(cfg, s, n) == (k + 1) * cfg.frameMs;
  }

  /** Nothing but a pull moves the wait for a head that stays missing. */
  lemma OthersKeepWait(cfg: Config, s: Jitter, e: Event, n: int)
    requires cfg.Sane() && s.next == Some(n) && !e.Pull?
    requires Step(cfg, s, e).next == Some(n) && n !in Step(cfg, s, e).buf
    ensures WaitOf(Step(cfg, s, e), n) == WaitOf(s, n)
  {
  }

  lemma {:induction false} WaitCounted(cfg: Config, s: Jitter, evs: seq<Event>, n: int, k: nat)
    requires cfg.Sane() && MissingThroughout(cfg, s, evs, n)
    requires WaitOf(s, n) == k * cfg.frameMs && k <= Grace(cfg)
    ensures var s' := RunFrom(cfg, s, evs);
            && s'.next == Some(n) && n !in s'.buf
            && WaitOf(s', n) == (k + Pulls(evs)) * cfg.frameMs
            && k + Pulls(evs) <= Grace(cfg)
    decreases |evs|
  {
    if evs == [] {
    } else {
      var e := evs[0];
      var k' := if e.Pull? then k + 1 else k;
      assert k' + Pulls(evs[1..]) == k + Pulls(evs);
      if e.Pull? {
        PullOnMissing(cfg, s, e.nowMs, n, k);
      } else {
        OthersKeepWait(cfg, s, e, n);
      }
      WaitCounted(cfg, Step(cfg, s, e), evs[1..], n, k');
    }
  }

  /** A head found missing is concealed by exactly the pull number Grace + 1 that finds it missing,
      whatever else happens meanwhile, unless it arrives or playout moves past it. */
  lemma ConcealedOnExactPull(cfg: Config, s: Jitter, evs: seq<Event>, n: int, nowMs: int)
    requires Inv(cfg, s) && n !in s.waitingForLate && MissingThroughout(cfg, s, evs, n)
    ensures Pulls(evs) <= Grace(cfg)
    ensures Pulled(cfg, RunFrom(cfg, s, evs), nowMs).1 ==
            if Pulls(evs) == Grace(cfg) then Some(Concealed(n)) else None
  {
    WaitCounted(cfg, s, evs, n, 0);
    PullOnMissing(cfg, RunFrom(cfg, s, evs), nowMs, n, Pulls(evs));
  }

  // ---- the wait by the clock ----------------------------------------------------------------------------

  function PullTimes(evs: seq<Event>): (ts: seq<int>)
    ensures |ts| == Pulls(evs)
  {
    if evs == [] then [] else (if evs[0].Pull? then [evs[0].nowMs] else []) + PullTimes(evs[1..])
  }

  /** The head stays at n and n does not arrive, up to the first pull that gives anything. */
  ghost predicate MissingUntilOutput(cfg: Config, s: Jitter, evs: seq<Event>, n: int)
    requires cfg.Sane()
    decreases |evs|
  {
    && s.next == Some(n) && n !in s.buf
    && (evs == [] || Emitted(cfg, s, evs[0]) != [] || MissingUntilOutput(cfg, Step(cfg, s, evs[0]), evs[1..], n))
  }

  /** The time of the first pull that gives anything. */
  ghost function OutputTime(cfg: Config, s: Jitter, evs: seq<Event>): Option<int>
    requires cfg.Sane()
    decreases |evs|
  {
    if evs == [] then None
    else if Emitted(cfg, s, evs[0]) != [] then Some(evs[0].nowMs)
    else OutputTime(cfg, Step(cfg, s, evs[0]), evs[1..])
  }

  lemma {:induction false} GivenUpAtPull(cfg: Config, s: Jitter, evs: seq<Event>, n: int, k: nat)
    requires cfg.Sane() && MissingUntilOutput(cfg, s, evs, n)
    requires WaitOf(s, n) == k * cfg.frameMs && k <= Grace(cfg)
    ensures OutputTime(cfg, s, evs) ==
            if |PullTimes(evs)| > Grace(cfg) - k then Some(PullTimes(evs)[Grace(cfg) - k]) else None
    decreases |evs|
  {
    if evs == [] {
    } else {
      var e := evs[0];
      if e.Pull? {
        PullOnMissing(cfg, s, e.nowMs, n, k);
        assert PullTimes(evs) == [e.nowMs] + PullTimes(evs[1..]);
        if k < Grace(cfg) {
          GivenUpAtPull(cfg, Step(cfg, s, e), evs[1..], n, k + 1);
        }
      } else {
        OthersKeepWait(cfg, s, e, n);
        assert PullTimes(evs) == [] + PullTimes(evs[1..]) == PullTimes(evs[1..]);
        GivenUpAtPull(cfg, Step(cfg, s, e), evs[1..], n, k);
      }
    }
  }

  /** When a missing head is given up by the clock: at the time of pull number Grace + 1 and not before,
      so that it was waited for at least maxHoldMs since the first pull that missed it exactly if those
      two pulls are that far apart. */
  lemma HeldInTimeIff(cfg: Config, s: Jitter, evs: seq<Event>, n: int)
    requires Inv(cfg, s) && n !in s.waitingForLate && MissingUntilOutput(cfg, s, evs, n)
    ensures var t, ts := OutputTime(cfg, s, evs), PullTimes(evs);
            && t == (if |ts| > Grace(cfg) then Some(ts[Grace(cfg)]) else None)
            && (t.Some? ==> (t.value - ts[0] >= cfg.maxHoldMs <==> ts[Grace(cfg)] - ts[0] >= cfg.maxHoldMs))
  {
    GivenUpAtPull(cfg, s, evs, n, 0);
  }

  /** Pulls spaced at least a frame apart, as playout would space them. */
  predicate Spaced(cfg: Config, ts: seq<int>) {
    forall i :: 0 < i < |ts| ==> ts[i] - ts[i - 1] >= cfg.frameMs
  }

  lemma {:induction false} SpacedSpan(cfg: Config, ts: seq<int>, k: nat)
    requires cfg.Sane() && Spaced(cfg, ts) && k < |ts|
    ensures ts[k] - ts[0] >= k * cfg.frameMs
  {
    if k == 0 {
    } else {
      SpacedSpan(cfg, ts, k - 1);
      assert k * cfg.frameMs == (k - 1) * cfg.frameMs + cfg.frameMs;
    }
  }

  /** Then the wait is maxHoldMs, rounded down to whole frames. */
  lemma SpacedPullsHold(cfg: Config, s: Jitter, evs: seq<Event>, n: int)
    requires Inv(cfg, s) && n !in s.waitingForLate && MissingUntilOutput(cfg, s, evs, n)
    requires |PullTimes(evs)| > Grace(cfg) && Spaced(cfg, PullTimes(evs))
    ensures OutputTime(cfg, s, evs).Some? && OutputTime(cfg, s, evs).value - PullTimes(evs)[0] >= Grace(cfg) * cfg.frameMs
  {
    GivenUpAtPull(cfg, s, evs, n, 0);
    SpacedSpan(cfg, PullTimes(evs), Grace(cfg));
  }

  /** k pulls at the same time, as k datagrams in one millisecond make. */
  function PullsAt(t: int, k: nat): (evs: seq<Event>)
    ensures |evs| == k && forall e :: e in evs ==> e == Pull(t)
  {
    seq(k, i => Pull(t))
  }

  lemma {:induction false} PullsMiss(cfg: Config, s: Jitter, evs: seq<Event>, n: int)
    requires cfg.Sane() && s.next == Some(n) && n !in s.buf && forall e :: e in evs ==> e.Pull?
    ensures MissingUntilOutput(cfg, s, evs, n)
    ensures |PullTimes(evs)| == |evs| && forall i :: 0 <= i < |evs| ==> PullTimes(evs)[i] == evs[i].nowMs
    decreases |evs|
  {
    if evs == [] {
    } else {
      assert evs[0] in evs && forall e :: e in evs[1..] ==> e in evs;
      if Emitted(cfg, s, evs[0]) == [] {
        PullsMiss(cfg, Step(cfg, s, evs[0]), evs[1..], n);
      } else {
        PullTimesOfPulls(evs[1..]);
      }
    }
  }

  lemma {:induction false} PullTimesOfPulls(evs: seq<Event>)
    requires forall e :: e in evs ==> e.Pull?
    ensures |PullTimes(evs)| == |evs| && forall i :: 0 <= i < |evs| ==> PullTimes(evs)[i] == evs[i].nowMs
  {
    if evs == [] {
    } else {
      assert evs[0] in evs && forall e :: e in evs[1..] ==> e in evs;
      PullTimesOfPulls(evs[1..]);
    }
  }

  /** Enough pulls at one time give up any missing head at that time, not waiting at all. */
  lemma GivenUpInAnInstant(cfg: Config, s: Jitter, n: int, t: int)
    requires Inv(cfg, s) && s.next == Some(n) && n !in s.buf && n !in s.waitingForLate
    ensures OutputTime(cfg, s, PullsAt(t, Grace(cfg))) == None
    ensures OutputTime(cfg, s, PullsAt(t, Grace(cfg) + 1)) == Some(t)
  {
    PullsMiss(cfg, s, PullsAt(t, Grace(cfg)), n);
    GivenUpAtPull(cfg, s, PullsAt(t, Grace(cfg)), n, 0);
    PullsMiss(cfg, s, PullsAt(t, Grace(cfg) + 1), n);
    GivenUpAtPull(cfg, s, PullsAt(t, Grace(cfg) + 1), n, 0);
    assert PullsAt(t, Grace(cfg) + 1)[Grace(cfg)] == Pull(t);
  }

  /** For example: packet 1 is late, packet 2 is there, and five pulls in one millisecond give 1 up. */
  lemma LatePacketGivenUpAtOnce(payload: Payload, t: int)
    ensures var s := RunFrom(DEFAULT_CONFIG, Initial(DEFAULT_CONFIG), [Push(0, 0, payload), Pull(1), Pull(101), Push(2, 40, payload)]);
            && s.next == Some(1) && 1 !in s.buf && 2 in s.buf
            && OutputTime(DEFAULT_CONFIG, s, PullsAt(t, 4)) == None
            && OutputTime(DEFAULT_CONFIG, s, PullsAt(t, 5)) == Some(t)
  {
    var cfg := DEFAULT_CONFIG;
    var s0 := Initial(cfg);
    var s1 := Step(cfg, s0, Push(0, 0, payload));
    var s2 := Step(cfg, s1, Pull(1));
    var s3 := Step(cfg, s2, Pull(101));
    var s := Step(cfg, s3, Push(2, 40, payload));
    RunFromFour(cfg, s0, Push(0, 0, payload), Pull(1), Pull(101), Push(2, 40, payload));
    FirstHold(payload);
    PlayedThenGap(s2, payload);
    StepKeepsInv(cfg, s0, Push(0, 0, payload));
    StepKeepsInv(cfg, s1, Pull(1));
    StepKeepsInv(cfg, s2, Pull(101));
    StepKeepsInv(cfg, s3, Push(2, 40, payload));
    GivenUpInAnInstant(cfg, s, 1, t);
  }

  lemma PlayedThenGap(s: Jitter, payload: Payload)
    requires HasHeld(s, payload)
    ensures var s' := Step(DEFAULT_CONFIG, Step(DEFAULT_CONFIG, s, Pull(101)), Push(2, 40, payload));
            s'.next == Some(1) && s'.buf == map[2 := Entry(payload, 40)] && s'.waitingForLate == map[]
  {
    assert s.buf - {0} == map[];
  }

  lemma RunFromFour(cfg: Config, s: Jitter, a: Event, b: Event, c: Event, d: Event)
    requires cfg.Sane()
    ensures RunFrom(cfg, s, [a, b, c, d]) == Step(cfg, Step(cfg, Step(cfg, Step(cfg, s, a), b), c), d)
  {
    assert [a, b, c, d][1..] == [b, c, d];
    assert RunFrom(cfg, s, [a, b, c, d]) == RunFrom(cfg, Step(cfg, s, a), [b, c, d]);
    RunFromThree(cfg, Step(cfg, s, a), b, c, d);
  }

  // ---- the start ----------------------------------------------------------------------------------------

  /** A pull that finds its head gives nothing exactly when the start is gated. */
  lemma HeadPlaysIff(cfg: Config, s: Jitter, nowMs: int)
    requires s.next.Some? && s.next.value in s.buf
    ensures var n, out := s.next.value, Pulled(cfg, s, nowMs).1;
            out == if Gated(cfg, s, nowMs) then None else Some(Real(n, s.buf[n].payload, s.buf[n].tsMs))
  {
  }

  /** Only a jump takes a started buffer back to the start, and then no hold is under way. */
  lemma OnlyJumpUnstarts(cfg: Config, s: Jitter, e: Event)
    requires Inv(cfg, s) && s.started
    ensures !Step(cfg, s, e).started <==> e.Push? && Jumps(cfg, s, e.seqNo)
    ensures Step(cfg, s, e).waitingSince == 0
  {
  }

  ghost predicate NoJump(cfg: Config, s: Jitter, evs: seq<Event>)
    requires cfg.Sane()
    decreases |evs|
  {
    evs != [] ==> !(evs[0].Push? && Jumps(cfg, s, evs[0].seqNo)) && NoJump(cfg, Step(cfg, s, evs[0]), evs[1..])
  }

  /** Once started, and as long as no push jumps, every pull that finds its head plays it at once:
      whatever the target has grown to, there is no second hold. */
  lemma {:induction false} StartedPlaysAtOnce(cfg: Config, s: Jitter, evs: seq<Event>, nowMs: int)
    requires Inv(cfg, s) && s.started && NoJump(cfg, s, evs)
    ensures var s' := RunFrom(cfg, s, evs);
            && s'.started
            && (s'.next.Some? && s'.next.value in s'.buf ==>
                  var e := s'.buf[s'.next.value];
                  Pulled(cfg, s', nowMs).1 == Some(Real(s'.next.value, e.payload, e.tsMs)))
    decreases |evs|
  {
    if evs == [] {
      if s.next.Some? && s.next.value in s.buf {
        HeadPlaysIff(cfg, s, nowMs);
      }
    } else {
      OnlyJumpUnstarts(cfg, s, evs[0]);
      StepKeepsInv(cfg, s, evs[0]);
      StartedPlaysAtOnce(cfg, Step(cfg, s, evs[0]), evs[1..], nowMs);
    }
  }

  /** For example: ten packets are lost, the target rises from 6 to 16, one frame is buffered, and the
      next pull plays it. */
  lemma RaisedTargetDoesNotHold(payload: Payload, nowMs: int)
    ensures var s := RunFrom(DEFAULT_CONFIG, Initial(DEFAULT_CONFIG),
                       [Push(0, 0, payload), Pull(1), Pull(101), Push(1, 20, payload), Push(12, 240, payload)]);
            && s.started && s.target == 16 && s.next == Some(1) && 2 !in s.buf && !Primed(s)
            && Pulled(DEFAULT_CONFIG, s, nowMs).1 == Some(Real(1, payload, 20))
  {
    var cfg := DEFAULT_CONFIG;
    var s0 := Initial(cfg);
    RunFromFive(cfg, s0, Push(0, 0, payload), Pull(1), Pull(101), Push(1, 20, payload), Push(12, 240, payload));
    var s2 := Step(cfg, Step(cfg, s0, Push(0, 0, payload)), Pull(1));
    FirstHold(payload);
    var s4 := Step(cfg, Step(cfg, s2, Pull(101)), Push(1, 20, payload));
    FirstPlayed(s2, payload);
    LossRaisesTarget(s4, payload);
    HeadPlaysIff(cfg, Step(cfg, s4, Push(12, 240, payload)), nowMs);
  }

  predicate HasHeld(s: Jitter, payload: Payload) {
    && s.buf == map[0 := Entry(payload, 0)] && s.next == Some(0) && !s.started && s.waitingSince == 1
    && s.target == 6 && s.ewmaJitterMs == 0.0 && s.lossPenalty == 0 && s.prevSeq == Some(0) && s.prevTsMs == Some(0)
    && s.waitingForLate == map[]
  }

  predicate HasPlayed(s: Jitter, payload: Payload) {
    && s.buf == map[1 := Entry(payload, 20)] && s.next == Some(1) && s.started
    && s.ewmaJitterMs == 0.0 && s.lossPenalty == 0 && s.prevSeq == Some(1) && s.prevTsMs == Some(20)
  }

  lemma FirstPlayed(s: Jitter, payload: Payload)
    requires HasHeld(s, payload)
    ensures HasPlayed(Step(DEFAULT_CONFIG, Step(DEFAULT_CONFIG, s, Pull(101)), Push(1, 20, payload)), payload)
  {
    assert s.buf - {0} == map[];
  }

  lemma LossRaisesTarget(s: Jitter, payload: Payload)
    requires HasPlayed(s, payload)
    ensures var s' := Step(DEFAULT_CONFIG, s, Push(12, 240, payload));
            && s'.started && s'.target == 16 && s'.next == Some(1) && 2 !in s'.buf && !Primed(s')
            && s'.buf == map[1 := Entry(payload, 20), 12 := Entry(payload, 240)]
  {
    CeilBounds(0.0, 20.0);
    var s' := Step(DEFAULT_CONFIG, s, Push(12, 240, payload));
    assert s'.target == 16 && 2 !in s'.buf;
  }

  /** The first packet, held by the first pull. */
  lemma FirstHold(payload: Payload)
    ensures var s := Step(DEFAULT_CONFIG, Step(DEFAULT_CONFIG, Initial(DEFAULT_CONFIG), Push(0, 0, payload)), Pull(1));
            HasHeld(s, payload)
  {
    var s := Step(DEFAULT_CONFIG, Initial(DEFAULT_CONFIG), Push(0, 0, payload));
    CeilBounds(0.0, 20.0);
    assert s.buf == map[0 := Entry(payload, 0)] && s.target == 6;
    assert !Primed(s) by { assert 1 !in s.buf; }
  }

  lemma RunFromFive(cfg: Config, s: Jitter, a: Event, b: Event, c: Event, d: Event, e: Event)
    requires cfg.Sane()
    ensures RunFrom(cfg, s, [a, b, c, d, e]) == Step(cfg, Step(cfg, Step(cfg, Step(cfg, Step(cfg, s, a), b), c), d), e)
  {
    assert [a, b, c, d, e][1..] == [b, c, d, e];
    assert RunFrom(cfg, s, [a, b, c, d, e]) == RunFrom(cfg, Step(cfg, s, a), [b, c, d, e]);
    RunFromFour(cfg, Step(cfg, s, a), b, c, d, e);
  }

  lemma RunFromThree(cfg: Config, s: Jitter, a: Event, b: Event, c: Event)
    requires cfg.Sane()
    ensures RunFrom(cfg, s, [a, b, c]) == Step(cfg, Step(cfg, Step(cfg, s, a), b), c)
  {
    var t1 := Step(cfg, s, a);
    var t2 := Step(cfg, t1, b);
    assert [a, b, c][1..] == [b, c] && [b, c][1..] == [c] && [c][1..] == [];
    assert RunFrom(cfg, s, [a, b, c]) == RunFrom(cfg, t1, [b, c]);
    assert RunFrom(cfg, t1, [b, c]) == RunFrom(cfg, t2, [c]);
    assert RunFrom(cfg, t2, [c]) == RunFrom(cfg, Step(cfg, t2, c), []);
  }

  /** Throughout the run the buffer has not started; its head may change by a jump. */
  ghost predicate UnstartedThroughout(cfg: Config, s: Jitter, evs: seq<Event>)
    requires cfg.Sane()
    decreases |evs|
  {
    !s.started && (evs != [] ==> UnstartedThroughout(cfg, Step(cfg, s, evs[0]), evs[1..]))
  }

  /** The time of the first pull that finds a packet; a pull at time 0 leaves no trace. */
  ghost function FirstHeld(cfg: Config, s: Jitter, evs: seq<Event>): (t: Option<int>)
    requires cfg.Sane()
    ensures t != Some(0)
    decreases |evs|
  {
    if evs == [] then None
    else if evs[0].Pull? && evs[0].nowMs != 0 && s.next.Some? then Some(evs[0].nowMs)
    else FirstHeld(cfg, Step(cfg, s, evs[0]), evs[1..])
  }

  lemma HoldStep(cfg: Config, s: Jitter, e: Event)
    requires Inv(cfg, s) && !s.started && !Step(cfg, s, e).started
    ensures Step(cfg, s, e).waitingSince ==
            if s.waitingSince == 0 && e.Pull? && s.next.Some? then e.nowMs else s.waitingSince
  {
  }

  /** When the hold began: a hold under way goes on, whatever is pushed; otherwise the first pull
      that finds a packet begins it. */
  lemma {:induction false} HoldSince(cfg: Config, s: Jitter, evs: seq<Event>)
    requires Inv(cfg, s) && UnstartedThroughout(cfg, s, evs)
    ensures var s' := RunFrom(cfg, s, evs);
            && Inv(cfg, s') && !s'.started
            && s'.waitingSince ==
                 if s.waitingSince != 0 then s.waitingSince
                 else if FirstHeld(cfg, s, evs).Some? then FirstHeld(cfg, s, evs).value else 0
    decreases |evs|
  {
    if evs == [] {
    } else {
      StepKeepsInv(cfg, s, evs[0]);
      HoldStep(cfg, s, evs[0]);
      HoldSince(cfg, Step(cfg, s, evs[0]), evs[1..]);
    }
  }

  /** A pull that gives the head n, once the pre-buffer is full or `since` is reholdMs ago. */
  ghost predicate OpensWhen(cfg: Config, s: Jitter, nowMs: int, n: int, since: int)
    requires s.next.Some?
  {
    var out := Pulled(cfg, s, nowMs).1;
    && (out.Some? <==> Primed(s) || nowMs - since >= cfg.reholdMs)
    && (out.Some? ==> out.value.Real? && out.value.seqNo == n)
  }

  lemma PullBeforeStart(cfg: Config, s: Jitter, nowMs: int, n: int)
    requires Inv(cfg, s) && s.next == Some(n) && !s.started
    ensures OpensWhen(cfg, s, nowMs, n, if s.waitingSince == 0 then nowMs else s.waitingSince)
  {
    assert n in s.buf;
    assert Gated(cfg, s, nowMs) <==>
      !Primed(s) && nowMs - (if s.waitingSince == 0 then nowMs else s.waitingSince) < cfg.reholdMs;
  }

  /** A start, jumps and all, is held back exactly until the pre-buffer is full or reholdMs have
      passed since the first pull that found any packet, and then the head is played, never
      concealed. An unstarted period begins with no hold under way: at first, or by OnlyJumpUnstarts. */
  lemma StartHeldExactly(cfg: Config, s: Jitter, evs: seq<Event>, nowMs: int)
    requires Inv(cfg, s) && s.waitingSince == 0 && UnstartedThroughout(cfg, s, evs)
    requires RunFrom(cfg, s, evs).next.Some?
    ensures var s' := RunFrom(cfg, s, evs);
            OpensWhen(cfg, s', nowMs, s'.next.value,
              if FirstHeld(cfg, s, evs).Some? then FirstHeld(cfg, s, evs).value else nowMs)
  {
    HoldSince(cfg, s, evs);
    var s' := RunFrom(cfg, s, evs);
    PullBeforeStart(cfg, s', nowMs, s'.next.value);
  }

  // ---- a hold cut short by a jump -------------------------------------------------------------------------

  /** Throughout the run the buffer has not started and its head stays at n. */
  ghost predicate HeldThroughout(cfg: Config, s: Jitter, evs: seq<Event>, n: int)
    requires cfg.Sane()
    decreases |evs|
  {
    && s.next == Some(n) && !s.started
    && (evs != [] ==> HeldThroughout(cfg, Step(cfg, s, evs[0]), evs[1..], n))
  }

  lemma {:induction false} HeldIsUnstarted(cfg: Config, s: Jitter, evs: seq<Event>, n: int)
    requires cfg.Sane() && HeldThroughout(cfg, s, evs, n)
    ensures UnstartedThroughout(cfg, s, evs) && RunFrom(cfg, s, evs).next == Some(n)
    decreases |evs|
  {
    if evs == [] {
    } else {
      HeldIsUnstarted(cfg, Step(cfg, s, evs[0]), evs[1..], n);
    }
  }

  /** However long it stays the head, n is held for reholdMs from the first pull that finds it. */
  ghost predicate OpensOnItsOwn(cfg: Config, s: Jitter, evs: seq<Event>, n: int, nowMs: int)
    requires cfg.Sane()
  {
    HeldThroughout(cfg, s, evs, n) ==>
      RunFrom(cfg, s, evs).next.Some? &&
      OpensWhen(cfg, RunFrom(cfg, s, evs), nowMs, n,
        if FirstHeld(cfg, s, evs).Some? then FirstHeld(cfg, s, evs).value else nowMs)
  }

  ghost predicate FullHold(cfg: Config, s: Jitter, n: int)
    requires cfg.Sane()
  {
    forall evs, nowMs :: OpensOnItsOwn(cfg, s, evs, n, nowMs)
  }

  /** The head a jump makes: nothing else is buffered, and a hold that was under way stays under way. */
  lemma JumpKeepsHold(cfg: Config, s: Jitter, seqNo: int, tsMs: int, payload: Payload)
    requires Inv(cfg, s) && Jumps(cfg, s, seqNo)
    ensures var s' := Pushed(cfg, s, seqNo, tsMs, payload);
            && Inv(cfg, s') && s'.next == Some(seqNo) && !s'.started && s'.waitingSince == s.waitingSince
            && s'.buf == map[seqNo := Entry(payload, tsMs)] && s'.target <= cfg.max
            && s'.prevSeq == Some(seqNo) && s'.prevTsMs == Some(tsMs)
  {
    JumpLeavesOnlyNewest(cfg, s, seqNo, tsMs, payload);
    PushKeepsInv(cfg, s, seqNo, tsMs, payload);
  }

  lemma {:induction false} TargetStaysCapped(cfg: Config, s: Jitter, evs: seq<Event>)
    requires cfg.Sane() && s.target <= cfg.max
    ensures RunFrom(cfg, s, evs).target <= cfg.max
    decreases |evs|
  {
    if evs == [] {
    } else {
      TargetStaysCapped(cfg, Step(cfg, s, evs[0]), evs[1..]);
    }
  }

  lemma OwnHoldIfFree(cfg: Config, s: Jitter, n: int)
    requires Inv(cfg, s) && (s.waitingSince == 0 || (cfg.max <= 1 && s.target <= cfg.max))
    ensures FullHold(cfg, s, n)
  {
    forall evs, nowMs
      ensures OpensOnItsOwn(cfg, s, evs, n, nowMs)
    {
      if HeldThroughout(cfg, s, evs, n) {
        HeldIsUnstarted(cfg, s, evs, n);
        HoldSince(cfg, s, evs);
        TargetStaysCappedIf(cfg, s, evs);
        PullBeforeStart(cfg, RunFrom(cfg, s, evs), nowMs, n);
      }
    }
  }

  lemma TargetStaysCappedIf(cfg: Config, s: Jitter, evs: seq<Event>)
    requires cfg.Sane()
    ensures s.target <= cfg.max ==> RunFrom(cfg, s, evs).target <= cfg.max
  {
    if s.target <= cfg.max {
      TargetStaysCapped(cfg, s, evs);
    }
  }

  /** How late a packet must be to raise the target to two frames. */
  function Delay(cfg: Config): nat
    requires cfg.Sane()
  {
    4 * cfg.frameMs * (if cfg.baseline < 2 then 2 - cfg.baseline else 0)
  }

  lemma LatePacketRaisesTarget(cfg: Config, ewma: real, loss: nat)
    requires cfg.Sane() && cfg.max >= 2 && ewma >= 0.0
    ensures Smooth(ewma, Delay(cfg) as real) >= 0.0
    ensures Target(cfg, Smooth(ewma, Delay(cfg) as real), loss) >= 2
  {
    var k: nat := if cfg.baseline < 2 then 2 - cfg.baseline else 0;
    var f := cfg.frameMs as real;
    assert Delay(cfg) as real == 4.0 * f * k as real;
    var e := Smooth(ewma, Delay(cfg) as real);
    assert e >= f * k as real;
    CeilAtLeast(e, f, k);
  }

  lemma CeilAtLeast(x: real, y: real, k: nat)
    requires y > 0.0 && x >= y * k as real
    ensures Ceil(x / y) >= k
  {
    var q := x / y;
    assert q * y == x;
    if q < k as real {
      assert q * y < k as real * y;
    }
  }

  /** With a hold under way, a jump and a late packet: the head is not primed, and the old hold counts. */
  lemma CutShort(cfg: Config, s: Jitter, n: int, payload: Payload)
    requires Inv(cfg, s) && cfg.max >= 2 && !s.started && s.waitingSince != 0 && s.next == Some(n)
    requires s.prevSeq == Some(n) && s.prevTsMs.Some? && n + 1 !in s.buf && |s.buf| <= 1
    ensures !FullHold(cfg, s, n)
  {
    var late := Push(n + 2, s.prevTsMs.value + 2 * cfg.frameMs + Delay(cfg), payload);
    var s' := Step(cfg, s, late);
    LatePacketIsHeld(cfg, s, n, late);
    var w := s.waitingSince;
    var nowMs := if cfg.reholdMs > 0 then w + cfg.reholdMs else w + cfg.reholdMs - 1;
    assert [late][1..] == [];
    assert RunFrom(cfg, s, [late]) == s' && HeldThroughout(cfg, s, [late], n);
    assert FirstHeld(cfg, s, [late]).None?;
    PullBeforeStart(cfg, s', nowMs, n);
    assert !OpensOnItsOwn(cfg, s, [late], n, nowMs);
  }

  lemma LatePacketIsHeld(cfg: Config, s: Jitter, n: int, late: Event)
    requires Inv(cfg, s) && cfg.max >= 2 && !s.started && s.waitingSince != 0 && s.next == Some(n)
    requires s.prevSeq == Some(n) && s.prevTsMs.Some? && n + 1 !in s.buf && |s.buf| <= 1
    requires late.Push? && late.seqNo == n + 2 && late.tsMs == s.prevTsMs.value + 2 * cfg.frameMs + Delay(cfg)
    ensures var s' := Step(cfg, s, late);
            Inv(cfg, s') && s'.next == Some(n) && !s'.started && s'.waitingSince == s.waitingSince && !Primed(s')
  {
    StepKeepsInv(cfg, s, late);
    PushSize(cfg, s, n + 2, late.tsMs, late.payload);
    assert Spike(cfg, s.prevTsMs.value, n, n + 2, late.tsMs) == Delay(cfg) as real;
    var s' := Step(cfg, s, late);
    LatePacketRaisesTarget(cfg, s.ewmaJitterMs, s'.lossPenalty);
    assert s'.target >= 2 && n + 1 !in s'.buf;
  }

  /** The head a jump makes gets its own full hold exactly when no hold was under way, unless the
      frame limit is so small that one frame is a full pre-buffer. */
  lemma FullHoldIff(cfg: Config, s: Jitter, seqNo: int, tsMs: int, payload: Payload)
    requires Inv(cfg, s) && Jumps(cfg, s, seqNo)
    ensures FullHold(cfg, Pushed(cfg, s, seqNo, tsMs, payload), seqNo) <==> s.waitingSince == 0 || cfg.max <= 1
  {
    var s' := Pushed(cfg, s, seqNo, tsMs, payload);
    JumpKeepsHold(cfg, s, seqNo, tsMs, payload);
    if s.waitingSince == 0 || cfg.max <= 1 {
      OwnHoldIfFree(cfg, s', seqNo);
    } else {
      assert |s'.buf| == 1;
      CutShort(cfg, s', seqNo, payload);
    }
  }

  /** For example: a packet is held at time 1, another jumps far ahead, and a pull at time 101, the
      first to find it, plays it with nothing behind it. */
  lemma JumpCutsHold(payload: Payload)
    ensures var s := RunFrom(DEFAULT_CONFIG, Initial(DEFAULT_CONFIG), [Push(0, 0, payload), Pull(1), Push(1000, 20000, payload)]);
            && s.buf == map[1000 := Entry(payload, 20000)] && s.next == Some(1000) && !s.started && !Primed(s)
            && Pulled(DEFAULT_CONFIG, s, 101).1 == Some(Real(1000, payload, 20000))
  {
    var cfg := DEFAULT_CONFIG;
    var s1 := Step(cfg, Initial(cfg), Push(0, 0, payload));
    var s2 := Step(cfg, s1, Pull(1));
    FirstHold(payload);
    StepKeepsInv(cfg, Initial(cfg), Push(0, 0, payload));
    StepKeepsInv(cfg, s1, Pull(1));
    var s3 := Step(cfg, s2, Push(1000, 20000, payload));
    JumpKeepsHold(cfg, s2, 1000, 20000, payload);
    RunFromThree(cfg, Initial(cfg), Push(0, 0, payload), Pull(1), Push(1000, 20000, payload));
    CeilBounds(0.0, 20.0);
    assert s3.target >= 2 && 1001 !in s3.buf;
    HeadPlaysIff(cfg, s3, 101);
  }

  // ---- draining ----------------------------------------------------------------------------------------

  /** What a drain can still use up: the buffered frames, and the one recorded wait. */
  function Remaining(s: Jitter): nat {
    |s.buf| + (if s.waitingForLate == map[] then 0 else 1)
  }

  /** What the loop of UdpMedia.pump and UdpMedia.drain does: pull until nothing comes. */
  function Drain(cfg: Config, s: Jitter, nowMs: int): (Jitter, seq<Out>)
    requires cfg.frameMs <= cfg.maxHoldMs
    requires WaitsForHead(s)
    decreases Remaining(s)
  {
    var (s1, out) := Pulled(cfg, s, nowMs);
    if out.None? then (s1, [])
    else
      PullShrinks(cfg, s, nowMs);
      var (s2, outs) := Drain(cfg, s1, nowMs);
      (s2, [out.value] + outs)
  }

  /** Each output uses up a buffered frame, or the one recorded wait. */
  lemma PullShrinks(cfg: Config, s: Jitter, nowMs: int)
    requires cfg.frameMs <= cfg.maxHoldMs
    requires WaitsForHead(s)
    requires Pulled(cfg, s, nowMs).1.Some?
    ensures var (s1, out) := Pulled(cfg, s, nowMs);
            && s1.next == Some(s.next.value + 1) && s1.waitingForLate == map[]
            && |s1.buf| == |s.buf| - (if out.value.Real? then 1 else 0)
            && (out.value.Concealed? ==> s.waitingForLate != map[])
            && Remaining(s1) < Remaining(s)
  {
    var n := s.next.value;
    OnlyKey(s.waitingForLate, n);
    if n in s.buf {
      RemoveKey(s.buf, n);
    }
  }

  lemma OnlyKey(m: map<int, int>, n: int)
    requires forall k :: k in m ==> k == n
    ensures m - {n} == map[]
  {
    assert forall k :: k !in m - {n};
  }

  /** Every drain ends with nothing left to pull; it emits at most one output more than was
      buffered, and conceals at most once, first of all. */
  lemma {:induction false} DrainBounded(cfg: Config, s: Jitter, nowMs: int)
    requires cfg.frameMs <= cfg.maxHoldMs
    requires WaitsForHead(s)
    ensures var (s', outs) := Drain(cfg, s, nowMs);
            && |outs| <= Remaining(s)
            && |outs| + |s'.buf| == |s.buf| + (if outs != [] && outs[0].Concealed? then 1 else 0)
            && (forall i :: 0 < i < |outs| ==> outs[i].Real?)
            && (outs != [] && outs[0].Concealed? ==> s.waitingForLate != map[])
            && (forall i :: 0 <= i < |outs| ==> outs[i].seqNo == s.next.value + i)
    decreases Remaining(s)
  {
    var (s1, out) := Pulled(cfg, s, nowMs);
    if out.Some? {
      PullShrinks(cfg, s, nowMs);
      DrainBounded(cfg, s1, nowMs);
    } else {
      assert s1.buf == s.buf;
    }
  }

  /** The first k pulls of a drain all give an output. */
  predicate GivesAtLeast(cfg: Config, s: Jitter, nowMs: int, k: nat)
    decreases k
  {
    k == 0 ||
    var (s1, out) := Pulled(cfg, s, nowMs);
    out.Some? && GivesAtLeast(cfg, s1, nowMs, k - 1)
  }

  /** With frames longer than the hold, a started buffer yields for ever. */
  lemma {:induction false} StartedNeverStops(cfg: Config, s: Jitter, nowMs: int, k: nat)
    requires cfg.frameMs > cfg.maxHoldMs && s.next.Some? && s.started && WaitsForHead(s)
    ensures GivesAtLeast(cfg, s, nowMs, k)
    decreases k
  {
    if k == 0 {
    } else {
      StartedNeverStops(cfg, Pulled(cfg, s, nowMs).0, nowMs, k - 1);
    }
  }

  lemma {:induction false} StopsWithin(cfg: Config, s: Jitter, nowMs: int, k: nat)
    requires cfg.frameMs <= cfg.maxHoldMs && WaitsForHead(s) && Remaining(s) < k
    ensures !GivesAtLeast(cfg, s, nowMs, k)
    decreases k
  {
    var (s1, out) := Pulled(cfg, s, nowMs);
    if out.Some? {
      PullShrinks(cfg, s, nowMs);
      StopsWithin(cfg, s1, nowMs, k - 1);
    }
  }

  /** A drain that never comes to its end. */
  ghost predicate Endless(cfg: Config, s: Jitter, nowMs: int) {
    forall k: nat :: GivesAtLeast(cfg, s, nowMs, k)
  }

  lemma EndlessFromFirst(cfg: Config, s: Jitter, nowMs: int)
    requires cfg.frameMs > cfg.maxHoldMs && WaitsForHead(s) && Pulled(cfg, s, nowMs).1.Some?
    ensures Endless(cfg, s, nowMs)
  {
    var (s1, out) := Pulled(cfg, s, nowMs);
    forall k: nat
      ensures GivesAtLeast(cfg, s, nowMs, k)
    {
      if k > 0 {
        StartedNeverStops(cfg, s1, nowMs, k - 1);
      }
    }
  }

  /** The drain loop runs for ever exactly when frames are longer than the hold for a late one and
      the first pull yields anything at all. */
  lemma DrainDivergesIff(cfg: Config, s: Jitter, nowMs: int)
    requires WaitsForHead(s)
    ensures Endless(cfg, s, nowMs) <==> cfg.frameMs > cfg.maxHoldMs && Pulled(cfg, s, nowMs).1.Some?
  {
    var k: nat := if cfg.frameMs <= cfg.maxHoldMs then Remaining(s) + 1 else 1;
    if cfg.frameMs <= cfg.maxHoldMs {
      StopsWithin(cfg, s, nowMs, k);
    } else if Pulled(cfg, s, nowMs).1.Some? {
      EndlessFromFirst(cfg, s, nowMs);
    }
    assert Endless(cfg, s, nowMs) ==> GivesAtLeast(cfg, s, nowMs, k);
  }

  // ---- the target depth -----------------------------------------------------------------------------------

  lemma CeilBounds(x: real, y: real)
    requires 0.0 <= x && 0.0 < y
    ensures Ceil(x / y) >= 0
    ensures x <= y ==> Ceil(x / y) == if x == 0.0 then 0 else 1
  {
    var q := x / y;
    assert q >= 0.0;
    if x <= y {
      assert q * y == x;
      assert q <= 1.0;
      assert x > 0.0 ==> q > 0.0;
    }
  }

  /** The target depth never leaves the range from the baseline to the frame limit. */
  lemma {:induction false} TargetInRange(cfg: Config, evs: seq<Event>)
    requires cfg.Sane() && cfg.baseline <= cfg.max
    ensures cfg.baseline <= After(cfg, evs).target <= cfg.max
  {
    if evs == [] {
    } else {
      var init, e := evs[..|evs| - 1], evs[|evs| - 1];
      TargetInRange(cfg, init);
      ReachableInv(cfg, init);
      StepKeepsInv(cfg, After(cfg, init), e);
      CeilBounds(After(cfg, evs).ewmaJitterMs, cfg.frameMs as real);
    }
  }

  /** The largest deviation from nominal spacing among the packets observed. */
  ghost function LargestSpike(cfg: Config, evs: seq<Event>): real
    requires cfg.Sane()
  {
    if evs == [] then 0.0
    else
      var s, e, before := After(cfg, evs[..|evs| - 1]), evs[|evs| - 1], LargestSpike(cfg, evs[..|evs| - 1]);
      if e.Push? && !Late(s, e.seqNo) && s.prevSeq.Some? && s.prevTsMs.Some? && e.seqNo > s.prevSeq.value then
        var spike := Spike(cfg, s.prevTsMs.value, s.prevSeq.value, e.seqNo, e.tsMs);
        if spike > before then spike else before
      else before
  }

  lemma SmoothBelow(ewma: real, spike: real, m: real)
    requires 0.0 <= ewma <= m && 0.0 <= spike <= m
    ensures 0.0 <= Smooth(ewma, spike) <= m
  {
  }

  /** The jitter estimate never exceeds the largest spike seen. */
  lemma {:induction false} JitterWithinSpikes(cfg: Config, evs: seq<Event>)
    requires cfg.Sane()
    ensures 0.0 <= After(cfg, evs).ewmaJitterMs <= LargestSpike(cfg, evs)
  {
    if evs == [] {
    } else {
      var init, e := evs[..|evs| - 1], evs[|evs| - 1];
      JitterWithinSpikes(cfg, init);
      var s := After(cfg, init);
      if e.Push? && !Late(s, e.seqNo) && s.prevSeq.Some? && s.prevTsMs.Some? && e.seqNo > s.prevSeq.value {
        SmoothBelow(s.ewmaJitterMs, Spike(cfg, s.prevTsMs.value, s.prevSeq.value, e.seqNo, e.tsMs), LargestSpike(cfg, evs));
      }
    }
  }

  function PowThreeQuarters(n: nat): (p: real)
    ensures p > 0.0
  {
    if n == 0 then 1.0 else 0.75 * PowThreeQuarters(n - 1)
  }

  /** (3/4)^n * (1 + n/3) <= 1. */
  lemma {:induction false} DecayBound(n: nat)
    ensures PowThreeQuarters(n) * (3.0 + n as real) <= 3.0
  {
    if n == 0 {
    } else {
      DecayBound(n - 1);
      var p, m := PowThreeQuarters(n - 1), n as real;
      assert 0.75 * (3.0 + m) <= 3.0 + (m - 1.0);
      MulMono(p, 0.75 * (3.0 + m), 3.0 + (m - 1.0));
      assert PowThreeQuarters(n) * (3.0 + m) == p * (0.75 * (3.0 + m));
    }
  }

  lemma MulMono(p: real, x: real, y: real)
    requires p >= 0.0 && x <= y
    ensures p * x <= p * y
  {
  }

  lemma BelowByFactor(x: real, frame: real, m: real)
    requires frame > 0.0 && m >= 0.0 && x * (3.0 + m) <= m * frame
    ensures x <= frame
  {
    if x > frame {
      MulMono(3.0 + m, frame, x);
    }
  }

  /** A jitter estimate after n packets without any deviation. */
  function Decayed(x: real, n: nat): real
    decreases n
  {
    if n == 0 then x else Decayed(0.75 * x, n - 1)
  }

  lemma {:induction false} DecayedIs(x: real, n: nat)
    ensures Decayed(x, n) == x * PowThreeQuarters(n)
    decreases n
  {
    if n == 0 {
    } else {
      DecayedIs(0.75 * x, n - 1);
      MoveFactor(x, PowThreeQuarters(n - 1));
    }
  }

  lemma MoveFactor(x: real, p: real)
    ensures 0.75 * x * p == x * (0.75 * p)
  {
  }

  /** 3 * x / frame packets bring the estimate down to one frame, but never to zero. */
  lemma DecayedBelow(x: real, frame: real, n: nat)
    requires x >= 0.0 && frame > 0.0 && n as real * frame >= 3.0 * x
    ensures 0.0 <= Decayed(x, n) <= frame
    ensures Decayed(x, n) == 0.0 <==> x == 0.0
  {
    var p, m := PowThreeQuarters(n), n as real;
    DecayedIs(x, n);
    DecayBound(n);
    MulMono(x, p * (3.0 + m), 3.0);
    assert x * (p * (3.0 + m)) == (x * p) * (3.0 + m);
    BelowByFactor(x * p, frame, m);
    ProductZero(x, p);
  }

  lemma ProductZero(x: real, p: real)
    requires x >= 0.0 && p > 0.0
    ensures x * p >= 0.0 && (x * p == 0.0 <==> x == 0.0)
  {
  }

  /** In the run every packet follows its predecessor immediately, on time, and not too late. */
  ghost predicate Steady(cfg: Config, s: Jitter, evs: seq<Event>)
    requires cfg.Sane()
    decreases |evs|
  {
    evs != [] ==>
      var e := evs[0];
      && (e.Push? ==>
            !Late(s, e.seqNo) && s.prevSeq == Some(e.seqNo - 1) && s.prevTsMs == Some(e.tsMs - cfg.frameMs))
      && Steady(cfg, Step(cfg, s, e), evs[1..])
  }

  function Packets(evs: seq<Event>): nat {
    if evs == [] then 0 else (if evs[0].Push? then 1 else 0) + Packets(evs[1..])
  }

  lemma SteadyPush(cfg: Config, s: Jitter, seqNo: int, tsMs: int, payload: Payload)
    requires cfg.Sane() && s.lossPenalty == 0
    requires !Late(s, seqNo) && s.prevSeq == Some(seqNo - 1) && s.prevTsMs == Some(tsMs - cfg.frameMs)
    ensures var s' := Pushed(cfg, s, seqNo, tsMs, payload);
            s'.ewmaJitterMs == 0.75 * s.ewmaJitterMs && s'.lossPenalty == 0 &&
            s'.target == Target(cfg, s'.ewmaJitterMs, 0)
  {
  }

  lemma OthersKeepEstimate(cfg: Config, s: Jitter, e: Event)
    requires cfg.Sane() && s.lossPenalty == 0 && !e.Push?
    ensures var s' := Step(cfg, s, e);
            s'.ewmaJitterMs == s.ewmaJitterMs && s'.lossPenalty == 0 && s'.target == s.target
  {
  }

  lemma {:induction false} SteadyDecays(cfg: Config, s: Jitter, evs: seq<Event>)
    requires cfg.Sane() && s.lossPenalty == 0 && Steady(cfg, s, evs)
    ensures var s' := RunFrom(cfg, s, evs);
            && s'.ewmaJitterMs == Decayed(s.ewmaJitterMs, Packets(evs))
            && s'.target == if Packets(evs) == 0 then s.target else Target(cfg, s'.ewmaJitterMs, 0)
    decreases |evs|
  {
    if evs == [] {
    } else {
      var e := evs[0];
      if e.Push? {
        SteadyPush(cfg, s, e.seqNo, e.tsMs, e.payload);
      } else {
        OthersKeepEstimate(cfg, s, e);
      }
      SteadyDecays(cfg, Step(cfg, s, e), evs[1..]);
    }
  }

  /** After any burst: one tick ends the loss penalty, and then 3 * ewma / frameMs steady packets,
      with any pulls and ticks between them, settle the target at the baseline, or one frame above
      it if there had been any jitter at all (capped by the frame limit). */
  lemma TargetSettles(cfg: Config, s: Jitter, evs: seq<Event>)
    requires Inv(cfg, s) && Steady(cfg, Ticked(s), evs)
    requires Packets(evs) > 0 && Packets(evs) as real * cfg.frameMs as real >= 3.0 * s.ewmaJitterMs
    ensures Ticked(s).lossPenalty == 0
    ensures RunFrom(cfg, Ticked(s), evs).target ==
            Min(cfg.max, cfg.baseline + (if s.ewmaJitterMs == 0.0 then 0 else 1))
  {
    StepKeepsInv(cfg, s, Tick);
    SteadyDecays(cfg, Ticked(s), evs);
    var n := Packets(evs);
    DecayedBelow(s.ewmaJitterMs, cfg.frameMs as real, n);
    CeilBounds(Decayed(s.ewmaJitterMs, n), cfg.frameMs as real);
  }

  lemma SmoothZeroIff(ewma: real, spike: real)
    requires ewma >= 0.0 && spike >= 0.0
    ensures Smooth(ewma, spike) == 0.0 <==> ewma == 0.0 && spike == 0.0
  {
  }

  /** The packet that the last event of the run observes, and its deviation. */
  ghost predicate Observes(cfg: Config, evs: seq<Event>)
    requires cfg.Sane() && evs != []
  {
    var s, e := After(cfg, evs[..|evs| - 1]), evs[|evs| - 1];
    e.Push? && !Late(s, e.seqNo) && s.prevSeq.Some? && s.prevTsMs.Some? && e.seqNo > s.prevSeq.value
  }

  lemma NoJitterStep(cfg: Config, evs: seq<Event>)
    requires cfg.Sane() && evs != []
    ensures var s, e, s' := After(cfg, evs[..|evs| - 1]), evs[|evs| - 1], After(cfg, evs);
            if Observes(cfg, evs) then
              var spike := Spike(cfg, s.prevTsMs.value, s.prevSeq.value, e.seqNo, e.tsMs);
              s'.ewmaJitterMs == Smooth(s.ewmaJitterMs, spike) &&
              LargestSpike(cfg, evs) == if spike > LargestSpike(cfg, evs[..|evs| - 1]) then spike else LargestSpike(cfg, evs[..|evs| - 1])
            else s'.ewmaJitterMs == s.ewmaJitterMs && LargestSpike(cfg, evs) == LargestSpike(cfg, evs[..|evs| - 1])
  {
  }

  /** The estimate is zero exactly as long as no observed timestamp deviated from frameMs a packet. */
  lemma {:induction false} NoJitterIff(cfg: Config, evs: seq<Event>)
    requires cfg.Sane()
    ensures After(cfg, evs).ewmaJitterMs == 0.0 <==> LargestSpike(cfg, evs) == 0.0
  {
    if evs == [] {
    } else {
      var init, e := evs[..|evs| - 1], evs[|evs| - 1];
      NoJitterIff(cfg, init);
      JitterWithinSpikes(cfg, init);
      NoJitterStep(cfg, evs);
      var s := After(cfg, init);
      if Observes(cfg, evs) {
        SmoothZeroIff(s.ewmaJitterMs, Spike(cfg, s.prevTsMs.value, s.prevSeq.value, e.seqNo, e.tsMs));
      }
    }
  }

  lemma {:induction false} AfterThen(cfg: Config, evs: seq<Event>, more: seq<Event>)
    requires cfg.Sane()
    ensures After(cfg, evs + more) == RunFrom(cfg, After(cfg, evs), more)
    decreases |more|
  {
    if more == [] {
      AppendNothing(evs);
    } else {
      HeadTail(more);
      Regroup(evs, [more[0]], more[1..]);
      assert (evs + [more[0]])[..|evs|] == evs;
      AfterThen(cfg, evs + [more[0]], more[1..]);
    }
  }

  /** Over every run: one tick and enough steady packets later, the target is back at the baseline
      exactly if no packet of the run before was ever off its nominal spacing; otherwise it stays one
      frame above, unless the frame limit is lower. */
  lemma BackToBaselineIff(cfg: Config, before: seq<Event>, steady: seq<Event>)
    requires cfg.Sane() && Steady(cfg, Ticked(After(cfg, before)), steady)
    requires Outlasts(cfg, steady, LargestSpike(cfg, before))
    ensures var target := After(cfg, ThenQuiet(before, steady)).target;
            && target == SettledAt(cfg, LargestSpike(cfg, before))
            && (cfg.baseline < cfg.max ==> (target == cfg.baseline <==> LargestSpike(cfg, before) == 0.0))
  {
    AfterTick(cfg, before, steady);
    SettlesBySpikes(cfg, before, steady);
  }

  /** The packets last three times as long as the spike, at least. */
  predicate Outlasts(cfg: Config, steady: seq<Event>, spike: real) {
    Packets(steady) > 0 && Packets(steady) as real * cfg.frameMs as real >= 3.0 * spike
  }

  function ThenQuiet(before: seq<Event>, steady: seq<Event>): seq<Event> {
    before + ([Tick] + steady)
  }

  /** The target after a run whose largest deviation was `spike`. */
  function SettledAt(cfg: Config, spike: real): int {
    Min(cfg.max, cfg.baseline + (if spike == 0.0 then 0 else 1))
  }

  lemma SettlesBySpikes(cfg: Config, before: seq<Event>, steady: seq<Event>)
    requires cfg.Sane() && Steady(cfg, Ticked(After(cfg, before)), steady)
    requires Outlasts(cfg, steady, LargestSpike(cfg, before))
    ensures RunFrom(cfg, Ticked(After(cfg, before)), steady).target == SettledAt(cfg, LargestSpike(cfg, before))
  {
    ReachableInv(cfg, before);
    NoJitterIff(cfg, before);
    JitterWithinSpikes(cfg, before);
    SettlesBelow(cfg, After(cfg, before), steady, LargestSpike(cfg, before));
  }

  lemma SettlesBelow(cfg: Config, s: Jitter, steady: seq<Event>, spike: real)
    requires Inv(cfg, s) && Steady(cfg, Ticked(s), steady) && Outlasts(cfg, steady, spike)
    requires s.ewmaJitterMs <= spike && (s.ewmaJitterMs == 0.0 <==> spike == 0.0)
    ensures RunFrom(cfg, Ticked(s), steady).target == SettledAt(cfg, spike)
  {
    OutlastsLess(cfg, steady, s.ewmaJitterMs, spike);
    TargetSettles(cfg, s, steady);
  }

  lemma OutlastsLess(cfg: Config, steady: seq<Event>, x: real, y: real)
    requires Outlasts(cfg, steady, y) && x <= y
    ensures Outlasts(cfg, steady, x)
  {
  }

  lemma AfterTick(cfg: Config, before: seq<Event>, steady: seq<Event>)
    requires cfg.Sane()
    ensures After(cfg, ThenQuiet(before, steady)) == RunFrom(cfg, Ticked(After(cfg, before)), steady)
  {
    AfterThen(cfg, before, [Tick] + steady);
    assert ([Tick] + steady)[1..] == steady;
  }

  /** For example: one packet is stamped a millisecond late, the next follows it on schedule, and the
      target settles at 7, not 6. */
  lemma OneLateMillisecond(payload: Payload)
    ensures After(DEFAULT_CONFIG, ThenQuiet([Push(0, 0, payload), Push(1, 21, payload)], [Push(2, 41, payload)])).target == 7
  {
    var cfg, before, steady := DEFAULT_CONFIG, [Push(0, 0, payload), Push(1, 21, payload)], [Push(2, 41, payload)];
    assert before[..1] == [Push(0, 0, payload)] && before[..1][..0] == [] && steady[1..] == [];
    var s1 := After(cfg, before[..1]);
    var s := After(cfg, before);
    assert s1.next == Some(0) && s1.prevSeq == Some(0) && s1.prevTsMs == Some(0);
    assert Spike(cfg, 0, 0, 1, 21) == 1.0;
    assert s.next == Some(0) && s.prevSeq == Some(1) && s.prevTsMs == Some(21);
    assert LargestSpike(cfg, before[..1]) == 0.0 && LargestSpike(cfg, before) == 1.0;
    BackToBaselineIff(cfg, before, steady);
  }
}
