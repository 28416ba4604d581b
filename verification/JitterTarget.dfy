/** Where the jitter buffer's target comes from (transport/adaptive-jitter.js): the loss penalty from the
    packets lost since the last tick, the average from the deviations of the packets, and the target
    from both, over any run. */
module JitterTarget {
  import opened Bytes
  import opened Jitter
  import opened JitterRuns
  import opened JitterTiming

  // ---- the loss penalty ------------------------------------------------------------------------------------

  /** By how much the loss counter has grown since the last tick. */
  ghost function LostSinceTick(cfg: Config, evs: seq<Event>): int
    requires cfg.Sane()
  {
    if evs == [] || evs[|evs| - 1].Tick? then 0
    else
      var init := evs[..|evs| - 1];
      LostSinceTick(cfg, init) + (After(cfg, evs).lost - After(cfg, init).lost)
  }

  /** What bounding the buffer leaves of the statistics. */
  lemma PushStatistics(cfg: Config, s: Jitter, e: Event)
    requires Inv(cfg, s) && e.Push? && !Late(s, e.seqNo)
    ensures var s', o := Step(cfg, s, e), Observe(cfg, s, e.seqNo, e.tsMs);
            && s'.lost == o.lost && s'.lossPenalty == o.lossPenalty && s'.lossTimer == o.lossTimer && s'.ewmaJitterMs == o.ewmaJitterMs
            && s'.prevSeq == o.prevSeq && s'.prevTsMs == o.prevTsMs
            && s'.target == Min(cfg.max, cfg.baseline + Ceil(o.ewmaJitterMs / cfg.frameMs as real) + o.lossPenalty)
  {
    StoreKeepsWindow(cfg, Observe(cfg, s, e.seqNo, e.tsMs), e.seqNo, Entry(e.payload, e.tsMs));
  }

  lemma OthersKeepStatistics(cfg: Config, s: Jitter, e: Event)
    requires cfg.Sane() && (e.Push? ==> Late(s, e.seqNo))
    ensures var s' := Step(cfg, s, e);
            && s'.lost == s.lost && s'.ewmaJitterMs == s.ewmaJitterMs && s'.target == s.target
            && s'.prevSeq == s.prevSeq && s'.prevTsMs == s.prevTsMs
            && (!e.Tick? ==> s'.lossPenalty == s.lossPenalty && s'.lossTimer == s.lossTimer)
            && (e.Tick? ==> s'.lossTimer == if s.lossTimer > 0 then s.lossTimer - 1000 else s.lossTimer)
            && (e.Tick? && (s.lossPenalty > 0 ==> s.lossTimer == 500) && s.lossPenalty >= 0 ==> s'.lossPenalty == 0)
  {
  }

  lemma PenaltyStep(cfg: Config, s: Jitter, e: Event)
    requires Inv(cfg, s)
    ensures var s' := Step(cfg, s, e);
            && s'.lost >= s.lost
            && s'.lossPenalty == (if e.Tick? then 0 else Min(10, s.lossPenalty + (s'.lost - s.lost)))
            && s'.lossTimer == if e.Tick? && s.lossTimer > 0 then s.lossTimer - 1000
                               else if s'.lost > s.lost then 500 else s.lossTimer
  {
    if e.Push? && !Late(s, e.seqNo) {
      PushStatistics(cfg, s, e);
    } else {
      OthersKeepStatistics(cfg, s, e);
    }
  }

  /** Over every run the penalty is one frame for each packet lost since the last tick, at most ten, and
      the timer runs exactly if there was one. */
  lemma {:induction false} PenaltyIsRecentLoss(cfg: Config, evs: seq<Event>)
    requires cfg.Sane()
    ensures LostSinceTick(cfg, evs) >= 0
    ensures After(cfg, evs).lossPenalty == Min(10, LostSinceTick(cfg, evs))
    ensures if LostSinceTick(cfg, evs) > 0 then After(cfg, evs).lossTimer == 500 else After(cfg, evs).lossTimer in {0, -500}
  {
    if evs == [] {
    } else {
      var init, e := evs[..|evs| - 1], evs[|evs| - 1];
      PenaltyIsRecentLoss(cfg, init);
      ReachableInv(cfg, init);
      PenaltyStep(cfg, After(cfg, init), e);
    }
  }

  // ---- the average -----------------------------------------------------------------------------------------

  /** The last event is a packet that was not late. */
  ghost predicate Takes(cfg: Config, evs: seq<Event>)
    requires cfg.Sane() && evs != []
  {
    evs[|evs| - 1].Push? && !Late(After(cfg, evs[..|evs| - 1]), evs[|evs| - 1].seqNo)
  }

  /** The last packet that was not late. */
  ghost function LastTaken(cfg: Config, evs: seq<Event>): (e: Option<Event>)
    requires cfg.Sane()
    ensures e.Some? ==> e.value.Push?
  {
    if evs == [] then None
    else if Takes(cfg, evs) then Some(evs[|evs| - 1])
    else LastTaken(cfg, evs[..|evs| - 1])
  }

  lemma StatisticsStep(cfg: Config, s: Jitter, e: Event)
    requires Inv(cfg, s)
    ensures var s', o := Step(cfg, s, e), if e.Push? && !Late(s, e.seqNo) then Observe(cfg, s, e.seqNo, e.tsMs) else s;
            s'.prevSeq == o.prevSeq && s'.prevTsMs == o.prevTsMs && s'.ewmaJitterMs == o.ewmaJitterMs
  {
    if e.Push? && !Late(s, e.seqNo) {
      PushStatistics(cfg, s, e);
    } else {
      OthersKeepStatistics(cfg, s, e);
    }
  }

  lemma {:induction false} PreviousIsLastTaken(cfg: Config, evs: seq<Event>)
    requires cfg.Sane()
    ensures var s, e := After(cfg, evs), LastTaken(cfg, evs);
            && s.prevSeq == (if e.Some? then Some(e.value.seqNo) else None)
            && s.prevTsMs == (if e.Some? then Some(e.value.tsMs) else None)
  {
    if evs == [] {
    } else {
      var init, e := evs[..|evs| - 1], evs[|evs| - 1];
      PreviousIsLastTaken(cfg, init);
      ReachableInv(cfg, init);
      StatisticsStep(cfg, After(cfg, init), e);
    }
  }

  /** How late its timestamp is for a stream that started at time 0 with packet 0. */
  function Offset(cfg: Config, e: Event): int
    requires e.Push?
  {
    e.tsMs - e.seqNo * cfg.frameMs
  }

  /** By how much each packet moved away from the schedule of the one taken before it, where it
      comes after that one. */
  ghost function Deviations(cfg: Config, evs: seq<Event>): (ds: seq<real>)
    requires cfg.Sane()
    ensures forall d :: d in ds ==> d >= 0.0
  {
    if evs == [] then []
    else
      var init, e := evs[..|evs| - 1], evs[|evs| - 1];
      var before := LastTaken(cfg, init);
      if Takes(cfg, evs) && before.Some? && e.seqNo > before.value.seqNo
      then Deviations(cfg, init) + [Abs(Offset(cfg, e) - Offset(cfg, before.value)) as real]
      else Deviations(cfg, init)
  }

  lemma SpikeIsDeviation(cfg: Config, before: Event, e: Event)
    requires before.Push? && e.Push?
    ensures Spike(cfg, before.tsMs, before.seqNo, e.seqNo, e.tsMs) == Abs(Offset(cfg, e) - Offset(cfg, before)) as real
  {
    assert (e.seqNo - before.seqNo) * cfg.frameMs == e.seqNo * cfg.frameMs - before.seqNo * cfg.frameMs;
  }

  /** Deviations behind the first: a quarter of each, less a quarter for every later one. */
  function Quarters(ds: seq<real>): real {
    if ds == [] then 0.0 else 0.25 * ds[0] * PowThreeQuarters(|ds| - 1) + Quarters(ds[1..])
  }

  /** The first deviation that is not zero counts in full, the others for a quarter, and each loses a
      quarter of its weight with every packet after it. */
  function Weighted(ds: seq<real>): real {
    if ds == [] then 0.0
    else if ds[0] == 0.0 then Weighted(ds[1..])
    else ds[0] * PowThreeQuarters(|ds| - 1) + Quarters(ds[1..])
  }

  lemma {:induction false} QuartersAppend(ds: seq<real>, d: real)
    ensures Quarters(ds + [d]) == 0.75 * Quarters(ds) + 0.25 * d
  {
    if ds == [] {
      assert [d][1..] == [];
      assert Quarters([d]) == 0.25 * d * PowThreeQuarters(0) + Quarters([]);
    } else {
      QuartersAppend(ds[1..], d);
      assert (ds + [d])[1..] == ds[1..] + [d] && (ds + [d])[0] == ds[0];
      MoveFactor(0.25 * ds[0], PowThreeQuarters(|ds| - 1));
    }
  }

  lemma {:induction false} QuartersNotNegative(ds: seq<real>)
    requires forall d :: d in ds ==> d >= 0.0
    ensures Quarters(ds) >= 0.0
  {
    if ds == [] {
    } else {
      assert ds[0] in ds && forall d :: d in ds[1..] ==> d in ds;
      QuartersNotNegative(ds[1..]);
      ProductZero(ds[0], PowThreeQuarters(|ds| - 1));
    }
  }

  /** One more deviation is smoothed in as the buffer does it. */
  lemma {:induction false} WeightedAppend(ds: seq<real>, d: real)
    requires d >= 0.0 && forall x :: x in ds ==> x >= 0.0
    ensures Weighted(ds + [d]) == Smooth(Weighted(ds), d)
  {
    if ds == [] {
      assert [d][1..] == [] && PowThreeQuarters(0) == 1.0;
      assert Weighted([]) == 0.0 && Quarters([]) == 0.0;
    } else {
      assert ds[0] in ds && forall x :: x in ds[1..] ==> x in ds;
      assert (ds + [d])[1..] == ds[1..] + [d] && (ds + [d])[0] == ds[0];
      if ds[0] == 0.0 {
        WeightedAppend(ds[1..], d);
      } else {
        QuartersAppend(ds[1..], d);
        QuartersNotNegative(ds[1..]);
        ProductZero(ds[0], PowThreeQuarters(|ds| - 1));
        MoveFactor(ds[0], PowThreeQuarters(|ds| - 1));
      }
    }
  }

  /** Over every run the average is that weighted sum of the packets' deviations. */
  lemma {:induction false} JitterIsWeighted(cfg: Config, evs: seq<Event>)
    requires cfg.Sane()
    ensures After(cfg, evs).ewmaJitterMs == Weighted(Deviations(cfg, evs))
  {
    if evs == [] {
    } else {
      var init, e := evs[..|evs| - 1], evs[|evs| - 1];
      JitterIsWeighted(cfg, init);
      PreviousIsLastTaken(cfg, init);
      ReachableInv(cfg, init);
      StatisticsStep(cfg, After(cfg, init), e);
      var before := LastTaken(cfg, init);
      if Takes(cfg, evs) && before.Some? && e.seqNo > before.value.seqNo {
        SpikeIsDeviation(cfg, before.value, e);
        WeightedAppend(Deviations(cfg, init), Abs(Offset(cfg, e) - Offset(cfg, before.value)) as real);
      }
    }
  }

  // ---- the target ------------------------------------------------------------------------------------------

  /** The fewest frames that last at least x. */
  predicate Covers(cfg: Config, frames: int, x: real) {
    (frames - 1) as real * cfg.frameMs as real < x <= frames as real * cfg.frameMs as real
  }

  lemma CeilCovers(cfg: Config, x: real)
    requires cfg.Sane()
    ensures Covers(cfg, Ceil(x / cfg.frameMs as real), x)
  {
    var f := cfg.frameMs as real;
    var q := x / f;
    assert q * f == x;
    assert (Ceil(q) - 1) as real < q <= Ceil(q) as real;
    MulMono(f, q, Ceil(q) as real);
    MulStrict(f, (Ceil(q) - 1) as real, q);
  }

  lemma MulStrict(f: real, x: real, y: real)
    requires f > 0.0 && x < y
    ensures x * f < y * f
  {
  }

  /** Over every run, after a packet that is not late: the baseline, the fewest frames that cover the
      weighted deviations, and one frame for each packet lost since the last tick, up to ten; in all
      no more than the limit. */
  lemma TargetAfterPacket(cfg: Config, evs: seq<Event>) returns (frames: int)
    requires cfg.Sane() && evs != [] && Takes(cfg, evs)
    ensures Covers(cfg, frames, Weighted(Deviations(cfg, evs)))
    ensures After(cfg, evs).target == Min(cfg.max, cfg.baseline + frames + Min(10, LostSinceTick(cfg, evs)))
  {
    PenaltyIsRecentLoss(cfg, evs);
    JitterIsWeighted(cfg, evs);
    ReachableInv(cfg, evs[..|evs| - 1]);
    TargetOfPush(cfg, After(cfg, evs[..|evs| - 1]), evs[|evs| - 1], After(cfg, evs));
    frames := TargetFrom(cfg, After(cfg, evs).target, Weighted(Deviations(cfg, evs)), Min(10, LostSinceTick(cfg, evs)));
  }

  lemma TargetFrom(cfg: Config, target: int, x: real, penalty: int) returns (frames: int)
    requires cfg.Sane() && target == Min(cfg.max, cfg.baseline + Ceil(x / cfg.frameMs as real) + penalty)
    ensures Covers(cfg, frames, x) && target == Min(cfg.max, cfg.baseline + frames + penalty)
  {
    frames := Ceil(x / cfg.frameMs as real);
    CeilCovers(cfg, x);
  }

  lemma TargetOfPush(cfg: Config, s: Jitter, e: Event, s': Jitter)
    requires Inv(cfg, s) && e.Push? && !Late(s, e.seqNo) && s' == Step(cfg, s, e)
    ensures s'.target == Min(cfg.max, cfg.baseline + Ceil(s'.ewmaJitterMs / cfg.frameMs as real) + s'.lossPenalty)
  {
    PushStatistics(cfg, s, e);
  }

  /** Nothing else moves it: not a late packet, not a pull, and not the tick that ends the penalty. */
  lemma TargetKept(cfg: Config, evs: seq<Event>)
    requires cfg.Sane()
    ensures evs == [] ==> After(cfg, evs).target == cfg.baseline
    ensures evs != [] && !Takes(cfg, evs) ==>
              After(cfg, evs).target == After(cfg, evs[..|evs| - 1]).target &&
              After(cfg, evs).ewmaJitterMs == After(cfg, evs[..|evs| - 1]).ewmaJitterMs
  {
    if evs != [] && !Takes(cfg, evs) {
      OthersKeepStatistics(cfg, After(cfg, evs[..|evs| - 1]), evs[|evs| - 1]);
    }
  }

  /** For example: one packet lost raises the target by one, the next tick leaves it, and the packet
      after the tick brings it down again. */
  lemma OneLostPacket(payload: Payload)
    ensures var lost := [Push(0, 0, payload), Push(2, 40, payload)];
            && After(DEFAULT_CONFIG, lost).target == 7
            && After(DEFAULT_CONFIG, lost + [Tick]).target == 7
            && After(DEFAULT_CONFIG, lost + [Tick] + [Push(3, 60, payload)]).target == 6
  {
    var cfg := DEFAULT_CONFIG;
    var a, b, c, d := Push(0, 0, payload), Push(2, 40, payload), Tick, Push(3, 60, payload);
    assert [a][..0] == [] && [a, b][..1] == [a] && ([a, b] + [c])[..2] == [a, b] && ([a, b] + [c] + [d])[..3] == [a, b] + [c];
    var s0, s1, s2 := Initial(cfg), After(cfg, [a]), After(cfg, [a, b]);
    assert After(cfg, []) == s0 && s1 == Step(cfg, s0, a);
    FirstPacket(s0, payload);
    StatisticsStep(cfg, s1, b);
    PushStatistics(cfg, s1, b);
    StepKeepsInv(cfg, s1, b);
    StepKeepsInv(cfg, s2, c);
    OthersKeepStatistics(cfg, s2, c);
    assert s2.next == Some(0);
    PushStatistics(cfg, Ticked(s2), d);
  }

  lemma FirstPacket(s: Jitter, payload: Payload)
    requires s == Initial(DEFAULT_CONFIG)
    ensures var s1 := Step(DEFAULT_CONFIG, s, Push(0, 0, payload));
            && Inv(DEFAULT_CONFIG, s) && Inv(DEFAULT_CONFIG, s1)
            && s1.next == Some(0) && s1.prevSeq == Some(0) && s1.prevTsMs == Some(0) && s1.ewmaJitterMs == 0.0
            && s1.lossPenalty == 0 && |s1.buf| == 1
  {
    StepKeepsInv(DEFAULT_CONFIG, s, Push(0, 0, payload));
    assert s.buf[0 := Entry(payload, 0)] == map[0 := Entry(payload, 0)];
  }
}
