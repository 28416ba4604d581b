/** The phone's channel under two receive threads (KoCrypto.java Channel.open, called by the WebSocket
    and the UDP receiver). The window's `accepts` and `mark` are each synchronized, but open decrypts
    between them without a lock: here threads interleave at exactly that granularity. */
module OpenRaces {
  import opened Bytes
  import Replay

  /** The ring buffer as a value. Unlike a plain set of counters it also says what a late mark does. */
  datatype Ring = Ring(size: nat, max: int, seen: seq<bool>)
  {
    predicate Valid() {
      size > 0 && |seen| == size && max >= -1
    }

    predicate Accepts(c: nat)
      requires Valid()
    {
      c > max || (max - c < size && !seen[c % size])
    }

    /** Whether moving the maximum to c clears slot i. */
    predicate Clears(c: nat, i: nat)
      requires Valid()
    {
      c > max && (c - max >= size || exists x :: max < x < c && x % size == i)
    }

    function Mark(c: nat): (r: Ring)
      requires Valid()
      ensures r.Valid() && r.size == size && r.max == if c > max then c else max
      ensures forall i :: 0 <= i < size ==> r.seen[i] == (i == c % size || (seen[i] && !Clears(c, i)))
    {
      Ring(size, if c > max then c else max,
        seq(size, i requires 0 <= i < size => i == c % size || (seen[i] && !Clears(c, i))))
    }
  }

  /** The ring says of the counters within reach what the plain set says. */
  ghost predicate Agree(ring: Ring, w: Replay.Window) {
    && ring.Valid() && w.Valid() && ring.size == w.size && ring.max == w.max
    && forall c: nat :: ring.max - ring.size < c <= ring.max ==> (ring.seen[c % ring.size] <==> c in w.accepted)
  }

  lemma NotCleared(ring: Ring, c: nat, d: nat)
    requires ring.Valid() && d <= ring.max && d > c - ring.size
    ensures !ring.Clears(c, d % ring.size)
  {
    if ring.Clears(c, d % ring.size) {
      var x :| ring.max < x < c && x % ring.size == d % ring.size;
      Replay.ModDistinct(d, x, ring.size);
      assert false;
    }
  }

  lemma OtherSlot(size: nat, c: nat, d: nat)
    requires size > 0 && c != d && c - size < d < c + size
    ensures c % size != d % size
  {
    if c < d {
      Replay.ModDistinct(c, d, size);
    } else {
      Replay.ModDistinct(d, c, size);
    }
  }

  /** Marks of counters still within reach, the only ones a single thread makes, keep ring and set in
      agreement, and then both accept the same counters. */
  lemma GuardedMarksAgree(ring: Ring, w: Replay.Window, c: nat)
    requires Agree(ring, w)
    ensures ring.Accepts(c) <==> w.Accepts(c)
    ensures c > ring.max - ring.size ==> Agree(ring.Mark(c), w.Mark(c))
  {
    if c > ring.max - ring.size {
      var ring', w' := ring.Mark(c), w.Mark(c);
      forall d: nat | ring'.max - ring'.size < d <= ring'.max
        ensures ring'.seen[d % ring'.size] <==> d in w'.accepted
      {
        if d != c {
          OtherSlot(ring.size, c, d);
          if d <= ring.max {
            NotCleared(ring, c, d);
          } else {
            assert ring.Clears(c, d % ring.size);
          }
        }
      }
    }
  }

  /** A call of open between its two synchronized steps; only a genuine frame will decrypt. */
  datatype Opening = Opening(counter: nat, genuine: bool)

  /** The ring, the calls under way by thread, and the counters handed up so far. */
  datatype Race = Race(ring: Ring, flight: map<nat, Opening>, handed: seq<nat>)

  datatype Step =
    | Check(thread: nat, counter: nat, genuine: bool)
    | Finish(thread: nat)

  function Start(size: nat): (r: Race)
    requires size > 0
    ensures r.ring.Valid()
  {
    Race(Ring(size, -1, seq(size, i => false)), map[], [])
  }

  /** One step; a thread does one thing at a time. */
  function Apply(r: Race, step: Step): (r': Race)
    requires r.ring.Valid()
    ensures r'.ring.Valid()
  {
    match step
    case Check(t, c, genuine) =>
      if t !in r.flight && r.ring.Accepts(c) then r.(flight := r.flight[t := Opening(c, genuine)]) else r
    case Finish(t) =>
      if t !in r.flight then r
      else
        var o := r.flight[t];
        if o.genuine then Race(r.ring.Mark(o.counter), r.flight - {t}, r.handed + [o.counter])
        else r.(flight := r.flight - {t})
  }

  function After(size: nat, steps: seq<Step>): (r: Race)
    requires size > 0
    ensures r.ring.Valid()
  {
    if steps == [] then Start(size) else Apply(After(size, steps[..|steps| - 1]), steps[|steps| - 1])
  }

  /** The threads about to hand up counter c. */
  function About(flight: map<nat, Opening>, c: nat): (ts: set<nat>)
    ensures forall t :: t in ts <==> t in flight && flight[t] == Opening(c, true)
  {
    set t | t in flight && flight[t] == Opening(c, true)
  }

  /** The interleaving: a genuine frame passes the window while another call for the same counter,
      also genuine, has passed it and not yet marked. */
  predicate Overlaps(r: Race, step: Step)
    requires r.ring.Valid()
  {
    step.Check? && step.genuine && step.thread !in r.flight && r.ring.Accepts(step.counter) &&
    About(r.flight, step.counter) != {}
  }

  predicate NeverOverlaps(size: nat, steps: seq<Step>)
    requires size > 0
  {
    steps != [] ==>
      NeverOverlaps(size, steps[..|steps| - 1]) && !Overlaps(After(size, steps[..|steps| - 1]), steps[|steps| - 1])
  }

  /** How often c was handed up or is about to be. */
  function Count(r: Race, c: nat): nat {
    multiset(r.handed)[c] + |About(r.flight, c)|
  }

  ghost predicate Once(r: Race) {
    forall c :: Count(r, c) <= 1
  }

  /** What was handed up is not accepted again, however late a mark comes. */
  ghost predicate Remembered(r: Race)
    requires r.ring.Valid()
  {
    forall c :: c in r.handed ==> c <= r.ring.max && (c > r.ring.max - r.ring.size ==> r.ring.seen[c % r.ring.size])
  }

  lemma MarkRemembers(ring: Ring, c: nat, d: nat)
    requires ring.Valid() && d <= ring.max && (d > ring.max - ring.size ==> ring.seen[d % ring.size])
    ensures var ring' := ring.Mark(c);
            d <= ring'.max && (d > ring'.max - ring'.size ==> ring'.seen[d % ring'.size])
  {
    if d > c - ring.size {
      NotCleared(ring, c, d);
    }
  }

  lemma StepRemembers(r: Race, step: Step)
    requires r.ring.Valid() && Remembered(r)
    ensures Remembered(Apply(r, step))
  {
    if step.Finish? && step.thread in r.flight && r.flight[step.thread].genuine {
      var c, r' := r.flight[step.thread].counter, Apply(r, step);
      forall d | d in r'.handed
        ensures d <= r'.ring.max && (d > r'.ring.max - r'.ring.size ==> r'.ring.seen[d % r'.ring.size])
      {
        if d in r.handed {
          MarkRemembers(r.ring, c, d);
        }
      }
    }
  }

  lemma CheckCounts(r: Race, t: nat, o: Opening, c: nat)
    requires t !in r.flight
    ensures |About(r.flight[t := o], c)| == |About(r.flight, c)| + (if o == Opening(c, true) then 1 else 0)
  {
    var more := About(r.flight[t := o], c);
    if o == Opening(c, true) {
      assert more == About(r.flight, c) + {t};
    } else {
      assert more == About(r.flight, c);
    }
  }

  lemma FinishCounts(r: Race, t: nat, c: nat)
    requires t in r.flight
    ensures |About(r.flight - {t}, c)| == |About(r.flight, c)| - (if r.flight[t] == Opening(c, true) then 1 else 0)
  {
    var less := About(r.flight - {t}, c);
    if r.flight[t] == Opening(c, true) {
      assert About(r.flight, c) == less + {t} && t !in less;
    } else {
      assert less == About(r.flight, c);
    }
  }

  /** Only a passing check of a genuine frame adds to a count; finishing moves it to the hand-ups. */
  lemma StepCounts(r: Race, step: Step, c: nat)
    requires r.ring.Valid()
    ensures Count(Apply(r, step), c) ==
            Count(r, c) + (if step == Check(step.thread, c, true) && step.thread !in r.flight && r.ring.Accepts(c) then 1 else 0)
  {
    match step
    case Check(t, d, genuine) =>
      if t !in r.flight && r.ring.Accepts(d) {
        CheckCounts(r, t, Opening(d, genuine), c);
      }
    case Finish(t) =>
      if t in r.flight {
        FinishCounts(r, t, c);
      }
  }

  lemma AcceptedIsNew(r: Race, c: nat)
    requires r.ring.Valid() && Remembered(r) && r.ring.Accepts(c)
    ensures Count(r, c) == |About(r.flight, c)|
  {
    assert c !in r.handed;
    assert c !in multiset(r.handed);
  }

  lemma StepOnceIff(r: Race, step: Step)
    requires r.ring.Valid() && Remembered(r)
    ensures Once(Apply(r, step)) <==> Once(r) && !Overlaps(r, step)
  {
    forall c
      ensures Count(r, c) <= Count(Apply(r, step), c)
    {
      StepCounts(r, step, c);
    }
    if step.Check? {
      StepCounts(r, step, step.counter);
    }
    if Once(r) && !Overlaps(r, step) {
      forall c
        ensures Count(Apply(r, step), c) <= 1
      {
        StepCounts(r, step, c);
        if r.ring.Accepts(c) {
          AcceptedIsNew(r, c);
        }
      }
    } else if Overlaps(r, step) {
      OverlapCounts(r, step);
    } else {
      var c :| Count(r, c) > 1;
      assert Count(Apply(r, step), c) > 1;
    }
  }

  lemma OverlapCounts(r: Race, step: Step)
    requires r.ring.Valid() && Overlaps(r, step)
    ensures Count(Apply(r, step), step.counter) >= 2
  {
    StepCounts(r, step, step.counter);
    assert |About(r.flight, step.counter)| > 0;
  }

  lemma {:induction false} OnceIff(size: nat, steps: seq<Step>)
    requires size > 0
    ensures Remembered(After(size, steps))
    ensures Once(After(size, steps)) <==> NeverOverlaps(size, steps)
  {
    if steps == [] {
    } else {
      var init, last := steps[..|steps| - 1], steps[|steps| - 1];
      OnceIff(size, init);
      StepRemembers(After(size, init), last);
      StepOnceIff(After(size, init), last);
    }
  }

  ghost predicate NoRepeats(cs: seq<nat>) {
    forall c :: multiset(cs)[c] <= 1
  }

  /** When all calls have returned: no message was handed up twice exactly when no genuine frame
      passed the window while another call for its counter was under way. In particular one receive
      thread alone never hands anything up twice. */
  lemma HandedOnceIff(size: nat, steps: seq<Step>)
    requires size > 0 && After(size, steps).flight == map[]
    ensures NoRepeats(After(size, steps).handed) <==> NeverOverlaps(size, steps)
  {
    OnceIff(size, steps);
    var r := After(size, steps);
    forall c
      ensures Count(r, c) == multiset(r.handed)[c]
    {
      assert About(r.flight, c) == {};
    }
  }

  /** The interleaving at work: both threads check the one message that came on both paths. */
  lemma OneMessageTwice(size: nat, c: nat)
    requires size > 0
    ensures After(size, [Check(0, c, true), Check(1, c, true), Finish(0), Finish(1)]).handed == [c, c]
  {
    var a, b, d, e := Check(0, c, true), Check(1, c, true), Finish(0), Finish(1);
    FourSteps(size, a, b, d, e);
  }

  lemma FourSteps(size: nat, a: Step, b: Step, d: Step, e: Step)
    requires size > 0
    ensures After(size, [a, b, d, e]) == Apply(Apply(Apply(Apply(Start(size), a), b), d), e)
  {
    assert [a][..0] == [] && [a, b][..1] == [a] && [a, b, d][..2] == [a, b] && [a, b, d, e][..3] == [a, b, d];
    assert After(size, [a]) == Apply(Start(size), a);
    assert After(size, [a, b]) == Apply(Apply(Start(size), a), b);
    assert After(size, [a, b, d]) == Apply(Apply(Apply(Start(size), a), b), d);
  }

  /** A mark that comes late also costs a message nobody has seen: the counter size, which shares its
      slot with 0, is refused although it is new and only one behind. */
  lemma LateMarkRefusesAnother(size: nat)
    requires size > 1
    ensures var r := After(size, [Check(0, 0, true), Check(1, size + 1, true), Finish(1), Finish(0)]);
            r.handed == [size + 1, 0] && r.ring.max == size + 1 && !r.ring.Accepts(size)
  {
    FourSteps(size, Check(0, 0, true), Check(1, size + 1, true), Finish(1), Finish(0));
    Replay.ModDistinct(size, size + 1, size);
  }

  /** Exactly when a mark costs another message its acceptance, although it is not too old: the marked
      counter had already fallen out of reach, the other is no new maximum, and they share a slot. */
  lemma MarkCostsIff(ring: Ring, c: nat, d: nat)
    requires ring.Valid() && d != c && ring.Accepts(d)
    ensures !ring.Mark(c).Accepts(d) && d > ring.Mark(c).max - ring.size <==>
            c <= ring.max - ring.size && d <= ring.max && d % ring.size == c % ring.size
  {
    if c > ring.max - ring.size {
      MarkInReachCostsNothing(ring, c, d);
    }
  }

  lemma MarkInReachCostsNothing(ring: Ring, c: nat, d: nat)
    requires ring.Valid() && d != c && ring.Accepts(d) && c > ring.max - ring.size
    ensures d > ring.Mark(c).max - ring.size ==> ring.Mark(c).Accepts(d)
  {
    if ring.Mark(c).max - ring.size < d <= ring.Mark(c).max {
      OtherSlot(ring.size, c, d);
      if d > ring.max {
        assert ring.Clears(c, d % ring.size);
      }
    }
  }

  /** Over every step of two threads: a message that would have been accepted, and is neither handed up
      nor too old afterwards, is refused exactly when the step is a late mark of a genuine frame that
      fell out of reach while it was being decrypted, in the message's slot. */
  lemma StepCostsIff(r: Race, step: Step, d: nat)
    requires r.ring.Valid() && Remembered(r) && r.ring.Accepts(d)
    ensures var r' := Apply(r, step);
            (d !in r'.handed && d > r'.ring.max - r'.ring.size && !r'.ring.Accepts(d)) <==>
            (step.Finish? && step.thread in r.flight && r.flight[step.thread].genuine &&
             var c := r.flight[step.thread].counter;
             c <= r.ring.max - r.ring.size && d <= r.ring.max && d % r.ring.size == c % r.ring.size)
  {
    assert d !in r.handed;
    if step.Finish? && step.thread in r.flight && r.flight[step.thread].genuine {
      var c := r.flight[step.thread].counter;
      if d != c {
        MarkCostsIff(r.ring, c, d);
      }
      assert Apply(r, step).handed == r.handed + [c];
    }
  }
}
