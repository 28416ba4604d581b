/** The anti-replay window (proto.js ReplayWindow, KoCrypto.java ReplayWindow). */
module Replay {
  import opened Bytes

  /** The window as a reader thinks of it: every counter ever accepted, in a plain set. */
  datatype Window = Window(size: nat, max: int, accepted: set<int>)
  {
    predicate Valid() {
      && size > 0
      && max >= -1
      && (forall c :: c in accepted ==> 0 <= c <= max)
      && (max >= 0 ==> max in accepted)
    }

    /** New, and less than `size` behind the highest counter accepted so far. */
    predicate Accepts(c: int) {
      0 <= c && c !in accepted && c > max - size
    }

    function Mark(c: int): Window {
      Window(size, if c > max then c else max, accepted + {c})
    }

    /** The guarded use every caller makes of the window. */
    function Offer(c: int): Window {
      if Accepts(c) then Mark(c) else this
    }
  }

  function Fresh(size: nat): Window {
    Window(size, -1, {})
  }

  /** The window after a run of offered counters. */
  function Offered(size: nat, cs: seq<int>): Window {
    if cs == [] then Fresh(size) else Offered(size, cs[..|cs| - 1]).Offer(cs[|cs| - 1])
  }

  /** Whether the i-th offer of a run is accepted. */
  predicate AcceptedAt(size: nat, cs: seq<int>, i: nat)
    requires i < |cs|
  {
    Offered(size, cs[..i]).Accepts(cs[i])
  }

  /** The window agrees with the offers of a run: which were accepted, and the highest. */
  ghost predicate Agrees(size: nat, cs: seq<int>, w: Window) {
    && w.Valid() && w.size == size
    && (forall c :: c in w.accepted <==> AcceptedIn(size, cs, c))
    && (forall i :: 0 <= i < |cs| ==> cs[i] <= w.max)
    && (w.max in cs || w.max == -1)
  }

  /** Some offer of c was accepted. */
  ghost predicate AcceptedIn(size: nat, cs: seq<int>, c: int) {
    exists i :: 0 <= i < |cs| && cs[i] == c && AcceptedAt(size, cs, i)
  }

  lemma AcceptedInMore(size: nat, init: seq<int>, last: int, c: int)
    ensures AcceptedIn(size, init + [last], c) <==>
            AcceptedIn(size, init, c) || (c == last && Offered(size, init).Accepts(last))
  {
    var cs, n := init + [last], |init|;
    assert cs[..n] == init;
    assert forall i | 0 <= i < n :: cs[..i] == init[..i];
    assert forall i | 0 <= i < n :: AcceptedAt(size, cs, i) == AcceptedAt(size, init, i);
    if i :| 0 <= i < n && init[i] == c && AcceptedAt(size, init, i) {
      assert cs[i] == c && AcceptedAt(size, cs, i);
    }
    if c == last && Offered(size, init).Accepts(last) {
      assert cs[n] == c && AcceptedAt(size, cs, n);
    }
  }

  /** After any run the set holds exactly the offers that were accepted, and the highest
      accepted counter is the highest offered one (a new maximum is never refused). */
  lemma {:induction false} OfferedExact(size: nat, cs: seq<int>)
    requires size > 0
    ensures Agrees(size, cs, Offered(size, cs))
  {
    if cs == [] {
    } else {
      var init, last := cs[..|cs| - 1], cs[|cs| - 1];
      OfferedExact(size, init);
      assert cs == init + [last];
      OfferAgrees(size, init, last);
    }
  }

  lemma OfferAgrees(size: nat, init: seq<int>, last: int)
    requires size > 0 && Agrees(size, init, Offered(size, init))
    ensures Agrees(size, init + [last], Offered(size, init).Offer(last))
  {
    var w := Offered(size, init);
    forall c
      ensures c in w.Offer(last).accepted <==> AcceptedIn(size, init + [last], c)
    {
      AcceptedInMore(size, init, last, c);
    }
    assert last in init + [last];
    assert w.max in init ==> w.max in init + [last];
  }

  /** No counter is accepted twice in a run. */
  lemma {:induction false} NeverAcceptedTwice(size: nat, cs: seq<int>, i: nat, j: nat)
    requires size > 0 && i < j < |cs|
    requires AcceptedAt(size, cs, i) && AcceptedAt(size, cs, j)
    ensures cs[i] != cs[j]
  {
    OfferedExact(size, cs[..j]);
    assert cs[..j][..i] == cs[..i];
    assert AcceptedAt(size, cs[..j], i);
    assert AcceptedIn(size, cs[..j], cs[i]);
  }

  /** In a run without repeats, an offer is refused exactly when some earlier one
      is `size` or more ahead of it. */
  lemma {:induction false} AcceptedIffNotOvertaken(size: nat, cs: seq<int>, i: nat)
    requires size > 0 && i < |cs|
    requires forall j :: 0 <= j < |cs| ==> cs[j] >= 0
    requires forall j, k :: 0 <= j < k < |cs| ==> cs[j] != cs[k]
    ensures AcceptedAt(size, cs, i) <==> forall j :: 0 <= j < i ==> cs[j] - cs[i] < size
  {
    var w := Offered(size, cs[..i]);
    OfferedExact(size, cs[..i]);
    if w.max in cs[..i] {
      var j :| 0 <= j < i && cs[j] == w.max;
      assert cs[j] - cs[i] < size <==> cs[i] > w.max - size;
    }
    assert forall j :: 0 <= j < i ==> cs[..i][j] == cs[j] <= w.max;
  }

  lemma NoMultipleBetween(n: nat, q: int)
    ensures !(0 < n * q < n)
  {
    if q >= 1 {
      assert n * q >= n;
    } else {
      assert n * q <= 0;
    }
  }

  lemma ModDistinct(c: int, d: int, n: nat)
    requires n > 0 && c < d < c + n
    ensures c % n != d % n
  {
    NoMultipleBetween(n, d / n - c / n);
  }

  /** Counters that share no slot: any two distinct ones less than n apart. */
  lemma SlotsDistinct(lo: int, n: nat)
    requires n > 0
    ensures forall c, d :: lo < c < d <= lo + n ==> c % n != d % n
  {
    forall c, d | lo < c < d <= lo + n
      ensures c % n != d % n
    {
      ModDistinct(c, d, n);
    }
  }

  /** The ring buffer the code keeps: one slot per counter modulo `size`, cleared lazily
      when the maximum moves. `accepted` is the ghost record it has to agree with. */
  class ReplayWindow {
    const size: nat
    const seen: array<byte>
    var max: int
    ghost var accepted: set<int>

    ghost predicate Valid()
      reads this, seen
    {
      && seen.Length == size
      && Model().Valid()
      && forall c :: max - size < c <= max ==> (seen[c % size] != 0 <==> c in accepted)
    }

    ghost function Model(): Window
      reads this
    {
      Window(size, max, accepted)
    }

    constructor (size: nat)
      requires size > 0
      ensures Valid() && fresh(seen) && Model() == Fresh(size)
    {
      this.size := size;
      max := -1;
      seen := new byte[size](i => 0);
      accepted := {};
    }

    method Accepts(counter: int) returns (ok: bool)
      requires Valid()
      ensures ok == Model().Accepts(counter)
    {
      if counter < 0 {
        return false;
      }
      if counter > max {
        return true;
      }
      if max - counter >= size {
        return false;
      }
      return seen[counter % size] == 0;
    }

    /** Callers mark only what Accepts let through; all the ring needs is that the counter
        has not already fallen out of the window. */
    method Mark(counter: int)
      requires Valid() && 0 <= counter && counter > max - size
      modifies this, seen
      ensures Valid() && Model() == old(Model()).Mark(counter)
    {
      SlotsDistinct(max - size, size);
      if counter > max {
        if counter - max >= size {
          for i := 0 to size
            invariant seen.Length == size
            invariant forall j :: 0 <= j < i ==> seen[j] == 0
            modifies seen
          {
            seen[i] := 0;
          }
        } else {
          var c := max + 1;
          while c < counter
            invariant max + 1 <= c <= counter
            invariant forall d :: max < d < c ==> seen[d % size] == 0
            invariant forall d :: counter - size < d <= max ==> (seen[d % size] != 0 <==> d in accepted)
            modifies seen
          {
            SlotsDistinct(counter - size, size);
            seen[c % size] := 0;
            c := c + 1;
          }
        }
        SlotsDistinct(counter - size, size);
        max := counter;
      }
      accepted := accepted + {counter};
      seen[counter % size] := 1;
    }
  }
}
