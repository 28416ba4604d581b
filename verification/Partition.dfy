/** The partition buffer of the phone (AgentChannelPlugin.java: outbound, trimBuffer, flush): a
    bounded FIFO of sealed frames that drops its oldest audio first. */
module Partition {
  import opened Bytes
  import Frames

  const MAX_BUFFER_BYTES: nat := 4 * 1024 * 1024
  const MAX_BUFFER_FRAMES: nat := 12000

  /** A sealed frame as the buffer and the wire see it: type byte, nonce counter and length. */
  datatype Item = Item(kind: byte, counter: nat, size: nat)
  {
    predicate IsAudio() {
      kind == Frames.TYPE_AUDIO
    }
  }

  function Size(buf: seq<Item>): nat {
    if buf == [] then 0 else buf[0].size + Size(buf[1..])
  }

  /** Within both caps, as far as the byte counter knows: it may be off by x. */
  predicate Fits(buf: seq<Item>, x: int) {
    Size(buf) + x <= MAX_BUFFER_BYTES && |buf| <= MAX_BUFFER_FRAMES
  }

  function Audio(buf: seq<Item>): seq<Item> {
    if buf == [] then [] else (if buf[0].IsAudio() then [buf[0]] else []) + Audio(buf[1..])
  }

  function NonAudio(buf: seq<Item>): seq<Item> {
    if buf == [] then [] else (if buf[0].IsAudio() then [] else [buf[0]]) + NonAudio(buf[1..])
  }

  /** The buffer without its k oldest audio frames. */
  function DropAudio(buf: seq<Item>, k: nat): seq<Item> {
    if k == 0 || buf == [] then buf
    else if buf[0].IsAudio() then DropAudio(buf[1..], k - 1)
    else [buf[0]] + DropAudio(buf[1..], k)
  }

  /** The frames of a come from b, in b's order. */
  predicate Subsequence(a: seq<Item>, b: seq<Item>) {
    a == [] || (b != [] && ((a[0] == b[0] && Subsequence(a[1..], b[1..])) || Subsequence(a, b[1..])))
  }

  // ---- what trimming promises -------------------------------------------------------------------------

  /** k audio frames go, and none of them needlessly; then j more from the front, only once there is
      no audio left, and again none needlessly. The rest fits, or nothing is left. */
  predicate TrimsBy(buf: seq<Item>, x: int, k: nat, j: nat, trimmed: seq<Item>) {
    && k <= |Audio(buf)| && j <= |DropAudio(buf, k)|
    && trimmed == DropAudio(buf, k)[j..]
    && (Fits(trimmed, x) || trimmed == [])
    && (k > 0 ==> !Fits(DropAudio(buf, k - 1), x))
    && (j > 0 ==> k == |Audio(buf)| && !Fits(DropAudio(buf, k)[j - 1..], x))
  }

  /** What a trim makes of a buffer whose byte counter is off by x. */
  ghost predicate Trims(buf: seq<Item>, x: int, trimmed: seq<Item>) {
    exists k: nat, j: nat :: TrimsBy(buf, x, k, j, trimmed)
  }

  lemma DropAudioSplits(buf: seq<Item>, k: nat)
    requires k <= |Audio(buf)|
    ensures NonAudio(DropAudio(buf, k)) == NonAudio(buf)
    ensures Audio(DropAudio(buf, k)) == Audio(buf)[k..]
  {
    DropAudioKeepsOthers(buf, k);
    DropAudioDropsOldest(buf, k);
  }

  lemma {:induction false} DropAudioKeepsOthers(buf: seq<Item>, k: nat)
    ensures NonAudio(DropAudio(buf, k)) == NonAudio(buf)
  {
    if buf == [] || k == 0 {
    } else {
      if buf[0].IsAudio() {
        DropAudioKeepsOthers(buf[1..], k - 1);
      } else {
        DropAudioKeepsOthers(buf[1..], k);
        var rest := DropAudio(buf[1..], k);
        assert ([buf[0]] + rest)[1..] == rest;
      }
    }
  }

  lemma AudioCons(f: Item, rest: seq<Item>)
    ensures Audio([f] + rest) == (if f.IsAudio() then [f] else []) + Audio(rest)
  {
    assert ([f] + rest)[1..] == rest;
  }

  lemma {:induction false} DropAudioDropsOldest(buf: seq<Item>, k: nat)
    requires k <= |Audio(buf)|
    ensures Audio(DropAudio(buf, k)) == Audio(buf)[k..]
  {
    if buf == [] || k == 0 {
    } else if buf[0].IsAudio() {
      DropAudioDropsOldest(buf[1..], k - 1);
      assert Audio(buf)[k..] == Audio(buf[1..])[k - 1..];
    } else {
      DropAudioDropsOldest(buf[1..], k);
      AudioCons(buf[0], DropAudio(buf[1..], k));
    }
  }

  lemma {:induction false} DropAudioInOrder(buf: seq<Item>, k: nat)
    ensures Subsequence(DropAudio(buf, k), buf)
  {
    if buf == [] || k == 0 {
      SubsequenceSelf(buf);
    } else if buf[0].IsAudio() {
      DropAudioInOrder(buf[1..], k - 1);
    } else {
      DropAudioInOrder(buf[1..], k);
      var rest := DropAudio(buf[1..], k);
      assert ([buf[0]] + rest)[1..] == rest;
    }
  }

  lemma {:induction false} SubsequenceSelf(buf: seq<Item>)
    ensures Subsequence(buf, buf)
  {
    if buf == [] {
    } else {
      SubsequenceSelf(buf[1..]);
    }
  }

  lemma {:induction false} SubsequenceSuffix(a: seq<Item>, b: seq<Item>, j: nat)
    requires Subsequence(a, b) && j <= |a|
    ensures Subsequence(a[j..], b)
    decreases |b|
  {
    if j == 0 {
    } else {
      if a[0] == b[0] && Subsequence(a[1..], b[1..]) {
        SubsequenceSuffix(a[1..], b[1..], j - 1);
        assert a[1..][j - 1..] == a[j..];
      } else {
        SubsequenceSuffix(a, b[1..], j);
      }
    }
  }

  /** Dropping one more audio frame only makes the buffer smaller. */
  lemma {:induction false} DropOneMore(buf: seq<Item>, k: nat)
    ensures Size(DropAudio(buf, k + 1)) <= Size(DropAudio(buf, k))
    ensures |DropAudio(buf, k + 1)| <= |DropAudio(buf, k)|
  {
    if buf == [] {
    } else {
      if buf[0].IsAudio() {
        if k > 0 {
          DropOneMore(buf[1..], k - 1);
        } else {
          assert DropAudio(buf[1..], 0) == buf[1..];
        }
      } else {
        DropOneMore(buf[1..], k);
        if k == 0 {
          assert DropAudio(buf[1..], 0) == buf[1..];
        }
        assert ([buf[0]] + DropAudio(buf[1..], k + 1))[1..] == DropAudio(buf[1..], k + 1);
        assert ([buf[0]] + DropAudio(buf[1..], k))[1..] == DropAudio(buf[1..], k);
      }
    }
  }

  lemma {:induction false} DropMoreFits(buf: seq<Item>, x: int, k: nat, m: nat)
    requires k <= m && Fits(DropAudio(buf, k), x)
    ensures Fits(DropAudio(buf, m), x)
    decreases m - k
  {
    if k < m {
      DropOneMore(buf, k);
      DropMoreFits(buf, x, k + 1, m);
    }
  }

  lemma {:induction false} SuffixFits(buf: seq<Item>, x: int, i: nat, j: nat)
    requires i <= j <= |buf| && Fits(buf[i..], x)
    ensures Fits(buf[j..], x)
    decreases j - i
  {
    if i < j {
      assert buf[i..][1..] == buf[i + 1..];
      SuffixFits(buf, x, i + 1, j);
    }
  }

  /** What survives fits both caps, unless the counter alone is over and nothing survives, and keeps
      its order; a buffer that fits loses nothing. */
  lemma TrimKeepsOrder(buf: seq<Item>, x: int, trimmed: seq<Item>)
    requires Trims(buf, x, trimmed)
    ensures Subsequence(trimmed, buf)
    ensures if x <= MAX_BUFFER_BYTES then Fits(trimmed, x) else trimmed == []
    ensures Fits(buf, x) ==> trimmed == buf
  {
    var k: nat, j: nat :| TrimsBy(buf, x, k, j, trimmed);
    DropAudioInOrder(buf, k);
    SubsequenceSuffix(DropAudio(buf, k), buf, j);
    assert DropAudio(buf, 0)[0..] == buf && buf[0..] == buf;
    if Fits(buf, x) {
      TrimNoLonger(buf, x, 0, 0, buf, k, j, trimmed);
    }
  }

  lemma FittingIsKept(buf: seq<Item>, x: int)
    requires Fits(buf, x)
    ensures Trims(buf, x, buf)
  {
    assert DropAudio(buf, 0)[0..] == buf;
    assert TrimsBy(buf, x, 0, 0, buf);
  }

  /** Which frames survive: all non-audio frames and the newest audio, unless the non-audio frames
      alone are too many, and then only the newest of those. */
  lemma TrimPrefersCommands(buf: seq<Item>, x: int, trimmed: seq<Item>)
    requires Trims(buf, x, trimmed)
    ensures Fits(NonAudio(buf), x) ==>
              NonAudio(trimmed) == NonAudio(buf) &&
              exists k :: 0 <= k <= |Audio(buf)| && Audio(trimmed) == Audio(buf)[k..]
    ensures !Fits(NonAudio(buf), x) ==>
              exists j :: 0 <= j <= |NonAudio(buf)| && trimmed == NonAudio(buf)[j..]
  {
    var k: nat, j: nat :| TrimsBy(buf, x, k, j, trimmed);
    var n := |Audio(buf)|;
    DropAllAudio(buf);
    if Fits(NonAudio(buf), x) {
      if j > 0 {
        assert NonAudio(buf)[0..] == NonAudio(buf);
        SuffixFits(NonAudio(buf), x, 0, j - 1);
      }
      assert trimmed == DropAudio(buf, k);
      DropAudioSplits(buf, k);
    } else {
      if k < n {
        NothingLeftMeansAll(buf, k, j);
        DropMoreFits(buf, x, k, n);
      }
      assert trimmed == NonAudio(buf)[j..];
    }
  }

  /** Dropping fewer audio frames than there are, and nothing else, leaves something. */
  lemma NothingLeftMeansAll(buf: seq<Item>, k: nat, j: nat)
    requires k < |Audio(buf)| && j <= |DropAudio(buf, k)|
    ensures j == 0 ==> DropAudio(buf, k)[j..] == DropAudio(buf, k) != []
  {
    DropAudioSplits(buf, k);
    assert |Audio(buf)[k..]| > 0;
  }

  lemma DropAllAudio(buf: seq<Item>)
    ensures DropAudio(buf, |Audio(buf)|) == NonAudio(buf)
  {
    var rest := DropAudio(buf, |Audio(buf)|);
    DropAudioSplits(buf, |Audio(buf)|);
    assert Audio(buf)[|Audio(buf)|..] == [];
    NoAudioIsNonAudio(rest);
  }

  lemma {:induction false} NoAudioIsNonAudio(buf: seq<Item>)
    ensures Audio(buf) == [] ==> NonAudio(buf) == buf
  {
    if buf == [] {
    } else {
      NoAudioIsNonAudio(buf[1..]);
    }
  }

  lemma TrimUnique(buf: seq<Item>, x: int, t1: seq<Item>, t2: seq<Item>)
    requires Trims(buf, x, t1) && Trims(buf, x, t2)
    ensures t1 == t2
  {
    var k1: nat, j1: nat :| TrimsBy(buf, x, k1, j1, t1);
    var k2: nat, j2: nat :| TrimsBy(buf, x, k2, j2, t2);
    TrimNoLonger(buf, x, k1, j1, t1, k2, j2, t2);
    TrimNoLonger(buf, x, k2, j2, t2, k1, j1, t1);
  }

  lemma TrimNoLonger(buf: seq<Item>, x: int, k1: nat, j1: nat, t1: seq<Item>, k2: nat, j2: nat, t2: seq<Item>)
    requires TrimsBy(buf, x, k1, j1, t1) && TrimsBy(buf, x, k2, j2, t2)
    ensures k2 <= k1 && (k1 == k2 ==> j2 <= j1)
  {
    if k1 < k2 {
      if j1 == 0 {
        NothingLeftMeansAll(buf, k1, j1);
        assert DropAudio(buf, k1)[0..] == DropAudio(buf, k1);
        DropMoreFits(buf, x, k1, k2 - 1);
      }
    } else if k1 == k2 && j1 < j2 {
      if t1 != [] {
        SuffixFits(DropAudio(buf, k1), x, j1, j2 - 1);
      }
    }
  }

  // ---- the operations on values ---------------------------------------------------------------------------

  /** The fields of the buffer, and the frames handed to the socket. */
  datatype Held = Held(buffer: seq<Item>, bufferedBytes: int, failures: int, wire: seq<Item>)
  {
    /** How far the byte counter is off. It is not, as long as there is a socket. */
    function Excess(): int {
      bufferedBytes - Size(buffer)
    }
  }

  /** outbound: buffer and trim while a failure is on record, otherwise send, if there is a socket. */
  ghost predicate Enqueues(h: Held, frame: Item, socketUp: bool, h': Held) {
    if h.failures > 0 then
      h' == h.(buffer := h'.buffer, bufferedBytes := Size(h'.buffer) + h.Excess()) &&
      Trims(h.buffer + [frame], h.Excess(), h'.buffer)
    else h' == h.(wire := h.wire + (if socketUp then [frame] else []))
  }

  /** flush: everything goes out; without a socket the oldest frame is polled and lost. */
  function Flushed(h: Held, socketUp: bool): Held {
    var left := if socketUp || h.buffer == [] then [] else h.buffer[1..];
    h.(buffer := left, bufferedBytes := if left == [] then 0 else h.bufferedBytes,
       wire := h.wire + (if socketUp then h.buffer else []))
  }

  /** An authenticated frame ends the partition. */
  function Authenticated(h: Held, socketUp: bool): Held {
    if h.failures > 0 then Flushed(h.(failures := 0), socketUp) else h.(failures := 0)
  }

  lemma {:induction false} AudioAppend(buf: seq<Item>, f: Item)
    ensures Audio(buf + [f]) == Audio(buf) + (if f.IsAudio() then [f] else [])
  {
    if buf == [] {
      assert [f][1..] == [] && buf + [f] == [f];
    } else {
      AudioAppend(buf[1..], f);
      assert (buf + [f])[1..] == buf[1..] + [f] && (buf + [f])[0] == buf[0];
      Regroup(if buf[0].IsAudio() then [buf[0]] else [], Audio(buf[1..]), if f.IsAudio() then [f] else []);
    }
  }

  lemma {:induction false} NonAudioAppend(buf: seq<Item>, f: Item)
    ensures NonAudio(buf + [f]) == NonAudio(buf) + (if f.IsAudio() then [] else [f])
  {
    if buf == [] {
      assert [f][1..] == [] && buf + [f] == [f];
    } else {
      NonAudioAppend(buf[1..], f);
      assert (buf + [f])[1..] == buf[1..] + [f] && (buf + [f])[0] == buf[0];
      Regroup(if buf[0].IsAudio() then [] else [buf[0]], NonAudio(buf[1..]), if f.IsAudio() then [] else [f]);
    }
  }

  /** As long as older audio suffices, the newest frame stays last. */
  lemma {:induction false} DropAudioKeepsLast(buf: seq<Item>, f: Item, k: nat)
    requires k <= |Audio(buf)|
    ensures DropAudio(buf + [f], k) == DropAudio(buf, k) + [f]
  {
    if k > 0 {
      assert (buf + [f])[1..] == buf[1..] + [f] && (buf + [f])[0] == buf[0];
      DropAudioKeepsLast(buf[1..], f, if buf[0].IsAudio() then k - 1 else k);
    }
  }

  predicate EndsWith(buf: seq<Item>, f: Item) {
    buf != [] && buf[|buf| - 1] == f
  }

  /** What has to fit for the newest frame to survive a trim: itself, and if it is audio, all the non-audio
      with it. */
  function Required(buf: seq<Item>, f: Item): seq<Item> {
    if f.IsAudio() then NonAudio(buf) + [f] else [f]
  }

  /** Exactly when the frame just added survives a trim. */
  lemma NewestSurvivesIff(buf: seq<Item>, f: Item, x: int, trimmed: seq<Item>)
    requires Trims(buf + [f], x, trimmed) && f !in buf
    ensures EndsWith(trimmed, f) <==> Fits(Required(buf, f), x)
  {
    var k: nat, j: nat :| TrimsBy(buf + [f], x, k, j, trimmed);
    AudioAppend(buf, f);
    NonAudioAppend(buf, f);
    var n := |Audio(buf)|;
    DropAudioKeepsLast(buf, f, n);
    DropAllAudio(buf);
    if k <= n {
      DropAudioKeepsLast(buf, f, k);
      NewestBehind(buf, f, x, k, j, trimmed);
    } else {
      DropAllAudio(buf + [f]);
      SuffixMembers(NonAudio(buf), j);
      NonAudioMembers(buf);
    }
  }

  lemma SuffixMembers(buf: seq<Item>, j: nat)
    requires j <= |buf|
    ensures forall x :: x in buf[j..] ==> x in buf
  {
  }

  lemma {:induction false} NonAudioMembers(buf: seq<Item>)
    ensures forall x :: x in NonAudio(buf) ==> x in buf
  {
    if buf == [] {
    } else {
      NonAudioMembers(buf[1..]);
      HeadTail(buf);
    }
  }

  /** The trim stopped with the newest frame still behind what was left of the audio. */
  lemma NewestBehind(buf: seq<Item>, f: Item, x: int, k: nat, j: nat, trimmed: seq<Item>)
    requires TrimsBy(buf + [f], x, k, j, trimmed) && k <= |Audio(buf)| && Audio(buf + [f]) == Audio(buf) + (if f.IsAudio() then [f] else [])
    requires DropAudio(buf + [f], k) == DropAudio(buf, k) + [f]
    requires DropAudio(buf + [f], |Audio(buf)|) == NonAudio(buf) + [f]
    ensures EndsWith(trimmed, f) <==> Fits(Required(buf, f), x)
  {
    var rest := DropAudio(buf + [f], k);
    if f.IsAudio() {
      assert j == 0 && trimmed == rest[0..] == rest;
      DropMoreFits(buf + [f], x, k, |Audio(buf)|);
    } else {
      assert rest[|rest| - 1..] == [f];
      if trimmed == [] {
        assert j == |rest|;
      } else {
        SuffixFits(rest, x, j, |rest| - 1);
      }
    }
  }

  /** Exactly when a frame given to outbound goes anywhere: during a failure if it survives the trim, and
      otherwise if there is a socket. Without one it is lost, although no failure is on record. */
  lemma OfferedIsKeptIff(h: Held, f: Item, socketUp: bool, h': Held)
    requires Enqueues(h, f, socketUp, h') && f !in h.buffer && f !in h.wire
    ensures f in h'.wire <==> h.failures <= 0 && socketUp
    ensures EndsWith(h'.buffer, f) <==> h.failures > 0 && Fits(Required(h.buffer, f), h.Excess())
  {
    if h.failures > 0 {
      NewestSurvivesIff(h.buffer, f, h.Excess(), h'.buffer);
    } else if socketUp {
      assert f in h.wire + [f];
    }
  }

  /** A flush leaves the byte counter exact exactly when there is a socket, or nothing remains, or the
      counter was off by just the frame that is lost. */
  lemma FlushCountsIff(h: Held, socketUp: bool)
    ensures Flushed(h, socketUp).Excess() == 0 <==>
            socketUp || |h.buffer| <= 1 || h.Excess() + h.buffer[0].size == 0
  {
  }

  /** k flushes in a row that find the socket gone. */
  function FlushedWithout(h: Held, k: nat): Held {
    if k == 0 then h else Flushed(FlushedWithout(h, k - 1), false)
  }

  /** Each of them loses the oldest frame and leaves its bytes in the counter; only an emptied buffer
      sets the counter right again. */
  lemma {:induction false} LossesAddUp(h: Held, k: nat)
    requires h.Excess() == 0
    ensures var h' := FlushedWithout(h, k);
            && h'.wire == h.wire
            && if k < |h.buffer| then h'.buffer == h.buffer[k..] && h'.Excess() == Size(h.buffer[..k])
               else h'.buffer == [] && h'.Excess() == 0
  {
    if k == 0 {
      assert h.buffer[..0] == [] && h.buffer[0..] == h.buffer;
    } else {
      LossesAddUp(h, k - 1);
      AppendNothing(h.wire);
      if k < |h.buffer| {
        SizeAppend(h.buffer[..k - 1], h.buffer[k - 1]);
        assert h.buffer[..k - 1] + [h.buffer[k - 1]] == h.buffer[..k];
        assert h.buffer[k - 1..][1..] == h.buffer[k..];
      }
    }
  }

  /** Of a counter that was exact, k such flushes make an exact one exactly when they empty the buffer,
      or k is 0. Sealed frames are never empty. */
  lemma CounterExactIff(h: Held, k: nat)
    requires h.Excess() == 0 && forall i :: 0 <= i < |h.buffer| ==> h.buffer[i].size > 0
    ensures FlushedWithout(h, k).Excess() == 0 <==> k == 0 || k >= |h.buffer|
  {
    LossesAddUp(h, k);
    if 0 < k < |h.buffer| {
      assert h.buffer[..k][0] == h.buffer[0];
    }
  }

  // ---- the object -----------------------------------------------------------------------------------------

  class PartitionBuffer {
    var buffer: seq<Item>
    var bufferedBytes: int
    var failures: int
    var socketUp: bool
    /** The frames handed to the socket. */
    var wire: seq<Item>

    function State(): Held
      reads this
    {
      Held(buffer, bufferedBytes, failures, wire)
    }

    constructor (socketUp: bool)
      ensures State() == Held([], 0, 0, []) && this.socketUp == socketUp
    {
      buffer, bufferedBytes, failures, wire := [], 0, 0, [];
      this.socketUp := socketUp;
    }

    predicate Over()
      reads this
    {
      bufferedBytes > MAX_BUFFER_BYTES || |buffer| > MAX_BUFFER_FRAMES
    }

    method TrimBuffer()
      modifies `buffer, `bufferedBytes
      ensures State().Excess() == old(State().Excess()) && Trims(old(buffer), old(State().Excess()), buffer)
    {
      ghost var buf, x := buffer, State().Excess();
      ghost var k, j := 0, 0;
      if !Over() {
        FittingIsKept(buf, x);
        return;
      }
      k := TrimAudio();
      assert DropAudio(buf, k)[0..] == buffer;
      while Over() && buffer != []
        invariant State().Excess() == x
        invariant k <= |Audio(buf)| && j <= |DropAudio(buf, k)| && buffer == DropAudio(buf, k)[j..]
        invariant k > 0 ==> !Fits(DropAudio(buf, k - 1), x)
        invariant k == |Audio(buf)| || !Over()
        invariant j > 0 ==> k == |Audio(buf)| && !Fits(DropAudio(buf, k)[j - 1..], x)
        decreases |buffer|
      {
        var f := buffer[0];
        assert buffer[1..] == DropAudio(buf, k)[j + 1..];
        buffer := buffer[1..];
        bufferedBytes := bufferedBytes - f.size;
        j := j + 1;
      }
      assert TrimsBy(buf, x, k, j, buffer);
    }

    /** The iterator pass: remove audio frames, oldest first, while over a cap. */
    method TrimAudio() returns (ghost k: nat)
      modifies `buffer, `bufferedBytes
      ensures State().Excess() == old(State().Excess())
      ensures k <= |Audio(old(buffer))| && buffer == DropAudio(old(buffer), k)
      ensures k > 0 ==> !Fits(DropAudio(old(buffer), k - 1), old(State().Excess()))
      ensures k == |Audio(old(buffer))| || !Over()
    {
      ghost var buf, x := buffer, State().Excess();
      k := 0;
      var i := 0;
      PassStart(buf);
      while i < |buffer| && Over()
        invariant State().Excess() == x && Passed(buf, k, buffer, i) && Needed(buf, x, k)
        decreases |buffer| - i
      {
        if buffer[i].IsAudio() {
          ghost var cur := buffer;
          PassRemove(buf, x, k, cur, i);
          RemoveAt(i);
          assert buffer == cur[..i] + cur[i + 1..];
          k := k + 1;
        } else {
          PassKeep(buf, k, buffer, i);
          i := i + 1;
        }
      }
      PassEnd(buf, k, buffer, i);
    }

    method RemoveAt(i: nat)
      requires i < |buffer|
      modifies `buffer, `bufferedBytes
      ensures State().Excess() == old(State().Excess()) && buffer == old(buffer)[..i] + old(buffer)[i + 1..]
    {
      SizeRemove(buffer, i);
      bufferedBytes := bufferedBytes - buffer[i].size;
      buffer := buffer[..i] + buffer[i + 1..];
    }

    method Outbound(frame: Item)
      modifies `buffer, `bufferedBytes, `wire
      ensures Enqueues(old(State()), frame, socketUp, State())
    {
      if failures > 0 {
        SizeAppend(buffer, frame);
        buffer := buffer + [frame];
        bufferedBytes := bufferedBytes + frame.size;
        TrimBuffer();
      } else if socketUp {
        wire := wire + [frame];
      } else {
        AppendNothing(wire);
      }
    }

    /** The poll loop: the frame polled when the socket turns out to be gone is not put back. */
    method Flush()
      modifies `buffer, `bufferedBytes, `wire
      ensures State() == Flushed(old(State()), socketUp)
    {
      ghost var sent := 0;
      while true
        invariant sent <= |old(buffer)| && (socketUp || bufferedBytes == old(bufferedBytes))
        invariant buffer == old(buffer)[sent..] && wire == old(wire) + old(buffer)[..sent]
        invariant !socketUp ==> sent == 0
        decreases |buffer|
      {
        if buffer == [] {
          break;
        }
        var f := buffer[0];
        if !socketUp {
          buffer := buffer[1..];
          break;
        }
        buffer := buffer[1..];
        bufferedBytes := bufferedBytes - f.size;
        wire := wire + [f];
        sent := sent + 1;
      }
      if buffer == [] {
        bufferedBytes := 0;
      }
    }

    /** The liveness part of onFrame, for an authenticated frame. */
    method OnAuthenticated()
      modifies `buffer, `bufferedBytes, `wire, `failures
      ensures State() == Authenticated(old(State()), socketUp)
    {
      var wasBuffering := failures > 0;
      failures := 0;
      if wasBuffering {
        Flush();
      }
    }
  }

  // ---- sizes ------------------------------------------------------------------------------------------------

  lemma {:induction false} SizeAppend(buf: seq<Item>, f: Item)
    ensures Size(buf + [f]) == Size(buf) + f.size
  {
    if buf == [] {
    } else {
      SizeAppend(buf[1..], f);
      assert (buf + [f])[1..] == buf[1..] + [f];
    }
  }

  lemma {:induction false} SizeRemove(buf: seq<Item>, i: nat)
    requires i < |buf|
    ensures Size(buf[..i] + buf[i + 1..]) == Size(buf) - buf[i].size
  {
    var less := buf[..i] + buf[i + 1..];
    if i == 0 {
      assert less == buf[1..];
    } else {
      SizeRemove(buf[1..], i - 1);
      assert less[1..] == buf[1..][..i - 1] + buf[1..][i..];
    }
  }

  /** The iterator pass at position i: k audio frames are gone, and the part before i has none left. */
  predicate Passed(buf: seq<Item>, k: nat, cur: seq<Item>, i: nat) {
    && i <= |cur| && k <= |Audio(buf)| && cur == DropAudio(buf, k)
    && Audio(cur[..i]) == [] && Audio(cur[i..]) == Audio(buf)[k..]
  }

  /** The last of the k audio frames dropped had to go. */
  predicate Needed(buf: seq<Item>, x: int, k: nat) {
    k > 0 ==> !Fits(DropAudio(buf, k - 1), x)
  }

  lemma PassStart(buf: seq<Item>)
    ensures Passed(buf, 0, buf, 0)
  {
    assert buf[0..] == buf && Audio(buf)[0..] == Audio(buf);
  }

  lemma PassEnd(buf: seq<Item>, k: nat, cur: seq<Item>, i: nat)
    requires Passed(buf, k, cur, i)
    ensures i == |cur| ==> k == |Audio(buf)|
  {
    if i == |cur| {
      assert cur[i..] == [];
    }
  }

  lemma AudioStep(buf: seq<Item>, i: nat)
    requires i < |buf|
    ensures Audio(buf[i..]) == (if buf[i].IsAudio() then [buf[i]] else []) + Audio(buf[i + 1..])
  {
    assert buf[i..][1..] == buf[i + 1..];
  }

  lemma PassKeep(buf: seq<Item>, k: nat, cur: seq<Item>, i: nat)
    requires Passed(buf, k, cur, i) && i < |cur| && !cur[i].IsAudio()
    ensures Passed(buf, k, cur, i + 1)
  {
    AudioStep(cur, i);
    NoAudioAppend(cur[..i], cur[i]);
    assert cur[..i + 1] == cur[..i] + [cur[i]];
  }

  lemma PassRemove(buf: seq<Item>, x: int, k: nat, cur: seq<Item>, i: nat)
    requires Passed(buf, k, cur, i) && i < |cur| && cur[i].IsAudio()
    ensures Passed(buf, k + 1, cur[..i] + cur[i + 1..], i)
    ensures !Fits(cur, x) ==> Needed(buf, x, k + 1)
  {
    AudioStep(cur, i);
    DropNext(buf, k, cur, i);
    var less := cur[..i] + cur[i + 1..];
    assert less[..i] == cur[..i] && less[i..] == cur[i + 1..];
    assert Audio(buf)[k..] == [cur[i]] + Audio(less[i..]);
    assert Audio(buf)[k + 1..] == Audio(buf)[k..][1..];
  }

  lemma {:induction false} NoAudioAppend(buf: seq<Item>, f: Item)
    requires Audio(buf) == [] && !f.IsAudio()
    ensures Audio(buf + [f]) == []
  {
    if buf == [] {
    } else {
      NoAudioAppend(buf[1..], f);
      assert (buf + [f])[1..] == buf[1..] + [f];
    }
  }

  /** Removing the first audio frame left is dropping one more. */
  lemma DropNext(buf: seq<Item>, k: nat, cur: seq<Item>, i: nat)
    requires cur == DropAudio(buf, k) && i < |cur| && Audio(cur[..i]) == [] && cur[i].IsAudio()
    requires k <= |Audio(buf)|
    ensures DropAudio(buf, k + 1) == cur[..i] + cur[i + 1..]
  {
    DropFirst(cur, i);
    DropTwice(buf, k);
  }

  lemma {:induction false} DropFirst(cur: seq<Item>, i: nat)
    requires i < |cur| && Audio(cur[..i]) == [] && cur[i].IsAudio()
    ensures DropAudio(cur, 1) == cur[..i] + cur[i + 1..]
  {
    if i == 0 {
      assert DropAudio(cur[1..], 0) == cur[1..];
    } else {
      assert cur[..i][1..] == cur[1..][..i - 1];
      DropFirst(cur[1..], i - 1);
      assert cur[..i] + cur[i + 1..] == [cur[0]] + (cur[1..][..i - 1] + cur[1..][i..]);
    }
  }

  lemma {:induction false} DropTwice(buf: seq<Item>, k: nat)
    ensures DropAudio(DropAudio(buf, k), 1) == DropAudio(buf, k + 1)
  {
    if buf == [] || k == 0 {
    } else {
      if buf[0].IsAudio() {
        DropTwice(buf[1..], k - 1);
      } else {
        DropTwice(buf[1..], k);
        assert ([buf[0]] + DropAudio(buf[1..], k))[1..] == DropAudio(buf[1..], k);
      }
    }
  }
}
