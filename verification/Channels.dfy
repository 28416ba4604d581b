/** The AEAD channel (proto.js Channel, KoCrypto.java Channel): one send counter and one
    anti-replay window per stream. */
module Channels {
  import opened Bytes
  import opened Primitives
  import opened Frames
  import opened Replay

  const MAX_STREAMS: nat := 4
  const STREAM_WS: nat := 0
  const STREAM_UDP: nat := 1
  const REPLAY_WINDOW: nat := 1024

  /** What makes one sealed message the message it is. */
  datatype Sealed = Sealed(kind: byte, stream: nat, counter: nat, pt: Bytes)

  datatype SendError = BadStream | CounterExhausted

  datatype SendResult = Sent(frame: Frame, counter: nat) | Refused(error: SendError)

  /** The state of a channel, as a value. */
  datatype ChannelState = ChannelState(
    txKey: Key, rxKey: Key, authKey: Key,
    tx: seq<nat>, rx: seq<Window>,
    replayRejected: nat, authRejected: nat)
  {
    predicate Valid() {
      && |tx| == |rx| == MAX_STREAMS
      && (forall s :: 0 <= s < MAX_STREAMS ==> rx[s].Valid() && rx[s].size == REPLAY_WINDOW)
      && (forall s :: 0 <= s < MAX_STREAMS ==> tx[s] <= MAX_COUNTER)
    }

    /** Channel.send: the state afterwards and the frame, or the exception. */
    function Send(aead: Aead, pt: Bytes, kind: int, stream: int): (ChannelState, SendResult)
      requires Valid()
    {
      if !(0 <= stream < MAX_STREAMS) then (this, Refused(BadStream))
      else if tx[stream] >= MAX_COUNTER then (this, Refused(CounterExhausted))
      else
        var r := Sealed(kind % 256, stream, tx[stream], pt);
        (this.(tx := tx[stream := tx[stream] + 1]), Sent(FrameOf(aead, txKey, r), r.counter))
    }

    /** What the receiver reads out of a frame's nonce before it looks at anything else. */
    static function Meta(frame: Frame): Option<NonceMeta> {
      if |frame.nonce| != NONCE_LEN then None
      else
        var meta := ParseNonce(frame.nonce);
        if meta.Some? && meta.value.stream < MAX_STREAMS then meta else None
    }

    static function Decrypt(aead: Aead, key: Key, frame: Frame): Option<Bytes> {
      if |frame.nonce| != NONCE_LEN || |frame.box.tag| != TAG_LEN then None
      else aead.open(key, frame.nonce, [frame.kind % 256], frame.box)
    }

    /** Channel.recvBytes: the state afterwards and the plaintext, or None. */
    function Recv(aead: Aead, frame: Frame): (ChannelState, Option<Bytes>)
      requires Valid()
    {
      var meta := Meta(frame);
      if meta.None? then (this, None)
      else
        var NonceMeta(stream, counter) := meta.value;
        if !rx[stream].Accepts(counter) then (this.(replayRejected := replayRejected + 1), None)
        else
          var pt := Decrypt(aead, rxKey, frame);
          if pt.None? then (this.(authRejected := authRejected + 1), None)
          else (this.(rx := rx[stream := rx[stream].Mark(counter)]), pt)
    }
  }

  /** The one frame that carries a given sealed message under a given key. */
  function FrameOf(aead: Aead, key: Key, r: Sealed): Frame {
    var nonce := NonceFor(r.stream, r.counter);
    Frame(r.kind, nonce, aead.seal(key, nonce, [r.kind], r.pt))
  }

  function NewChannel(txKey: Key, rxKey: Key, authKey: Key): (c: ChannelState)
    ensures c.Valid()
  {
    var w := Fresh(REPLAY_WINDOW);
    ChannelState(txKey, rxKey, authKey, [0, 0, 0, 0], [w, w, w, w], 0, 0)
  }

  /** The keys identify a channel; its counters move with every message. */
  predicate SameKeys(a: ChannelState, b: ChannelState) {
    a.txKey == b.txKey && a.rxKey == b.rxKey && a.authKey == b.authKey
  }

  /** What a completed handshake leaves: each side sends under the key the other receives with,
      and the two directions use different keys. */
  predicate Mirrored(c: ChannelState, s: ChannelState) {
    c.txKey == s.rxKey && c.rxKey == s.txKey && c.txKey != c.rxKey
  }

  /** Sending and receiving keep a channel well formed and never change its keys. */
  lemma ChannelStepsKeepKeys(chan: ChannelState, aead: Aead, frame: Frame, pt: Bytes, kind: int, stream: int)
    requires chan.Valid()
    ensures var c := chan.Recv(aead, frame).0;
            c.Valid() && SameKeys(c, chan)
    ensures var c := chan.Send(aead, pt, kind, stream).0;
            c.Valid() && SameKeys(c, chan)
  {
  }

  /** A frame that decrypts is, byte for byte, the frame of one sealed message: its type,
      stream, counter and plaintext are all fixed by the bytes that were authenticated. */
  lemma DecryptedIsFrameOf(aead: Aead, key: Key, frame: Frame)
    requires aead.Sound()
    requires ChannelState.Meta(frame).Some? && ChannelState.Decrypt(aead, key, frame).Some?
    ensures var meta := ChannelState.Meta(frame).value;
            var r := Sealed(frame.kind % 256, meta.stream, meta.counter, ChannelState.Decrypt(aead, key, frame).value);
            frame.(kind := r.kind) == FrameOf(aead, key, r)
  {
    NonceCanonical(frame.nonce);
  }

  /** The receiver reads back from a frame exactly what the sender sealed into it. */
  lemma FrameOfDecrypts(aead: Aead, key: Key, r: Sealed)
    requires aead.Sound() && r.stream < MAX_STREAMS && r.counter <= MAX_COUNTER
    ensures ChannelState.Meta(FrameOf(aead, key, r)) == Some(NonceMeta(r.stream, r.counter))
    ensures ChannelState.Decrypt(aead, key, FrameOf(aead, key, r)) == Some(r.pt)
  {
    NonceRoundTrip(r.stream, r.counter);
  }

  /** Receiving the frame of a sealed message: the window of its stream alone decides. */
  lemma FrameOfReceived(aead: Aead, chan: ChannelState, r: Sealed)
    requires aead.Sound() && chan.Valid() && r.stream < MAX_STREAMS && r.counter <= MAX_COUNTER
    ensures chan.Recv(aead, FrameOf(aead, chan.rxKey, r)) ==
            if chan.rx[r.stream].Accepts(r.counter)
            then (chan.(rx := chan.rx[r.stream := chan.rx[r.stream].Mark(r.counter)]), Some(r.pt))
            else (chan.(replayRejected := chan.replayRejected + 1), None)
  {
    FrameOfDecrypts(aead, chan.rxKey, r);
  }

  /** Two ends between which any message may have been lost: the next counter each end will use, on
      every stream, is still new to the other. */
  predicate InStep(a: ChannelState, b: ChannelState) {
    && a.Valid() && b.Valid() && Mirrored(a, b)
    && (forall s :: 0 <= s < MAX_STREAMS ==> a.rx[s].max < b.tx[s] && b.rx[s].max < a.tx[s])
  }

  /** Whatever one end sends next the other opens, to the plaintext that went in, and the two stay in
      step; only a stream that does not exist or has used up its counters refuses. */
  lemma SentIsReceived(aead: Aead, a: ChannelState, b: ChannelState, pt: Bytes, kind: int, stream: int)
    requires aead.Sound() && InStep(a, b)
    ensures var (a', r) := a.Send(aead, pt, kind, stream);
            && (r.Sent? <==> 0 <= stream < MAX_STREAMS && a.tx[stream] < MAX_COUNTER)
            && (r.Refused? ==> a' == a)
            && (r.Sent? ==>
                  var (b', got) := b.Recv(aead, r.frame);
                  && r.frame.kind == kind % 256 && |r.frame.nonce| == NONCE_LEN && |r.frame.box.tag| == TAG_LEN
                  && got == Some(pt) && InStep(a', b') && b'.tx == b.tx
                  && a'.tx == a.tx[stream := a.tx[stream] + 1])
  {
    var (a', r) := a.Send(aead, pt, kind, stream);
    if r.Sent? {
      var m := Sealed(kind % 256, stream, a.tx[stream], pt);
      assert r.frame == FrameOf(aead, b.rxKey, m);
      FrameOfReceived(aead, b, m);
    }
  }

  class Channel {
    const aead: Aead
    const txKey: Key
    const rxKey: Key
    const authKey: Key
    const tx: array<nat>
    const rx: seq<ReplayWindow>
    var replayRejected: nat
    var authRejected: nat

    /** The objects a channel owns. */
    ghost const Repr: set<object>

    ghost predicate Valid()
      reads Repr
    {
      && {this, tx} <= Repr
      && tx.Length == |rx| == MAX_STREAMS
      && (forall s :: 0 <= s < MAX_STREAMS ==>
            && {rx[s], rx[s].seen} <= Repr && rx[s].seen as object != tx && rx[s].Valid() && rx[s].size == REPLAY_WINDOW)
      && (forall s, t :: 0 <= s < t < MAX_STREAMS ==> rx[s] != rx[t] && rx[s].seen != rx[t].seen)
      && (forall s :: 0 <= s < MAX_STREAMS ==> tx[s] <= MAX_COUNTER)
    }

    ghost function State(): (st: ChannelState)
      requires Valid()
      reads Repr
      ensures st.Valid()
    {
      ChannelState(txKey, rxKey, authKey, tx[..],
        [rx[0].Model(), rx[1].Model(), rx[2].Model(), rx[3].Model()],
        replayRejected, authRejected)
    }

    constructor (aead: Aead, txKey: Key, rxKey: Key, authKey: Key)
      ensures fresh(Repr)
      ensures Valid() && State() == NewChannel(txKey, rxKey, authKey) && this.aead == aead
    {
      this.aead, this.txKey, this.rxKey, this.authKey := aead, txKey, rxKey, authKey;
      tx := new nat[MAX_STREAMS](_ => 0);
      var windows := FreshWindows();
      rx := windows;
      replayRejected, authRejected := 0, 0;
      Repr := {this, tx, windows[0], windows[0].seen, windows[1], windows[1].seen,
               windows[2], windows[2].seen, windows[3], windows[3].seen};
    }

    /** Array.from({ length: MAX_STREAMS }, () => new ReplayWindow()). */
    static method FreshWindows() returns (windows: seq<ReplayWindow>)
      ensures |windows| == MAX_STREAMS
      ensures forall s :: 0 <= s < MAX_STREAMS ==>
                fresh(windows[s]) && fresh(windows[s].seen) && windows[s].Valid() &&
                windows[s].Model() == Fresh(REPLAY_WINDOW)
      ensures forall s, t :: 0 <= s < t < MAX_STREAMS ==>
                windows[s] != windows[t] && windows[s].seen != windows[t].seen
    {
      windows := [];
      while |windows| < MAX_STREAMS
        invariant |windows| <= MAX_STREAMS
        invariant forall s :: 0 <= s < |windows| ==>
                    fresh(windows[s]) && fresh(windows[s].seen) && windows[s].Valid() &&
                    windows[s].Model() == Fresh(REPLAY_WINDOW)
        invariant forall s, t :: 0 <= s < t < |windows| ==>
                    windows[s] != windows[t] && windows[s].seen != windows[t].seen
      {
        var w := new ReplayWindow(REPLAY_WINDOW);
        windows := windows + [w];
      }
    }

    method Send(pt: Bytes, kind: int, stream: int) returns (r: SendResult)
      requires Valid()
      modifies tx
      ensures Valid() && (State(), r) == old(State()).Send(aead, pt, kind, stream)
    {
      if !(0 <= stream < MAX_STREAMS) {
        return Refused(BadStream);
      }
      var counter := tx[stream];
      if counter >= MAX_COUNTER {
        return Refused(CounterExhausted);
      }
      tx[stream] := counter + 1;
      var nonce := NonceFor(stream, counter);
      var box := aead.seal(txKey, nonce, [kind % 256], pt);
      r := Sent(Frame(kind % 256, nonce, box), counter);
    }

    method RecvBytes(frame: Frame) returns (pt: Option<Bytes>)
      requires Valid()
      modifies Repr - {tx}
      ensures Valid()
      ensures State() == old(State()).Recv(aead, frame).0
      ensures pt == old(State()).Recv(aead, frame).1
    {
      var meta := ChannelState.Meta(frame);
      if meta.None? {
        return None;
      }
      var NonceMeta(stream, counter) := meta.value;
      ghost var st := State();
      assert rx[stream].Model() == st.rx[stream];
      var ok := rx[stream].Accepts(counter);
      if !ok {
        NoteReplay();
        return None;
      }
      pt := ChannelState.Decrypt(aead, rxKey, frame);
      if pt.None? {
        NoteAuthFailure();
        return None;
      }
      MarkSeen(stream, counter);
    }

    method NoteReplay()
      requires Valid()
      modifies `replayRejected
      ensures Valid() && State() == old(State()).(replayRejected := old(replayRejected) + 1)
    {
      replayRejected := replayRejected + 1;
    }

    method NoteAuthFailure()
      requires Valid()
      modifies `authRejected
      ensures Valid() && State() == old(State()).(authRejected := old(authRejected) + 1)
    {
      authRejected := authRejected + 1;
    }

    method MarkSeen(stream: nat, counter: nat)
      requires Valid() && stream < MAX_STREAMS && State().rx[stream].Accepts(counter)
      modifies rx[stream], rx[stream].seen
      ensures Valid()
      ensures State() == old(State()).(rx := old(State()).rx[stream := old(State()).rx[stream].Mark(counter)])
    {
      rx[stream].Mark(counter);
      assert forall s :: 0 <= s < MAX_STREAMS && s != stream ==> unchanged(rx[s]) && unchanged(rx[s].seen);
    }
  }
}
