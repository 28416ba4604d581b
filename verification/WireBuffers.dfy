/** How the layouts of Frames are written and read in place: buffers filled field by field
    (transport/wsframes.js packAudio, transport/udp-media.js send and ack, UdpMedia.java sendFrame,
    KoCrypto.java nonceFor)
    and a frame taken apart behind a moving offset (transport/wsframes.js unpack). */
module WireBuffers {
  import opened Bytes
  import opened Primitives
  import opened Frames

  /** buf with the bytes from `at` on replaced by src. */
  function Overwritten(buf: Bytes, at: nat, src: Bytes): Bytes
    requires at + |src| <= |buf|
  {
    buf[..at] + src + buf[at + |src|..]
  }

  /** Writing next to what was just written extends it. */
  lemma OverwrittenTwice(buf: Bytes, at: nat, first: Bytes, second: Bytes)
    requires at + |first| + |second| <= |buf|
    ensures Overwritten(Overwritten(buf, at, first), at + |first|, second) == Overwritten(buf, at, first + second)
  {
    var once := Overwritten(buf, at, first);
    assert once[..at + |first|] == buf[..at] + first;
    assert once[at + |first| + |second|..] == buf[at + |first| + |second|..];
    Regroup(buf[..at], first, second);
  }

  lemma OverwrittenAll(buf: Bytes, src: Bytes)
    requires |src| == |buf|
    ensures Overwritten(buf, 0, src) == src
  {
  }

  /** An unsigned number in n bytes, most significant first, as writeUInt32BE, writeBigUInt64BE
      and the shift loop of sendFrame write it. */
  method PutNumber(buf: array<byte>, at: nat, n: nat, v: nat)
    requires at + n <= buf.Length
    modifies buf
    ensures buf[..] == Overwritten(old(buf[..]), at, BigEndian(v, n))
  {
    ghost var was := buf[..];
    var rest, i := v, n;
    while i > 0
      invariant 0 <= i <= n
      invariant buf[..at + i] == was[..at + i] && buf[at + n..] == was[at + n..]
      invariant BigEndian(v, n) == BigEndian(rest, i) + buf[at + i..at + n]
    {
      i := i - 1;
      ghost var tail := buf[at + i + 1..at + n];
      buf[at + i] := rest % 256;
      assert buf[at + i..at + n] == [rest % 256] + tail;
      Regroup(BigEndian(rest / 256, i), [rest % 256], tail);
      rest := rest / 256;
    }
    assert buf[..] == buf[..at] + buf[at..at + n] + buf[at + n..];
  }

  method PutBytes(buf: array<byte>, at: nat, src: Bytes)
    requires at + |src| <= buf.Length
    modifies buf
    ensures buf[..] == Overwritten(old(buf[..]), at, src)
  {
    forall i | 0 <= i < |src| {
      buf[at + i] := src[i];
    }
    assert buf[at..at + |src|] == src;
    assert buf[..] == buf[..at] + buf[at..at + |src|] + buf[at + |src|..];
  }

  /** KoCrypto.nonceFor: four stream bytes one by one, then the counter from its last byte backwards. */
  method WriteNonce(stream: nat, counter: nat) returns (nonce: array<byte>)
    requires stream < 0x1_0000_0000 && counter < 0x1_0000_0000_0000_0000
    ensures fresh(nonce) && nonce[..] == NonceFor(stream, counter)
  {
    nonce := new byte[NONCE_LEN](i => 0);
    nonce[0], nonce[1] := stream / 0x100_0000 % 256, stream / 0x1_0000 % 256;
    nonce[2], nonce[3] := stream / 0x100 % 256, stream % 256;
    StreamBytes(stream);
    assert nonce[..4] == BigEndian(stream, 4);
    PutNumber(nonce, 4, 8, counter);
  }

  lemma StreamBytes(stream: nat)
    ensures BigEndian(stream, 4) ==
            [stream / 0x100_0000 % 256, stream / 0x1_0000 % 256, stream / 0x100 % 256, stream % 256]
  {
    assert BigEndian(stream, 4) == BigEndian(stream / 0x1_0000, 2) + BigEndian(stream, 2);
    assert BigEndian(stream / 0x1_0000, 2) == [stream / 0x100_0000 % 256, stream / 0x1_0000 % 256];
  }

  /** The fields both layouts share: sequence number, timestamp and Opus bytes. */
  method PutAudio(buf: array<byte>, at: nat, a: Audio)
    requires at + 12 + |a.opus| <= buf.Length
    modifies buf
    ensures buf[..] == Overwritten(old(buf[..]), at, PackAudio(a))
  {
    ghost var was := buf[..];
    PutNumber(buf, at, 4, a.seqNo);
    PutNumber(buf, at + 4, 8, a.tsMs);
    OverwrittenTwice(was, at, BigEndian(a.seqNo, 4), BigEndian(a.tsMs, 8));
    PutBytes(buf, at + 12, a.opus);
    OverwrittenTwice(was, at, BigEndian(a.seqNo, 4) + BigEndian(a.tsMs, 8), a.opus);
  }

  /** packAudio; the fixed-width writes throw on a value that does not fit. */
  method FillAudio(a: Audio) returns (ok: bool, buf: array<byte>)
    ensures fresh(buf) && ok == Encodable(a)
    ensures ok ==> buf[..] == PackAudio(a)
  {
    buf := new byte[12 + |a.opus|](i => 0);
    ok := a.seqNo < 0x1_0000_0000 && a.tsMs < 0x1_0000_0000_0000_0000;
    if ok {
      ghost var was := buf[..];
      PutAudio(buf, 0, a);
      OverwrittenAll(was, PackAudio(a));
    }
  }

  /** The body of a UDP media message or probe. */
  method FillMedia(m: Media) returns (ok: bool, buf: array<byte>)
    ensures fresh(buf) && ok == Encodable(m.audio)
    ensures ok ==> buf[..] == PackMedia(m)
  {
    buf := new byte[13 + |m.audio.opus|](i => 0);
    ok := m.audio.seqNo < 0x1_0000_0000 && m.audio.tsMs < 0x1_0000_0000_0000_0000;
    if ok {
      ghost var was := buf[..];
      PutBytes(buf, 0, [m.kind]);
      PutAudio(buf, 1, m.audio);
      OverwrittenTwice(was, 0, [m.kind], PackAudio(m.audio));
      OverwrittenAll(was, PackMedia(m));
    }
  }

  /** A sealed box put on the wire: type, nonce, tag and ciphertext at their offsets. */
  method FillWire(kind: byte, nonce: Bytes, box: Box) returns (buf: array<byte>)
    requires |nonce| == NONCE_LEN && |box.tag| == TAG_LEN
    ensures fresh(buf) && buf[..] == Pack(kind, nonce, box)
  {
    buf := new byte[1 + |nonce| + |box.tag| + |box.ct|](i => 0);
    ghost var was := buf[..];
    PutBytes(buf, 0, [kind]);
    PutBytes(buf, 1, nonce);
    OverwrittenTwice(was, 0, [kind], nonce);
    PutBytes(buf, 1 + NONCE_LEN, box.tag);
    OverwrittenTwice(was, 0, [kind] + nonce, box.tag);
    PutBytes(buf, 1 + NONCE_LEN + TAG_LEN, box.ct);
    OverwrittenTwice(was, 0, [kind] + nonce + box.tag, box.ct);
    OverwrittenAll(was, Pack(kind, nonce, box));
  }

  /** unpack: None where it throws. What is packed comes out again, field by field. */
  method TakeApart(wire: Bytes) returns (frame: Option<Frame>)
    ensures frame.Some? <==> |wire| >= HEADER_LEN
    ensures frame == Unpack(wire)
    ensures frame.Some? ==>
              var f := frame.value;
              0 <= f.kind < 256 && |f.nonce| == NONCE_LEN && |f.box.tag| == TAG_LEN &&
              Pack(f.kind, f.nonce, f.box) == wire
  {
    if |wire| < HEADER_LEN {
      return None;
    }
    var o := 0;
    var kind := wire[o];
    o := o + 1;
    var nonce := wire[o..o + NONCE_LEN];
    o := o + NONCE_LEN;
    var tag := wire[o..o + TAG_LEN];
    o := o + TAG_LEN;
    frame := Some(Frame(kind, nonce, Box(tag, wire[o..])));
    PackUnpack(wire);
  }
}
