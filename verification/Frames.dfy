/** The byte layouts: the nonce (proto.js), the wire frame and the audio
    plaintext (transport/wsframes.js), and the UDP media plaintext (transport/udp-media.js). */
module Frames {
  import opened Bytes
  import opened Primitives

  const HEADER_LEN := 1 + NONCE_LEN + TAG_LEN
  const MAX_COUNTER: nat := 0x1F_FFFF_FFFF_FFFF  // 2^53 - 1

  /** Message types: the routing byte of a frame. */
  const TYPE_CMD: byte := 0
  const TYPE_AUDIO: byte := 1
  const TYPE_GAP: byte := 2
  const TYPE_PING: byte := 3
  const TYPE_PONG: byte := 4

  datatype NonceMeta = NonceMeta(stream: nat, counter: nat)

  /** A sealed frame as the receiver handles it, before anything in it is trusted. */
  datatype Frame = Frame(kind: int, nonce: Bytes, box: Box)

  // ---- nonce ------------------------------------------------------------------------

  function NonceFor(stream: nat, counter: nat): (nonce: Bytes)
    ensures |nonce| == NONCE_LEN
  {
    BigEndian(stream, 4) + BigEndian(counter, 8)
  }

  function ParseNonce(nonce: Bytes): Option<NonceMeta>
    requires |nonce| == NONCE_LEN
  {
    var counter := FromBigEndian(nonce[4..]);
    if counter > MAX_COUNTER then None else Some(NonceMeta(FromBigEndian(nonce[..4]), counter))
  }

  /** The capacities of the 2, 4 and 8 byte fields. */
  lemma FieldSizes()
    ensures Pow256(2) == 0x1_0000 && Pow256(4) == 0x1_0000_0000
    ensures Pow256(8) == 0x1_0000_0000_0000_0000
  {
    assert Pow256(1) == 256;
    assert Pow256(3) == 0x100_0000;
    assert Pow256(6) == 0x1_0000_0000_0000;
  }

  /** A nonce parses back to the stream and counter it was made for, exactly when the
      counter is one a JavaScript number can hold. */
  lemma NonceRoundTrip(stream: nat, counter: nat)
    requires stream < 0x1_0000_0000 && counter < 0x1_0000_0000_0000_0000
    ensures ParseNonce(NonceFor(stream, counter)) ==
            if counter <= MAX_COUNTER then Some(NonceMeta(stream, counter)) else None
  {
    FieldSizes();
    BigEndianRoundTrip(stream, 4);
    BigEndianRoundTrip(counter, 8);
    var nonce := NonceFor(stream, counter);
    assert nonce[..4] == BigEndian(stream, 4);
    assert nonce[4..] == BigEndian(counter, 8);
  }

  /** Two nonces that parse to the same stream and counter are the same twelve bytes. */
  lemma NonceCanonical(nonce: Bytes)
    requires |nonce| == NONCE_LEN && ParseNonce(nonce).Some?
    ensures NonceFor(ParseNonce(nonce).value.stream, ParseNonce(nonce).value.counter) == nonce
  {
    FromBigEndianRoundTrip(nonce[..4]);
    FromBigEndianRoundTrip(nonce[4..]);
    assert nonce == nonce[..4] + nonce[4..];
  }

  // ---- wire frame ---------------------------------------------------------------------

  function Pack(kind: byte, nonce: Bytes, box: Box): Bytes {
    [kind] + nonce + box.tag + box.ct
  }

  /** None where unpack throws: the bytes cannot be a sealed frame. */
  function Unpack(wire: Bytes): Option<Frame> {
    if |wire| < HEADER_LEN then None
    else Some(Frame(wire[0], wire[1..1 + NONCE_LEN], Box(wire[1 + NONCE_LEN..HEADER_LEN], wire[HEADER_LEN..])))
  }

  lemma UnpackPack(kind: byte, nonce: Bytes, box: Box)
    requires |nonce| == NONCE_LEN && |box.tag| == TAG_LEN
    ensures Unpack(Pack(kind, nonce, box)) == Some(Frame(kind, nonce, box))
  {
    var wire := Pack(kind, nonce, box);
    assert wire[1..1 + NONCE_LEN] == nonce;
    assert wire[1 + NONCE_LEN..HEADER_LEN] == box.tag;
    assert wire[HEADER_LEN..] == box.ct;
  }

  /** Unpacking loses nothing: whatever unpacks is the packing of what came out. */
  lemma PackUnpack(wire: Bytes)
    requires Unpack(wire).Some?
    ensures var f := Unpack(wire).value;
            0 <= f.kind < 256 && |f.nonce| == NONCE_LEN && |f.box.tag| == TAG_LEN &&
            Pack(f.kind, f.nonce, f.box) == wire
  {
    assert wire == [wire[0]] + wire[1..1 + NONCE_LEN] + wire[1 + NONCE_LEN..HEADER_LEN] + wire[HEADER_LEN..];
  }

  // ---- plaintext bodies -----------------------------------------------------------------

  datatype Audio = Audio(seqNo: nat, tsMs: nat, opus: Bytes)

  function PackAudio(a: Audio): Bytes {
    BigEndian(a.seqNo, 4) + BigEndian(a.tsMs, 8) + a.opus
  }

  /** None where the fixed-width reads throw. */
  function UnpackAudio(buf: Bytes): Option<Audio> {
    if |buf| < 12 then None
    else Some(Audio(FromBigEndian(buf[..4]), FromBigEndian(buf[4..12]), buf[12..]))
  }

  /** A UDP media message: [kind u8][seq u32][tsMs u64][opus]. */
  datatype Media = Media(kind: byte, audio: Audio)

  function PackMedia(m: Media): Bytes {
    [m.kind] + PackAudio(m.audio)
  }

  /** None for plaintexts shorter than the 13-byte header, which the receiver ignores. */
  function UnpackMedia(pt: Bytes): Option<Media> {
    if |pt| < 13 then None
    else Some(Media(pt[0], Audio(FromBigEndian(pt[1..5]), FromBigEndian(pt[5..13]), pt[13..])))
  }

  predicate Encodable(a: Audio) {
    a.seqNo < 0x1_0000_0000 && a.tsMs < 0x1_0000_0000_0000_0000
  }

  lemma AudioRoundTrip(a: Audio)
    requires Encodable(a)
    ensures UnpackAudio(PackAudio(a)) == Some(a)
  {
    FieldSizes();
    BigEndianRoundTrip(a.seqNo, 4);
    BigEndianRoundTrip(a.tsMs, 8);
    var buf := PackAudio(a);
    assert buf[..4] == BigEndian(a.seqNo, 4) && buf[4..12] == BigEndian(a.tsMs, 8) && buf[12..] == a.opus;
  }

  lemma MediaRoundTrip(m: Media)
    requires Encodable(m.audio)
    ensures UnpackMedia(PackMedia(m)) == Some(m)
  {
    AudioRoundTrip(m.audio);
    var pt, buf := PackMedia(m), PackAudio(m.audio);
    assert pt[1..5] == buf[..4] && pt[5..13] == buf[4..12] && pt[13..] == buf[12..];
  }

  /** Distinct plaintexts never decode to the same media message. */
  lemma MediaCanonical(pt: Bytes)
    requires UnpackMedia(pt).Some?
    ensures Encodable(UnpackMedia(pt).value.audio) && PackMedia(UnpackMedia(pt).value) == pt
  {
    FieldSizes();
    FromBigEndianRoundTrip(pt[1..5]);
    FromBigEndianRoundTrip(pt[5..13]);
    assert pt == [pt[0]] + (pt[1..5] + pt[5..13] + pt[13..]);
  }
}
