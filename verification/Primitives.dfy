/** The cryptographic primitives of proto.js, as the values the protocol logic sees.
    HKDF and HMAC outputs are symbolic, hence injective in their inputs; X25519 and
    ChaCha20-Poly1305 are records of functions with the laws their RFCs promise. */
module Primitives {
  import opened Bytes

  const NONCE_LEN := 12
  const TAG_LEN := 16

  /** One 32-byte slice of the HKDF-SHA256 output for the given input keying material:
      slot 0 is client to server, slot 1 server to client, slot 2 the MAC key. */
  datatype Key = Derived(ikm: Bytes, slot: nat)

  /** A MAC value: an HMAC-SHA256 output, or bytes that are no HMAC output anybody computed. */
  datatype Mac = Hmac(key: Key, message: Bytes) | Noise(raw: Bytes)

  /** What ChaCha20-Poly1305 produces from a key, a nonce, associated data and a plaintext. */
  datatype Box = Box(tag: Bytes, ct: Bytes)

  datatype Aead = Aead(
    seal: (Key, Bytes, Bytes, Bytes) -> Box,
    open: (Key, Bytes, Bytes, Box) -> Option<Bytes>)
  {
    /** Section 2.8 of RFC 8439: tags are 16 bytes, what was sealed opens to the plaintext,
        and what opens is the one box that sealing its plaintext gives. */
    ghost predicate Sound() {
      && (forall k, n, aad, pt ::
            var box := seal(k, n, aad, pt);
            |box.tag| == TAG_LEN && open(k, n, aad, box) == Some(pt))
      && (forall k, n, aad, box, pt ::
            open(k, n, aad, box) == Some(pt) ==> box == seal(k, n, aad, pt))
    }
  }

  /** X25519. A private key is a scalar; dh fails on bytes that are no usable public key. */
  datatype Curve = Curve(pub: nat -> Bytes, dh: (nat, Bytes) -> Option<Bytes>)
  {
    /** Section 6.1 of RFC 7748: both ends of a key agreement compute the same secret. */
    ghost predicate Commutes() {
      && (forall a, b :: dh(a, pub(b)) == dh(b, pub(a)))
      && (forall a :: 0 < |pub(a)| < 0x1_0000)
    }
  }

  /** The laws contradict nothing: some functions satisfy them. */
  lemma SoundAeadExists()
    ensures exists aead: Aead :: aead.Sound()
  {
    var tag: Bytes := seq(TAG_LEN, _ => 0);
    var aead := Aead((k, n, aad, pt) => Box(tag, pt), (k, n, aad, box: Box) => if box.tag == tag then Some(box.ct) else None);
    assert aead.Sound();
  }

  lemma CommutingCurveExists()
    ensures exists curve: Curve :: curve.Commutes()
  {
    var curve := Curve(s => [s % 256], (s, p: Bytes) => if |p| == 1 then Some([AddByte(s, p[0])]) else None);
    forall a: nat, b: nat
      ensures curve.dh(a, curve.pub(b)) == curve.dh(b, curve.pub(a))
    {
      assert AddByte(a, b % 256) == AddByte(b, a % 256);
    }
    assert forall a :: |curve.pub(a)| == 1;
    assert curve.Commutes();
  }

  function AddByte(s: nat, b: byte): byte {
    (s % 256 + b) % 256
  }
}
