/** The hand-written UTF-8 decoder of the surface (www/surface-core.js decodeB64), used where the
    host has no TextDecoder, and how chunk-wise decoding relates to decoding the whole. */
module Utf8 {
  import opened Bytes

  /** A UTF-16 code unit, what String.fromCharCode makes and string comparison sees. */
  type unit = x: int | 0 <= x < 0x1_0000

  /** A byte read, with 0 for what `undefined & 0x3F` gives past the end. */
  function Low6(b: Bytes, i: nat): (v: nat)
    ensures v < 64
  {
    if i < |b| then b[i] % 64 else 0
  }

  /** How many bytes the decoder consumes for a lead byte. */
  function Width(lead: byte): nat {
    if lead < 0x80 then 1 else if lead < 0xE0 then 2 else if lead < 0xF0 then 3 else 1
  }

  /** The characters the decoder emits for the bytes at the front of b: none for leads from 0xF0 up. */
  function Char(b: Bytes): seq<unit>
    requires b != []
  {
    if b[0] < 0x80 then [b[0]]
    else if b[0] < 0xE0 then [b[0] % 32 * 64 + Low6(b, 1)]
    else if b[0] < 0xF0 then [b[0] % 16 * 4096 + Low6(b, 1) * 64 + Low6(b, 2)]
    else []
  }

  function Drop(b: Bytes, n: nat): (rest: Bytes)
    ensures n > 0 && b != [] ==> |rest| < |b|
  {
    if n <= |b| then b[n..] else []
  }

  function Decode(b: Bytes): seq<unit>
    decreases |b|
  {
    if b == [] then [] else Char(b) + Decode(Drop(b, Width(b[0])))
  }

  /** The loop as written: one index, moved past continuation bytes inside the body. */
  method DecodeLoop(bytes: Bytes) returns (out: seq<unit>)
    ensures out == Decode(bytes)
  {
    out := [];
    var i := 0;
    while i < |bytes|
      invariant 0 <= i && Decoded(bytes, i, out)
      decreases |bytes| - i
    {
      var piece;
      DecodedMore(bytes, i, out);
      piece, i := Body(bytes, i);
      out := out + piece;
    }
    AppendNothing(out);
  }

  /** The output so far is that for the bytes before i. */
  predicate Decoded(bytes: Bytes, i: nat, out: seq<unit>) {
    out + Decode(Drop(bytes, i)) == Decode(bytes)
  }

  lemma DecodedMore(bytes: Bytes, i: nat, out: seq<unit>)
    requires i < |bytes| && Decoded(bytes, i, out)
    ensures Decoded(bytes, i + Width(bytes[i]), out + CharAt(bytes, i))
  {
    OneStep(bytes, i);
    Regroup(out, CharAt(bytes, i), Decode(Drop(bytes, i + Width(bytes[i]))));
  }

  /** The body of the loop: what it appends, and where it leaves the index. */
  method Body(bytes: Bytes, start: nat) returns (piece: seq<unit>, i: nat)
    requires start < |bytes|
    ensures piece == CharAt(bytes, start) && i == start + Width(bytes[start])
  {
    i := start;
    var b: int := bytes[i];
    piece := [];
    if b < 0x80 {
      piece := [b];
    } else if b < 0xE0 {
      i := i + 1;
      piece := [b % 32 * 64 + Low6(bytes, i)];
    } else if b < 0xF0 {
      i := i + 1;
      var mid := Low6(bytes, i);
      i := i + 1;
      piece := [b % 16 * 4096 + mid * 64 + Low6(bytes, i)];
    }
    i := i + 1;
  }

  /** One turn of the loop, seen from the bytes still to be decoded. */
  lemma OneStep(bytes: Bytes, i: nat)
    requires i < |bytes|
    ensures Decode(Drop(bytes, i)) == CharAt(bytes, i) + Decode(Drop(bytes, i + Width(bytes[i])))
  {
    DropTwice(bytes, i, Width(bytes[i]));
    CharOfRest(bytes, i);
  }

  /** The characters emitted for the bytes from i on. */
  function CharAt(bytes: Bytes, i: nat): seq<unit>
    requires i < |bytes|
  {
    if bytes[i] < 0x80 then [bytes[i]]
    else if bytes[i] < 0xE0 then [bytes[i] % 32 * 64 + Low6(bytes, i + 1)]
    else if bytes[i] < 0xF0 then [bytes[i] % 16 * 4096 + Low6(bytes, i + 1) * 64 + Low6(bytes, i + 2)]
    else []
  }

  lemma CharOfRest(bytes: Bytes, i: nat)
    requires i < |bytes|
    ensures Char(bytes[i..]) == CharAt(bytes, i)
  {
    LowBits(bytes, i);
  }

  lemma LowBits(bytes: Bytes, i: nat)
    requires i < |bytes|
    ensures Low6(bytes[i..], 1) == Low6(bytes, i + 1) && Low6(bytes[i..], 2) == Low6(bytes, i + 2)
  {
  }

  lemma DropTwice(bytes: Bytes, i: nat, n: nat)
    requires i <= |bytes|
    ensures Drop(bytes[i..], n) == Drop(bytes, i + n)
  {
    if i + n <= |bytes| {
      assert bytes[i..][n..] == bytes[i + n..];
    }
  }

  // ---- the encoding of section 3 of RFC 3629 ----------------------------------------------------------

  function EncodeChar(c: unit): Bytes {
    if c < 0x80 then [c]
    else if c < 0x800 then [0xC0 + c / 64, 0x80 + c % 64]
    else [0xE0 + c / 4096, 0x80 + c / 64 % 64, 0x80 + c % 64]
  }

  function Encode(s: seq<unit>): Bytes {
    if s == [] then [] else EncodeChar(s[0]) + Encode(s[1..])
  }

  /** The bit fields of a code unit, and how a marker bit pattern is masked off again. */
  lemma BitFields(c: unit)
    ensures c < 0x800 ==> (0xC0 + c / 64) % 32 == c / 64 && c == c / 64 * 64 + c % 64
    ensures (0xE0 + c / 4096) % 16 == c / 4096 && c == c / 4096 * 4096 + c / 64 % 64 * 64 + c % 64
    ensures (0x80 + c / 64 % 64) % 64 == c / 64 % 64 && (0x80 + c % 64) % 64 == c % 64
  {
  }

  lemma CharRoundTrip(c: unit, rest: Bytes)
    ensures var b := EncodeChar(c) + rest;
            Char(b) == [c] && Drop(b, Width(b[0])) == rest
  {
    BitFields(c);
    var e := EncodeChar(c);
    var b := e + rest;
    assert b[0] == e[0] && Width(b[0]) == |e|;
    assert b[|e|..] == rest;
    if c >= 0x800 {
      assert Low6(b, 1) == c / 64 % 64 && Low6(b, 2) == c % 64;
    } else if c >= 0x80 {
      assert Low6(b, 1) == c % 64;
    }
  }

  /** Decoding inverts the encoding on every string of the basic multilingual plane, unpaired
      surrogates included. */
  lemma {:induction false} DecodeEncode(s: seq<unit>)
    ensures Decode(Encode(s)) == s
  {
    if s == [] {
    } else {
      CharRoundTrip(s[0], Encode(s[1..]));
      DecodeEncode(s[1..]);
      assert s == [s[0]] + s[1..];
    }
  }

  // ---- chunks -------------------------------------------------------------------------------------------

  /** The decoder's steps end exactly at the end of b. */
  predicate EndsOnCharacter(b: Bytes) {
    b == [] || (Width(b[0]) <= |b| && EndsOnCharacter(b[Width(b[0])..]))
  }

  lemma {:induction false} EncodedEndsOnCharacter(s: seq<unit>)
    ensures EndsOnCharacter(Encode(s))
  {
    if s == [] {
    } else {
      EncodedEndsOnCharacter(s[1..]);
      CharRoundTrip(s[0], Encode(s[1..]));
    }
  }

  lemma CharAppend(a: Bytes, b: Bytes)
    requires a != [] && Width(a[0]) <= |a|
    ensures Char(a + b) == Char(a) && Drop(a + b, Width(a[0])) == a[Width(a[0])..] + b
  {
  }

  lemma {:induction false} WholeChunkSplits(a: Bytes, b: Bytes)
    requires EndsOnCharacter(a)
    ensures Decode(a + b) == Decode(a) + Decode(b)
  {
    if a == [] {
      assert a + b == b;
    } else {
      var rest := a[Width(a[0])..];
      CharAppend(a, b);
      WholeChunkSplits(rest, b);
      Regroup(Char(a), Decode(rest), Decode(b));
    }
  }

  /** A byte that completes a cut character, and decodes to a character on its own. */
  const WITNESS: Bytes := [0x01]

  lemma {:induction false} CutChunkDiffers(a: Bytes)
    requires !EndsOnCharacter(a)
    ensures |Decode(a + WITNESS)| < |Decode(a) + Decode(WITNESS)|
  {
    var w := Width(a[0]);
    assert Decode(WITNESS) == [1] + Decode([]);
    if w <= |a| {
      CharAppend(a, WITNESS);
      CutChunkDiffers(a[w..]);
    } else {
      assert Drop(a, w) == [] && Drop(a + WITNESS, w) == [];
    }
  }

  /** Decoding a chunk apart from what follows is harmless, whatever follows, exactly when the
      chunk ends where a character does. */
  lemma ChunkSafeIff(a: Bytes)
    ensures EndsOnCharacter(a) <==> forall b :: Decode(a + b) == Decode(a) + Decode(b)
  {
    if EndsOnCharacter(a) {
      forall b
        ensures Decode(a + b) == Decode(a) + Decode(b)
      {
        WholeChunkSplits(a, b);
      }
    } else {
      CutChunkDiffers(a);
      assert Decode(a + WITNESS) != Decode(a) + Decode(WITNESS);
    }
  }

  /** What getAssetSource does: decode each chunk, then join the texts. */
  function DecodeChunks(chunks: seq<Bytes>): seq<unit> {
    if chunks == [] then [] else Decode(chunks[0]) + DecodeChunks(chunks[1..])
  }

  /** Chunks that end on characters decode to the text of the whole. */
  lemma {:induction false} ChunksDecodeToWhole(chunks: seq<Bytes>)
    requires forall i :: 0 <= i < |chunks| ==> EndsOnCharacter(chunks[i])
    ensures DecodeChunks(chunks) == Decode(Join(chunks))
  {
    if chunks == [] {
    } else {
      WholeChunkSplits(chunks[0], Join(chunks[1..]));
      ChunksDecodeToWhole(chunks[1..]);
    }
  }

  /** An upload cut inside a character comes out wrong: an e with an acute accent in two chunks. */
  lemma CutCharacterGarbled()
    ensures DecodeChunks([[0xC3], [0xA9]]) == [0xC0, 0x240]
    ensures Decode(Join([[0xC3], [0xA9]])) == [0xE9]
  {
    var chunks: seq<Bytes> := [[0xC3], [0xA9]];
    assert chunks[1..] == [[0xA9]];
    assert chunks[1..][1..] == [];
    assert Join(chunks) == [0xC3, 0xA9];
    assert Decode([0xC3]) == [0xC0] && Decode([0xA9]) == [0x240];
  }

  /** But a particular upload can come out right although a chunk ends inside a character: the first two
      bytes of a subscript zero decode as if its last bits, which are zero, had come. */
  lemma CutCharacterByLuck()
    ensures !EndsOnCharacter([0xE2, 0x82])
    ensures DecodeChunks([[0xE2, 0x82], [0x80, 0x31]]) == [0x2080, 0x31] == Decode(Join([[0xE2, 0x82], [0x80, 0x31]]))
  {
    var a: Bytes, b: Bytes, whole: Bytes := [0xE2, 0x82], [0x80, 0x31], [0xE2, 0x82, 0x80, 0x31];
    assert [a, b][1..] == [b] && [b][1..] == [];
    assert Join([b]) == b + Join([]) == b;
    assert Join([a, b]) == a + Join([b]) == whole;
    assert Char(a) == [0x2080] && Drop(a, 3) == [];
    assert Char(b) == [0x31] && Drop(b, 2) == [];
    assert Char(whole) == [0x2080] && Drop(whole, 3) == [0x31];
    assert Char([0x31]) == [0x31] && Drop([0x31], 1) == [];
  }
}
