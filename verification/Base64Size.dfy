/** The storage charge of a base64 payload (www/surface-core.js base64Bytes), checked against the
    encoding of section 4 of RFC 4648. */
module Base64Size {
  import opened Bytes

  // ---- the code -----------------------------------------------------------------------------------

  /** What \s matches. */
  predicate IsSpace(c: char) {
    || '\t' <= c <= '\r' || c == ' ' || c == '\U{00A0}' || c == '\U{1680}' || '\U{2000}' <= c <= '\U{200A}'
    || c == '\U{2028}' || c == '\U{2029}' || c == '\U{202F}' || c == '\U{205F}' || c == '\U{3000}' || c == '\U{FEFF}'
  }

  function StripSpaces(s: string): string {
    if s == [] then [] else (if IsSpace(s[0]) then [] else [s[0]]) + StripSpaces(s[1..])
  }

  /** The length of the run of '=' at the end. */
  function Padding(s: string): (n: nat)
    ensures n <= |s|
  {
    if s == [] || s[|s| - 1] != '=' then 0 else 1 + Padding(s[..|s| - 1])
  }

  function Base64Bytes(b64: string): int {
    var s := StripSpaces(b64);
    if s == [] then 0
    else if |s| % 4 == 0 then
      var size := |s| / 4 * 3 - Padding(s);
      if size < 0 then 0 else size
    else |s| * 3 / 4
  }

  // ---- the encoding ---------------------------------------------------------------------------------

  /** A-Z, a-z, 0-9, '+' and '/'. */
  function Digit(v: nat): char
    requires v < 64
  {
    if v < 26 then ('A' as int + v) as char
    else if v < 52 then ('a' as int + v - 26) as char
    else if v < 62 then ('0' as int + v - 52) as char
    else if v == 62 then '+' else '/'
  }

  /** Three bytes make four characters; a last group of one or two bytes is padded with '='. */
  function Encode(b: Bytes): string {
    if |b| == 0 then ""
    else if |b| == 1 then Group(b[0], 0, 0)[..2] + "=="
    else if |b| == 2 then Group(b[0], b[1], 0)[..3] + "="
    else Group(b[0], b[1], b[2]) + Encode(b[3..])
  }

  predicate Plain(s: string) {
    forall i :: 0 <= i < |s| ==> s[i] != '=' && !IsSpace(s[i])
  }

  lemma DigitIsPlain(v: nat)
    requires v < 64
    ensures Digit(v) != '=' && !IsSpace(Digit(v))
  {
  }

  /** The four characters of three bytes. */
  function Group(x: byte, y: byte, z: byte): string {
    [Digit(x / 4), Digit(x % 4 * 16 + y / 16), Digit(y % 16 * 4 + z / 64), Digit(z % 64)]
  }

  lemma GroupIsPlain(x: byte, y: byte, z: byte)
    ensures |Group(x, y, z)| == 4 && Plain(Group(x, y, z))
  {
    DigitIsPlain(x / 4);
    DigitIsPlain(x % 4 * 16 + y / 16);
    DigitIsPlain(y % 16 * 4 + z / 64);
    DigitIsPlain(z % 64);
  }

  function PaddingOf(n: nat): nat {
    if n % 3 == 0 then 0 else 3 - n % 3
  }

  /** What matters of an encoded text: its length, its padding, and that it holds no whitespace. */
  predicate Shape(s: string, n: nat) {
    && |s| == (n + PaddingOf(n)) / 3 * 4
    && Padding(s) == PaddingOf(n)
    && StripSpaces(s) == s
  }

  lemma {:induction false} EncodeShape(b: Bytes)
    ensures Shape(Encode(b), |b|)
  {
    if |b| >= 3 {
      EncodeShape(b[3..]);
      GroupIsPlain(b[0], b[1], b[2]);
      PrefixShape(Group(b[0], b[1], b[2]), Encode(b[3..]), |b| - 3);
    } else if |b| == 2 {
      GroupIsPlain(b[0], b[1], 0);
      LastGroup(Group(b[0], b[1], 0), 2);
    } else if |b| == 1 {
      GroupIsPlain(b[0], 0, 0);
      LastGroup(Group(b[0], 0, 0), 1);
    }
  }

  lemma PrefixShape(group: string, s: string, n: nat)
    requires |group| == 4 && Plain(group) && Shape(s, n)
    ensures Shape(group + s, n + 3)
  {
    PaddingAppend(group, s);
    StripPlain(group);
    StripAppend(group, s);
    ThreeMore(n);
  }

  lemma ThreeMore(n: nat)
    ensures PaddingOf(n + 3) == PaddingOf(n)
    ensures (n + 3 + PaddingOf(n + 3)) / 3 * 4 == 4 + (n + PaddingOf(n)) / 3 * 4
  {
    var k := (n + PaddingOf(n)) / 3;
    assert (n + 3) % 3 == n % 3;
    assert n + 3 + PaddingOf(n + 3) == n + PaddingOf(n) + 3;
  }

  lemma LastGroup(group: string, n: nat)
    requires |group| == 4 && Plain(group) && 1 <= n <= 2
    ensures Shape(if n == 1 then group[..2] + "==" else group[..3] + "=", n)
  {
    var kept, pad := group[..n + 1], if n == 1 then "==" else "=";
    assert "=="[..1] == "=";
    assert Padding(pad) == |pad|;
    PaddingAppend(kept, pad);
    StripPlain(kept + pad);
  }

  lemma {:induction false} StripPlain(s: string)
    requires forall i :: 0 <= i < |s| ==> !IsSpace(s[i])
    ensures StripSpaces(s) == s
  {
    if s == [] {
    } else {
      StripPlain(s[1..]);
    }
  }

  lemma {:induction false} StripAppend(s: string, t: string)
    ensures StripSpaces(s + t) == StripSpaces(s) + StripSpaces(t)
  {
    if s == [] {
      assert s + t == t;
    } else {
      StripAppend(s[1..], t);
      assert (s + t)[1..] == s[1..] + t;
      Regroup(if IsSpace(s[0]) then [] else [s[0]], StripSpaces(s[1..]), StripSpaces(t));
    }
  }

  /** Padding is read from the end: what comes before a longer text does not matter, as long as
      its own last character is no padding. */
  lemma {:induction false} PaddingAppend(s: string, t: string)
    requires s != [] && s[|s| - 1] != '='
    ensures Padding(s + t) == Padding(t)
    decreases |t|
  {
    if t == [] {
      assert s + t == s;
    } else {
      assert (s + t)[..|s + t| - 1] == s + t[..|t| - 1];
      PaddingAppend(s, t[..|t| - 1]);
    }
  }

  /** The charge is the exact decoded size, for every byte string and wherever whitespace was
      inserted into its encoding. */
  lemma ChargeIsDecodedSize(b: Bytes, b64: string)
    requires StripSpaces(b64) == Encode(b)
    ensures Base64Bytes(b64) == |b|
  {
    EncodeShape(b);
    ShapeCharge(Encode(b), |b|);
  }

  lemma ShapeCharge(s: string, n: nat)
    requires Shape(s, n)
    ensures |s| % 4 == 0 && |s| / 4 * 3 - Padding(s) == n && (s == [] <==> n == 0)
  {
    var q, r := n / 3, n % 3;
    var k := if r == 0 then q else q + 1;
    assert n == 3 * q + r;
    assert n + PaddingOf(n) == 3 * k;
    TripleThird(k);
    FourFold(k);
    assert |s| == k * 4;
  }

  lemma TripleThird(k: nat)
    ensures 3 * k / 3 == k
  {
  }

  lemma FourFold(k: nat)
    ensures k * 4 % 4 == 0 && k * 4 / 4 == k
  {
  }
}
