/** SHA-256 as FIPS 180-4 defines it (sections 4.1.2, 4.2.2, 5.1.1, 5.3.3 and 6.2.2). */
module Sha256 {
  import opened Bytes

  type Word = bv32

  datatype State = State(a: Word, b: Word, c: Word, d: Word, e: Word, f: Word, g: Word, h: Word)

  // The round constants, eight to a row.
  const KA: seq<Word> := [0x428a2f98, 0x71374491, 0xb5c0fbcf, 0xe9b5dba5, 0x3956c25b, 0x59f111f1, 0x923f82a4, 0xab1c5ed5]
  const KB: seq<Word> := [0xd807aa98, 0x12835b01, 0x243185be, 0x550c7dc3, 0x72be5d74, 0x80deb1fe, 0x9bdc06a7, 0xc19bf174]
  const KC: seq<Word> := [0xe49b69c1, 0xefbe4786, 0x0fc19dc6, 0x240ca1cc, 0x2de92c6f, 0x4a7484aa, 0x5cb0a9dc, 0x76f988da]
  const KD: seq<Word> := [0x983e5152, 0xa831c66d, 0xb00327c8, 0xbf597fc7, 0xc6e00bf3, 0xd5a79147, 0x06ca6351, 0x14292967]
  const KE: seq<Word> := [0x27b70a85, 0x2e1b2138, 0x4d2c6dfc, 0x53380d13, 0x650a7354, 0x766a0abb, 0x81c2c92e, 0x92722c85]
  const KF: seq<Word> := [0xa2bfe8a1, 0xa81a664b, 0xc24b8b70, 0xc76c51a3, 0xd192e819, 0xd6990624, 0xf40e3585, 0x106aa070]
  const KG: seq<Word> := [0x19a4c116, 0x1e376c08, 0x2748774c, 0x34b0bcb5, 0x391c0cb3, 0x4ed8aa4a, 0x5b9cca4f, 0x682e6ff3]
  const KH: seq<Word> := [0x748f82ee, 0x78a5636f, 0x84c87814, 0x8cc70208, 0x90befffa, 0xa4506ceb, 0xbef9a3f7, 0xc67178f2]

  const INITIAL: State := State(0x6a09e667, 0xbb67ae85, 0x3c6ef372, 0xa54ff53a,
                                0x510e527f, 0x9b05688c, 0x1f83d9ab, 0x5be0cd19)

  function KAt(t: nat): Word
    requires t < 64
  {
    if t < 8 then KA[t] else if t < 16 then KB[t - 8] else if t < 24 then KC[t - 16] else if t < 32 then KD[t - 24]
    else if t < 40 then KE[t - 32] else if t < 48 then KF[t - 40] else if t < 56 then KG[t - 48] else KH[t - 56]
  }

  // ---- Section 4.1.2 ------------------------------------------------------------------------------

  function Ch(x: Word, y: Word, z: Word): Word { (x & y) ^ (!x & z) }

  function Maj(x: Word, y: Word, z: Word): Word { (x & y) ^ (x & z) ^ (y & z) }

  function Xor3(p: Word, q: Word, r: Word): Word { p ^ q ^ r }

  function BigSigma0(x: Word): Word { Xor3(x.RotateRight(2), x.RotateRight(13), x.RotateRight(22)) }

  function BigSigma1(x: Word): Word { Xor3(x.RotateRight(6), x.RotateRight(11), x.RotateRight(25)) }

  function SmallSigma0(x: Word): Word { Xor3(x.RotateRight(7), x.RotateRight(18), x >> 3) }

  function SmallSigma1(x: Word): Word { Xor3(x.RotateRight(17), x.RotateRight(19), x >> 10) }

  // ---- Section 5.1.1: padding ------------------------------------------------------------------------

  /** The least number of zero octets that brings `len + 1 + zeros` to 56 modulo 64. */
  function ZeroCount(len: nat): nat {
    (119 - len % 64) % 64
  }

  function Pad(m: seq<byte>): seq<byte> {
    m + [0x80] + Zeros(ZeroCount(|m|)) + BigEndian64(U64(|m| * 8))
  }

  /** The padded length as the code computes it. */
  function PaddedLength(len: nat): nat {
    ((len + 8) / 64 + 1) * 64
  }

  /** The padded length is the least multiple of 64 with room for the message, one octet and the length field. */
  lemma PaddingIsCanonical(m: seq<byte>)
    ensures |Pad(m)| == PaddedLength(|m|)
    ensures |Pad(m)| % 64 == 0 && |m| + 9 <= |Pad(m)|
    ensures forall n :: n % 64 == 0 && |m| + 9 <= n ==> |Pad(m)| <= n
  {
    PaddedLengthFits(|m|);
    forall n | n % 64 == 0 && |m| + 9 <= n ensures PaddedLength(|m|) <= n { PaddedLengthLeast(|m|, n); }
    hide BigEndian64, U64, ZeroCount, PaddedLength;
  }

  lemma PaddedLengthFits(len: nat)
    ensures len + 1 + ZeroCount(len) + 8 == PaddedLength(len) && PaddedLength(len) % 64 == 0 && len + 9 <= PaddedLength(len)
  {
    var q, r := len / 64, len % 64;
    if r < 56 {
      DivUnique(len + 8, 64, q, r + 8);
    } else {
      DivUnique(len + 8, 64, q + 1, r - 56);
    }
  }

  lemma PaddedLengthLeast(len: nat, n: int)
    requires n % 64 == 0 && len + 9 <= n
    ensures PaddedLength(len) <= n
  {
    var k := n / 64;
    assert n == 64 * k;
    assert len + 8 < 64 * k;
  }

  /** Two different messages below 2^61 octets never pad to the same octets. */
  lemma PaddingIsInjective(x: seq<byte>, y: seq<byte>)
    requires |x| * 8 < TWO64 && |y| * 8 < TWO64
    ensures Pad(x) == Pad(y) ==> x == y
  {
    if Pad(x) == Pad(y) {
      LengthField(x);
      LengthField(y);
      assert x == Pad(x)[..|x|] && y == Pad(y)[..|y|];
    }
  }

  lemma LengthField(m: seq<byte>)
    requires |m| * 8 < TWO64
    ensures |Pad(m)| >= 8 && FromBigEndian64(Pad(m)[|Pad(m)| - 8..]) == |m| * 8
  {
    var p, field := Pad(m), BigEndian64(U64(|m| * 8));
    hide BigEndian64, FromBigEndian64, ZeroCount;
    Truncation(|m| * 8);
    BigEndian64RoundTrip(|m| * 8);
    assert p[|p| - 8..] == field;
  }

  // ---- Section 6.2.2: the hash computation --------------------------------------------------------------

  /** Addition modulo 2^32. */
  function Plus(x: Word, y: Word): Word { x + y }

  function Sum4(p: Word, q: Word, r: Word, s: Word): Word { p + q + r + s }

  /** Four octets as one word, most significant first. */
  function Join(p: byte, q: byte, r: byte, s: byte): Word {
    ((p as bv32) << 24) | ((q as bv32) << 16) | ((r as bv32) << 8) | (s as bv32)
  }

  function WordAt(s: seq<byte>, i: nat): Word
    requires i + 4 <= |s|
  {
    Join(s[i], s[i + 1], s[i + 2], s[i + 3])
  }

  /** The message schedule of one block. */
  function W(block: seq<byte>, t: nat): Word
    requires |block| == 64 && t < 64
  {
    if t < 16 then WordAt(block, 4 * t)
    else Sum4(SmallSigma1(W(block, t - 2)), W(block, t - 7), SmallSigma0(W(block, t - 15)), W(block, t - 16))
  }

  function Round(s: State, k: Word, w: Word): State {
    var t1 := Plus(Plus(Plus(Plus(s.h, BigSigma1(s.e)), Ch(s.e, s.f, s.g)), k), w);
    var t2 := Plus(BigSigma0(s.a), Maj(s.a, s.b, s.c));
    State(Plus(t1, t2), s.a, s.b, s.c, Plus(s.d, t1), s.e, s.f, s.g)
  }

  function Rounds(s: State, block: seq<byte>, n: nat): State
    requires |block| == 64 && n <= 64
  {
    if n == 0 then s else Round(Rounds(s, block, n - 1), KAt(n - 1), W(block, n - 1))
  }

  function Add(x: State, y: State): State {
    State(Plus(x.a, y.a), Plus(x.b, y.b), Plus(x.c, y.c), Plus(x.d, y.d),
          Plus(x.e, y.e), Plus(x.f, y.f), Plus(x.g, y.g), Plus(x.h, y.h))
  }

  function Compress(s: State, block: seq<byte>): State
    requires |block| == 64
  {
    Add(Rounds(s, block, 64), s)
  }

  /** The state after the first `n` blocks. */
  function Blocks(padded: seq<byte>, n: nat): State
    requires 64 * n <= |padded|
  {
    if n == 0 then INITIAL else Compress(Blocks(padded, n - 1), padded[64 * (n - 1)..64 * n])
  }

  function Digest(m: seq<byte>): State {
    var padded := Pad(m);
    Blocks(padded, |padded| / 64)
  }

  // ---- Output ------------------------------------------------------------------------------------------

  /** `static_cast<uint8_t>(w >> shift)`. */
  function OctetOf(w: Word): byte {
    (w & 0xFF) as int as byte
  }

  function WordBytes(w: Word): seq<byte> {
    [OctetOf(w >> 24), OctetOf(w >> 16), OctetOf(w >> 8), OctetOf(w)]
  }

  function WordsOf(s: State): seq<Word> {
    [s.a, s.b, s.c, s.d, s.e, s.f, s.g, s.h]
  }

  /** The words laid end to end. */
  function AllBytes(ws: seq<Word>): (r: seq<byte>)
    ensures |r| == 4 * |ws|
  {
    if ws == [] then [] else AllBytes(ws[..|ws| - 1]) + WordBytes(ws[|ws| - 1])
  }

  function DigestBytes(s: State): seq<byte> {
    AllBytes(WordsOf(s))
  }

  const HEX_DIGITS: string := "0123456789abcdef"

  function HexDigit(n: nat): char
    requires n < 16
  {
    HEX_DIGITS[n]
  }

  function Hex(data: seq<byte>): string {
    if data == [] then "" else [HexDigit(data[0] as int / 16), HexDigit(data[0] as int % 16)] + Hex(data[1..])
  }
}
