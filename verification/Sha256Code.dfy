/** The two SHA-256 routines of the server. `sha256_raw` (file_manager.cpp) and `sha256_hex` (delta_sync_handler.cpp) are
    the same loops written out twice; they differ in the form of the result. */
module Sha256Code {
  import opened Bytes
  import opened Sha256

  /** `n >> (8 * i)`. */
  function ShiftOctets(n: nat, i: nat): nat {
    if i == 0 then n else ShiftOctets(n, i - 1) / 256
  }

  lemma Digits32(d3: nat, d2: nat, d1: nat, d0: nat)
    requires d3 < 256 && d2 < 256 && d1 < 256 && d0 < 256
    ensures BigEndian32(((d3 * 256 + d2) * 256 + d1) * 256 + d0) == [d3 as byte, d2 as byte, d1 as byte, d0 as byte]
  {
    var n := ((d3 * 256 + d2) * 256 + d1) * 256 + d0;
    DivUnique(n, 0x100_0000, d3, (d2 * 256 + d1) * 256 + d0);
    DivUnique(n, 0x1_0000, d3 * 256 + d2, d1 * 256 + d0);
    DivUnique(n, 0x100, (d3 * 256 + d2) * 256 + d1, d0);
    DivUnique(d3 * 256 + d2, 256, d3, d2);
    DivUnique((d3 * 256 + d2) * 256 + d1, 256, d3 * 256 + d2, d1);
  }

  /** The four octets that `Octets32(n)` lists are those of `n` modulo 2^32; what is above them is `n` shifted by four. */
  lemma FourOctets(n: nat)
    ensures n / TWO32 == n / 256 / 256 / 256 / 256
    ensures BigEndian32(n % TWO32) == Octets32(n)
  {
    var a1 := n / 256;
    var a2 := a1 / 256;
    var a3 := a2 / 256;
    var low := ((a3 % 256 * 256 + a2 % 256) * 256 + a1 % 256) * 256 + n % 256;
    assert n == a3 / 256 * TWO32 + low;
    DivUnique(n, TWO32, a3 / 256, low);
    Digits32(a3 % 256, a2 % 256, a1 % 256, n % 256);
  }

  ghost function Octets32(n: nat): seq<byte> {
    [(n / 256 / 256 / 256 % 256) as byte, (n / 256 / 256 % 256) as byte, (n / 256 % 256) as byte, (n % 256) as byte]
  }

  /** Shifting and truncating octet by octet writes the big-endian layout. */
  lemma LengthOctets(n: nat, i: nat)
    requires n < TWO64 && i < 8
    ensures BigEndian64(n)[7 - i] as int == ShiftOctets(n, i) % 256
  {
    var high := n / TWO32;
    FourOctets(n);
    FourOctets(high);
    assert high % TWO32 == high;
    hide BigEndian32;
    assert BigEndian64(n) == Octets32(high) + Octets32(n);
    if i < 4 {
      FourShifts(n);
    } else {
      FourShifts(n);
      FourShifts(high);
      ShiftAdds(n, i - 4, 4);
      hide ShiftOctets;
    }
  }

  lemma FourShifts(n: nat)
    ensures ShiftOctets(n, 0) == n && ShiftOctets(n, 1) == n / 256
    ensures ShiftOctets(n, 2) == n / 256 / 256
    ensures ShiftOctets(n, 3) == n / 256 / 256 / 256
    ensures ShiftOctets(n, 4) == n / 256 / 256 / 256 / 256
  {
    assert ShiftOctets(n, 2) == ShiftOctets(n, 1) / 256;
    assert ShiftOctets(n, 3) == ShiftOctets(n, 2) / 256;
    assert ShiftOctets(n, 4) == ShiftOctets(n, 3) / 256;
  }

  lemma {:induction false} ShiftAdds(n: nat, i: nat, j: nat)
    ensures ShiftOctets(n, i + j) == ShiftOctets(ShiftOctets(n, j), i)
  {
    if i > 0 {
      ShiftAdds(n, i - 1, j);
    }
  }

  /** Zeroed buffer, copy of the message, 0x80, length octets from the end: all writes in bounds. */
  method PadMessage(data: seq<byte>) returns (padded: array<byte>)
    ensures fresh(padded) && padded[..] == Pad(data)
  {
    var bitLen := U64(|data| * 8);
    var paddedLen := PaddedLength(|data|);
    PaddedLengthFits(|data|);
    forall i | 0 <= i < 8 ensures BigEndian64(bitLen)[7 - i] as int == ShiftOctets(bitLen, i) % 256 {
      LengthOctets(bitLen, i);
    }
    hide BigEndian64, U64, ShiftOctets, PaddedLength, ZeroCount;
    padded := new byte[paddedLen](_ => 0);
    for i := 0 to |data|
      invariant forall j :: 0 <= j < paddedLen ==> padded[j] == if j < i then data[j] else 0
    {
      padded[i] := data[i];
    }
    padded[|data|] := 0x80;
    for i := 0 to 8
      invariant forall j :: 0 <= j < paddedLen ==>
                  padded[j] == if j < |data| then data[j] else if j == |data| then 0x80
                               else if j < paddedLen - i then 0 else BigEndian64(bitLen)[j - (paddedLen - 8)]
    {
      padded[paddedLen - 1 - i] := (ShiftOctets(bitLen, i) % 256) as byte;
    }
    assert padded[..] == Pad(data);
  }

  lemma SumReordered(a: Word, b: Word, c: Word, d: Word)
    ensures Sum4(a, b, c, d) == Sum4(d, c, b, a)
  {
  }

  lemma PlusCommutes(x: State, y: State)
    ensures Add(x, y) == Add(y, x)
  {
    PlusSwap(x.a, y.a);
    PlusSwap(x.b, y.b);
    PlusSwap(x.c, y.c);
    PlusSwap(x.d, y.d);
    PlusSwap(x.e, y.e);
    PlusSwap(x.f, y.f);
    PlusSwap(x.g, y.g);
    PlusSwap(x.h, y.h);
    hide Plus;
  }

  lemma PlusSwap(x: Word, y: Word)
    ensures Plus(x, y) == Plus(y, x)
  {
  }

  /** The server's `rotr`. */
  function Rotr(x: Word, n: Word): Word
    requires 0 < n < 32
  {
    (x >> n) | (x << (32 - n))
  }

  lemma RotrIsRotation(x: Word)
    ensures Rotr(x, 2) == x.RotateRight(2) && Rotr(x, 6) == x.RotateRight(6) && Rotr(x, 7) == x.RotateRight(7)
    ensures Rotr(x, 11) == x.RotateRight(11) && Rotr(x, 13) == x.RotateRight(13) && Rotr(x, 17) == x.RotateRight(17)
    ensures Rotr(x, 18) == x.RotateRight(18) && Rotr(x, 19) == x.RotateRight(19)
    ensures Rotr(x, 22) == x.RotateRight(22) && Rotr(x, 25) == x.RotateRight(25)
  {
  }

  // The four terms the code calls s0, s1, S0 and S1.

  function ScheduleS0(x: Word): Word { Xor3(Rotr(x, 7), Rotr(x, 18), x >> 3) }

  function ScheduleS1(x: Word): Word { Xor3(Rotr(x, 17), Rotr(x, 19), x >> 10) }

  function RoundS0(x: Word): Word { Xor3(Rotr(x, 2), Rotr(x, 13), Rotr(x, 22)) }

  function RoundS1(x: Word): Word { Xor3(Rotr(x, 6), Rotr(x, 11), Rotr(x, 25)) }

  /** They are the four functions of section 4.1.2. */
  lemma SigmasOfRotr(x: Word)
    ensures ScheduleS0(x) == SmallSigma0(x) && ScheduleS1(x) == SmallSigma1(x)
    ensures RoundS0(x) == BigSigma0(x) && RoundS1(x) == BigSigma1(x)
  {
    hide Rotr, Xor3;
    RotrIsRotation(x);
  }

  /** The message schedule of the block at `offset`. */
  method Schedule(padded: array<byte>, offset: nat) returns (w: array<Word>)
    requires offset + 64 <= padded.Length
    ensures fresh(w) && w.Length == 64
    ensures forall t :: 0 <= t < 64 ==> w[t] == W(padded[offset..offset + 64], t)
  {
    hide W, WordAt, SmallSigma0, SmallSigma1, Sum4, Join, ScheduleS0, ScheduleS1;
    ghost var block := padded[offset..offset + 64];
    w := new Word[64](_ => 0);
    for i := 0 to 16
      invariant forall t :: 0 <= t < i ==> w[t] == W(block, t)
    {
      FirstWord(block, i);
      w[i] := Join(padded[offset + i * 4], padded[offset + i * 4 + 1], padded[offset + i * 4 + 2], padded[offset + i * 4 + 3]);
    }
    for i := 16 to 64
      invariant forall t :: 0 <= t < i ==> w[t] == W(block, t)
    {
      SigmasOfRotr(w[i - 15]);
      SigmasOfRotr(w[i - 2]);
      var s0 := ScheduleS0(w[i - 15]);
      var s1 := ScheduleS1(w[i - 2]);
      NextWord(block, i);
      SumReordered(w[i - 16], s0, w[i - 7], s1);
      w[i] := Sum4(w[i - 16], s0, w[i - 7], s1);
    }
  }

  lemma FirstWord(block: seq<byte>, t: nat)
    requires |block| == 64 && t < 16
    ensures W(block, t) == Join(block[t * 4], block[t * 4 + 1], block[t * 4 + 2], block[t * 4 + 3])
  {
    hide Join, Sum4, SmallSigma0, SmallSigma1;
  }

  lemma NextWord(block: seq<byte>, t: nat)
    requires |block| == 64 && 16 <= t < 64
    ensures W(block, t) == Sum4(SmallSigma1(W(block, t - 2)), W(block, t - 7), SmallSigma0(W(block, t - 15)), W(block, t - 16))
  {
    hide Join, WordAt, Sum4, SmallSigma0, SmallSigma1;
  }

  /** The sixty-four rounds over eight working variables, then the addition into the hash value. */
  method CompressBlock(h: State, w: array<Word>, ghost block: seq<byte>) returns (r: State)
    requires w.Length == 64 && |block| == 64 && forall t :: 0 <= t < 64 ==> w[t] == W(block, t)
    ensures r == Compress(h, block)
  {
    hide W, BigSigma0, BigSigma1, Ch, Maj, KAt, Plus, Rounds, RoundS0, RoundS1;
    var a, b, c, d, e, f, g, hh := h.a, h.b, h.c, h.d, h.e, h.f, h.g, h.h;
    NoRounds(h, block);
    for i := 0 to 64
      invariant State(a, b, c, d, e, f, g, hh) == Rounds(h, block, i)
    {
      OneMoreRound(h, block, i);
      SigmasOfRotr(e);
      SigmasOfRotr(a);
      var S1 := RoundS1(e);
      var temp1 := Plus(Plus(Plus(Plus(hh, S1), Ch(e, f, g)), KAt(i)), w[i]);
      var S0 := RoundS0(a);
      var temp2 := Plus(S0, Maj(a, b, c));
      hh := g;
      g := f;
      f := e;
      e := Plus(d, temp1);
      d := c;
      c := b;
      b := a;
      a := Plus(temp1, temp2);
    }
    r := State(Plus(h.a, a), Plus(h.b, b), Plus(h.c, c), Plus(h.d, d), Plus(h.e, e), Plus(h.f, f), Plus(h.g, g), Plus(h.h, hh));
    PlusCommutes(h, Rounds(h, block, 64));
  }

  lemma NoRounds(h: State, block: seq<byte>)
    requires |block| == 64
    ensures Rounds(h, block, 0) == h
  {
  }

  lemma OneMoreRound(h: State, block: seq<byte>, i: nat)
    requires |block| == 64 && i < 64
    ensures Rounds(h, block, i + 1) == Round(Rounds(h, block, i), KAt(i), W(block, i))
  {
    hide Round, W, KAt;
  }

  /** The block loop: the hash value after all blocks is the digest of the standard. */
  method HashMessage(data: seq<byte>) returns (h: State)
    ensures h == Digest(data)
  {
    PaddingIsCanonical(data);
    hide Pad, Compress, PaddedLength, W;
    var padded := PadMessage(data);
    ghost var p := padded[..];
    h := INITIAL;
    var offset := 0;
    ghost var n := 0;
    while offset < padded.Length
      invariant offset == 64 * n <= padded.Length && padded[..] == p
      invariant h == Blocks(p, n)
      decreases padded.Length - offset
    {
      var w := Schedule(padded, offset);
      ghost var block := p[64 * n..64 * (n + 1)];
      assert padded[offset..offset + 64] == block;
      h := CompressBlock(h, w, block);
      offset := offset + 64;
      n := n + 1;
    }
  }

  method PutBe32(buf: array<byte>, pos: nat, val: Word)
    requires pos + 4 <= buf.Length
    modifies buf
    ensures buf[..] == old(buf[..pos]) + WordBytes(val) + old(buf[pos + 4..])
  {
    hide OctetOf;
    buf[pos] := OctetOf(val >> 24);
    buf[pos + 1] := OctetOf(val >> 16);
    buf[pos + 2] := OctetOf(val >> 8);
    buf[pos + 3] := OctetOf(val);
  }

  method Sha256Raw(data: seq<byte>) returns (result: seq<byte>)
    ensures result == DigestBytes(Digest(data))
    ensures |result| == 32
  {
    hide Digest, WordBytes;
    var h := HashMessage(data);
    var buf := new byte[32](_ => 0);
    var words := [h.a, h.b, h.c, h.d, h.e, h.f, h.g, h.h];
    for i := 0 to 8
      invariant buf[..4 * i] == AllBytes(words[..i])
    {
      ghost var before := buf[..4 * i];
      PutBe32(buf, 4 * i, words[i]);
      assert words[..i + 1][..i] == words[..i];
      assert buf[..4 * (i + 1)] == before + WordBytes(words[i]);
    }
    result := buf[..];
    assert words[..8] == words && result == buf[..32];
  }

  method ToHex(data: seq<byte>) returns (result: string)
    ensures result == Hex(data)
  {
    hide HexDigit;
    result := "";
    for i := 0 to |data|
      invariant result + Hex(data[i..]) == Hex(data)
    {
      var octet := data[i] as int;
      assert data[i..][1..] == data[i + 1..];
      result := result + [HexDigit(octet / 16)] + [HexDigit(octet % 16)];
    }
  }

  /** The eight hex digits that `sha256_hex` takes straight from a word. */
  function WordHex(w: Word): string {
    [HexDigit(Nibble(w >> 28)), HexDigit(Nibble(w >> 24)), HexDigit(Nibble(w >> 20)), HexDigit(Nibble(w >> 16)),
     HexDigit(Nibble(w >> 12)), HexDigit(Nibble(w >> 8)), HexDigit(Nibble(w >> 4)), HexDigit(Nibble(w))]
  }

  function Nibble(w: Word): (n: nat)
    ensures n < 16
  {
    (w & 0xF) as int
  }

  lemma OctetNibbles(w: Word)
    ensures OctetOf(w) as int / 16 == Nibble(w >> 4) && OctetOf(w) as int % 16 == Nibble(w)
  {
    var v := w & 0xFF;
    SmallWord(v);
    assert v >> 4 == (w >> 4) & 0xF && v & 0xF == w & 0xF;
  }

  lemma SmallWord(v: Word)
    requires v < 256
    ensures (v as int) / 16 == (v >> 4) as int && (v as int) % 16 == (v & 0xF) as int
  {
  }

  lemma WordHexIsHex(w: Word)
    ensures Hex(WordBytes(w)) == WordHex(w)
  {
    OctetNibbles(w >> 24);
    OctetNibbles(w >> 16);
    OctetNibbles(w >> 8);
    OctetNibbles(w);
    assert (w >> 24) >> 4 == w >> 28 && (w >> 16) >> 4 == w >> 20 && (w >> 8) >> 4 == w >> 12;
    hide OctetOf, Nibble;
    HexOfFour(OctetOf(w >> 24), OctetOf(w >> 16), OctetOf(w >> 8), OctetOf(w));
  }

  lemma HexOfFour(p: byte, q: byte, r: byte, s: byte)
    ensures Hex([p, q, r, s]) == [HexDigit(p as int / 16), HexDigit(p as int % 16), HexDigit(q as int / 16), HexDigit(q as int % 16),
                                  HexDigit(r as int / 16), HexDigit(r as int % 16), HexDigit(s as int / 16), HexDigit(s as int % 16)]
  {
    hide HexDigit;
    assert [p, q, r, s][1..] == [q, r, s] && [q, r, s][1..] == [r, s] && [r, s][1..] == [s] && [s][1..] == [];
    assert Hex([s]) == [HexDigit(s as int / 16), HexDigit(s as int % 16)];
    assert Hex([r, s]) == [HexDigit(r as int / 16), HexDigit(r as int % 16)] + Hex([s]);
    assert Hex([q, r, s]) == [HexDigit(q as int / 16), HexDigit(q as int % 16)] + Hex([r, s]);
  }

  lemma {:induction false} HexConcat(x: seq<byte>, y: seq<byte>)
    ensures Hex(x + y) == Hex(x) + Hex(y)
  {
    hide HexDigit;
    if x == [] {
      assert x + y == y;
    } else {
      assert (x + y)[1..] == x[1..] + y;
      HexConcat(x[1..], y);
    }
  }

  method WordToHex(x: Word) returns (s: string)
    ensures s == WordHex(x)
  {
    hide HexDigit, Nibble;
    s := [HexDigit(Nibble(x >> 28)), HexDigit(Nibble(x >> 24)), HexDigit(Nibble(x >> 20)), HexDigit(Nibble(x >> 16)),
          HexDigit(Nibble(x >> 12)), HexDigit(Nibble(x >> 8)), HexDigit(Nibble(x >> 4)), HexDigit(Nibble(x))];
  }

  ghost function AllHex(ws: seq<Word>): string {
    if ws == [] then "" else AllHex(ws[..|ws| - 1]) + WordHex(ws[|ws| - 1])
  }

  lemma {:induction false} AllHexIsHex(ws: seq<Word>)
    ensures AllHex(ws) == Hex(AllBytes(ws))
  {
    hide WordHex, WordBytes;
    if ws != [] {
      AllHexIsHex(ws[..|ws| - 1]);
      WordHexIsHex(ws[|ws| - 1]);
      HexConcat(AllBytes(ws[..|ws| - 1]), WordBytes(ws[|ws| - 1]));
    }
  }

  /** `sha256_hex` writes nibbles; its result is `to_hex` of what `sha256_raw` returns, on every input. */
  method Sha256Hex(data: seq<byte>) returns (hex: string)
    ensures hex == Hex(DigestBytes(Digest(data)))
  {
    hide Digest, WordHex, AllBytes, Hex;
    var h := HashMessage(data);
    var hs := [h.a, h.b, h.c, h.d, h.e, h.f, h.g, h.h];
    AllHexIsHex(hs);
    hex := "";
    for i := 0 to 8
      invariant hex == AllHex(hs[..i])
    {
      assert hs[..i + 1][..i] == hs[..i];
      var digits := WordToHex(hs[i]);
      hex := hex + digits;
    }
    assert hs[..8] == hs;
  }

  /** The two routines agree on every octet string: `sha256_hex` is `to_hex` of `sha256_raw`. */
  method BothRoutines(data: seq<byte>) returns (hex: string, raw: seq<byte>)
    ensures hex == Hex(raw) && |raw| == 32 && raw == DigestBytes(Digest(data))
  {
    hide Digest, DigestBytes, Hex;
    hex := Sha256Hex(data);
    raw := Sha256Raw(data);
  }
}
