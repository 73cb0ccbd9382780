/** The rolling checksum of both peers and its algebra (section 8.2 of RFC 1950). */
module Adler32 {
  import opened Bytes

  const MOD: int := 65521

  /** The two running sums before reduction: `a` starts at one, `b` adds up every prefix value of `a`. */
  function SumA(s: seq<byte>): (r: nat)
    ensures r >= 1
  {
    if s == [] then 1 else SumA(s[..|s| - 1]) + s[|s| - 1] as int
  }

  function SumB(s: seq<byte>): nat {
    if s == [] then 0 else SumB(s[..|s| - 1]) + SumA(s)
  }

  /** Plain and position-weighted totals, read from the front: the closed form of RFC 1950. */
  function Total(s: seq<byte>): nat {
    if s == [] then 0 else s[0] as int + Total(s[1..])
  }

  function Weighted(s: seq<byte>): nat {
    if s == [] then 0 else |s| * s[0] as int + Weighted(s[1..])
  }

  /** `(b << 16) | a` as a number (see PackIsShiftOr). */
  function Pack(a: nat, b: nat): nat {
    (b * 65536) % TWO32 + a
  }

  function Checksum(s: seq<byte>): nat {
    Pack(SumA(s) % MOD, SumB(s) % MOD)
  }

  /** The halves of a packed checksum. */
  function LowHalf(c: nat): nat { c % 65536 }

  function HighHalf(c: nat): nat { c / 65536 }

  /** The loop of both `adler32` functions. */
  method Compute(data: seq<byte>) returns (c: nat)
    ensures c == Checksum(data) < TWO32
  {
    hide ShiftOr, HalfWord, Value32, Pack;
    var a, b := 1, 0;
    for i := 0 to |data|
      invariant 0 <= a < MOD && 0 <= b < MOD
      invariant a == SumA(data[..i]) % MOD && b == SumB(data[..i]) % MOD
    {
      assert data[..i + 1][..i] == data[..i];
      assert a + data[i] as int < TWO32;
      ModAdd(SumA(data[..i]), data[i] as int);
      a := (a + data[i] as int) % MOD;
      assert b + a < TWO32;
      ModAdd2(SumB(data[..i]), SumA(data[..i + 1]));
      b := (b + a) % MOD;
    }
    assert data[..|data|] == data;
    PackIsShiftOr(a, b);
    c := Value32(ShiftOr(HalfWord(b), HalfWord(a)));
  }

  function Value16(w: bv16): nat { w as int }

  function Value32(w: bv32): nat { w as int }

  /** `(b << 16) | a` on 32-bit words. */
  function ShiftOr(b: bv16, a: bv16): bv32 {
    ((b as bv32) << 16) | (a as bv32)
  }

  /** The word with value `n`. */
  function HalfWord(n: nat): (w: bv16)
    requires n < 65536
    ensures Value16(w) == n
  {
    if n == 0 then 0 else
      var h := HalfWord(n / 2);
      ShiftIn(h);
      if n % 2 == 0 then h << 1 else (h << 1) | 1
  }

  lemma ShiftIn(x: bv16)
    requires Value16(x) < 32768
    ensures Value16(x << 1) == 2 * Value16(x) && Value16((x << 1) | 1) == 2 * Value16(x) + 1
  {
    UpperBitClear(x);
    ShiftInZero(x);
    ShiftInOne(x);
  }

  lemma UpperBitClear(x: bv16)
    requires x as int < 32768
    ensures x < 32768
  {
  }

  lemma ShiftInZero(x: bv16)
    requires x < 32768
    ensures (x << 1) as int == 2 * (x as int)
  {
  }

  lemma ShiftInOne(x: bv16)
    requires x < 32768
    ensures ((x << 1) | 1) as int == 2 * (x as int) + 1
  {
  }

  /** The 32-bit word `(b << 16) | a`, read as a number, is the packed checksum. */
  lemma PackIsShiftOr(a: nat, b: nat)
    requires a < 65536 && b < 65536
    ensures Value32(ShiftOr(HalfWord(b), HalfWord(a))) == Pack(a, b) < TWO32
  {
    hide Pack, HalfWord, Value16, Value32, ShiftOr;
    HalvesOfWord(HalfWord(a), HalfWord(b));
    PackIsSum(a, b);
  }

  lemma HalvesOfWord(a: bv16, b: bv16)
    ensures Value32(ShiftOr(b, a)) == Value16(b) * 65536 + Value16(a)
  {
  }

  lemma PackIsSum(a: nat, b: nat)
    requires a < 65536 && b < 65536
    ensures Pack(a, b) == b * 65536 + a
  {
  }

  lemma ModAdd(x: int, y: int)
    ensures (x % MOD + y) % MOD == (x + y) % MOD
  {
  }

  lemma ModAdd2(x: int, y: int)
    ensures (x % MOD + y % MOD) % MOD == (x + y) % MOD
  {
  }

  /** Packing loses nothing: both reduced sums come back out of the checksum. */
  lemma ChecksumHalves(s: seq<byte>)
    ensures LowHalf(Checksum(s)) == SumA(s) % MOD
    ensures HighHalf(Checksum(s)) == SumB(s) % MOD
  {
    hide SumA, SumB, Pack, LowHalf, HighHalf;
    PackHalves(SumA(s) % MOD, SumB(s) % MOD);
  }

  lemma PackHalves(a: nat, b: nat)
    requires a < 65536 && b < 65536
    ensures LowHalf(Pack(a, b)) == a && HighHalf(Pack(a, b)) == b
  {
    PackIsSum(a, b);
  }

  lemma {:induction false} SumsConcat(x: seq<byte>, y: seq<byte>)
    ensures SumA(x + y) == SumA(x) + SumA(y) - 1
    ensures SumB(x + y) == SumB(x) + SumB(y) + |y| * (SumA(x) - 1)
  {
    if y == [] {
      assert x + y == x;
    } else {
      var y' := y[..|y| - 1];
      SumsConcat(x, y');
      assert (x + y)[..|x + y| - 1] == x + y';
      Distribute(|y'|, 1, SumA(x) - 1);
    }
  }

  lemma Distribute(m: int, n: int, k: int)
    ensures (m + n) * k == m * k + n * k
  {
  }

  lemma SumsOne(d: byte)
    ensures SumA([d]) == SumB([d]) == 1 + d as int
  {
    assert [d][..0] == [];
  }

  /** The loop computes exactly the weighted sums of the standard. */
  lemma {:induction false} ClosedForm(s: seq<byte>)
    ensures SumA(s) == 1 + Total(s)
    ensures SumB(s) == |s| + Weighted(s)
  {
    if s != [] {
      var h, t := s[..1], s[1..];
      ClosedForm(t);
      SumsConcat(h, t);
      assert s == h + t;
      SumsOne(s[0]);
      assert h == [s[0]];
      Distribute(1, |t|, s[0] as int);
    }
  }

  /** 257 octets of 255 bring the first sum to exactly 2^16, which reduces to 15: the modulus is 65521. */
  lemma WrapsAt65521()
    ensures LowHalf(Checksum(seq(257, _ => 255))) == 15
  {
    var s := seq(257, _ => 255 as byte);
    TotalOf(257, 255);
    ClosedForm(s);
    ChecksumHalves(s);
    hide Checksum, SumA, SumB, Total;
  }

  lemma {:induction false} TotalOf(n: nat, d: byte)
    ensures Total(seq(n, _ => d)) == n * d as int
  {
    if n > 0 {
      TotalOf(n - 1, d);
      assert seq(n, _ => d)[1..] == seq(n - 1, _ => d);
      Distribute(n - 1, 1, d as int);
    }
  }

  lemma ModMul(k: int, x: int)
    ensures (k * (x % MOD)) % MOD == (k * x) % MOD
  {
    var q := x / MOD;
    assert k * x == k * (x % MOD) + MOD * (k * q) by {
      assert x == MOD * q + x % MOD;
      assert k * x == k * (MOD * q) + k * (x % MOD);
      assert k * (MOD * q) == MOD * (k * q);
    }
    ModShift(k * (x % MOD), k * q);
  }

  lemma ModShift(x: int, q: int)
    ensures (x + MOD * q) % MOD == x % MOD
  {
    DivUnique(x + MOD * q, MOD, x / MOD + q, x % MOD);
  }

  /** The checksum of a concatenation needs only the two checksums and the length of the second part. */
  lemma Combine(x: seq<byte>, y: seq<byte>)
    ensures LowHalf(Checksum(x + y)) == (LowHalf(Checksum(x)) + LowHalf(Checksum(y)) - 1) % MOD
    ensures HighHalf(Checksum(x + y))
         == (HighHalf(Checksum(x)) + HighHalf(Checksum(y)) + |y| * (LowHalf(Checksum(x)) - 1)) % MOD
  {
    hide Checksum, LowHalf, HighHalf, SumA, SumB;
    ChecksumHalves(x);
    ChecksumHalves(y);
    ChecksumHalves(x + y);
    SumsConcat(x, y);
    CombineLow(SumA(x), SumA(y));
    CombineHigh(SumA(x), SumB(x), SumB(y), |y|);
  }

  lemma CombineLow(u: int, v: int)
    ensures (u % MOD + v % MOD - 1) % MOD == (u + v - 1) % MOD
  {
    ModSum3(u, v, 0, 0, 1);
  }

  lemma CombineHigh(a: int, u: int, v: int, n: int)
    ensures (u % MOD + v % MOD + n * (a % MOD - 1)) % MOD == (u + v + n * (a - 1)) % MOD
  {
    ModMul(n, a);
    ModSum3(u, v, n * (a % MOD), n * a, n);
  }

  lemma ModSum3(u: int, v: int, p: int, q: int, n: int)
    requires p % MOD == q % MOD
    ensures (u % MOD + v % MOD + (p - n)) % MOD == (u + v + (q - n)) % MOD
  {
    ModAdd2(u, v);
    ModAdd(u + v, p - n);
    ModAdd(u % MOD + v % MOD, p - n);
    ModAdd(p, u + v - n);
    ModAdd(q, u + v - n);
  }

  /** Sliding a window one octet to the right: the rolling update that gives the checksum its name. */
  lemma Slide(first: byte, mid: seq<byte>, last: byte)
    ensures var before, after := Checksum([first] + mid), Checksum(mid + [last]);
            && LowHalf(after) == (LowHalf(before) - first as int + last as int) % MOD
            && HighHalf(after)
               == (HighHalf(before) - (|mid| + 1) * first as int + LowHalf(after) - 1) % MOD
  {
    var n := |mid| + 1;
    var before, after := [first] + mid, mid + [last];
    SlideSums(first, mid, last);
    hide Checksum, LowHalf, HighHalf, SumA, SumB;
    ChecksumHalves(before);
    ChecksumHalves(after);
    ModAdd(SumA(before), last as int - first as int);
    ModSum3(SumB(before), SumA(after), 0, 0, n * first as int + 1);
  }

  lemma SlideSums(first: byte, mid: seq<byte>, last: byte)
    ensures SumA(mid + [last]) == SumA([first] + mid) - first as int + last as int
    ensures SumB(mid + [last]) == SumB([first] + mid) - (|mid| + 1) * first as int + SumA(mid + [last]) - 1
  {
    SumsConcat([first], mid);
    SumsOne(first);
    assert (mid + [last])[..|mid|] == mid;
    Distribute(|mid|, 1, first as int);
  }
}
