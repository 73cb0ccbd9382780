/** Octets, options and the big-endian integers that both peers put on the wire. */
module Bytes {
  newtype byte = x: int | 0 <= x < 256

  datatype Option<+T> = None | Some(value: T)

  const TWO32: int := 0x1_0000_0000
  const TWO64: int := 0x1_0000_0000_0000_0000

  /** Conversions to the unsigned machine integers of both peers. */
  function U32(n: nat): nat { n % TWO32 }

  function U64(n: nat): nat { n % TWO64 }

  function Quotient(n: nat, d: nat): nat
    requires d > 0
  {
    n / d
  }

  lemma QuotientMono(x: nat, y: nat, d: nat)
    requires d > 0 && x <= y
    ensures Quotient(x, d) <= Quotient(y, d)
  {
    var p, q := x / d, y / d;
    assert y == d * q + y % d && x == d * p + x % d;
    if p > q {
      MulMono(d, q + 1, p);
    }
  }

  lemma Truncation(n: nat)
    ensures U32(n) <= n && U64(n) <= n && (n < TWO32 ==> U32(n) == n) && (n < TWO64 ==> U64(n) == n)
  {
  }

  /** Machine words wrap at 2^32 and 2^64. */
  lemma Wraps(n: nat)
    ensures U32(n + 0x1_0000_0000) == U32(n) && U64(n + 0x1_0000_0000_0000_0000) == U64(n)
    ensures U32(0xFFFF_FFFF) == 0xFFFF_FFFF && U64(0xFFFF_FFFF_FFFF_FFFF) == 0xFFFF_FFFF_FFFF_FFFF
  {
  }

  function Min(a: int, b: int): int {
    if a < b then a else b
  }

  function Max(a: int, b: int): int {
    if a < b then b else a
  }

  function Zeros(n: nat): (z: seq<byte>)
    ensures |z| == n && forall i :: 0 <= i < n ==> z[i] == 0
  {
    seq(n, _ => 0 as byte)
  }

  /** The low four octets of `n`, most significant first. */
  function BigEndian32(n: nat): (s: seq<byte>)
    ensures |s| == 4
  {
    [(n / 0x100_0000 % 256) as byte, (n / 0x1_0000 % 256) as byte, (n / 0x100 % 256) as byte, (n % 256) as byte]
  }

  function FromBigEndian32(s: seq<byte>): (n: nat)
    requires |s| == 4
    ensures n < TWO32
  {
    s[0] as int * 0x100_0000 + s[1] as int * 0x1_0000 + s[2] as int * 0x100 + s[3] as int
  }

  function BigEndian64(n: nat): (s: seq<byte>)
    ensures |s| == 8
  {
    BigEndian32(n / TWO32) + BigEndian32(n % TWO32)
  }

  function FromBigEndian64(s: seq<byte>): (n: nat)
    requires |s| == 8
    ensures n < TWO64
  {
    FromBigEndian32(s[..4]) * TWO32 + FromBigEndian32(s[4..])
  }

  lemma BigEndian32RoundTrip(n: nat)
    requires n < TWO32
    ensures FromBigEndian32(BigEndian32(n)) == n
  {
    var a := n / 0x100;
    var b := a / 0x100;
    var c := b / 0x100;
    assert n / 0x1_0000 == b by { DivDiv(n, 0x100, 0x100); }
    assert n / 0x100_0000 == c by { DivDiv(n, 0x1_0000, 0x100); }
    assert n == ((c * 0x100 + b % 0x100) * 0x100 + a % 0x100) * 0x100 + n % 0x100;
  }

  lemma BigEndian64RoundTrip(n: nat)
    requires n < TWO64
    ensures FromBigEndian64(BigEndian64(n)) == n
  {
    BigEndian32RoundTrip(n / TWO32);
    BigEndian32RoundTrip(n % TWO32);
    var s := BigEndian64(n);
    assert s[..4] == BigEndian32(n / TWO32) && s[4..] == BigEndian32(n % TWO32);
  }

  lemma DivDiv(n: nat, a: nat, b: nat)
    requires a > 0 && b > 0
    ensures a * b > 0 && (n / a) / b == n / (a * b)
  {
    var q := n / (a * b);
    var r := n % (a * b);
    assert n == a * b * q + r;
    assert a * b * q == a * (b * q);
    DivUnique(n, a, b * q + r / a, r % a);
    assert r / a < b;
    DivUnique(n / a, b, q, r / a);
  }

  lemma MulMono(a: nat, b: nat, c: nat)
    requires b <= c
    ensures a * b <= a * c
  {
  }

  lemma MulZero(d: int, k: int)
    requires d > 0 && -d < d * k < d
    ensures k == 0
  {
    if k > 0 {
      MulMono(d, 1, k);
    }
  }

  /** Quotient and remainder are the only pair of their kind. */
  lemma DivUnique(n: int, d: int, q: int, r: int)
    requires d > 0 && 0 <= r < d && n == d * q + r
    ensures n / d == q && n % d == r
  {
    var k := q - n / d;
    assert d * k == d * q - d * (n / d);
    MulZero(d, k);
  }
}
