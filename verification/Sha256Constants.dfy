/** What the parts of SHA-256 are, apart from their formulas: the logical functions bit by bit, the rotations as rotations of
    numbers, and the constants as roots of primes (sections 4.1.2, 4.2.2 and 5.3.3 of FIPS 180-4). */
module Sha256Constants {
  import opened Bytes
  import opened Sha256

  /** "Choose": where `x` has a one the bit of `y`, elsewhere that of `z`. */
  lemma ChChooses(x: Word, y: Word, z: Word)
    ensures Ch(x, y, z) & x == y & x && Ch(x, y, z) & !x == z & !x
  {
  }

  /** "Majority": where `x` and `y` agree their bit, elsewhere the bit of `z`. */
  lemma MajDecides(x: Word, y: Word, z: Word)
    ensures Maj(x, y, z) & !(x ^ y) == x & !(x ^ y) && Maj(x, y, z) & (x ^ y) == z & (x ^ y)
  {
  }

  // A word with upper part `h` and lower part `l` of n bits rotates right by n to lower part first.

  lemma RotateBy2(h: bv30, l: bv2)
    ensures var x := ((h as Word) << 2) | (l as Word);
            x as int == h as int * 0x4 + l as int && x.RotateRight(2) as int == l as int * 0x40000000 + h as int
  {
  }

  lemma RotateBy6(h: bv26, l: bv6)
    ensures var x := ((h as Word) << 6) | (l as Word);
            x as int == h as int * 0x40 + l as int && x.RotateRight(6) as int == l as int * 0x4000000 + h as int
  {
  }

  lemma RotateBy7(h: bv25, l: bv7)
    ensures var x := ((h as Word) << 7) | (l as Word);
            x as int == h as int * 0x80 + l as int && x.RotateRight(7) as int == l as int * 0x2000000 + h as int
  {
  }

  lemma RotateBy11(h: bv21, l: bv11)
    ensures var x := ((h as Word) << 11) | (l as Word);
            x as int == h as int * 0x800 + l as int && x.RotateRight(11) as int == l as int * 0x200000 + h as int
  {
  }

  lemma RotateBy13(h: bv19, l: bv13)
    ensures var x := ((h as Word) << 13) | (l as Word);
            x as int == h as int * 0x2000 + l as int && x.RotateRight(13) as int == l as int * 0x80000 + h as int
  {
  }

  lemma RotateBy17(h: bv15, l: bv17)
    ensures var x := ((h as Word) << 17) | (l as Word);
            x as int == h as int * 0x20000 + l as int && x.RotateRight(17) as int == l as int * 0x8000 + h as int
  {
  }

  lemma RotateBy18(h: bv14, l: bv18)
    ensures var x := ((h as Word) << 18) | (l as Word);
            x as int == h as int * 0x40000 + l as int && x.RotateRight(18) as int == l as int * 0x4000 + h as int
  {
  }

  lemma RotateBy19(h: bv13, l: bv19)
    ensures var x := ((h as Word) << 19) | (l as Word);
            x as int == h as int * 0x80000 + l as int && x.RotateRight(19) as int == l as int * 0x2000 + h as int
  {
  }

  lemma RotateBy22(h: bv10, l: bv22)
    ensures var x := ((h as Word) << 22) | (l as Word);
            x as int == h as int * 0x400000 + l as int && x.RotateRight(22) as int == l as int * 0x400 + h as int
  {
  }

  lemma RotateBy25(h: bv7, l: bv25)
    ensures var x := ((h as Word) << 25) | (l as Word);
            x as int == h as int * 0x2000000 + l as int && x.RotateRight(25) as int == l as int * 0x80 + h as int
  {
  }

  const TWO96: int := TWO64 * TWO32

  /** `k` holds the first 32 bits of the fraction of the cube root of `p`. */
  ghost predicate CubeRootWord(p: nat, k: Word) {
    exists n: nat :: n * n * n <= p * TWO96 < (n + 1) * (n + 1) * (n + 1) && n % TWO32 == k as int
  }

  /** `k` holds the first 32 bits of the fraction of the square root of `p`. */
  ghost predicate SquareRootWord(p: nat, k: Word) {
    exists n: nat :: n * n <= p * TWO64 < (n + 1) * (n + 1) && n % TWO32 == k as int
  }

  lemma CubeRoot(p: nat, n: nat, k: Word)
    requires n * n * n <= p * TWO96 < (n + 1) * (n + 1) * (n + 1) && n % TWO32 == k as int
    ensures CubeRootWord(p, k)
  {
  }

  lemma SquareRoot(p: nat, n: nat, k: Word)
    requires n * n <= p * TWO64 < (n + 1) * (n + 1) && n % TWO32 == k as int
    ensures SquareRootWord(p, k)
  {
  }

  /** The initial hash value: square roots of the first eight primes. */
  lemma InitialIsRoots()
    ensures SquareRootWord(2, INITIAL.a)
    ensures SquareRootWord(3, INITIAL.b)
    ensures SquareRootWord(5, INITIAL.c)
    ensures SquareRootWord(7, INITIAL.d)
    ensures SquareRootWord(11, INITIAL.e)
    ensures SquareRootWord(13, INITIAL.f)
    ensures SquareRootWord(17, INITIAL.g)
    ensures SquareRootWord(19, INITIAL.h)
  {
    hide SquareRootWord;
    SquareRoot(2, 0x1_6a09e667, INITIAL.a);
    SquareRoot(3, 0x1_bb67ae85, INITIAL.b);
    SquareRoot(5, 0x2_3c6ef372, INITIAL.c);
    SquareRoot(7, 0x2_a54ff53a, INITIAL.d);
    SquareRoot(11, 0x3_510e527f, INITIAL.e);
    SquareRoot(13, 0x3_9b05688c, INITIAL.f);
    SquareRoot(17, 0x4_1f83d9ab, INITIAL.g);
    SquareRoot(19, 0x4_5be0cd19, INITIAL.h);
  }

  // The round constants: cube roots of the first sixty-four primes, eight at a time.

  lemma KIsRootsA()
    ensures CubeRootWord(2, KAt(0))
    ensures CubeRootWord(3, KAt(1))
    ensures CubeRootWord(5, KAt(2))
    ensures CubeRootWord(7, KAt(3))
    ensures CubeRootWord(11, KAt(4))
    ensures CubeRootWord(13, KAt(5))
    ensures CubeRootWord(17, KAt(6))
    ensures CubeRootWord(19, KAt(7))
  {
    hide CubeRootWord;
    CubeRoot(2, 0x1_428a2f98, KAt(0));
    CubeRoot(3, 0x1_71374491, KAt(1));
    CubeRoot(5, 0x1_b5c0fbcf, KAt(2));
    CubeRoot(7, 0x1_e9b5dba5, KAt(3));
    CubeRoot(11, 0x2_3956c25b, KAt(4));
    CubeRoot(13, 0x2_59f111f1, KAt(5));
    CubeRoot(17, 0x2_923f82a4, KAt(6));
    CubeRoot(19, 0x2_ab1c5ed5, KAt(7));
  }

  lemma KIsRootsB()
    ensures CubeRootWord(23, KAt(8))
    ensures CubeRootWord(29, KAt(9))
    ensures CubeRootWord(31, KAt(10))
    ensures CubeRootWord(37, KAt(11))
    ensures CubeRootWord(41, KAt(12))
    ensures CubeRootWord(43, KAt(13))
    ensures CubeRootWord(47, KAt(14))
    ensures CubeRootWord(53, KAt(15))
  {
    hide CubeRootWord;
    CubeRoot(23, 0x2_d807aa98, KAt(8));
    CubeRoot(29, 0x3_12835b01, KAt(9));
    CubeRoot(31, 0x3_243185be, KAt(10));
    CubeRoot(37, 0x3_550c7dc3, KAt(11));
    CubeRoot(41, 0x3_72be5d74, KAt(12));
    CubeRoot(43, 0x3_80deb1fe, KAt(13));
    CubeRoot(47, 0x3_9bdc06a7, KAt(14));
    CubeRoot(53, 0x3_c19bf174, KAt(15));
  }

  lemma KIsRootsC()
    ensures CubeRootWord(59, KAt(16))
    ensures CubeRootWord(61, KAt(17))
    ensures CubeRootWord(67, KAt(18))
    ensures CubeRootWord(71, KAt(19))
    ensures CubeRootWord(73, KAt(20))
    ensures CubeRootWord(79, KAt(21))
    ensures CubeRootWord(83, KAt(22))
    ensures CubeRootWord(89, KAt(23))
  {
    hide CubeRootWord;
    CubeRoot(59, 0x3_e49b69c1, KAt(16));
    CubeRoot(61, 0x3_efbe4786, KAt(17));
    CubeRoot(67, 0x4_0fc19dc6, KAt(18));
    CubeRoot(71, 0x4_240ca1cc, KAt(19));
    CubeRoot(73, 0x4_2de92c6f, KAt(20));
    CubeRoot(79, 0x4_4a7484aa, KAt(21));
    CubeRoot(83, 0x4_5cb0a9dc, KAt(22));
    CubeRoot(89, 0x4_76f988da, KAt(23));
  }

  lemma KIsRootsD()
    ensures CubeRootWord(97, KAt(24))
    ensures CubeRootWord(101, KAt(25))
    ensures CubeRootWord(103, KAt(26))
    ensures CubeRootWord(107, KAt(27))
    ensures CubeRootWord(109, KAt(28))
    ensures CubeRootWord(113, KAt(29))
    ensures CubeRootWord(127, KAt(30))
    ensures CubeRootWord(131, KAt(31))
  {
    hide CubeRootWord;
    CubeRoot(97, 0x4_983e5152, KAt(24));
    CubeRoot(101, 0x4_a831c66d, KAt(25));
    CubeRoot(103, 0x4_b00327c8, KAt(26));
    CubeRoot(107, 0x4_bf597fc7, KAt(27));
    CubeRoot(109, 0x4_c6e00bf3, KAt(28));
    CubeRoot(113, 0x4_d5a79147, KAt(29));
    CubeRoot(127, 0x5_06ca6351, KAt(30));
    CubeRoot(131, 0x5_14292967, KAt(31));
  }

  lemma KIsRootsE()
    ensures CubeRootWord(137, KAt(32))
    ensures CubeRootWord(139, KAt(33))
    ensures CubeRootWord(149, KAt(34))
    ensures CubeRootWord(151, KAt(35))
    ensures CubeRootWord(157, KAt(36))
    ensures CubeRootWord(163, KAt(37))
    ensures CubeRootWord(167, KAt(38))
    ensures CubeRootWord(173, KAt(39))
  {
    hide CubeRootWord;
    CubeRoot(137, 0x5_27b70a85, KAt(32));
    CubeRoot(139, 0x5_2e1b2138, KAt(33));
    CubeRoot(149, 0x5_4d2c6dfc, KAt(34));
    CubeRoot(151, 0x5_53380d13, KAt(35));
    CubeRoot(157, 0x5_650a7354, KAt(36));
    CubeRoot(163, 0x5_766a0abb, KAt(37));
    CubeRoot(167, 0x5_81c2c92e, KAt(38));
    CubeRoot(173, 0x5_92722c85, KAt(39));
  }

  lemma KIsRootsF()
    ensures CubeRootWord(179, KAt(40))
    ensures CubeRootWord(181, KAt(41))
    ensures CubeRootWord(191, KAt(42))
    ensures CubeRootWord(193, KAt(43))
    ensures CubeRootWord(197, KAt(44))
    ensures CubeRootWord(199, KAt(45))
    ensures CubeRootWord(211, KAt(46))
    ensures CubeRootWord(223, KAt(47))
  {
    hide CubeRootWord;
    CubeRoot(179, 0x5_a2bfe8a1, KAt(40));
    CubeRoot(181, 0x5_a81a664b, KAt(41));
    CubeRoot(191, 0x5_c24b8b70, KAt(42));
    CubeRoot(193, 0x5_c76c51a3, KAt(43));
    CubeRoot(197, 0x5_d192e819, KAt(44));
    CubeRoot(199, 0x5_d6990624, KAt(45));
    CubeRoot(211, 0x5_f40e3585, KAt(46));
    CubeRoot(223, 0x6_106aa070, KAt(47));
  }

  lemma KIsRootsG()
    ensures CubeRootWord(227, KAt(48))
    ensures CubeRootWord(229, KAt(49))
    ensures CubeRootWord(233, KAt(50))
    ensures CubeRootWord(239, KAt(51))
    ensures CubeRootWord(241, KAt(52))
    ensures CubeRootWord(251, KAt(53))
    ensures CubeRootWord(257, KAt(54))
    ensures CubeRootWord(263, KAt(55))
  {
    hide CubeRootWord;
    CubeRoot(227, 0x6_19a4c116, KAt(48));
    CubeRoot(229, 0x6_1e376c08, KAt(49));
    CubeRoot(233, 0x6_2748774c, KAt(50));
    CubeRoot(239, 0x6_34b0bcb5, KAt(51));
    CubeRoot(241, 0x6_391c0cb3, KAt(52));
    CubeRoot(251, 0x6_4ed8aa4a, KAt(53));
    CubeRoot(257, 0x6_5b9cca4f, KAt(54));
    CubeRoot(263, 0x6_682e6ff3, KAt(55));
  }

  lemma KIsRootsH()
    ensures CubeRootWord(269, KAt(56))
    ensures CubeRootWord(271, KAt(57))
    ensures CubeRootWord(277, KAt(58))
    ensures CubeRootWord(281, KAt(59))
    ensures CubeRootWord(283, KAt(60))
    ensures CubeRootWord(293, KAt(61))
    ensures CubeRootWord(307, KAt(62))
    ensures CubeRootWord(311, KAt(63))
  {
    hide CubeRootWord;
    CubeRoot(269, 0x6_748f82ee, KAt(56));
    CubeRoot(271, 0x6_78a5636f, KAt(57));
    CubeRoot(277, 0x6_84c87814, KAt(58));
    CubeRoot(281, 0x6_8cc70208, KAt(59));
    CubeRoot(283, 0x6_90befffa, KAt(60));
    CubeRoot(293, 0x6_a4506ceb, KAt(61));
    CubeRoot(307, 0x6_bef9a3f7, KAt(62));
    CubeRoot(311, 0x6_c67178f2, KAt(63));
  }
}
