/** SHA-256 of the empty string and of "abc", computed round by round: the known answers that the client's tests also check. */
module Sha256Vectors {
  import opened Bytes
  import opened Sha256
  import Sha256Code

  const ABC: seq<byte> := [0x61, 0x62, 0x63]

  lemma ZeroWord(block: seq<byte>, t: nat)
    requires |block| == 64 && t < 16 && forall i :: 4 * t <= i < 4 * t + 4 ==> block[i] == 0
    ensures W(block, t) == 0
  {
  }

  lemma Word(block: seq<byte>, t: nat, p: byte, q: byte, r: byte, s: byte)
    requires |block| == 64 && t < 16
    requires block[4 * t] == p && block[4 * t + 1] == q && block[4 * t + 2] == r && block[4 * t + 3] == s
    ensures W(block, t) == Join(p, q, r, s)
  {
    hide Join;
  }

  /** One more word of the schedule. */
  lemma Next(block: seq<byte>, t: nat, w2: Word, w7: Word, w15: Word, w16: Word, w: Word)
    requires |block| == 64 && 16 <= t < 64
    requires W(block, t - 2) == w2 && W(block, t - 7) == w7 && W(block, t - 15) == w15 && W(block, t - 16) == w16
    requires Sum4(SmallSigma1(w2), w7, SmallSigma0(w15), w16) == w
    ensures W(block, t) == w
  {
    hide Join, WordAt, Sum4, SmallSigma0, SmallSigma1;
  }

  /** One more round. */
  lemma Turn(block: seq<byte>, t: nat, s: State, k: Word, w: Word, s': State)
    requires |block| == 64 && t < 64 && Rounds(INITIAL, block, t) == s
    requires KAt(t) == k && W(block, t) == w && Round(s, k, w) == s'
    ensures Rounds(INITIAL, block, t + 1) == s'
  {
    hide W, Round, KAt;
  }

  // ---- The empty string ----

  predicate IsEmpty(block: seq<byte>)
    requires |block| == 64
  {
    && block[0] == 0x80 && block[1] == 0x00 && block[2] == 0x00 && block[3] == 0x00 && forall i :: 4 <= i < 64 ==> block[i] == 0
  }

  lemma EmptyWords0(block: seq<byte>)
    requires |block| == 64 && IsEmpty(block)
    ensures W(block, 0) == 0x80000000
    ensures forall t :: 1 <= t < 16 ==> W(block, t) == 0
  {
    Word(block, 0, 0x80, 0x00, 0x00, 0x00);
    forall t | 1 <= t < 16 ensures W(block, t) == 0 { ZeroWord(block, t); }
    hide W;
  }

  lemma EmptyWords16(block: seq<byte>)
    requires |block| == 64 && IsEmpty(block)
    ensures W(block, 16) == 0x80000000 && W(block, 17) == 0x00000000
    ensures W(block, 18) == 0x00205000 && W(block, 19) == 0x00000000
    ensures W(block, 20) == 0x22000800 && W(block, 21) == 0x00000000
    ensures W(block, 22) == 0x05089542 && W(block, 23) == 0x80000000
  {
    hide W, IsEmpty;
    EmptyWords0(block);
    Next(block, 16, 0x00000000, 0x00000000, 0x00000000, 0x80000000, 0x80000000);
    Next(block, 17, 0x00000000, 0x00000000, 0x00000000, 0x00000000, 0x00000000);
    Next(block, 18, 0x80000000, 0x00000000, 0x00000000, 0x00000000, 0x00205000);
    Next(block, 19, 0x00000000, 0x00000000, 0x00000000, 0x00000000, 0x00000000);
    Next(block, 20, 0x00205000, 0x00000000, 0x00000000, 0x00000000, 0x22000800);
    Next(block, 21, 0x00000000, 0x00000000, 0x00000000, 0x00000000, 0x00000000);
    Next(block, 22, 0x22000800, 0x00000000, 0x00000000, 0x00000000, 0x05089542);
    Next(block, 23, 0x00000000, 0x80000000, 0x00000000, 0x00000000, 0x80000000);
  }

  lemma EmptyWords24(block: seq<byte>)
    requires |block| == 64 && IsEmpty(block)
    ensures W(block, 24) == 0x58080000 && W(block, 25) == 0x0040a000
    ensures W(block, 26) == 0x00162505 && W(block, 27) == 0x66001800
    ensures W(block, 28) == 0xd6222580 && W(block, 29) == 0x14225508
    ensures W(block, 30) == 0xd645f95c && W(block, 31) == 0xc9282000
  {
    hide W, IsEmpty;
    EmptyWords0(block);
    EmptyWords16(block);
    Next(block, 24, 0x05089542, 0x00000000, 0x00000000, 0x00000000, 0x58080000);
    Next(block, 25, 0x80000000, 0x00205000, 0x00000000, 0x00000000, 0x0040a000);
    Next(block, 26, 0x58080000, 0x00000000, 0x00000000, 0x00000000, 0x00162505);
    Next(block, 27, 0x0040a000, 0x22000800, 0x00000000, 0x00000000, 0x66001800);
    Next(block, 28, 0x00162505, 0x00000000, 0x00000000, 0x00000000, 0xd6222580);
    Next(block, 29, 0x66001800, 0x05089542, 0x00000000, 0x00000000, 0x14225508);
    Next(block, 30, 0xd6222580, 0x80000000, 0x00000000, 0x00000000, 0xd645f95c);
    Next(block, 31, 0x14225508, 0x58080000, 0x80000000, 0x00000000, 0xc9282000);
  }

  lemma EmptyWords32(block: seq<byte>)
    requires |block| == 64 && IsEmpty(block)
    ensures W(block, 32) == 0xc3f10094 && W(block, 33) == 0x284ca766
    ensures W(block, 34) == 0x06886dc6 && W(block, 35) == 0xa37bf116
    ensures W(block, 36) == 0x717cbe96 && W(block, 37) == 0xfec2d74a
    ensures W(block, 38) == 0xa7b67f00 && W(block, 39) == 0x811596a2
  {
    hide W, IsEmpty;
    EmptyWords16(block);
    EmptyWords24(block);
    Next(block, 32, 0xd645f95c, 0x0040a000, 0x00000000, 0x80000000, 0xc3f10094);
    Next(block, 33, 0xc9282000, 0x00162505, 0x00205000, 0x00000000, 0x284ca766);
    Next(block, 34, 0xc3f10094, 0x66001800, 0x00000000, 0x00205000, 0x06886dc6);
    Next(block, 35, 0x284ca766, 0xd6222580, 0x22000800, 0x00000000, 0xa37bf116);
    Next(block, 36, 0x06886dc6, 0x14225508, 0x00000000, 0x22000800, 0x717cbe96);
    Next(block, 37, 0xa37bf116, 0xd645f95c, 0x05089542, 0x00000000, 0xfec2d74a);
    Next(block, 38, 0x717cbe96, 0xc9282000, 0x80000000, 0x05089542, 0xa7b67f00);
    Next(block, 39, 0xfec2d74a, 0xc3f10094, 0x58080000, 0x80000000, 0x811596a2);
  }

  lemma EmptyWords40(block: seq<byte>)
    requires |block| == 64 && IsEmpty(block)
    ensures W(block, 40) == 0x98a6e768 && W(block, 41) == 0x03b20c82
    ensures W(block, 42) == 0x5d1da7c9 && W(block, 43) == 0xb156b935
    ensures W(block, 44) == 0xc3ddca11 && W(block, 45) == 0x249c107f
    ensures W(block, 46) == 0xc48d24ef && W(block, 47) == 0x5de54c30
  {
    hide W, IsEmpty;
    EmptyWords24(block);
    EmptyWords32(block);
    Next(block, 40, 0xa7b67f00, 0x284ca766, 0x0040a000, 0x58080000, 0x98a6e768);
    Next(block, 41, 0x811596a2, 0x06886dc6, 0x00162505, 0x0040a000, 0x03b20c82);
    Next(block, 42, 0x98a6e768, 0xa37bf116, 0x66001800, 0x00162505, 0x5d1da7c9);
    Next(block, 43, 0x03b20c82, 0x717cbe96, 0xd6222580, 0x66001800, 0xb156b935);
    Next(block, 44, 0x5d1da7c9, 0xfec2d74a, 0x14225508, 0xd6222580, 0xc3ddca11);
    Next(block, 45, 0xb156b935, 0xa7b67f00, 0xd645f95c, 0x14225508, 0x249c107f);
    Next(block, 46, 0xc3ddca11, 0x811596a2, 0xc9282000, 0xd645f95c, 0xc48d24ef);
    Next(block, 47, 0x249c107f, 0x98a6e768, 0xc3f10094, 0xc9282000, 0x5de54c30);
  }

  lemma EmptyWords48(block: seq<byte>)
    requires |block| == 64 && IsEmpty(block)
    ensures W(block, 48) == 0xdefece65 && W(block, 49) == 0x2ca1480d
    ensures W(block, 50) == 0x3c15332c && W(block, 51) == 0x01cec9ad
    ensures W(block, 52) == 0x160cccd0 && W(block, 53) == 0x0bacda98
    ensures W(block, 54) == 0x361b8fe0 && W(block, 55) == 0xd2320ba6
  {
    hide W, IsEmpty;
    EmptyWords32(block);
    EmptyWords40(block);
    Next(block, 48, 0xc48d24ef, 0x03b20c82, 0x284ca766, 0xc3f10094, 0xdefece65);
    Next(block, 49, 0x5de54c30, 0x5d1da7c9, 0x06886dc6, 0x284ca766, 0x2ca1480d);
    Next(block, 50, 0xdefece65, 0xb156b935, 0xa37bf116, 0x06886dc6, 0x3c15332c);
    Next(block, 51, 0x2ca1480d, 0xc3ddca11, 0x717cbe96, 0xa37bf116, 0x01cec9ad);
    Next(block, 52, 0x3c15332c, 0x249c107f, 0xfec2d74a, 0x717cbe96, 0x160cccd0);
    Next(block, 53, 0x01cec9ad, 0xc48d24ef, 0xa7b67f00, 0xfec2d74a, 0x0bacda98);
    Next(block, 54, 0x160cccd0, 0x5de54c30, 0x811596a2, 0xa7b67f00, 0x361b8fe0);
    Next(block, 55, 0x0bacda98, 0xdefece65, 0x98a6e768, 0x811596a2, 0xd2320ba6);
  }

  lemma EmptyWords56(block: seq<byte>)
    requires |block| == 64 && IsEmpty(block)
    ensures W(block, 56) == 0x029b7007 && W(block, 57) == 0x7546587c
    ensures W(block, 58) == 0x07f54f39 && W(block, 59) == 0xf808ddc3
    ensures W(block, 60) == 0xdcca7608 && W(block, 61) == 0x5e427188
    ensures W(block, 62) == 0x44bcec5d && W(block, 63) == 0x3b5ec49b
  {
    hide W, IsEmpty;
    EmptyWords40(block);
    EmptyWords48(block);
    Next(block, 56, 0x361b8fe0, 0x2ca1480d, 0x03b20c82, 0x98a6e768, 0x029b7007);
    Next(block, 57, 0xd2320ba6, 0x3c15332c, 0x5d1da7c9, 0x03b20c82, 0x7546587c);
    Next(block, 58, 0x029b7007, 0x01cec9ad, 0xb156b935, 0x5d1da7c9, 0x07f54f39);
    Next(block, 59, 0x7546587c, 0x160cccd0, 0xc3ddca11, 0xb156b935, 0xf808ddc3);
    Next(block, 60, 0x07f54f39, 0x0bacda98, 0x249c107f, 0xc3ddca11, 0xdcca7608);
    Next(block, 61, 0xf808ddc3, 0x361b8fe0, 0xc48d24ef, 0x249c107f, 0x5e427188);
    Next(block, 62, 0xdcca7608, 0xd2320ba6, 0x5de54c30, 0xc48d24ef, 0x44bcec5d);
    Next(block, 63, 0x5e427188, 0x029b7007, 0xdefece65, 0x5de54c30, 0x3b5ec49b);
  }

  lemma EmptyRounds8(block: seq<byte>)
    requires |block| == 64 && IsEmpty(block)
    ensures Rounds(INITIAL, block, 8)
         == State(0x7ad5b1b6, 0xf0205590, 0x292e3b42, 0x4366f730, 0x53f94dcb, 0x82ede06f, 0x4f6540fa, 0xe7d0641e)
  {
    hide W, Rounds, IsEmpty;
    Sha256Code.NoRounds(INITIAL, block);
    EmptyWords0(block);
    var s0 := INITIAL;
    var s1 := State(0x7c08884d, 0x6a09e667, 0xbb67ae85, 0x3c6ef372, 0x18c7e2a2, 0x510e527f, 0x9b05688c, 0x1f83d9ab);
    Turn(block, 0, s0, 0x428a2f98, 0x80000000, s1);
    var s2 := State(0x9ce564d0, 0x7c08884d, 0x6a09e667, 0xbb67ae85, 0x2001b256, 0x18c7e2a2, 0x510e527f, 0x9b05688c);
    Turn(block, 1, s1, 0x71374491, 0x00000000, s2);
    var s3 := State(0xc4ac5526, 0x9ce564d0, 0x7c08884d, 0x6a09e667, 0x6fdb22fa, 0x2001b256, 0x18c7e2a2, 0x510e527f);
    Turn(block, 2, s2, 0xb5c0fbcf, 0x00000000, s3);
    var s4 := State(0x4c23eacb, 0xc4ac5526, 0x9ce564d0, 0x7c08884d, 0x3037e1b5, 0x6fdb22fa, 0x2001b256, 0x18c7e2a2);
    Turn(block, 3, s3, 0xe9b5dba5, 0x00000000, s4);
    var s5 := State(0x4366f730, 0x4c23eacb, 0xc4ac5526, 0x9ce564d0, 0xe7d0641e, 0x3037e1b5, 0x6fdb22fa, 0x2001b256);
    Turn(block, 4, s4, 0x3956c25b, 0x00000000, s5);
    var s6 := State(0x292e3b42, 0x4366f730, 0x4c23eacb, 0xc4ac5526, 0x4f6540fa, 0xe7d0641e, 0x3037e1b5, 0x6fdb22fa);
    Turn(block, 5, s5, 0x59f111f1, 0x00000000, s6);
    var s7 := State(0xf0205590, 0x292e3b42, 0x4366f730, 0x4c23eacb, 0x82ede06f, 0x4f6540fa, 0xe7d0641e, 0x3037e1b5);
    Turn(block, 6, s6, 0x923f82a4, 0x00000000, s7);
    var s8 := State(0x7ad5b1b6, 0xf0205590, 0x292e3b42, 0x4366f730, 0x53f94dcb, 0x82ede06f, 0x4f6540fa, 0xe7d0641e);
    Turn(block, 7, s7, 0xab1c5ed5, 0x00000000, s8);
  }

  lemma EmptyRounds16(block: seq<byte>)
    requires |block| == 64 && IsEmpty(block)
    ensures Rounds(INITIAL, block, 16)
         == State(0xb40085b5, 0xb88afddb, 0x45c013a7, 0x2102d2cd, 0x5cb8e863, 0x1ccfac39, 0x2b427296, 0xcdfdfe52)
  {
    hide W, Rounds, IsEmpty;
    EmptyRounds8(block);
    EmptyWords0(block);
    var s8 := State(0x7ad5b1b6, 0xf0205590, 0x292e3b42, 0x4366f730, 0x53f94dcb, 0x82ede06f, 0x4f6540fa, 0xe7d0641e);
    var s9 := State(0xf52d63a5, 0x7ad5b1b6, 0xf0205590, 0x292e3b42, 0x7aafc618, 0x53f94dcb, 0x82ede06f, 0x4f6540fa);
    Turn(block, 8, s8, 0xd807aa98, 0x00000000, s9);
    var s10 := State(0xefe8bf51, 0xf52d63a5, 0x7ad5b1b6, 0xf0205590, 0x53072289, 0x7aafc618, 0x53f94dcb, 0x82ede06f);
    Turn(block, 9, s9, 0x12835b01, 0x00000000, s10);
    var s11 := State(0x158bb921, 0xefe8bf51, 0xf52d63a5, 0x7ad5b1b6, 0xe23643ce, 0x53072289, 0x7aafc618, 0x53f94dcb);
    Turn(block, 10, s10, 0x243185be, 0x00000000, s11);
    var s12 := State(0xf5434c40, 0x158bb921, 0xefe8bf51, 0xf52d63a5, 0xd7e07c92, 0xe23643ce, 0x53072289, 0x7aafc618);
    Turn(block, 11, s11, 0x550c7dc3, 0x00000000, s12);
    var s13 := State(0x2102d2cd, 0xf5434c40, 0x158bb921, 0xefe8bf51, 0xcdfdfe52, 0xd7e07c92, 0xe23643ce, 0x53072289);
    Turn(block, 12, s12, 0x72be5d74, 0x00000000, s13);
    var s14 := State(0x45c013a7, 0x2102d2cd, 0xf5434c40, 0x158bb921, 0x2b427296, 0xcdfdfe52, 0xd7e07c92, 0xe23643ce);
    Turn(block, 13, s13, 0x80deb1fe, 0x00000000, s14);
    var s15 := State(0xb88afddb, 0x45c013a7, 0x2102d2cd, 0xf5434c40, 0x1ccfac39, 0x2b427296, 0xcdfdfe52, 0xd7e07c92);
    Turn(block, 14, s14, 0x9bdc06a7, 0x00000000, s15);
    var s16 := State(0xb40085b5, 0xb88afddb, 0x45c013a7, 0x2102d2cd, 0x5cb8e863, 0x1ccfac39, 0x2b427296, 0xcdfdfe52);
    Turn(block, 15, s15, 0xc19bf174, 0x00000000, s16);
  }

  lemma EmptyRounds24(block: seq<byte>)
    requires |block| == 64 && IsEmpty(block)
    ensures Rounds(INITIAL, block, 24)
         == State(0x985bed55, 0x404d8054, 0x99a6cb19, 0x75c7f0d8, 0x2c2c028d, 0xb1653710, 0xc287981e, 0x39953ccd)
  {
    hide W, Rounds, IsEmpty;
    EmptyRounds16(block);
    EmptyWords16(block);
    var s16 := State(0xb40085b5, 0xb88afddb, 0x45c013a7, 0x2102d2cd, 0x5cb8e863, 0x1ccfac39, 0x2b427296, 0xcdfdfe52);
    var s17 := State(0x470d554a, 0xb40085b5, 0xb88afddb, 0x45c013a7, 0x70d43aa7, 0x5cb8e863, 0x1ccfac39, 0x2b427296);
    Turn(block, 16, s16, 0xe49b69c1, 0x80000000, s17);
    var s18 := State(0xdd999a2b, 0x470d554a, 0xb40085b5, 0xb88afddb, 0x608c93d3, 0x70d43aa7, 0x5cb8e863, 0x1ccfac39);
    Turn(block, 17, s17, 0xefbe4786, 0x00000000, s18);
    var s19 := State(0x3067996a, 0xdd999a2b, 0x470d554a, 0xb40085b5, 0xd398dcea, 0x608c93d3, 0x70d43aa7, 0x5cb8e863);
    Turn(block, 18, s18, 0x0fc19dc6, 0x00205000, s19);
    var s20 := State(0x0a480908, 0x3067996a, 0xdd999a2b, 0x470d554a, 0x900d27ac, 0xd398dcea, 0x608c93d3, 0x70d43aa7);
    Turn(block, 19, s19, 0x240ca1cc, 0x00000000, s20);
    var s21 := State(0x75c7f0d8, 0x0a480908, 0x3067996a, 0xdd999a2b, 0x39953ccd, 0x900d27ac, 0xd398dcea, 0x608c93d3);
    Turn(block, 20, s20, 0x2de92c6f, 0x22000800, s21);
    var s22 := State(0x99a6cb19, 0x75c7f0d8, 0x0a480908, 0x3067996a, 0xc287981e, 0x39953ccd, 0x900d27ac, 0xd398dcea);
    Turn(block, 21, s21, 0x4a7484aa, 0x00000000, s22);
    var s23 := State(0x404d8054, 0x99a6cb19, 0x75c7f0d8, 0x0a480908, 0xb1653710, 0xc287981e, 0x39953ccd, 0x900d27ac);
    Turn(block, 22, s22, 0x5cb0a9dc, 0x05089542, s23);
    var s24 := State(0x985bed55, 0x404d8054, 0x99a6cb19, 0x75c7f0d8, 0x2c2c028d, 0xb1653710, 0xc287981e, 0x39953ccd);
    Turn(block, 23, s23, 0x76f988da, 0x80000000, s24);
  }

  lemma EmptyRounds32(block: seq<byte>)
    requires |block| == 64 && IsEmpty(block)
    ensures Rounds(INITIAL, block, 32)
         == State(0x11e7025f, 0xa0bb0cdf, 0x72d3a00d, 0x64bc9e1c, 0xbbd7846c, 0x564a6626, 0xb04ab22d, 0x95696b75)
  {
    hide W, Rounds, IsEmpty;
    EmptyRounds24(block);
    EmptyWords24(block);
    var s24 := State(0x985bed55, 0x404d8054, 0x99a6cb19, 0x75c7f0d8, 0x2c2c028d, 0xb1653710, 0xc287981e, 0x39953ccd);
    var s25 := State(0x7af6d48d, 0x985bed55, 0x404d8054, 0x99a6cb19, 0xf55f8c25, 0x2c2c028d, 0xb1653710, 0xc287981e);
    Turn(block, 24, s24, 0x983e5152, 0x58080000, s25);
    var s26 := State(0xc5b814ae, 0x7af6d48d, 0x985bed55, 0x404d8054, 0xe57ac3f4, 0xf55f8c25, 0x2c2c028d, 0xb1653710);
    Turn(block, 25, s25, 0xa831c66d, 0x0040a000, s26);
    var s27 := State(0x2c8b2ab9, 0xc5b814ae, 0x7af6d48d, 0x985bed55, 0x9f934283, 0xe57ac3f4, 0xf55f8c25, 0x2c2c028d);
    Turn(block, 26, s26, 0xb00327c8, 0x00162505, s27);
    var s28 := State(0x6d8cc697, 0x2c8b2ab9, 0xc5b814ae, 0x7af6d48d, 0x66ed54fa, 0x9f934283, 0xe57ac3f4, 0xf55f8c25);
    Turn(block, 27, s27, 0xbf597fc7, 0x66001800, s28);
    var s29 := State(0x64bc9e1c, 0x6d8cc697, 0x2c8b2ab9, 0xc5b814ae, 0x95696b75, 0x66ed54fa, 0x9f934283, 0xe57ac3f4);
    Turn(block, 28, s28, 0xc6e00bf3, 0xd6222580, s29);
    var s30 := State(0x72d3a00d, 0x64bc9e1c, 0x6d8cc697, 0x2c8b2ab9, 0xb04ab22d, 0x95696b75, 0x66ed54fa, 0x9f934283);
    Turn(block, 29, s29, 0xd5a79147, 0x14225508, s30);
    var s31 := State(0xa0bb0cdf, 0x72d3a00d, 0x64bc9e1c, 0x6d8cc697, 0x564a6626, 0xb04ab22d, 0x95696b75, 0x66ed54fa);
    Turn(block, 30, s30, 0x06ca6351, 0xd645f95c, s31);
    var s32 := State(0x11e7025f, 0xa0bb0cdf, 0x72d3a00d, 0x64bc9e1c, 0xbbd7846c, 0x564a6626, 0xb04ab22d, 0x95696b75);
    Turn(block, 31, s31, 0x14292967, 0xc9282000, s32);
  }

  lemma EmptyRounds40(block: seq<byte>)
    requires |block| == 64 && IsEmpty(block)
    ensures Rounds(INITIAL, block, 40)
         == State(0x499911b1, 0x9e58e42f, 0x56e3dc4e, 0xa096535d, 0x716bb025, 0x85a71424, 0xe807ea7f, 0xfac06aed)
  {
    hide W, Rounds, IsEmpty;
    EmptyRounds32(block);
    EmptyWords32(block);
    var s32 := State(0x11e7025f, 0xa0bb0cdf, 0x72d3a00d, 0x64bc9e1c, 0xbbd7846c, 0x564a6626, 0xb04ab22d, 0x95696b75);
    var s33 := State(0xe390f3b6, 0x11e7025f, 0xa0bb0cdf, 0x72d3a00d, 0xccd25d8b, 0xbbd7846c, 0x564a6626, 0xb04ab22d);
    Turn(block, 32, s32, 0x27b70a85, 0xc3f10094, s33);
    var s34 := State(0xa141b695, 0xe390f3b6, 0x11e7025f, 0xa0bb0cdf, 0x0bc457df, 0xccd25d8b, 0xbbd7846c, 0x564a6626);
    Turn(block, 33, s33, 0x2e1b2138, 0x284ca766, s34);
    var s35 := State(0x44a181a7, 0xa141b695, 0xe390f3b6, 0x11e7025f, 0x6973aac2, 0x0bc457df, 0xccd25d8b, 0xbbd7846c);
    Turn(block, 34, s34, 0x4d2c6dfc, 0x06886dc6, s35);
    var s36 := State(0x641fe878, 0x44a181a7, 0xa141b695, 0xe390f3b6, 0x3a705ea9, 0x6973aac2, 0x0bc457df, 0xccd25d8b);
    Turn(block, 35, s35, 0x53380d13, 0xa37bf116, s36);
    var s37 := State(0xa096535d, 0x641fe878, 0x44a181a7, 0xa141b695, 0xfac06aed, 0x3a705ea9, 0x6973aac2, 0x0bc457df);
    Turn(block, 36, s36, 0x650a7354, 0x717cbe96, s37);
    var s38 := State(0x56e3dc4e, 0xa096535d, 0x641fe878, 0x44a181a7, 0xe807ea7f, 0xfac06aed, 0x3a705ea9, 0x6973aac2);
    Turn(block, 37, s37, 0x766a0abb, 0xfec2d74a, s38);
    var s39 := State(0x9e58e42f, 0x56e3dc4e, 0xa096535d, 0x641fe878, 0x85a71424, 0xe807ea7f, 0xfac06aed, 0x3a705ea9);
    Turn(block, 38, s38, 0x81c2c92e, 0xa7b67f00, s39);
    var s40 := State(0x499911b1, 0x9e58e42f, 0x56e3dc4e, 0xa096535d, 0x716bb025, 0x85a71424, 0xe807ea7f, 0xfac06aed);
    Turn(block, 39, s39, 0x92722c85, 0x811596a2, s40);
  }

  lemma EmptyRounds48(block: seq<byte>)
    requires |block| == 64 && IsEmpty(block)
    ensures Rounds(INITIAL, block, 48)
         == State(0x365a34cd, 0x54982d6c, 0x32fa442b, 0xa40972d4, 0xcbb3f8eb, 0x8a6a82b2, 0xd285c679, 0xaa2c1810)
  {
    hide W, Rounds, IsEmpty;
    EmptyRounds40(block);
    EmptyWords40(block);
    var s40 := State(0x499911b1, 0x9e58e42f, 0x56e3dc4e, 0xa096535d, 0x716bb025, 0x85a71424, 0xe807ea7f, 0xfac06aed);
    var s41 := State(0xfe86c833, 0x499911b1, 0x9e58e42f, 0x56e3dc4e, 0x849879df, 0x716bb025, 0x85a71424, 0xe807ea7f);
    Turn(block, 40, s40, 0xa2bfe8a1, 0x98a6e768, s41);
    var s42 := State(0x2298f88e, 0xfe86c833, 0x499911b1, 0x9e58e42f, 0xf5c58ae9, 0x849879df, 0x716bb025, 0x85a71424);
    Turn(block, 41, s41, 0xa81a664b, 0x03b20c82, s42);
    var s43 := State(0xdbb545ab, 0x2298f88e, 0xfe86c833, 0x499911b1, 0xe0403eb9, 0xf5c58ae9, 0x849879df, 0x716bb025);
    Turn(block, 42, s42, 0xc24b8b70, 0x5d1da7c9, s43);
    var s44 := State(0xe8e34752, 0xdbb545ab, 0x2298f88e, 0xfe86c833, 0x29426caa, 0xe0403eb9, 0xf5c58ae9, 0x849879df);
    Turn(block, 43, s43, 0xc76c51a3, 0xb156b935, s44);
    var s45 := State(0xa40972d4, 0xe8e34752, 0xdbb545ab, 0x2298f88e, 0xaa2c1810, 0x29426caa, 0xe0403eb9, 0xf5c58ae9);
    Turn(block, 44, s44, 0xd192e819, 0xc3ddca11, s45);
    var s46 := State(0x32fa442b, 0xa40972d4, 0xe8e34752, 0xdbb545ab, 0xd285c679, 0xaa2c1810, 0x29426caa, 0xe0403eb9);
    Turn(block, 45, s45, 0xd6990624, 0x249c107f, s46);
    var s47 := State(0x54982d6c, 0x32fa442b, 0xa40972d4, 0xe8e34752, 0x8a6a82b2, 0xd285c679, 0xaa2c1810, 0x29426caa);
    Turn(block, 46, s46, 0xf40e3585, 0xc48d24ef, s47);
    var s48 := State(0x365a34cd, 0x54982d6c, 0x32fa442b, 0xa40972d4, 0xcbb3f8eb, 0x8a6a82b2, 0xd285c679, 0xaa2c1810);
    Turn(block, 47, s47, 0x106aa070, 0x5de54c30, s48);
  }

  lemma EmptyRounds56(block: seq<byte>)
    requires |block| == 64 && IsEmpty(block)
    ensures Rounds(INITIAL, block, 56)
         == State(0x01638014, 0x2caf58ca, 0x3a0e9477, 0xb1b29c90, 0xadf94e0a, 0xe588e598, 0xfd99936e, 0x43a5def8)
  {
    hide W, Rounds, IsEmpty;
    EmptyRounds48(block);
    EmptyWords48(block);
    var s48 := State(0x365a34cd, 0x54982d6c, 0x32fa442b, 0xa40972d4, 0xcbb3f8eb, 0x8a6a82b2, 0xd285c679, 0xaa2c1810);
    var s49 := State(0x62a82a5e, 0x365a34cd, 0x54982d6c, 0x32fa442b, 0x4cab6d8a, 0xcbb3f8eb, 0x8a6a82b2, 0xd285c679);
    Turn(block, 48, s48, 0x19a4c116, 0xdefece65, s49);
    var s50 := State(0x9798f5ed, 0x62a82a5e, 0x365a34cd, 0x54982d6c, 0xe90aa770, 0x4cab6d8a, 0xcbb3f8eb, 0x8a6a82b2);
    Turn(block, 49, s49, 0x1e376c08, 0x2ca1480d, s50);
    var s51 := State(0xc163cb21, 0x9798f5ed, 0x62a82a5e, 0x365a34cd, 0x36068bde, 0xe90aa770, 0x4cab6d8a, 0xcbb3f8eb);
    Turn(block, 50, s50, 0x2748774c, 0x3c15332c, s51);
    var s52 := State(0xd55e06c2, 0xc163cb21, 0x9798f5ed, 0x62a82a5e, 0xa194d14f, 0x36068bde, 0xe90aa770, 0x4cab6d8a);
    Turn(block, 51, s51, 0x34b0bcb5, 0x01cec9ad, s52);
    var s53 := State(0xb1b29c90, 0xd55e06c2, 0xc163cb21, 0x9798f5ed, 0x43a5def8, 0xa194d14f, 0x36068bde, 0xe90aa770);
    Turn(block, 52, s52, 0x391c0cb3, 0x160cccd0, s53);
    var s54 := State(0x3a0e9477, 0xb1b29c90, 0xd55e06c2, 0xc163cb21, 0xfd99936e, 0x43a5def8, 0xa194d14f, 0x36068bde);
    Turn(block, 53, s53, 0x4ed8aa4a, 0x0bacda98, s54);
    var s55 := State(0x2caf58ca, 0x3a0e9477, 0xb1b29c90, 0xd55e06c2, 0xe588e598, 0xfd99936e, 0x43a5def8, 0xa194d14f);
    Turn(block, 54, s54, 0x5b9cca4f, 0x361b8fe0, s55);
    var s56 := State(0x01638014, 0x2caf58ca, 0x3a0e9477, 0xb1b29c90, 0xadf94e0a, 0xe588e598, 0xfd99936e, 0x43a5def8);
    Turn(block, 55, s55, 0x682e6ff3, 0xd2320ba6, s56);
  }

  lemma EmptyRounds64(block: seq<byte>)
    requires |block| == 64 && IsEmpty(block)
    ensures Rounds(INITIAL, block, 64)
         == State(0x79a6dddb, 0xdd946d8f, 0x5e8d0156, 0xf41fc3ea, 0xd69fef65, 0xc9962ac0, 0x8511bf70, 0x1c71eb3c)
  {
    hide W, Rounds, IsEmpty;
    EmptyRounds56(block);
    EmptyWords56(block);
    var s56 := State(0x01638014, 0x2caf58ca, 0x3a0e9477, 0xb1b29c90, 0xadf94e0a, 0xe588e598, 0xfd99936e, 0x43a5def8);
    var s57 := State(0x7ec75212, 0x01638014, 0x2caf58ca, 0x3a0e9477, 0x7951a330, 0xadf94e0a, 0xe588e598, 0xfd99936e);
    Turn(block, 56, s56, 0x748f82ee, 0x029b7007, s57);
    var s58 := State(0xe7ec45bc, 0x7ec75212, 0x01638014, 0x2caf58ca, 0xe2a91edc, 0x7951a330, 0xadf94e0a, 0xe588e598);
    Turn(block, 57, s57, 0x78a5636f, 0x7546587c, s58);
    var s59 := State(0xe923abc6, 0xe7ec45bc, 0x7ec75212, 0x01638014, 0x08e0e6ea, 0xe2a91edc, 0x7951a330, 0xadf94e0a);
    Turn(block, 58, s58, 0x84c87814, 0x07f54f39, s59);
    var s60 := State(0x04441c0e, 0xe923abc6, 0xe7ec45bc, 0x7ec75212, 0xaaefa044, 0x08e0e6ea, 0xe2a91edc, 0x7951a330);
    Turn(block, 59, s59, 0x8cc70208, 0xf808ddc3, s60);
    var s61 := State(0xf41fc3ea, 0x04441c0e, 0xe923abc6, 0xe7ec45bc, 0x1c71eb3c, 0xaaefa044, 0x08e0e6ea, 0xe2a91edc);
    Turn(block, 60, s60, 0x90befffa, 0xdcca7608, s61);
    var s62 := State(0x5e8d0156, 0xf41fc3ea, 0x04441c0e, 0xe923abc6, 0x8511bf70, 0x1c71eb3c, 0xaaefa044, 0x08e0e6ea);
    Turn(block, 61, s61, 0xa4506ceb, 0x5e427188, s62);
    var s63 := State(0xdd946d8f, 0x5e8d0156, 0xf41fc3ea, 0x04441c0e, 0xc9962ac0, 0x8511bf70, 0x1c71eb3c, 0xaaefa044);
    Turn(block, 62, s62, 0xbef9a3f7, 0x44bcec5d, s63);
    var s64 := State(0x79a6dddb, 0xdd946d8f, 0x5e8d0156, 0xf41fc3ea, 0xd69fef65, 0xc9962ac0, 0x8511bf70, 0x1c71eb3c);
    Turn(block, 63, s63, 0xc67178f2, 0x3b5ec49b, s64);
  }

  lemma EmptyBlock()
    ensures |Pad([])| == 64 && IsEmpty(Pad([]))
  {
    Sha256Code.LengthOctets(0, 0);
  }

  lemma EmptyDigest()
    ensures Digest([]) == State(0xe3b0c442, 0x98fc1c14, 0x9afbf4c8, 0x996fb924, 0x27ae41e4, 0x649b934c, 0xa495991b, 0x7852b855)
  {
    hide W, Rounds, IsEmpty;
    EmptyBlock();
    var block := Pad([]);
    assert block[64 * 0..64 * 1] == block;
    EmptyRounds64(block);
  }

  // ---- "abc" ----

  predicate IsAbc(block: seq<byte>)
    requires |block| == 64
  {
    && block[0] == 0x61 && block[1] == 0x62 && block[2] == 0x63 && block[3] == 0x80
    && (forall i :: 4 <= i < 63 ==> block[i] == 0) && block[63] == 0x18
  }

  lemma AbcWords0(block: seq<byte>)
    requires |block| == 64 && IsAbc(block)
    ensures W(block, 0) == 0x61626380
    ensures W(block, 15) == 0x00000018 && forall t :: 1 <= t < 15 ==> W(block, t) == 0
  {
    Word(block, 0, 0x61, 0x62, 0x63, 0x80);
    Word(block, 15, 0, 0, 0, 0x18);
    forall t | 1 <= t < 15 ensures W(block, t) == 0 { ZeroWord(block, t); }
    hide W;
  }

  lemma AbcWords16(block: seq<byte>)
    requires |block| == 64 && IsAbc(block)
    ensures W(block, 16) == 0x61626380 && W(block, 17) == 0x000f0000
    ensures W(block, 18) == 0x7da86405 && W(block, 19) == 0x600003c6
    ensures W(block, 20) == 0x3e9d7b78 && W(block, 21) == 0x0183fc00
    ensures W(block, 22) == 0x12dcbfdb && W(block, 23) == 0xe2e2c38e
  {
    hide W, IsAbc;
    AbcWords0(block);
    Next(block, 16, 0x00000000, 0x00000000, 0x00000000, 0x61626380, 0x61626380);
    Next(block, 17, 0x00000018, 0x00000000, 0x00000000, 0x00000000, 0x000f0000);
    Next(block, 18, 0x61626380, 0x00000000, 0x00000000, 0x00000000, 0x7da86405);
    Next(block, 19, 0x000f0000, 0x00000000, 0x00000000, 0x00000000, 0x600003c6);
    Next(block, 20, 0x7da86405, 0x00000000, 0x00000000, 0x00000000, 0x3e9d7b78);
    Next(block, 21, 0x600003c6, 0x00000000, 0x00000000, 0x00000000, 0x0183fc00);
    Next(block, 22, 0x3e9d7b78, 0x00000018, 0x00000000, 0x00000000, 0x12dcbfdb);
    Next(block, 23, 0x0183fc00, 0x61626380, 0x00000000, 0x00000000, 0xe2e2c38e);
  }

  lemma AbcWords24(block: seq<byte>)
    requires |block| == 64 && IsAbc(block)
    ensures W(block, 24) == 0xc8215c1a && W(block, 25) == 0xb73679a2
    ensures W(block, 26) == 0xe5bc3909 && W(block, 27) == 0x32663c5b
    ensures W(block, 28) == 0x9d209d67 && W(block, 29) == 0xec8726cb
    ensures W(block, 30) == 0x702138a4 && W(block, 31) == 0xd3b7973b
  {
    hide W, IsAbc;
    AbcWords0(block);
    AbcWords16(block);
    Next(block, 24, 0x12dcbfdb, 0x000f0000, 0x00000000, 0x00000000, 0xc8215c1a);
    Next(block, 25, 0xe2e2c38e, 0x7da86405, 0x00000000, 0x00000000, 0xb73679a2);
    Next(block, 26, 0xc8215c1a, 0x600003c6, 0x00000000, 0x00000000, 0xe5bc3909);
    Next(block, 27, 0xb73679a2, 0x3e9d7b78, 0x00000000, 0x00000000, 0x32663c5b);
    Next(block, 28, 0xe5bc3909, 0x0183fc00, 0x00000000, 0x00000000, 0x9d209d67);
    Next(block, 29, 0x32663c5b, 0x12dcbfdb, 0x00000000, 0x00000000, 0xec8726cb);
    Next(block, 30, 0x9d209d67, 0xe2e2c38e, 0x00000018, 0x00000000, 0x702138a4);
    Next(block, 31, 0xec8726cb, 0xc8215c1a, 0x61626380, 0x00000018, 0xd3b7973b);
  }

  lemma AbcWords32(block: seq<byte>)
    requires |block| == 64 && IsAbc(block)
    ensures W(block, 32) == 0x93f5997f && W(block, 33) == 0x3b68ba73
    ensures W(block, 34) == 0xaff4ffc1 && W(block, 35) == 0xf10a5c62
    ensures W(block, 36) == 0x0a8b3996 && W(block, 37) == 0x72af830a
    ensures W(block, 38) == 0x9409e33e && W(block, 39) == 0x24641522
  {
    hide W, IsAbc;
    AbcWords16(block);
    AbcWords24(block);
    Next(block, 32, 0x702138a4, 0xb73679a2, 0x000f0000, 0x61626380, 0x93f5997f);
    Next(block, 33, 0xd3b7973b, 0xe5bc3909, 0x7da86405, 0x000f0000, 0x3b68ba73);
    Next(block, 34, 0x93f5997f, 0x32663c5b, 0x600003c6, 0x7da86405, 0xaff4ffc1);
    Next(block, 35, 0x3b68ba73, 0x9d209d67, 0x3e9d7b78, 0x600003c6, 0xf10a5c62);
    Next(block, 36, 0xaff4ffc1, 0xec8726cb, 0x0183fc00, 0x3e9d7b78, 0x0a8b3996);
    Next(block, 37, 0xf10a5c62, 0x702138a4, 0x12dcbfdb, 0x0183fc00, 0x72af830a);
    Next(block, 38, 0x0a8b3996, 0xd3b7973b, 0xe2e2c38e, 0x12dcbfdb, 0x9409e33e);
    Next(block, 39, 0x72af830a, 0x93f5997f, 0xc8215c1a, 0xe2e2c38e, 0x24641522);
  }

  lemma AbcWords40(block: seq<byte>)
    requires |block| == 64 && IsAbc(block)
    ensures W(block, 40) == 0x9f47bf94 && W(block, 41) == 0xf0a64f5a
    ensures W(block, 42) == 0x3e246a79 && W(block, 43) == 0x27333ba3
    ensures W(block, 44) == 0x0c4763f2 && W(block, 45) == 0x840abf27
    ensures W(block, 46) == 0x7a290d5d && W(block, 47) == 0x065c43da
  {
    hide W, IsAbc;
    AbcWords24(block);
    AbcWords32(block);
    Next(block, 40, 0x9409e33e, 0x3b68ba73, 0xb73679a2, 0xc8215c1a, 0x9f47bf94);
    Next(block, 41, 0x24641522, 0xaff4ffc1, 0xe5bc3909, 0xb73679a2, 0xf0a64f5a);
    Next(block, 42, 0x9f47bf94, 0xf10a5c62, 0x32663c5b, 0xe5bc3909, 0x3e246a79);
    Next(block, 43, 0xf0a64f5a, 0x0a8b3996, 0x9d209d67, 0x32663c5b, 0x27333ba3);
    Next(block, 44, 0x3e246a79, 0x72af830a, 0xec8726cb, 0x9d209d67, 0x0c4763f2);
    Next(block, 45, 0x27333ba3, 0x9409e33e, 0x702138a4, 0xec8726cb, 0x840abf27);
    Next(block, 46, 0x0c4763f2, 0x24641522, 0xd3b7973b, 0x702138a4, 0x7a290d5d);
    Next(block, 47, 0x840abf27, 0x9f47bf94, 0x93f5997f, 0xd3b7973b, 0x065c43da);
  }

  lemma AbcWords48(block: seq<byte>)
    requires |block| == 64 && IsAbc(block)
    ensures W(block, 48) == 0xfb3e89cb && W(block, 49) == 0xcc7617db
    ensures W(block, 50) == 0xb9e66c34 && W(block, 51) == 0xa9993667
    ensures W(block, 52) == 0x84badedd && W(block, 53) == 0xc21462bc
    ensures W(block, 54) == 0x1487472c && W(block, 55) == 0xb20f7a99
  {
    hide W, IsAbc;
    AbcWords32(block);
    AbcWords40(block);
    Next(block, 48, 0x7a290d5d, 0xf0a64f5a, 0x3b68ba73, 0x93f5997f, 0xfb3e89cb);
    Next(block, 49, 0x065c43da, 0x3e246a79, 0xaff4ffc1, 0x3b68ba73, 0xcc7617db);
    Next(block, 50, 0xfb3e89cb, 0x27333ba3, 0xf10a5c62, 0xaff4ffc1, 0xb9e66c34);
    Next(block, 51, 0xcc7617db, 0x0c4763f2, 0x0a8b3996, 0xf10a5c62, 0xa9993667);
    Next(block, 52, 0xb9e66c34, 0x840abf27, 0x72af830a, 0x0a8b3996, 0x84badedd);
    Next(block, 53, 0xa9993667, 0x7a290d5d, 0x9409e33e, 0x72af830a, 0xc21462bc);
    Next(block, 54, 0x84badedd, 0x065c43da, 0x24641522, 0x9409e33e, 0x1487472c);
    Next(block, 55, 0xc21462bc, 0xfb3e89cb, 0x9f47bf94, 0x24641522, 0xb20f7a99);
  }

  lemma AbcWords56(block: seq<byte>)
    requires |block| == 64 && IsAbc(block)
    ensures W(block, 56) == 0xef57b9cd && W(block, 57) == 0xebe6b238
    ensures W(block, 58) == 0x9fe3095e && W(block, 59) == 0x78bc8d4b
    ensures W(block, 60) == 0xa43fcf15 && W(block, 61) == 0x668b2ff8
    ensures W(block, 62) == 0xeeaba2cc && W(block, 63) == 0x12b1edeb
  {
    hide W, IsAbc;
    AbcWords40(block);
    AbcWords48(block);
    Next(block, 56, 0x1487472c, 0xcc7617db, 0xf0a64f5a, 0x9f47bf94, 0xef57b9cd);
    Next(block, 57, 0xb20f7a99, 0xb9e66c34, 0x3e246a79, 0xf0a64f5a, 0xebe6b238);
    Next(block, 58, 0xef57b9cd, 0xa9993667, 0x27333ba3, 0x3e246a79, 0x9fe3095e);
    Next(block, 59, 0xebe6b238, 0x84badedd, 0x0c4763f2, 0x27333ba3, 0x78bc8d4b);
    Next(block, 60, 0x9fe3095e, 0xc21462bc, 0x840abf27, 0x0c4763f2, 0xa43fcf15);
    Next(block, 61, 0x78bc8d4b, 0x1487472c, 0x7a290d5d, 0x840abf27, 0x668b2ff8);
    Next(block, 62, 0xa43fcf15, 0xb20f7a99, 0x065c43da, 0x7a290d5d, 0xeeaba2cc);
    Next(block, 63, 0x668b2ff8, 0xef57b9cd, 0xfb3e89cb, 0x065c43da, 0x12b1edeb);
  }

  lemma AbcRounds8(block: seq<byte>)
    requires |block| == 64 && IsAbc(block)
    ensures Rounds(INITIAL, block, 8)
         == State(0x85a07b5f, 0xe5030380, 0x2b4209f5, 0x04409a6a, 0x0c657a79, 0x9b27a401, 0x714260ad, 0x43ada245)
  {
    hide W, Rounds, IsAbc;
    Sha256Code.NoRounds(INITIAL, block);
    AbcWords0(block);
    var s0 := INITIAL;
    var s1 := State(0x5d6aebcd, 0x6a09e667, 0xbb67ae85, 0x3c6ef372, 0xfa2a4622, 0x510e527f, 0x9b05688c, 0x1f83d9ab);
    Turn(block, 0, s0, 0x428a2f98, 0x61626380, s1);
    var s2 := State(0x5a6ad9ad, 0x5d6aebcd, 0x6a09e667, 0xbb67ae85, 0x78ce7989, 0xfa2a4622, 0x510e527f, 0x9b05688c);
    Turn(block, 1, s1, 0x71374491, 0x00000000, s2);
    var s3 := State(0xc8c347a7, 0x5a6ad9ad, 0x5d6aebcd, 0x6a09e667, 0xf92939eb, 0x78ce7989, 0xfa2a4622, 0x510e527f);
    Turn(block, 2, s2, 0xb5c0fbcf, 0x00000000, s3);
    var s4 := State(0xd550f666, 0xc8c347a7, 0x5a6ad9ad, 0x5d6aebcd, 0x24e00850, 0xf92939eb, 0x78ce7989, 0xfa2a4622);
    Turn(block, 3, s3, 0xe9b5dba5, 0x00000000, s4);
    var s5 := State(0x04409a6a, 0xd550f666, 0xc8c347a7, 0x5a6ad9ad, 0x43ada245, 0x24e00850, 0xf92939eb, 0x78ce7989);
    Turn(block, 4, s4, 0x3956c25b, 0x00000000, s5);
    var s6 := State(0x2b4209f5, 0x04409a6a, 0xd550f666, 0xc8c347a7, 0x714260ad, 0x43ada245, 0x24e00850, 0xf92939eb);
    Turn(block, 5, s5, 0x59f111f1, 0x00000000, s6);
    var s7 := State(0xe5030380, 0x2b4209f5, 0x04409a6a, 0xd550f666, 0x9b27a401, 0x714260ad, 0x43ada245, 0x24e00850);
    Turn(block, 6, s6, 0x923f82a4, 0x00000000, s7);
    var s8 := State(0x85a07b5f, 0xe5030380, 0x2b4209f5, 0x04409a6a, 0x0c657a79, 0x9b27a401, 0x714260ad, 0x43ada245);
    Turn(block, 7, s7, 0xab1c5ed5, 0x00000000, s8);
  }

  lemma AbcRounds16(block: seq<byte>)
    requires |block| == 64 && IsAbc(block)
    ensures Rounds(INITIAL, block, 16)
         == State(0xb0fa238e, 0xc0645fde, 0xd932eb16, 0x87912990, 0x07590dcd, 0x0b92f20c, 0x745a48de, 0x1e578218)
  {
    hide W, Rounds, IsAbc;
    AbcRounds8(block);
    AbcWords0(block);
    var s8 := State(0x85a07b5f, 0xe5030380, 0x2b4209f5, 0x04409a6a, 0x0c657a79, 0x9b27a401, 0x714260ad, 0x43ada245);
    var s9 := State(0x8e04ecb9, 0x85a07b5f, 0xe5030380, 0x2b4209f5, 0x32ca2d8c, 0x0c657a79, 0x9b27a401, 0x714260ad);
    Turn(block, 8, s8, 0xd807aa98, 0x00000000, s9);
    var s10 := State(0x8c87346b, 0x8e04ecb9, 0x85a07b5f, 0xe5030380, 0x1cc92596, 0x32ca2d8c, 0x0c657a79, 0x9b27a401);
    Turn(block, 9, s9, 0x12835b01, 0x00000000, s10);
    var s11 := State(0x4798a3f4, 0x8c87346b, 0x8e04ecb9, 0x85a07b5f, 0x436b23e8, 0x1cc92596, 0x32ca2d8c, 0x0c657a79);
    Turn(block, 10, s10, 0x243185be, 0x00000000, s11);
    var s12 := State(0xf71fc5a9, 0x4798a3f4, 0x8c87346b, 0x8e04ecb9, 0x816fd6e9, 0x436b23e8, 0x1cc92596, 0x32ca2d8c);
    Turn(block, 11, s11, 0x550c7dc3, 0x00000000, s12);
    var s13 := State(0x87912990, 0xf71fc5a9, 0x4798a3f4, 0x8c87346b, 0x1e578218, 0x816fd6e9, 0x436b23e8, 0x1cc92596);
    Turn(block, 12, s12, 0x72be5d74, 0x00000000, s13);
    var s14 := State(0xd932eb16, 0x87912990, 0xf71fc5a9, 0x4798a3f4, 0x745a48de, 0x1e578218, 0x816fd6e9, 0x436b23e8);
    Turn(block, 13, s13, 0x80deb1fe, 0x00000000, s14);
    var s15 := State(0xc0645fde, 0xd932eb16, 0x87912990, 0xf71fc5a9, 0x0b92f20c, 0x745a48de, 0x1e578218, 0x816fd6e9);
    Turn(block, 14, s14, 0x9bdc06a7, 0x00000000, s15);
    var s16 := State(0xb0fa238e, 0xc0645fde, 0xd932eb16, 0x87912990, 0x07590dcd, 0x0b92f20c, 0x745a48de, 0x1e578218);
    Turn(block, 15, s15, 0xc19bf174, 0x00000018, s16);
  }

  lemma AbcRounds24(block: seq<byte>)
    requires |block| == 64 && IsAbc(block)
    ensures Rounds(INITIAL, block, 24)
         == State(0xc5d53d8d, 0xa7a3623f, 0xc2606d6d, 0x9dc68b63, 0xaa47c347, 0x49f5114a, 0xe1257970, 0x8ada8930)
  {
    hide W, Rounds, IsAbc;
    AbcRounds16(block);
    AbcWords16(block);
    var s16 := State(0xb0fa238e, 0xc0645fde, 0xd932eb16, 0x87912990, 0x07590dcd, 0x0b92f20c, 0x745a48de, 0x1e578218);
    var s17 := State(0x21da9a9b, 0xb0fa238e, 0xc0645fde, 0xd932eb16, 0x8034229c, 0x07590dcd, 0x0b92f20c, 0x745a48de);
    Turn(block, 16, s16, 0xe49b69c1, 0x61626380, s17);
    var s18 := State(0xc2fbd9d1, 0x21da9a9b, 0xb0fa238e, 0xc0645fde, 0x846ee454, 0x8034229c, 0x07590dcd, 0x0b92f20c);
    Turn(block, 17, s17, 0xefbe4786, 0x000f0000, s18);
    var s19 := State(0xfe777bbf, 0xc2fbd9d1, 0x21da9a9b, 0xb0fa238e, 0xcc899961, 0x846ee454, 0x8034229c, 0x07590dcd);
    Turn(block, 18, s18, 0x0fc19dc6, 0x7da86405, s19);
    var s20 := State(0xe1f20c33, 0xfe777bbf, 0xc2fbd9d1, 0x21da9a9b, 0xb0638179, 0xcc899961, 0x846ee454, 0x8034229c);
    Turn(block, 19, s19, 0x240ca1cc, 0x600003c6, s20);
    var s21 := State(0x9dc68b63, 0xe1f20c33, 0xfe777bbf, 0xc2fbd9d1, 0x8ada8930, 0xb0638179, 0xcc899961, 0x846ee454);
    Turn(block, 20, s20, 0x2de92c6f, 0x3e9d7b78, s21);
    var s22 := State(0xc2606d6d, 0x9dc68b63, 0xe1f20c33, 0xfe777bbf, 0xe1257970, 0x8ada8930, 0xb0638179, 0xcc899961);
    Turn(block, 21, s21, 0x4a7484aa, 0x0183fc00, s22);
    var s23 := State(0xa7a3623f, 0xc2606d6d, 0x9dc68b63, 0xe1f20c33, 0x49f5114a, 0xe1257970, 0x8ada8930, 0xb0638179);
    Turn(block, 22, s22, 0x5cb0a9dc, 0x12dcbfdb, s23);
    var s24 := State(0xc5d53d8d, 0xa7a3623f, 0xc2606d6d, 0x9dc68b63, 0xaa47c347, 0x49f5114a, 0xe1257970, 0x8ada8930);
    Turn(block, 23, s23, 0x76f988da, 0xe2e2c38e, s24);
  }

  lemma AbcRounds32(block: seq<byte>)
    requires |block| == 64 && IsAbc(block)
    ensures Rounds(INITIAL, block, 32)
         == State(0x73b33bf5, 0xea992a22, 0xa0060b30, 0x363482c9, 0xba591112, 0x0109ab3a, 0xade79437, 0x6112a3b7)
  {
    hide W, Rounds, IsAbc;
    AbcRounds24(block);
    AbcWords24(block);
    var s24 := State(0xc5d53d8d, 0xa7a3623f, 0xc2606d6d, 0x9dc68b63, 0xaa47c347, 0x49f5114a, 0xe1257970, 0x8ada8930);
    var s25 := State(0x1c2c2838, 0xc5d53d8d, 0xa7a3623f, 0xc2606d6d, 0x2823ef91, 0xaa47c347, 0x49f5114a, 0xe1257970);
    Turn(block, 24, s24, 0x983e5152, 0xc8215c1a, s25);
    var s26 := State(0xcde8037d, 0x1c2c2838, 0xc5d53d8d, 0xa7a3623f, 0x14383d8e, 0x2823ef91, 0xaa47c347, 0x49f5114a);
    Turn(block, 25, s25, 0xa831c66d, 0xb73679a2, s26);
    var s27 := State(0xb62ec4bc, 0xcde8037d, 0x1c2c2838, 0xc5d53d8d, 0xc74c6516, 0x14383d8e, 0x2823ef91, 0xaa47c347);
    Turn(block, 26, s26, 0xb00327c8, 0xe5bc3909, s27);
    var s28 := State(0x77d37528, 0xb62ec4bc, 0xcde8037d, 0x1c2c2838, 0xedffbff8, 0xc74c6516, 0x14383d8e, 0x2823ef91);
    Turn(block, 27, s27, 0xbf597fc7, 0x32663c5b, s28);
    var s29 := State(0x363482c9, 0x77d37528, 0xb62ec4bc, 0xcde8037d, 0x6112a3b7, 0xedffbff8, 0xc74c6516, 0x14383d8e);
    Turn(block, 28, s28, 0xc6e00bf3, 0x9d209d67, s29);
    var s30 := State(0xa0060b30, 0x363482c9, 0x77d37528, 0xb62ec4bc, 0xade79437, 0x6112a3b7, 0xedffbff8, 0xc74c6516);
    Turn(block, 29, s29, 0xd5a79147, 0xec8726cb, s30);
    var s31 := State(0xea992a22, 0xa0060b30, 0x363482c9, 0x77d37528, 0x0109ab3a, 0xade79437, 0x6112a3b7, 0xedffbff8);
    Turn(block, 30, s30, 0x06ca6351, 0x702138a4, s31);
    var s32 := State(0x73b33bf5, 0xea992a22, 0xa0060b30, 0x363482c9, 0xba591112, 0x0109ab3a, 0xade79437, 0x6112a3b7);
    Turn(block, 31, s31, 0x14292967, 0xd3b7973b, s32);
  }

  lemma AbcRounds40(block: seq<byte>)
    requires |block| == 64 && IsAbc(block)
    ensures Rounds(INITIAL, block, 40)
         == State(0x79ea687a, 0x6dc57a8a, 0x34df1604, 0x41a65cb1, 0x1efbc0a0, 0xf0781bc8, 0xa507a53d, 0x0772a26b)
  {
    hide W, Rounds, IsAbc;
    AbcRounds32(block);
    AbcWords32(block);
    var s32 := State(0x73b33bf5, 0xea992a22, 0xa0060b30, 0x363482c9, 0xba591112, 0x0109ab3a, 0xade79437, 0x6112a3b7);
    var s33 := State(0x98e12507, 0x73b33bf5, 0xea992a22, 0xa0060b30, 0x9cd9f5f6, 0xba591112, 0x0109ab3a, 0xade79437);
    Turn(block, 32, s32, 0x27b70a85, 0x93f5997f, s33);
    var s34 := State(0xfe604df5, 0x98e12507, 0x73b33bf5, 0xea992a22, 0x59249dd3, 0x9cd9f5f6, 0xba591112, 0x0109ab3a);
    Turn(block, 33, s33, 0x2e1b2138, 0x3b68ba73, s34);
    var s35 := State(0xa9a7738c, 0xfe604df5, 0x98e12507, 0x73b33bf5, 0x085f3833, 0x59249dd3, 0x9cd9f5f6, 0xba591112);
    Turn(block, 34, s34, 0x4d2c6dfc, 0xaff4ffc1, s35);
    var s36 := State(0x65a0cfe4, 0xa9a7738c, 0xfe604df5, 0x98e12507, 0xf4b002d6, 0x085f3833, 0x59249dd3, 0x9cd9f5f6);
    Turn(block, 35, s35, 0x53380d13, 0xf10a5c62, s36);
    var s37 := State(0x41a65cb1, 0x65a0cfe4, 0xa9a7738c, 0xfe604df5, 0x0772a26b, 0xf4b002d6, 0x085f3833, 0x59249dd3);
    Turn(block, 36, s36, 0x650a7354, 0x0a8b3996, s37);
    var s38 := State(0x34df1604, 0x41a65cb1, 0x65a0cfe4, 0xa9a7738c, 0xa507a53d, 0x0772a26b, 0xf4b002d6, 0x085f3833);
    Turn(block, 37, s37, 0x766a0abb, 0x72af830a, s38);
    var s39 := State(0x6dc57a8a, 0x34df1604, 0x41a65cb1, 0x65a0cfe4, 0xf0781bc8, 0xa507a53d, 0x0772a26b, 0xf4b002d6);
    Turn(block, 38, s38, 0x81c2c92e, 0x9409e33e, s39);
    var s40 := State(0x79ea687a, 0x6dc57a8a, 0x34df1604, 0x41a65cb1, 0x1efbc0a0, 0xf0781bc8, 0xa507a53d, 0x0772a26b);
    Turn(block, 39, s39, 0x92722c85, 0x24641522, s40);
  }

  lemma AbcRounds48(block: seq<byte>)
    requires |block| == 64 && IsAbc(block)
    ensures Rounds(INITIAL, block, 48)
         == State(0x4172328d, 0xa14c14b0, 0x72ab4b91, 0x26628815, 0xfecf0bc6, 0xd57b94a9, 0xb7755da1, 0xa80f11f0)
  {
    hide W, Rounds, IsAbc;
    AbcRounds40(block);
    AbcWords40(block);
    var s40 := State(0x79ea687a, 0x6dc57a8a, 0x34df1604, 0x41a65cb1, 0x1efbc0a0, 0xf0781bc8, 0xa507a53d, 0x0772a26b);
    var s41 := State(0xd6670766, 0x79ea687a, 0x6dc57a8a, 0x34df1604, 0x26352d63, 0x1efbc0a0, 0xf0781bc8, 0xa507a53d);
    Turn(block, 40, s40, 0xa2bfe8a1, 0x9f47bf94, s41);
    var s42 := State(0xdf46652f, 0xd6670766, 0x79ea687a, 0x6dc57a8a, 0x838b2711, 0x26352d63, 0x1efbc0a0, 0xf0781bc8);
    Turn(block, 41, s41, 0xa81a664b, 0xf0a64f5a, s42);
    var s43 := State(0x17aa0dfe, 0xdf46652f, 0xd6670766, 0x79ea687a, 0xdecd4715, 0x838b2711, 0x26352d63, 0x1efbc0a0);
    Turn(block, 42, s42, 0xc24b8b70, 0x3e246a79, s43);
    var s44 := State(0x9d4baf93, 0x17aa0dfe, 0xdf46652f, 0xd6670766, 0xfda24c2e, 0xdecd4715, 0x838b2711, 0x26352d63);
    Turn(block, 43, s43, 0xc76c51a3, 0x27333ba3, s44);
    var s45 := State(0x26628815, 0x9d4baf93, 0x17aa0dfe, 0xdf46652f, 0xa80f11f0, 0xfda24c2e, 0xdecd4715, 0x838b2711);
    Turn(block, 44, s44, 0xd192e819, 0x0c4763f2, s45);
    var s46 := State(0x72ab4b91, 0x26628815, 0x9d4baf93, 0x17aa0dfe, 0xb7755da1, 0xa80f11f0, 0xfda24c2e, 0xdecd4715);
    Turn(block, 45, s45, 0xd6990624, 0x840abf27, s46);
    var s47 := State(0xa14c14b0, 0x72ab4b91, 0x26628815, 0x9d4baf93, 0xd57b94a9, 0xb7755da1, 0xa80f11f0, 0xfda24c2e);
    Turn(block, 46, s46, 0xf40e3585, 0x7a290d5d, s47);
    var s48 := State(0x4172328d, 0xa14c14b0, 0x72ab4b91, 0x26628815, 0xfecf0bc6, 0xd57b94a9, 0xb7755da1, 0xa80f11f0);
    Turn(block, 47, s47, 0x106aa070, 0x065c43da, s48);
  }

  lemma AbcRounds56(block: seq<byte>)
    requires |block| == 64 && IsAbc(block)
    ensures Rounds(INITIAL, block, 56)
         == State(0x38cc9913, 0x3ec45cdb, 0xf5702fdb, 0x101fd28f, 0x54cb266b, 0xe50e1b4f, 0x9f4787c3, 0x529e7d00)
  {
    hide W, Rounds, IsAbc;
    AbcRounds48(block);
    AbcWords48(block);
    var s48 := State(0x4172328d, 0xa14c14b0, 0x72ab4b91, 0x26628815, 0xfecf0bc6, 0xd57b94a9, 0xb7755da1, 0xa80f11f0);
    var s49 := State(0x05757ceb, 0x4172328d, 0xa14c14b0, 0x72ab4b91, 0xbd714038, 0xfecf0bc6, 0xd57b94a9, 0xb7755da1);
    Turn(block, 48, s48, 0x19a4c116, 0xfb3e89cb, s49);
    var s50 := State(0xf11bfaa8, 0x05757ceb, 0x4172328d, 0xa14c14b0, 0x6e5c390c, 0xbd714038, 0xfecf0bc6, 0xd57b94a9);
    Turn(block, 49, s49, 0x1e376c08, 0xcc7617db, s50);
    var s51 := State(0x7a0508a1, 0xf11bfaa8, 0x05757ceb, 0x4172328d, 0x52f1ccf7, 0x6e5c390c, 0xbd714038, 0xfecf0bc6);
    Turn(block, 50, s50, 0x2748774c, 0xb9e66c34, s51);
    var s52 := State(0x886e7a22, 0x7a0508a1, 0xf11bfaa8, 0x05757ceb, 0x49231c1e, 0x52f1ccf7, 0x6e5c390c, 0xbd714038);
    Turn(block, 51, s51, 0x34b0bcb5, 0xa9993667, s52);
    var s53 := State(0x101fd28f, 0x886e7a22, 0x7a0508a1, 0xf11bfaa8, 0x529e7d00, 0x49231c1e, 0x52f1ccf7, 0x6e5c390c);
    Turn(block, 52, s52, 0x391c0cb3, 0x84badedd, s53);
    var s54 := State(0xf5702fdb, 0x101fd28f, 0x886e7a22, 0x7a0508a1, 0x9f4787c3, 0x529e7d00, 0x49231c1e, 0x52f1ccf7);
    Turn(block, 53, s53, 0x4ed8aa4a, 0xc21462bc, s54);
    var s55 := State(0x3ec45cdb, 0xf5702fdb, 0x101fd28f, 0x886e7a22, 0xe50e1b4f, 0x9f4787c3, 0x529e7d00, 0x49231c1e);
    Turn(block, 54, s54, 0x5b9cca4f, 0x1487472c, s55);
    var s56 := State(0x38cc9913, 0x3ec45cdb, 0xf5702fdb, 0x101fd28f, 0x54cb266b, 0xe50e1b4f, 0x9f4787c3, 0x529e7d00);
    Turn(block, 55, s55, 0x682e6ff3, 0xb20f7a99, s56);
  }

  lemma AbcRounds64(block: seq<byte>)
    requires |block| == 64 && IsAbc(block)
    ensures Rounds(INITIAL, block, 64)
         == State(0x506e3058, 0xd39a2165, 0x04d24d6c, 0xb85e2ce9, 0x5ef50f24, 0xfb121210, 0x948d25b6, 0x961f4894)
  {
    hide W, Rounds, IsAbc;
    AbcRounds56(block);
    AbcWords56(block);
    var s56 := State(0x38cc9913, 0x3ec45cdb, 0xf5702fdb, 0x101fd28f, 0x54cb266b, 0xe50e1b4f, 0x9f4787c3, 0x529e7d00);
    var s57 := State(0xfcd1887b, 0x38cc9913, 0x3ec45cdb, 0xf5702fdb, 0x9b5e906c, 0x54cb266b, 0xe50e1b4f, 0x9f4787c3);
    Turn(block, 56, s56, 0x748f82ee, 0xef57b9cd, s57);
    var s58 := State(0xc062d46f, 0xfcd1887b, 0x38cc9913, 0x3ec45cdb, 0x7e44008e, 0x9b5e906c, 0x54cb266b, 0xe50e1b4f);
    Turn(block, 57, s57, 0x78a5636f, 0xebe6b238, s58);
    var s59 := State(0xffb70472, 0xc062d46f, 0xfcd1887b, 0x38cc9913, 0x6d83bfc6, 0x7e44008e, 0x9b5e906c, 0x54cb266b);
    Turn(block, 58, s58, 0x84c87814, 0x9fe3095e, s59);
    var s60 := State(0xb6ae8fff, 0xffb70472, 0xc062d46f, 0xfcd1887b, 0xb21bad3d, 0x6d83bfc6, 0x7e44008e, 0x9b5e906c);
    Turn(block, 59, s59, 0x8cc70208, 0x78bc8d4b, s60);
    var s61 := State(0xb85e2ce9, 0xb6ae8fff, 0xffb70472, 0xc062d46f, 0x961f4894, 0xb21bad3d, 0x6d83bfc6, 0x7e44008e);
    Turn(block, 60, s60, 0x90befffa, 0xa43fcf15, s61);
    var s62 := State(0x04d24d6c, 0xb85e2ce9, 0xb6ae8fff, 0xffb70472, 0x948d25b6, 0x961f4894, 0xb21bad3d, 0x6d83bfc6);
    Turn(block, 61, s61, 0xa4506ceb, 0x668b2ff8, s62);
    var s63 := State(0xd39a2165, 0x04d24d6c, 0xb85e2ce9, 0xb6ae8fff, 0xfb121210, 0x948d25b6, 0x961f4894, 0xb21bad3d);
    Turn(block, 62, s62, 0xbef9a3f7, 0xeeaba2cc, s63);
    var s64 := State(0x506e3058, 0xd39a2165, 0x04d24d6c, 0xb85e2ce9, 0x5ef50f24, 0xfb121210, 0x948d25b6, 0x961f4894);
    Turn(block, 63, s63, 0xc67178f2, 0x12b1edeb, s64);
  }

  lemma AbcBlock()
    ensures |Pad(ABC)| == 64 && IsAbc(Pad(ABC))
  {
    Sha256Code.LengthOctets(24, 0);
  }

  lemma AbcDigest()
    ensures Digest(ABC) == State(0xba7816bf, 0x8f01cfea, 0x414140de, 0x5dae2223, 0xb00361a3, 0x96177a9c, 0xb410ff61, 0xf20015ad)
  {
    hide W, Rounds, IsAbc;
    AbcBlock();
    var block := Pad(ABC);
    assert block[64 * 0..64 * 1] == block;
    AbcRounds64(block);
  }

  // ---- In hexadecimal ----

  lemma EightWords(d: State)
    ensures Hex(DigestBytes(d)) == "" + Sha256Code.WordHex(d.a) + Sha256Code.WordHex(d.b) + Sha256Code.WordHex(d.c)
              + Sha256Code.WordHex(d.d) + Sha256Code.WordHex(d.e) + Sha256Code.WordHex(d.f) + Sha256Code.WordHex(d.g)
              + Sha256Code.WordHex(d.h)
  {
    hide Sha256Code.WordHex, Sha256Code.AllHex, Hex, AllBytes;
    Sha256Code.AllHexIsHex(WordsOf(d));
    FourWords([], d.a, d.b, d.c, d.d);
    FourWords([d.a, d.b, d.c, d.d], d.e, d.f, d.g, d.h);
    NoWords();
    assert [] + [d.a, d.b, d.c, d.d] == [d.a, d.b, d.c, d.d];
    assert WordsOf(d) == [d.a, d.b, d.c, d.d] + [d.e, d.f, d.g, d.h];
  }

  lemma NoWords()
    ensures Sha256Code.AllHex([]) == ""
  {
  }

  lemma FourWords(ws: seq<Word>, p: Word, q: Word, r: Word, s: Word)
    ensures Sha256Code.AllHex(ws + [p, q, r, s]) == Sha256Code.AllHex(ws) + Sha256Code.WordHex(p) + Sha256Code.WordHex(q)
              + Sha256Code.WordHex(r) + Sha256Code.WordHex(s)
  {
    hide Sha256Code.WordHex, Sha256Code.AllHex;
    Snoc(ws, p);
    Snoc(ws + [p], q);
    Snoc(ws + [p] + [q], r);
    Snoc(ws + [p] + [q] + [r], s);
    assert ws + [p, q, r, s] == ws + [p] + [q] + [r] + [s];
  }

  lemma Snoc(ws: seq<Word>, w: Word)
    ensures Sha256Code.AllHex(ws + [w]) == Sha256Code.AllHex(ws) + Sha256Code.WordHex(w)
  {
    hide Sha256Code.WordHex;
    assert (ws + [w])[..|ws|] == ws;
  }

  lemma EmptyHexWords()
    ensures Sha256Code.WordHex(0xe3b0c442) == "e3b0c442"
    ensures Sha256Code.WordHex(0x98fc1c14) == "98fc1c14"
    ensures Sha256Code.WordHex(0x9afbf4c8) == "9afbf4c8"
    ensures Sha256Code.WordHex(0x996fb924) == "996fb924"
    ensures Sha256Code.WordHex(0x27ae41e4) == "27ae41e4"
    ensures Sha256Code.WordHex(0x649b934c) == "649b934c"
    ensures Sha256Code.WordHex(0xa495991b) == "a495991b"
    ensures Sha256Code.WordHex(0x7852b855) == "7852b855"
  {
  }

  lemma EmptyHex()
    ensures Hex(DigestBytes(Digest([]))) == "e3b0c44298fc1c149afbf4c8996fb92427ae41e4649b934ca495991b7852b855"
  {
    hide Digest, DigestBytes, Hex, Sha256Code.WordHex;
    EmptyDigest();
    EightWords(Digest([]));
    EmptyHexWords();
    assert "" + "e3b0c442"
        == "e3b0c442";
    assert "e3b0c442" + "98fc1c14"
        == "e3b0c44298fc1c14";
    assert "e3b0c44298fc1c14" + "9afbf4c8"
        == "e3b0c44298fc1c149afbf4c8";
    assert "e3b0c44298fc1c149afbf4c8" + "996fb924"
        == "e3b0c44298fc1c149afbf4c8996fb924";
    assert "e3b0c44298fc1c149afbf4c8996fb924" + "27ae41e4"
        == "e3b0c44298fc1c149afbf4c8996fb92427ae41e4";
    assert "e3b0c44298fc1c149afbf4c8996fb92427ae41e4" + "649b934c"
        == "e3b0c44298fc1c149afbf4c8996fb92427ae41e4649b934c";
    assert "e3b0c44298fc1c149afbf4c8996fb92427ae41e4649b934c" + "a495991b"
        == "e3b0c44298fc1c149afbf4c8996fb92427ae41e4649b934ca495991b";
    assert "e3b0c44298fc1c149afbf4c8996fb92427ae41e4649b934ca495991b" + "7852b855"
        == "e3b0c44298fc1c149afbf4c8996fb92427ae41e4649b934ca495991b7852b855";
  }

  lemma AbcHexWords()
    ensures Sha256Code.WordHex(0xba7816bf) == "ba7816bf"
    ensures Sha256Code.WordHex(0x8f01cfea) == "8f01cfea"
    ensures Sha256Code.WordHex(0x414140de) == "414140de"
    ensures Sha256Code.WordHex(0x5dae2223) == "5dae2223"
    ensures Sha256Code.WordHex(0xb00361a3) == "b00361a3"
    ensures Sha256Code.WordHex(0x96177a9c) == "96177a9c"
    ensures Sha256Code.WordHex(0xb410ff61) == "b410ff61"
    ensures Sha256Code.WordHex(0xf20015ad) == "f20015ad"
  {
  }

  lemma AbcHex()
    ensures Hex(DigestBytes(Digest(ABC))) == "ba7816bf8f01cfea414140de5dae2223b00361a396177a9cb410ff61f20015ad"
  {
    hide Digest, DigestBytes, Hex, Sha256Code.WordHex;
    AbcDigest();
    EightWords(Digest(ABC));
    AbcHexWords();
    assert "" + "ba7816bf"
        == "ba7816bf";
    assert "ba7816bf" + "8f01cfea"
        == "ba7816bf8f01cfea";
    assert "ba7816bf8f01cfea" + "414140de"
        == "ba7816bf8f01cfea414140de";
    assert "ba7816bf8f01cfea414140de" + "5dae2223"
        == "ba7816bf8f01cfea414140de5dae2223";
    assert "ba7816bf8f01cfea414140de5dae2223" + "b00361a3"
        == "ba7816bf8f01cfea414140de5dae2223b00361a3";
    assert "ba7816bf8f01cfea414140de5dae2223b00361a3" + "96177a9c"
        == "ba7816bf8f01cfea414140de5dae2223b00361a396177a9c";
    assert "ba7816bf8f01cfea414140de5dae2223b00361a396177a9c" + "b410ff61"
        == "ba7816bf8f01cfea414140de5dae2223b00361a396177a9cb410ff61";
    assert "ba7816bf8f01cfea414140de5dae2223b00361a396177a9cb410ff61" + "f20015ad"
        == "ba7816bf8f01cfea414140de5dae2223b00361a396177a9cb410ff61f20015ad";
  }
}
