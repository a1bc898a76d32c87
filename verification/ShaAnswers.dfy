/** What ties ShaSpec to the published functions: its constants are the roots that FIPS 180-4 takes them from, and its
    rounds give the numbers of the published example, the message "abc". */
module ShaAnswers {
  import opened Bytes
  import opened ShaSpec

  // ---------- the constants of sections 4.2 and 5.3 ----------

  const TWO32: int := 0x1_0000_0000

  /** The word holds the first 32 bits of the fractional part of the cube root of n. */
  predicate CubeRoot(n: int, whole: int, k: Word) { RootBits3(n, whole * TWO32 + k as int) }

  predicate SquareRoot(n: int, whole: int, k: Word) { RootBits2(n, whole * TWO32 + k as int) }

  predicate RootBits3(n: int, x: int) { x * x * x <= n * TWO32 * TWO32 * TWO32 < (x + 1) * (x + 1) * (x + 1) }

  predicate RootBits2(n: int, x: int) { x * x <= n * TWO32 * TWO32 < (x + 1) * (x + 1) }

  lemma Cube(n: int, whole: int, k: Word, bits: int)
    requires k as int == bits && RootBits3(n, whole * TWO32 + bits)
    ensures CubeRoot(n, whole, k)
  {}

  lemma Square(n: int, whole: int, k: Word, bits: int)
    requires k as int == bits && RootBits2(n, whole * TWO32 + bits)
    ensures SquareRoot(n, whole, k)
  {}

  /** The word is the square root of n in units of 2^-30. */
  predicate RootIn30(n: int, k: Word) {
    k as int * k as int <= n * TWO32 * 0x1000_0000 < (k as int + 1) * (k as int + 1)
  }

  /** The constants of SHA-256 belong to the first 64 primes, in order. */
  lemma CubeRootsFrom0()
    ensures CubeRoot(2, 1, K256[0]) && CubeRoot(3, 1, K256[1]) && CubeRoot(5, 1, K256[2])
    ensures CubeRoot(7, 1, K256[3]) && CubeRoot(11, 2, K256[4]) && CubeRoot(13, 2, K256[5])
    ensures CubeRoot(17, 2, K256[6]) && CubeRoot(19, 2, K256[7])
  {
    hide CubeRoot;
    Cube(2, 1, K256[0], 0x428a2f98);
    Cube(3, 1, K256[1], 0x71374491);
    Cube(5, 1, K256[2], 0xb5c0fbcf);
    Cube(7, 1, K256[3], 0xe9b5dba5);
    Cube(11, 2, K256[4], 0x3956c25b);
    Cube(13, 2, K256[5], 0x59f111f1);
    Cube(17, 2, K256[6], 0x923f82a4);
    Cube(19, 2, K256[7], 0xab1c5ed5);
  }

  lemma CubeRootsFrom8()
    ensures CubeRoot(23, 2, K256[8]) && CubeRoot(29, 3, K256[9]) && CubeRoot(31, 3, K256[10])
    ensures CubeRoot(37, 3, K256[11]) && CubeRoot(41, 3, K256[12]) && CubeRoot(43, 3, K256[13])
    ensures CubeRoot(47, 3, K256[14]) && CubeRoot(53, 3, K256[15])
  {
    hide CubeRoot;
    Cube(23, 2, K256[8], 0xd807aa98);
    Cube(29, 3, K256[9], 0x12835b01);
    Cube(31, 3, K256[10], 0x243185be);
    Cube(37, 3, K256[11], 0x550c7dc3);
    Cube(41, 3, K256[12], 0x72be5d74);
    Cube(43, 3, K256[13], 0x80deb1fe);
    Cube(47, 3, K256[14], 0x9bdc06a7);
    Cube(53, 3, K256[15], 0xc19bf174);
  }

  lemma CubeRootsFrom16()
    ensures CubeRoot(59, 3, K256[16]) && CubeRoot(61, 3, K256[17]) && CubeRoot(67, 4, K256[18])
    ensures CubeRoot(71, 4, K256[19]) && CubeRoot(73, 4, K256[20]) && CubeRoot(79, 4, K256[21])
    ensures CubeRoot(83, 4, K256[22]) && CubeRoot(89, 4, K256[23])
  {
    hide CubeRoot;
    Cube(59, 3, K256[16], 0xe49b69c1);
    Cube(61, 3, K256[17], 0xefbe4786);
    Cube(67, 4, K256[18], 0x0fc19dc6);
    Cube(71, 4, K256[19], 0x240ca1cc);
    Cube(73, 4, K256[20], 0x2de92c6f);
    Cube(79, 4, K256[21], 0x4a7484aa);
    Cube(83, 4, K256[22], 0x5cb0a9dc);
    Cube(89, 4, K256[23], 0x76f988da);
  }

  lemma CubeRootsFrom24()
    ensures CubeRoot(97, 4, K256[24]) && CubeRoot(101, 4, K256[25]) && CubeRoot(103, 4, K256[26])
    ensures CubeRoot(107, 4, K256[27]) && CubeRoot(109, 4, K256[28]) && CubeRoot(113, 4, K256[29])
    ensures CubeRoot(127, 5, K256[30]) && CubeRoot(131, 5, K256[31])
  {
    hide CubeRoot;
    Cube(97, 4, K256[24], 0x983e5152);
    Cube(101, 4, K256[25], 0xa831c66d);
    Cube(103, 4, K256[26], 0xb00327c8);
    Cube(107, 4, K256[27], 0xbf597fc7);
    Cube(109, 4, K256[28], 0xc6e00bf3);
    Cube(113, 4, K256[29], 0xd5a79147);
    Cube(127, 5, K256[30], 0x06ca6351);
    Cube(131, 5, K256[31], 0x14292967);
  }

  lemma CubeRootsFrom32()
    ensures CubeRoot(137, 5, K256[32]) && CubeRoot(139, 5, K256[33]) && CubeRoot(149, 5, K256[34])
    ensures CubeRoot(151, 5, K256[35]) && CubeRoot(157, 5, K256[36]) && CubeRoot(163, 5, K256[37])
    ensures CubeRoot(167, 5, K256[38]) && CubeRoot(173, 5, K256[39])
  {
    hide CubeRoot;
    Cube(137, 5, K256[32], 0x27b70a85);
    Cube(139, 5, K256[33], 0x2e1b2138);
    Cube(149, 5, K256[34], 0x4d2c6dfc);
    Cube(151, 5, K256[35], 0x53380d13);
    Cube(157, 5, K256[36], 0x650a7354);
    Cube(163, 5, K256[37], 0x766a0abb);
    Cube(167, 5, K256[38], 0x81c2c92e);
    Cube(173, 5, K256[39], 0x92722c85);
  }

  lemma CubeRootsFrom40()
    ensures CubeRoot(179, 5, K256[40]) && CubeRoot(181, 5, K256[41]) && CubeRoot(191, 5, K256[42])
    ensures CubeRoot(193, 5, K256[43]) && CubeRoot(197, 5, K256[44]) && CubeRoot(199, 5, K256[45])
    ensures CubeRoot(211, 5, K256[46]) && CubeRoot(223, 6, K256[47])
  {
    hide CubeRoot;
    Cube(179, 5, K256[40], 0xa2bfe8a1);
    Cube(181, 5, K256[41], 0xa81a664b);
    Cube(191, 5, K256[42], 0xc24b8b70);
    Cube(193, 5, K256[43], 0xc76c51a3);
    Cube(197, 5, K256[44], 0xd192e819);
    Cube(199, 5, K256[45], 0xd6990624);
    Cube(211, 5, K256[46], 0xf40e3585);
    Cube(223, 6, K256[47], 0x106aa070);
  }

  lemma CubeRootsFrom48()
    ensures CubeRoot(227, 6, K256[48]) && CubeRoot(229, 6, K256[49]) && CubeRoot(233, 6, K256[50])
    ensures CubeRoot(239, 6, K256[51]) && CubeRoot(241, 6, K256[52]) && CubeRoot(251, 6, K256[53])
    ensures CubeRoot(257, 6, K256[54]) && CubeRoot(263, 6, K256[55])
  {
    hide CubeRoot;
    Cube(227, 6, K256[48], 0x19a4c116);
    Cube(229, 6, K256[49], 0x1e376c08);
    Cube(233, 6, K256[50], 0x2748774c);
    Cube(239, 6, K256[51], 0x34b0bcb5);
    Cube(241, 6, K256[52], 0x391c0cb3);
    Cube(251, 6, K256[53], 0x4ed8aa4a);
    Cube(257, 6, K256[54], 0x5b9cca4f);
    Cube(263, 6, K256[55], 0x682e6ff3);
  }

  lemma CubeRootsFrom56()
    ensures CubeRoot(269, 6, K256[56]) && CubeRoot(271, 6, K256[57]) && CubeRoot(277, 6, K256[58])
    ensures CubeRoot(281, 6, K256[59]) && CubeRoot(283, 6, K256[60]) && CubeRoot(293, 6, K256[61])
    ensures CubeRoot(307, 6, K256[62]) && CubeRoot(311, 6, K256[63])
  {
    hide CubeRoot;
    Cube(269, 6, K256[56], 0x748f82ee);
    Cube(271, 6, K256[57], 0x78a5636f);
    Cube(277, 6, K256[58], 0x84c87814);
    Cube(281, 6, K256[59], 0x8cc70208);
    Cube(283, 6, K256[60], 0x90befffa);
    Cube(293, 6, K256[61], 0xa4506ceb);
    Cube(307, 6, K256[62], 0xbef9a3f7);
    Cube(311, 6, K256[63], 0xc67178f2);
  }

  /** The initial values of SHA-256 belong to the first eight primes, those of SHA-1 count up and down in
      hexadecimal digits, and its round constants belong to 2, 3, 5 and 10. */
  lemma InitialRoots()
    ensures var h := Initial(Sha256);
            && SquareRoot(2, 1, h[0])
            && SquareRoot(3, 1, h[1])
            && SquareRoot(5, 2, h[2])
            && SquareRoot(7, 2, h[3])
            && SquareRoot(11, 3, h[4])
            && SquareRoot(13, 3, h[5])
            && SquareRoot(17, 4, h[6])
            && SquareRoot(19, 4, h[7])
  {
    hide SquareRoot;
    var h := Initial(Sha256);
    Square(2, 1, h[0], 0x6a09e667);
    Square(3, 1, h[1], 0xbb67ae85);
    Square(5, 2, h[2], 0x3c6ef372);
    Square(7, 2, h[3], 0xa54ff53a);
    Square(11, 3, h[4], 0x510e527f);
    Square(13, 3, h[5], 0x9b05688c);
    Square(17, 4, h[6], 0x1f83d9ab);
    Square(19, 4, h[7], 0x5be0cd19);
  }

  lemma InitialDigits()
    ensures Initial(Sha1) == [0x67452301, 0xefcdab89, 0x98badcfe, 0x10325476, 0xc3d2e1f0]
  {}

  lemma RoundConstants1(t: nat)
    requires t < 80
    ensures RootIn30(if t < 20 then 2 else if t < 40 then 3 else if t < 60 then 5 else 10, K1(t))
  {}

  // ---------- the rounds of the example ----------

  /** One round of each kind of SHA-1. */
  lemma KnownRound1At0()
    ensures Round1(Vars1(0x67452301, 0xefcdab89, 0x98badcfe, 0x10325476, 0xc3d2e1f0), 0, 0x61626380)
            == Vars1(0x0116fc33, 0x67452301, 0x7bf36ae2, 0x98badcfe, 0x10325476)
  {}

  lemma KnownRound1At20()
    ensures Round1(Vars1(0xfd9e1d7d, 0xdc64901d, 0x20aa99ca, 0xd3a49608, 0xc82f758b), 20, 0x00000000)
            == Vars1(0x1a37b0ca, 0xfd9e1d7d, 0x77192407, 0x20aa99ca, 0xd3a49608)
  {}

  lemma KnownRound1At40()
    ensures Round1(Vars1(0x32de1cba, 0x4c986405, 0xf718e5cf, 0x03d447f6, 0xf72eec32), 40, 0xd2e138c4)
            == Vars1(0xfc87dedf, 0x32de1cba, 0x53261901, 0xf718e5cf, 0x03d447f6)
  {}

  lemma KnownRound1At60()
    ensures Round1(Vars1(0x3f52de5a, 0x09d785fd, 0x3498bfd4, 0xf211824f, 0xd79915ab), 60, 0x7ba06619)
            == Vars1(0xd756c147, 0x3f52de5a, 0x4275e17f, 0x3498bfd4, 0xf211824f)
  {}

  /** The schedule word of round 79 comes from those of rounds 76, 71, 65 and 63. */
  lemma KnownWord1(block: seq<Byte>)
    requires |block| == 64 && Schedule1(block, 76) == 0xe6e60b69 && Schedule1(block, 71) == 0x458546f4
    requires Schedule1(block, 65) == 0x000f0000 && Schedule1(block, 63) == 0x627b49a1
    ensures Schedule1(block, 79) == 0x822e0879
  {}

  /** The last round, and the digest. */
  lemma KnownDigest1(block: seq<Byte>)
    requires |block| == 64 && Schedule1(block, 79) == 0x822e0879
    requires Rounds1(Vars1(0x67452301, 0xefcdab89, 0x98badcfe, 0x10325476, 0xc3d2e1f0), block, 79)
          == Vars1(0x5738d5e1, 0x860d21cc, 0x681e6df6, 0xd8fdf6ad, 0xd7b9da25)
    ensures Compress1(Initial(Sha1), block) == [0xa9993e36, 0x4706816a, 0xba3e2571, 0x7850c26c, 0x9cd0d89d]
  {
    assert Round1(Vars1(0x5738d5e1, 0x860d21cc, 0x681e6df6, 0xd8fdf6ad, 0xd7b9da25), 79, 0x822e0879)
        == Vars1(0x42541b35, 0x5738d5e1, 0x21834873, 0x681e6df6, 0xd8fdf6ad);
  }

  /** The first and the last round of SHA-256. */
  lemma KnownRound256At0()
    ensures Round256(
              Vars256(0x6a09e667, 0xbb67ae85, 0x3c6ef372, 0xa54ff53a, 0x510e527f, 0x9b05688c, 0x1f83d9ab, 0x5be0cd19),
              0, 0x61626380)
            == Vars256(0x5d6aebcd, 0x6a09e667, 0xbb67ae85, 0x3c6ef372, 0xfa2a4622, 0x510e527f, 0x9b05688c, 0x1f83d9ab)
  {}

  lemma KnownRound256At63()
    ensures Round256(
              Vars256(0xd39a2165, 0x04d24d6c, 0xb85e2ce9, 0xb6ae8fff, 0xfb121210, 0x948d25b6, 0x961f4894, 0xb21bad3d),
              63, 0x12b1edeb)
            == Vars256(0x506e3058, 0xd39a2165, 0x04d24d6c, 0xb85e2ce9, 0x5ef50f24, 0xfb121210, 0x948d25b6, 0x961f4894)
  {}

  lemma KnownWord256(block: seq<Byte>)
    requires |block| == 64 && Schedule256(block, 61) == 0x668b2ff8 && Schedule256(block, 56) == 0xef57b9cd
    requires Schedule256(block, 48) == 0xfb3e89cb && Schedule256(block, 47) == 0x065c43da
    ensures Schedule256(block, 63) == 0x12b1edeb
  {}

  lemma KnownDigest256(block: seq<Byte>)
    requires |block| == 64 && Schedule256(block, 63) == 0x12b1edeb
    requires Rounds256(
               Vars256(0x6a09e667, 0xbb67ae85, 0x3c6ef372, 0xa54ff53a, 0x510e527f, 0x9b05688c, 0x1f83d9ab, 0x5be0cd19),
               block, 63)
          == Vars256(0xd39a2165, 0x04d24d6c, 0xb85e2ce9, 0xb6ae8fff, 0xfb121210, 0x948d25b6, 0x961f4894, 0xb21bad3d)
    ensures Compress256(Initial(Sha256), block)
            == [0xba7816bf, 0x8f01cfea, 0x414140de, 0x5dae2223, 0xb00361a3, 0x96177a9c, 0xb410ff61, 0xf20015ad]
  {
    KnownRound256At63();
  }
}
