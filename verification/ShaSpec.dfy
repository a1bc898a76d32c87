/** The hash functions of FIPS 180-4: SHA-1 (section 6.1) and SHA-256 (section 6.2), as the standard defines
    them, for messages whose length is a whole number of bytes. */
module ShaSpec {
  import opened Bytes

  type Word = bv32

  datatype Algorithm = Sha1 | Sha256

  // ---------- words and bytes ----------

  lemma BigEndianFour(s: seq<Byte>)
    requires |s| == 4
    ensures BigEndian(s) < 0x1_0000_0000
  {
    ToBigEndianRoundTrip(s);
    assert Pow256(4) == 0x1_0000_0000;
  }

  /** ntohl of four bytes in memory. */
  function ToWord(s: seq<Byte>): (w: Word)
    requires |s| == 4
  {
    BigEndianFour(s);
    BigEndian(s) as bv32
  }

  /** htonl of a word, as bytes in memory. */
  function WordBytes(w: Word): (s: seq<Byte>)
    ensures |s| == 4
  {
    ToBigEndian(w as int, 4)
  }

  function HashBytes(h: seq<Word>): (s: seq<Byte>)
    ensures |s| == 4 * |h|
  {
    if h == [] then [] else WordBytes(h[0]) + HashBytes(h[1..])
  }

  // ---------- section 4: functions and constants ----------

  /** Addition modulo 2^32. */
  function Plus(x: Word, y: Word): (r: Word) { x + y }
  function Plus5(x: Word, y: Word, z: Word, u: Word, v: Word): (r: Word) { x + y + z + u + v }

  function Rotl(x: Word, n: nat): (r: Word)
    requires n <= 32
  {
    x.RotateLeft(n)
  }

  function Ch(x: Word, y: Word, z: Word): (r: Word) { (x & y) ^ (!x & z) }
  function Xor4(x: Word, y: Word, z: Word, u: Word): (r: Word) { x ^ y ^ z ^ u }
  function Parity(x: Word, y: Word, z: Word): (r: Word) { x ^ y ^ z }
  function Maj(x: Word, y: Word, z: Word): (r: Word) { (x & y) ^ (x & z) ^ (y & z) }

  function F1(t: nat, x: Word, y: Word, z: Word): (r: Word) {
    if t < 20 then Ch(x, y, z) else if t < 40 then Parity(x, y, z) else if t < 60 then Maj(x, y, z) else Parity(x, y, z)
  }

  function K1(t: nat): (r: Word) {
    if t < 20 then 0x5a827999 else if t < 40 then 0x6ed9eba1 else if t < 60 then 0x8f1bbcdc else 0xca62c1d6
  }

  function BigSigma0(x: Word): (r: Word) { x.RotateRight(2) ^ x.RotateRight(13) ^ x.RotateRight(22) }
  function BigSigma1(x: Word): (r: Word) { x.RotateRight(6) ^ x.RotateRight(11) ^ x.RotateRight(25) }
  function SmallSigma0(x: Word): (r: Word) { x.RotateRight(7) ^ x.RotateRight(18) ^ (x >> 3) }
  function SmallSigma1(x: Word): (r: Word) { x.RotateRight(17) ^ x.RotateRight(19) ^ (x >> 10) }

  /** The constants of SHA-256, in four parts. */
  const K256: seq<Word> := K256_0 + K256_16 + K256_32 + K256_48
  const K256_0: seq<Word> := [
    0x428a2f98, 0x71374491, 0xb5c0fbcf, 0xe9b5dba5, 0x3956c25b, 0x59f111f1, 0x923f82a4, 0xab1c5ed5,
    0xd807aa98, 0x12835b01, 0x243185be, 0x550c7dc3, 0x72be5d74, 0x80deb1fe, 0x9bdc06a7, 0xc19bf174]
  const K256_16: seq<Word> := [
    0xe49b69c1, 0xefbe4786, 0x0fc19dc6, 0x240ca1cc, 0x2de92c6f, 0x4a7484aa, 0x5cb0a9dc, 0x76f988da,
    0x983e5152, 0xa831c66d, 0xb00327c8, 0xbf597fc7, 0xc6e00bf3, 0xd5a79147, 0x06ca6351, 0x14292967]
  const K256_32: seq<Word> := [
    0x27b70a85, 0x2e1b2138, 0x4d2c6dfc, 0x53380d13, 0x650a7354, 0x766a0abb, 0x81c2c92e, 0x92722c85,
    0xa2bfe8a1, 0xa81a664b, 0xc24b8b70, 0xc76c51a3, 0xd192e819, 0xd6990624, 0xf40e3585, 0x106aa070]
  const K256_48: seq<Word> := [
    0x19a4c116, 0x1e376c08, 0x2748774c, 0x34b0bcb5, 0x391c0cb3, 0x4ed8aa4a, 0x5b9cca4f, 0x682e6ff3,
    0x748f82ee, 0x78a5636f, 0x84c87814, 0x8cc70208, 0x90befffa, 0xa4506ceb, 0xbef9a3f7, 0xc67178f2]

  // ---------- section 5: padding and initial values ----------

  function Zeros(n: nat): (s: seq<Byte>)
    ensures |s| == n
  {
    seq(n, i => 0)
  }

  /** Number of zero bytes between the 0x80 and the length. */
  function PadZeros(size: nat): (z: nat)
    ensures z < 64
  {
    (55 - size) % 64
  }

  /** It is the least number that brings the length to 448 modulo 512 bits. */
  lemma PadZerosIsLeast(size: nat, z: nat)
    ensures (8 * (size + 1 + PadZeros(size))) % 512 == 448
    ensures (8 * (size + 1 + z)) % 512 == 448 ==> PadZeros(size) <= z
  {}

  function Pad(m: seq<Byte>): (s: seq<Byte>) {
    m + [0x80] + Zeros(PadZeros(|m|)) + ToBigEndian(8 * |m|, 8)
  }

  function Initial(alg: Algorithm): (h: seq<Word>)
    ensures |h| == HashWords(alg)
  {
    match alg
    case Sha1 => [0x67452301, 0xefcdab89, 0x98badcfe, 0x10325476, 0xc3d2e1f0]
    case Sha256 => [0x6a09e667, 0xbb67ae85, 0x3c6ef372, 0xa54ff53a, 0x510e527f, 0x9b05688c, 0x1f83d9ab, 0x5be0cd19]
  }

  function HashWords(alg: Algorithm): (n: nat) { if alg.Sha1? then 5 else 8 }

  // ---------- section 6: hash computation ----------

  function Schedule1(block: seq<Byte>, t: nat): (w: Word)
    requires |block| == 64
  {
    if t < 16 then ToWord(block[4 * t..4 * t + 4])
    else Rotl(Xor4(Schedule1(block, t - 3), Schedule1(block, t - 8), Schedule1(block, t - 14),
                   Schedule1(block, t - 16)), 1)
  }

  datatype Vars1 = Vars1(a: Word, b: Word, c: Word, d: Word, e: Word)

  function Round1(v: Vars1, t: nat, w: Word): (r: Vars1) {
    Vars1(Plus5(Rotl(v.a, 5), F1(t, v.b, v.c, v.d), v.e, K1(t), w), v.a, Rotl(v.b, 30), v.c, v.d)
  }

  /** The working variables before round t. */
  function Rounds1(v: Vars1, block: seq<Byte>, t: nat): (r: Vars1)
    requires |block| == 64
  {
    if t == 0 then v else Round1(Rounds1(v, block, t - 1), t - 1, Schedule1(block, t - 1))
  }

  function Compress1(h: seq<Word>, block: seq<Byte>): (r: seq<Word>)
    requires |h| == 5 && |block| == 64
  {
    var v := Rounds1(Vars1(h[0], h[1], h[2], h[3], h[4]), block, 80);
    [Plus(h[0], v.a), Plus(h[1], v.b), Plus(h[2], v.c), Plus(h[3], v.d), Plus(h[4], v.e)]
  }

  function Schedule256(block: seq<Byte>, t: nat): (w: Word)
    requires |block| == 64
  {
    if t < 16 then ToWord(block[4 * t..4 * t + 4])
    else Plus(Plus(Plus(SmallSigma1(Schedule256(block, t - 2)), Schedule256(block, t - 7)),
                   SmallSigma0(Schedule256(block, t - 15))), Schedule256(block, t - 16))
  }

  datatype Vars256 = Vars256(a: Word, b: Word, c: Word, d: Word, e: Word, f: Word, g: Word, h: Word)

  function Round256(v: Vars256, t: nat, w: Word): (r: Vars256)
    requires t < 64
  {
    var t1 := Plus5(v.h, BigSigma1(v.e), Ch(v.e, v.f, v.g), K256[t], w);
    var t2 := Plus(BigSigma0(v.a), Maj(v.a, v.b, v.c));
    Vars256(Plus(t1, t2), v.a, v.b, v.c, Plus(v.d, t1), v.e, v.f, v.g)
  }

  function Rounds256(v: Vars256, block: seq<Byte>, t: nat): (r: Vars256)
    requires |block| == 64 && t <= 64
  {
    if t == 0 then v else Round256(Rounds256(v, block, t - 1), t - 1, Schedule256(block, t - 1))
  }

  function Compress256(h: seq<Word>, block: seq<Byte>): (r: seq<Word>)
    requires |h| == 8 && |block| == 64
  {
    var v := Rounds256(Vars256(h[0], h[1], h[2], h[3], h[4], h[5], h[6], h[7]), block, 64);
    [Plus(h[0], v.a), Plus(h[1], v.b), Plus(h[2], v.c), Plus(h[3], v.d),
     Plus(h[4], v.e), Plus(h[5], v.f), Plus(h[6], v.g), Plus(h[7], v.h)]
  }

  function Compress(alg: Algorithm, h: seq<Word>, block: seq<Byte>): (r: seq<Word>)
    requires |h| == HashWords(alg) && |block| == 64
    ensures |r| == |h|
  {
    match alg
    case Sha1 => Compress1(h, block)
    case Sha256 => Compress256(h, block)
  }

  /** Hash values after all full blocks of s. */
  function Absorb(alg: Algorithm, h: seq<Word>, s: seq<Byte>): (r: seq<Word>)
    requires |h| == HashWords(alg)
    ensures |r| == |h|
    decreases |s|
  {
    if |s| < 64 then h else Absorb(alg, Compress(alg, h, s[..64]), s[64..])
  }

  function Hash(alg: Algorithm, m: seq<Byte>): (digest: seq<Byte>)
    ensures |digest| == 4 * HashWords(alg)
  {
    HashBytes(Absorb(alg, Initial(alg), Pad(m)))
  }

  /** The padded message is a whole number of blocks. */
  lemma PadIsBlocks(m: seq<Byte>)
    ensures |Pad(m)| % 64 == 0
  {
    PadSum(|m|);
    hide PadZeros, Zeros, ToBigEndian;
    assert |Pad(m)| == |m| + 1 + PadZeros(|m|) + 8;
  }

  lemma PadSum(size: nat)
    ensures (size + 1 + PadZeros(size) + 8) % 64 == 0
  {
    assert (size + (55 - size) % 64) % 64 == (size + (55 - size)) % 64;
  }

  /** Blocks can be absorbed in two goes. */
  lemma {:induction false} AbsorbAppend(alg: Algorithm, h: seq<Word>, a: seq<Byte>, b: seq<Byte>)
    requires |h| == HashWords(alg) && |a| % 64 == 0
    ensures Absorb(alg, h, a + b) == Absorb(alg, Absorb(alg, h, a), b)
    decreases |a|
  {
    hide Compress;
    if |a| >= 64 {
      assert (a + b)[..64] == a[..64] && (a + b)[64..] == a[64..] + b;
      AbsorbAppend(alg, Compress(alg, h, a[..64]), a[64..], b);
    } else {
      assert a + b == b;
    }
  }
}
