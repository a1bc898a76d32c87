/** Bytes, byte strings and the few byte-level operations shared by the protocol models. */
module Bytes {

  type Byte = x: int | 0 <= x < 256

  // One past the largest value of a 64-bit size_t.
  const SIZE_LIMIT: int := 0x1_0000_0000_0000_0000

  /** Conversion to a 32-bit int. */
  function Int32(x: int): (r: int)
    ensures -0x8000_0000 <= r < 0x8000_0000
    ensures -0x8000_0000 <= x < 0x8000_0000 ==> r == x
  {
    (x + 0x8000_0000) % 0x1_0000_0000 - 0x8000_0000
  }

  /** Bitwise exclusive or of the low `width` bits. */
  function XorBits(a: nat, b: nat, width: nat): (r: nat)
    ensures r < Pow2(width)
  {
    if width == 0 then 0 else 2 * XorBits(a / 2, b / 2, width - 1) + (a + b) % 2
  }

  function Pow2(n: nat): (p: nat) {
    if n == 0 then 1 else 2 * Pow2(n - 1)
  }

  lemma {:induction false} XorBitsTwice(a: nat, b: nat, width: nat)
    requires a < Pow2(width)
    ensures XorBits(XorBits(a, b, width), b, width) == a
  {
    if width > 0 {
      var h := XorBits(a / 2, b / 2, width - 1);
      XorBitsTwice(a / 2, b / 2, width - 1);
      LastBit(h, a, b);
    }
  }

  lemma LastBit(h: nat, a: nat, b: nat)
    ensures (2 * h + (a + b) % 2) / 2 == h
    ensures (2 * h + (a + b) % 2 + b) % 2 == a % 2
  {
    assert (2 * h + (a + b) % 2 + b) % 2 == ((a + b) % 2 + b) % 2;
  }

  /** Bitwise exclusive or of two bytes. */
  function Xor(a: Byte, b: Byte): (r: Byte) {
    assert Pow2(8) == 256;
    XorBits(a, b, 8)
  }

  lemma XorTwice(a: Byte, b: Byte)
    ensures Xor(Xor(a, b), b) == a
  {
    assert Pow2(8) == 256;
    XorBitsTwice(a, b, 8);
  }

  /** XOR with a four-byte key, cycled: the masking of section 5.3 of RFC 6455. */
  function Mask(key: seq<Byte>, s: seq<Byte>): (r: seq<Byte>)
    requires |key| == 4
    ensures |r| == |s|
  {
    seq(|s|, i requires 0 <= i < |s| => Xor(s[i], key[i % 4]))
  }

  lemma MaskTwice(key: seq<Byte>, s: seq<Byte>)
    requires |key| == 4
    ensures Mask(key, Mask(key, s)) == s
  {
    forall i | 0 <= i < |s| ensures Mask(key, Mask(key, s))[i] == s[i] {
      XorTwice(s[i], key[i % 4]);
    }
  }

  /** Value of a big-endian byte string. */
  function BigEndian(s: seq<Byte>): (v: nat) {
    if s == [] then 0 else BigEndian(s[..|s| - 1]) * 256 + s[|s| - 1]
  }

  /** The low n bytes of v, most significant first. */
  function ToBigEndian(v: nat, n: nat): (s: seq<Byte>)
    ensures |s| == n
  {
    if n == 0 then [] else ToBigEndian(v / 256, n - 1) + [v % 256]
  }

  function Pow256(n: nat): (p: nat)
    ensures p > 0
  {
    if n == 0 then 1 else 256 * Pow256(n - 1)
  }

  lemma {:induction false} BigEndianRoundTrip(v: nat, n: nat)
    requires v < Pow256(n)
    ensures BigEndian(ToBigEndian(v, n)) == v
  {
    if n > 0 {
      var s, front := ToBigEndian(v, n), ToBigEndian(v / 256, n - 1);
      hide ToBigEndian;
      assert s[..n - 1] == front && s[n - 1] == v % 256;
      BigEndianRoundTrip(v / 256, n - 1);
    }
  }

  /** The first byte is the most significant. */
  lemma {:induction false} MostSignificantFirst(s: seq<Byte>)
    requires s != []
    ensures BigEndian(s) == s[0] * Pow256(|s| - 1) + BigEndian(s[1..])
    decreases |s|
  {
    var n := |s| - 1;
    if n > 0 {
      var front := s[..n];
      MostSignificantFirst(front);
      assert s[1..][..n - 1] == front[1..] && s[1..][n - 1] == s[n];
      TimesPow(s[0], n);
    }
  }

  lemma TimesPow(a: int, n: nat)
    requires n > 0
    ensures a * Pow256(n - 1) * 256 == a * Pow256(n)
  {
    var p := Pow256(n - 1);
    assert Pow256(n) == 256 * p;
    assert a * (256 * p) == a * p * 256;
  }

  lemma {:induction false} ToBigEndianRoundTrip(s: seq<Byte>)
    ensures BigEndian(s) < Pow256(|s|)
    ensures ToBigEndian(BigEndian(s), |s|) == s
  {
    if s != [] {
      ToBigEndianRoundTrip(s[..|s| - 1]);
      assert s == s[..|s| - 1] + [s[|s| - 1]];
    }
  }

  /** One round of a copying loop: the front of what is left joins what is done. */
  lemma MoveFront(done: seq<Byte>, left: seq<Byte>, front: seq<Byte>, rest: seq<Byte>, whole: seq<Byte>)
    requires done + left == whole && left == front + rest
    ensures done + front + rest == whole && |done| + |front| <= |whole|
  {}

  lemma SliceAt(pre: seq<Byte>, mid: seq<Byte>, post: seq<Byte>)
    ensures (pre + mid + post)[|pre|..|pre| + |mid|] == mid
  {}
}
