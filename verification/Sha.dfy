/** Model of update and digest of src/brickred/codec/sha1.cc and sha256.cc, which share their text; the algorithm
    is a parameter here. Streaming in any pieces equals hashing the padded whole message. */
module Sha {
  import opened Bytes
  import opened ShaSpec
  import ShaBlocks

  /** The bytes behind the last full block. */
  function Tail(m: seq<Byte>): (s: seq<Byte>)
    ensures |s| == |m| % 64
  {
    m[|m| / 64 * 64..]
  }

  /** Hash values after the full blocks of a message. */
  function Blocks(alg: Algorithm, m: seq<Byte>): (h: seq<Word>)
    ensures |h| == HashWords(alg)
  {
    Absorb(alg, Initial(alg), m[..|m| / 64 * 64])
  }

  /** One more block. */
  lemma BlocksStep(alg: Algorithm, m: seq<Byte>, block: seq<Byte>)
    requires |m| % 64 == 0 && |block| == 64
    ensures Blocks(alg, m + block) == Compress(alg, Blocks(alg, m), block)
    ensures Tail(m + block) == []
  {
    hide Compress;
    assert (m + block)[..|m + block| / 64 * 64] == m + block;
    assert m[..|m| / 64 * 64] == m;
    AbsorbAppend(alg, Initial(alg), m, block);
    assert block[..64] == block && |block[64..]| == 0;
    assert Absorb(alg, Blocks(alg, m), block) == Compress(alg, Blocks(alg, m), block);
  }

  /** Bytes that do not complete a block. */
  lemma BlocksPartial(alg: Algorithm, m: seq<Byte>, s: seq<Byte>)
    requires |m| % 64 + |s| < 64
    ensures Blocks(alg, m + s) == Blocks(alg, m) && Tail(m + s) == Tail(m) + s
  {
    hide Absorb;
    assert |m + s| / 64 == |m| / 64;
    assert (m + s)[..|m + s| / 64 * 64] == m[..|m| / 64 * 64];
  }

  /** On whole blocks the streaming state is the specification's hash. */
  lemma BlocksOfPadded(alg: Algorithm, m: seq<Byte>)
    ensures HashBytes(Blocks(alg, Pad(m))) == Hash(alg, m)
  {
    PadIsBlocks(m);
    assert Pad(m)[..|Pad(m)| / 64 * 64] == Pad(m);
  }

  /** The two words of the length in bits, as the code computes them. */
  function LengthField(size: nat): (r: seq<Byte>) {
    ToBigEndian(size / 0x2000_0000 % 0x1_0000_0000, 4) + ToBigEndian(size * 8 % 0x1_0000_0000, 4)
  }

  /** They are the 64-bit bit count. */
  lemma LengthWords(size: nat)
    requires size < 0x2000_0000_0000_0000
    ensures LengthField(size) == ToBigEndian(8 * size, 8)
  {
    hide ToBigEndian;
    var hi, lo := size / 0x2000_0000, size * 8 % 0x1_0000_0000;
    assert 8 * size == hi * 0x1_0000_0000 + lo;
    ToBigEndianSplit(hi, lo, 4);
    assert Pow256(4) == 0x1_0000_0000;
  }

  lemma {:induction false} ToBigEndianSplit(hi: nat, lo: nat, n: nat)
    requires lo < Pow256(n)
    ensures ToBigEndian(hi * Pow256(n) + lo, 4 + n) == ToBigEndian(hi, 4) + ToBigEndian(lo, n)
  {
    if n > 0 {
      var v, p := hi * Pow256(n) + lo, Pow256(n - 1);
      DivideByByte(hi, lo, p);
      ToBigEndianSplit(hi, lo / 256, n - 1);
      hide Pow256;
      assert ToBigEndian(v, 4 + n) == ToBigEndian(v / 256, 4 + (n - 1)) + [v % 256];
      assert ToBigEndian(lo, n) == ToBigEndian(lo / 256, n - 1) + [lo % 256];
    }
  }

  lemma DivideByByte(hi: nat, lo: nat, p: nat)
    ensures (hi * (256 * p) + lo) / 256 == hi * p + lo / 256 && (hi * (256 * p) + lo) % 256 == lo % 256
  {
    var q := hi * p;
    assert hi * (256 * p) == 256 * q;
  }

  /** Arithmetic of the 64-bit message_size_. */
  function Wrap(n: nat): (r: nat) { n % SIZE_LIMIT }

  class Context {
    const alg: Algorithm
    const hash: array<Word>
    const workBlock: array<Byte>
    var messageSize: nat
    // Everything absorbed since construction or reset.
    ghost var message: seq<Byte>

    /** The hash values and the work block belong to the message. */
    ghost predicate Absorbed()
      reads this, hash, workBlock
    {
      && hash.Length == HashWords(alg) && workBlock.Length == 64
      && hash[..] == Blocks(alg, message)
      && workBlock[..|message| % 64] == Tail(message)
    }

    ghost predicate Valid()
      reads this, hash, workBlock
    {
      Absorbed() && messageSize == Wrap(|message|)
    }

    constructor (alg: Algorithm)
      ensures Valid() && message == [] && this.alg == alg && fresh(hash) && fresh(workBlock)
    {
      this.alg := alg;
      hash := new Word[HashWords(alg)];
      workBlock := new Byte[64];
      messageSize, message := 0, [];
      new;
      Reset();
    }

    method Reset()
      requires hash.Length == HashWords(alg) && workBlock.Length == 64
      modifies this, hash
      ensures Valid() && message == []
    {
      var init := Initial(alg);
      forall i | 0 <= i < hash.Length {
        hash[i] := init[i];
      }
      messageSize, message := 0, [];
      assert hash[..] == init;
    }

    method ProcessBlock(block: seq<Byte>)
      requires hash.Length == HashWords(alg) && |block| == 64
      modifies hash
      ensures hash[..] == Compress(alg, old(hash[..]), block)
    {
      match alg {
        case Sha1 => ShaBlocks.Sha1ProcessBlock(hash, block);
        case Sha256 => ShaBlocks.Sha256ProcessBlock(hash, block);
      }
    }

    method Update(buffer: seq<Byte>)
      requires Valid()
      modifies this, hash, workBlock
      ensures Valid() && message == old(message) + buffer
    {
      hide Blocks, Tail, Wrap;
      var wbSize := messageSize % 64;
      SizeModulo(|message|);
      SizeSum(|message|, |buffer|);
      messageSize := Wrap(messageSize + |buffer|);
      if wbSize > 0 {
        var left := 64 - wbSize;
        if |buffer| < left {
          FillWorkBlock(wbSize, buffer);
          return;
        }
        FillWorkBlock(wbSize, buffer[..left]);
        Rejoin(old(message), buffer, left);
        UpdateAligned(buffer[left..]);
      } else {
        UpdateAligned(buffer);
      }
    }

    /** Adds bytes to the partial work block and processes it when they complete it. */
    method FillWorkBlock(n: nat, s: seq<Byte>)
      requires Absorbed() && 0 < n == |message| % 64 && n + |s| <= 64
      modifies hash, workBlock, this`message
      ensures Absorbed() && message == old(message) + s
    {
      hide Blocks, Tail;
      forall i | 0 <= i < |s| {
        workBlock[n + i] := s[i];
      }
      assert workBlock[..n + |s|] == Tail(message) + s;
      if n + |s| < 64 {
        BlocksPartial(alg, message, s);
      } else {
        CompleteBlock(alg, message, s);
        assert workBlock[..] == workBlock[..64];
        ProcessBlock(workBlock[..]);
      }
      message := message + s;
    }

    /** Whole blocks straight from the input, then the leftover into the work block. */
    method UpdateAligned(buffer: seq<Byte>)
      requires Absorbed() && |message| % 64 == 0
      modifies hash, workBlock, this`message
      ensures Absorbed() && message == old(message) + buffer
    {
      hide Blocks, Tail;
      var rest := buffer;
      while |rest| >= 64
        invariant Absorbed() && |message| % 64 == 0
        invariant message + rest == old(message) + buffer
      {
        BlocksStep(alg, message, rest[..64]);
        ProcessBlock(rest[..64]);
        assert rest == rest[..64] + rest[64..];
        message, rest := message + rest[..64], rest[64..];
      }
      forall i | 0 <= i < |rest| {
        workBlock[i] := rest[i];
      }
      BlocksPartial(alg, message, rest);
      assert workBlock[..|rest|] == rest == Tail(message) + rest;
      message := message + rest;
    }

    /** digest: pads with at most one 64-byte pad, then the length. */
    method Digest() returns (digest: seq<Byte>)
      requires Valid() && |message| < 0x2000_0000_0000_0000
      modifies this, hash, workBlock
      ensures digest == Hash(alg, old(message))
      ensures Valid() && message == Pad(old(message))
    {
      hide Blocks, Tail, Absorb, Zeros, Pad, ToBigEndian, LengthField, PadBytes;
      var pad := [0x80] + Zeros(63);
      ghost var m := message;
      LengthWords(|m|);
      PadPieces(m, pad);
      assert messageSize == Wrap(|m|) == |m|;
      var padLength := LengthField(messageSize);
      var n := PadBytes(messageSize % 64);
      Update(pad[..n]);
      Update(padLength);
      BlocksOfPadded(alg, m);
      digest := HashBytes(hash[..]);
    }
  }

  lemma SizeModulo(n: nat)
    ensures Wrap(n) % 64 == n % 64
  {}

  lemma SizeSum(a: nat, b: nat)
    ensures Wrap(Wrap(a) + b) == Wrap(a + b)
  {}

  /** The pad bytes taken in either branch are 0x80 and the least number of zeros. */
  lemma PadPieces(m: seq<Byte>, pad: seq<Byte>)
    requires pad == [0x80] + Zeros(63)
    ensures var n := PadBytes(|m| % 64);
            m + pad[..n] + ToBigEndian(8 * |m|, 8) == Pad(m)
  {
    hide ToBigEndian, PadBytes, PadZeros, Zeros;
    var z := PadZeros(|m|);
    PadBytesAgree(|m|);
    ZerosTake(63, z);
    TakeBehind(0x80, Zeros(63), z);
    assert m + ([0x80] + Zeros(z)) == m + [0x80] + Zeros(z);
  }

  lemma ZerosTake(n: nat, k: nat)
    requires k <= n
    ensures Zeros(n)[..k] == Zeros(k)
  {}

  lemma TakeBehind(b: Byte, s: seq<Byte>, k: nat)
    requires k <= |s|
    ensures ([b] + s)[..1 + k] == [b] + s[..k]
  {}

  lemma Rejoin(m: seq<Byte>, s: seq<Byte>, k: nat)
    requires k <= |s|
    ensures m + s[..k] + s[k..] == m + s
  {
    assert s == s[..k] + s[k..];
  }

  /** How many pad bytes digest takes. */
  function PadBytes(wbSize: nat): (n: nat)
    requires wbSize < 64
    ensures n <= 64
  {
    if wbSize > 55 then 64 - wbSize + 56 else 56 - wbSize
  }

  lemma PadBytesAgree(size: nat)
    ensures PadBytes(size % 64) == 1 + PadZeros(size)
  {}

  /** Filling up the work block completes one block of the message. */
  lemma CompleteBlock(alg: Algorithm, m: seq<Byte>, s: seq<Byte>)
    requires |m| % 64 + |s| == 64
    ensures Blocks(alg, m + s) == Compress(alg, Blocks(alg, m), Tail(m) + s)
    ensures |m + s| % 64 == 0
  {
    hide Compress, Absorb;
    var k := |m| / 64 * 64;
    assert m == m[..k] + Tail(m);
    BlocksStep(alg, m[..k], Tail(m) + s);
    assert m[..k] + (Tail(m) + s) == m + s;
    assert m[..k][..|m[..k]| / 64 * 64] == m[..k];
  }

  /** sha1Binary and sha256Binary. */
  method HashBinary(alg: Algorithm, s: seq<Byte>) returns (digest: seq<Byte>)
    requires |s| < 0x2000_0000_0000_0000
    ensures digest == Hash(alg, s)
  {
    var ctx := new Context(alg);
    ctx.Update(s);
    assert [] + s == s;
    digest := ctx.Digest();
  }

  function Concat(pieces: seq<seq<Byte>>): (s: seq<Byte>) {
    if pieces == [] then [] else Concat(pieces[..|pieces| - 1]) + pieces[|pieces| - 1]
  }

  /** Any sequence of updates hashes the concatenation of the pieces. */
  method HashPieces(alg: Algorithm, pieces: seq<seq<Byte>>) returns (digest: seq<Byte>)
    requires |Concat(pieces)| < 0x2000_0000_0000_0000
    ensures digest == Hash(alg, Concat(pieces))
  {
    var ctx := new Context(alg);
    for i := 0 to |pieces|
      invariant ctx.Valid() && ctx.message == Concat(pieces[..i])
      invariant fresh(ctx) && fresh(ctx.hash) && fresh(ctx.workBlock)
    {
      ctx.Update(pieces[i]);
      assert pieces[..i + 1][..i] == pieces[..i];
    }
    assert pieces[..|pieces|] == pieces;
    digest := ctx.Digest();
  }
}
