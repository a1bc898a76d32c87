/** Model of the block functions of src/brickred/codec/sha1.cc and sha256.cc, proved equal to FIPS 180-4. */
module ShaBlocks {
  import opened Bytes
  import opened ShaSpec

  // ---------- the macros and expressions of the code ----------

  function CodeRotl(x: Word, n: nat): (r: Word)
    requires 0 < n < 32
  {
    (x << n) ^ (x >> (32 - n))
  }

  function CodeChoose(b: Word, c: Word, d: Word): (r: Word) { (b & c) | (!b & d) }
  function CodeMajority(b: Word, c: Word, d: Word): (r: Word) { (b & c) | (b & d) | (c & d) }
  function CodeEp0(x: Word): (r: Word) { ((x >> 2) | (x << 30)) ^ ((x >> 13) | (x << 19)) ^ ((x >> 22) | (x << 10)) }
  function CodeEp1(x: Word): (r: Word) { ((x >> 6) | (x << 26)) ^ ((x >> 11) | (x << 21)) ^ ((x >> 25) | (x << 7)) }
  function CodeSig0(x: Word): (r: Word) { ((x >> 7) | (x << 25)) ^ ((x >> 18) | (x << 14)) ^ (x >> 3) }
  function CodeSig1(x: Word): (r: Word) { ((x >> 17) | (x << 15)) ^ ((x >> 19) | (x << 13)) ^ (x >> 10) }

  lemma RotlAgrees(x: Word)
    ensures CodeRotl(x, 1) == Rotl(x, 1) && CodeRotl(x, 5) == Rotl(x, 5) && CodeRotl(x, 30) == Rotl(x, 30)
  {}

  lemma RotrBits(x: Word)
    ensures (x >> 2) | (x << 30) == x.RotateRight(2)
    ensures (x >> 6) | (x << 26) == x.RotateRight(6)
    ensures (x >> 7) | (x << 25) == x.RotateRight(7)
    ensures (x >> 11) | (x << 21) == x.RotateRight(11)
    ensures (x >> 13) | (x << 19) == x.RotateRight(13)
    ensures (x >> 17) | (x << 15) == x.RotateRight(17)
    ensures (x >> 18) | (x << 14) == x.RotateRight(18)
    ensures (x >> 19) | (x << 13) == x.RotateRight(19)
    ensures (x >> 22) | (x << 10) == x.RotateRight(22)
    ensures (x >> 25) | (x << 7) == x.RotateRight(25)
  {}

  lemma ChooseBits(b: Word, c: Word, d: Word)
    ensures (b & c) | (!b & d) == (b & c) ^ (!b & d)
  {}

  lemma ChooseAgrees(b: Word, c: Word, d: Word)
    ensures CodeChoose(b, c, d) == Ch(b, c, d)
  {
    ChooseBits(b, c, d);
  }

  lemma MajorityBits(b: Word, c: Word, d: Word)
    ensures (b & c) | (b & d) | (c & d) == (b & c) ^ (b & d) ^ (c & d)
  {}

  lemma MajorityAgrees(b: Word, c: Word, d: Word)
    ensures CodeMajority(b, c, d) == Maj(b, c, d)
  {
    MajorityBits(b, c, d);
  }

  lemma Ep0Agrees(x: Word)
    ensures CodeEp0(x) == BigSigma0(x)
  {
    RotrBits(x);
  }

  lemma Ep1Agrees(x: Word)
    ensures CodeEp1(x) == BigSigma1(x)
  {
    RotrBits(x);
  }

  lemma Sig0Agrees(x: Word)
    ensures CodeSig0(x) == SmallSigma0(x)
  {
    RotrBits(x);
  }

  lemma Sig1Agrees(x: Word)
    ensures CodeSig1(x) == SmallSigma1(x)
  {
    RotrBits(x);
  }

  lemma SwapBits(x: Word, y: Word, z: Word, u: Word, v: Word)
    ensures x + y + z + u + v == x + y + z + v + u
  {}

  /** The code adds the schedule word before the round constant. */
  lemma SwapLast(x: Word, y: Word, z: Word, u: Word, v: Word)
    ensures Plus5(x, y, z, u, v) == Plus5(x, y, z, v, u)
  {
    SwapBits(x, y, z, u, v);
  }

  // ---------- SHA-1 ----------

  lemma RoundsStart1(v: Vars1, block: seq<Byte>)
    requires |block| == 64
    ensures Rounds1(v, block, 0) == v
  {}

  /** One round as the code computes it, with its own choice function f. */
  lemma RoundStep1(v: Vars1, block: seq<Byte>, t: nat, f: Word, w: Word)
    requires |block| == 64 && w == Schedule1(block, t)
    requires var r := Rounds1(v, block, t); f == F1(t, r.b, r.c, r.d)
    ensures var r := Rounds1(v, block, t);
            Rounds1(v, block, t + 1)
            == Vars1(Plus5(CodeRotl(r.a, 5), f, r.e, w, K1(t)), r.a, CodeRotl(r.b, 30), r.c, r.d)
  {
    hide Schedule1, Rotl, CodeRotl, F1, K1, Plus5;
    var r := Rounds1(v, block, t);
    RotlAgrees(r.a); RotlAgrees(r.b);
    SwapLast(Rotl(r.a, 5), f, r.e, K1(t), w);
    assert Rounds1(v, block, t + 1) == Round1(r, t, w);
  }

  method Schedule(block: seq<Byte>) returns (w: array<Word>)
    requires |block| == 64
    ensures fresh(w) && Scheduled(w, block)
  {
    hide ToWord, Xor4, Rotl, CodeRotl;
    w := new Word[80];
    for i := 0 to 16
      invariant forall j :: 0 <= j < i ==> w[j] == Schedule1(block, j)
    {
      w[i] := ToWord(block[4 * i..4 * i + 4]);
    }
    for i := 16 to 80
      invariant forall j :: 0 <= j < i ==> w[j] == Schedule1(block, j)
    {
      RotlAgrees(Xor4(w[i - 3], w[i - 8], w[i - 14], w[i - 16]));
      w[i] := CodeRotl(Xor4(w[i - 3], w[i - 8], w[i - 14], w[i - 16]), 1);
    }
  }

  ghost predicate Scheduled(w: array<Word>, block: seq<Byte>)
    requires |block| == 64
    reads w
  {
    w.Length == 80 && forall i :: 0 <= i < 80 ==> w[i] == Schedule1(block, i)
  }

  // The four loops of sha1ProcessBlock.

  method Phase1(ghost v0: Vars1, v: Vars1, w: array<Word>, ghost block: seq<Byte>) returns (r: Vars1)
    requires |block| == 64 && Scheduled(w, block) && v == Rounds1(v0, block, 0)
    ensures r == Rounds1(v0, block, 20)
  {
    hide Schedule1, Rounds1, CodeRotl, CodeChoose, CodeMajority, Parity, Plus5, Ch, Maj;
    var a, b, c, d, e := v.a, v.b, v.c, v.d, v.e;
    for i := 0 to 20
      invariant Vars1(a, b, c, d, e) == Rounds1(v0, block, i)
    {
      ChooseAgrees(b, c, d);
      RoundStep1(v0, block, i, CodeChoose(b, c, d), w[i]);
      var temp := Plus5(CodeRotl(a, 5), CodeChoose(b, c, d), e, w[i], 0x5a827999);
      e := d; d := c; c := CodeRotl(b, 30); b := a; a := temp;
    }
    r := Vars1(a, b, c, d, e);
  }

  method Phase2(ghost v0: Vars1, v: Vars1, w: array<Word>, ghost block: seq<Byte>) returns (r: Vars1)
    requires |block| == 64 && Scheduled(w, block) && v == Rounds1(v0, block, 20)
    ensures r == Rounds1(v0, block, 40)
  {
    hide Schedule1, Rounds1, CodeRotl, CodeChoose, CodeMajority, Parity, Plus5, Ch, Maj;
    var a, b, c, d, e := v.a, v.b, v.c, v.d, v.e;
    for i := 20 to 40
      invariant Vars1(a, b, c, d, e) == Rounds1(v0, block, i)
    {
      RoundStep1(v0, block, i, Parity(b, c, d), w[i]);
      var temp := Plus5(CodeRotl(a, 5), Parity(b, c, d), e, w[i], 0x6ed9eba1);
      e := d; d := c; c := CodeRotl(b, 30); b := a; a := temp;
    }
    r := Vars1(a, b, c, d, e);
  }

  method Phase3(ghost v0: Vars1, v: Vars1, w: array<Word>, ghost block: seq<Byte>) returns (r: Vars1)
    requires |block| == 64 && Scheduled(w, block) && v == Rounds1(v0, block, 40)
    ensures r == Rounds1(v0, block, 60)
  {
    hide Schedule1, Rounds1, CodeRotl, CodeChoose, CodeMajority, Parity, Plus5, Ch, Maj;
    var a, b, c, d, e := v.a, v.b, v.c, v.d, v.e;
    for i := 40 to 60
      invariant Vars1(a, b, c, d, e) == Rounds1(v0, block, i)
    {
      MajorityAgrees(b, c, d);
      RoundStep1(v0, block, i, CodeMajority(b, c, d), w[i]);
      var temp := Plus5(CodeRotl(a, 5), CodeMajority(b, c, d), e, w[i], 0x8f1bbcdc);
      e := d; d := c; c := CodeRotl(b, 30); b := a; a := temp;
    }
    r := Vars1(a, b, c, d, e);
  }

  method Phase4(ghost v0: Vars1, v: Vars1, w: array<Word>, ghost block: seq<Byte>) returns (r: Vars1)
    requires |block| == 64 && Scheduled(w, block) && v == Rounds1(v0, block, 60)
    ensures r == Rounds1(v0, block, 80)
  {
    hide Schedule1, Rounds1, CodeRotl, CodeChoose, CodeMajority, Parity, Plus5, Ch, Maj;
    var a, b, c, d, e := v.a, v.b, v.c, v.d, v.e;
    for i := 60 to 80
      invariant Vars1(a, b, c, d, e) == Rounds1(v0, block, i)
    {
      RoundStep1(v0, block, i, Parity(b, c, d), w[i]);
      var temp := Plus5(CodeRotl(a, 5), Parity(b, c, d), e, w[i], 0xca62c1d6);
      e := d; d := c; c := CodeRotl(b, 30); b := a; a := temp;
    }
    r := Vars1(a, b, c, d, e);
  }

  /** sha1ProcessBlock: the message schedule, then four loops of twenty rounds. */
  method Sha1ProcessBlock(hash: array<Word>, block: seq<Byte>)
    requires hash.Length == 5 && |block| == 64
    modifies hash
    ensures hash[..] == Compress1(old(hash[..]), block)
  {
    hide Schedule1, Rounds1, Plus;
    var v0 := Vars1(hash[0], hash[1], hash[2], hash[3], hash[4]);
    var w := Schedule(block);
    RoundsStart1(v0, block);
    var v := Phase1(v0, v0, w, block);
    v := Phase2(v0, v, w, block);
    v := Phase3(v0, v, w, block);
    v := Phase4(v0, v, w, block);
    AddVars1(hash, v.a, v.b, v.c, v.d, v.e);
  }

  method AddVars1(hash: array<Word>, a: Word, b: Word, c: Word, d: Word, e: Word)
    requires hash.Length == 5
    modifies hash
    ensures var h := old(hash[..]);
            hash[..] == [Plus(h[0], a), Plus(h[1], b), Plus(h[2], c), Plus(h[3], d), Plus(h[4], e)]
  {
    hide Plus;
    hash[0] := Plus(hash[0], a);
    hash[1] := Plus(hash[1], b);
    hash[2] := Plus(hash[2], c);
    hash[3] := Plus(hash[3], d);
    hash[4] := Plus(hash[4], e);
  }

  // ---------- SHA-256 ----------

  lemma RoundsStart256(v: Vars256, block: seq<Byte>)
    requires |block| == 64
    ensures Rounds256(v, block, 0) == v
  {}

  lemma RoundStep256(v: Vars256, block: seq<Byte>, t: nat, w: Word)
    requires |block| == 64 && t < 64 && w == Schedule256(block, t)
    ensures var r := Rounds256(v, block, t);
            var t1 := Plus5(r.h, CodeEp1(r.e), Ch(r.e, r.f, r.g), K256[t], w);
            var t2 := Plus(CodeEp0(r.a), Maj(r.a, r.b, r.c));
            Rounds256(v, block, t + 1) == Vars256(Plus(t1, t2), r.a, r.b, r.c, Plus(r.d, t1), r.e, r.f, r.g)
  {
    hide Schedule256, CodeEp0, CodeEp1, BigSigma0, BigSigma1, Ch, Maj, Plus, Plus5;
    var r := Rounds256(v, block, t);
    Ep0Agrees(r.a); Ep1Agrees(r.e);
    assert Rounds256(v, block, t + 1) == Round256(r, t, w);
  }

  method ScheduleOf256(block: seq<Byte>) returns (w: array<Word>)
    requires |block| == 64
    ensures fresh(w) && w.Length == 64
    ensures forall i :: 0 <= i < 64 ==> w[i] == Schedule256(block, i)
  {
    hide ToWord, CodeSig0, CodeSig1, SmallSigma0, SmallSigma1, Plus;
    w := new Word[64];
    for i := 0 to 16
      invariant forall j :: 0 <= j < i ==> w[j] == Schedule256(block, j)
    {
      w[i] := ToWord(block[4 * i..4 * i + 4]);
    }
    for i := 16 to 64
      invariant forall j :: 0 <= j < i ==> w[j] == Schedule256(block, j)
    {
      Sig1Agrees(w[i - 2]); Sig0Agrees(w[i - 15]);
      w[i] := Plus(Plus(Plus(CodeSig1(w[i - 2]), w[i - 7]), CodeSig0(w[i - 15])), w[i - 16]);
    }
  }

  /** The round loop of sha256ProcessBlock. */
  method Rounds(v0: Vars256, w: array<Word>, ghost block: seq<Byte>) returns (r: Vars256)
    requires |block| == 64 && w.Length == 64 && forall i :: 0 <= i < 64 ==> w[i] == Schedule256(block, i)
    ensures r == Rounds256(v0, block, 64)
  {
    hide Schedule256, Rounds256, CodeEp0, CodeEp1, Ch, Maj, Plus, Plus5;
    var a, b, c, d, e, f, g, h := v0.a, v0.b, v0.c, v0.d, v0.e, v0.f, v0.g, v0.h;
    RoundsStart256(v0, block);
    for i := 0 to 64
      invariant Vars256(a, b, c, d, e, f, g, h) == Rounds256(v0, block, i)
    {
      RoundStep256(v0, block, i, w[i]);
      var t1 := Plus5(h, CodeEp1(e), Ch(e, f, g), K256[i], w[i]);
      var t2 := Plus(CodeEp0(a), Maj(a, b, c));
      h := g;
      g := f;
      f := e;
      e := Plus(d, t1);
      d := c;
      c := b;
      b := a;
      a := Plus(t1, t2);
    }
    r := Vars256(a, b, c, d, e, f, g, h);
  }

  /** sha256ProcessBlock. */
  method Sha256ProcessBlock(hash: array<Word>, block: seq<Byte>)
    requires hash.Length == 8 && |block| == 64
    modifies hash
    ensures hash[..] == Compress256(old(hash[..]), block)
  {
    hide Schedule256, Rounds256, Plus;
    var v0 := Vars256(hash[0], hash[1], hash[2], hash[3], hash[4], hash[5], hash[6], hash[7]);
    var w := ScheduleOf256(block);
    var v := Rounds(v0, w, block);
    hash[0] := Plus(hash[0], v.a);
    hash[1] := Plus(hash[1], v.b);
    hash[2] := Plus(hash[2], v.c);
    hash[3] := Plus(hash[3], v.d);
    hash[4] := Plus(hash[4], v.e);
    hash[5] := Plus(hash[5], v.f);
    hash[6] := Plus(hash[6], v.g);
    hash[7] := Plus(hash[7], v.h);
  }
}
