/** The recurrence of the Mersenne Twister behind src/brickred/random.cc, and its output function. */
module RandomSpec {
  type Word = bv32

  const N: int := 624
  const M: int := 397

  /** The upper bit of one word and the lower bits of the next, multiplied by the twist matrix. */
  function Twist(u: Word, v: Word): (r: Word) {
    var y := (u & 0x8000_0000) | (v & 0x7fff_ffff);
    (y >> 1) ^ (if y & 1 == 0 then 0 else 0x9908_b0df)
  }

  function Xor(a: Word, b: Word): (r: Word) { a ^ b }

  /** The k-th word of the recurrence that starts with the words init. */
  function X(init: seq<Word>, k: nat): (r: Word)
    requires |init| == N
    decreases k
  {
    if k < N then init[k] else Xor(X(init, k - N + M), Twist(X(init, k - N), X(init, k - N + 1)))
  }

  lemma XStart(init: seq<Word>)
    requires |init| == N
    ensures forall j: nat :: j < N ==> X(init, j) == init[j]
  {}

  // ---------- tempering ----------

  function Right11(y: Word): (r: Word) { y >> 11 }
  function Right18(y: Word): (r: Word) { y >> 18 }
  function Right22(y: Word): (r: Word) { y >> 22 }

  function Temper1(y: Word): (r: Word) { Xor(y, Right11(y)) }
  function Temper2(y: Word): (r: Word) { y ^ ((y << 7) & 0x9d2c_5680) }
  function Temper3(y: Word): (r: Word) { y ^ ((y << 15) & 0xefc6_0000) }
  function Temper4(y: Word): (r: Word) { Xor(y, Right18(y)) }
  function Temper(y: Word): (r: Word) { Temper4(Temper3(Temper2(Temper1(y)))) }

  function Untemper1(z: Word): (r: Word) { Xor(z, Xor(Right11(z), Right22(z))) }
  function Untemper2(z: Word): (r: Word) {
    var a := z ^ ((z << 7) & 0x9d2c_5680);
    var b := z ^ ((a << 7) & 0x9d2c_5680);
    var c := z ^ ((b << 7) & 0x9d2c_5680);
    z ^ ((c << 7) & 0x9d2c_5680)
  }
  function Untemper(z: Word): (r: Word) { Untemper1(Untemper2(Temper3(Temper4(z)))) }

  lemma Right11OfXor(a: Word, b: Word)
    ensures Right11(Xor(a, b)) == Xor(Right11(a), Right11(b))
  {}

  lemma Right18OfXor(a: Word, b: Word)
    ensures Right18(Xor(a, b)) == Xor(Right18(a), Right18(b))
  {}

  lemma Right22OfXor(a: Word, b: Word)
    ensures Right22(Xor(a, b)) == Xor(Right22(a), Right22(b))
  {}

  lemma RightTwice(y: Word)
    ensures Right11(Right11(y)) == Right22(y)
    ensures Right11(Right22(y)) == 0 && Right22(Right11(y)) == 0 && Right18(Right18(y)) == 0
  {}

  lemma CancelOne(y: Word, a: Word)
    ensures Xor(Xor(y, a), Xor(a, 0)) == y
  {}

  lemma CancelLeft(y: Word, a: Word, b: Word)
    ensures Xor(Xor(y, a), Xor(Xor(a, b), Xor(b, 0))) == y
  {}

  lemma CancelRight(y: Word, a: Word, b: Word)
    ensures Xor(Xor(y, Xor(a, b)), Xor(a, Xor(b, 0))) == y
  {}

  lemma Untemper1Inverts(y: Word)
    ensures Untemper1(Temper1(y)) == y && Temper1(Untemper1(y)) == y
  {
    hide Xor, Right11, Right22;
    var a, b := Right11(y), Right22(y);
    RightTwice(y);
    Right11OfXor(y, a);
    Right22OfXor(y, a);
    Right11OfXor(y, Xor(a, b));
    Right11OfXor(a, b);
    CancelLeft(y, a, b);
    CancelRight(y, a, b);
  }

  lemma Untemper2Inverts(y: Word)
    ensures Untemper2(Temper2(y)) == y && Temper2(Untemper2(y)) == y
  {}

  lemma Temper3Inverts(y: Word)
    ensures Temper3(Temper3(y)) == y
  {}

  lemma Temper4Inverts(y: Word)
    ensures Temper4(Temper4(y)) == y
  {
    hide Xor, Right18;
    RightTwice(y);
    Right18OfXor(y, Right18(y));
    CancelOne(y, Right18(y));
  }

  /** Tempering is a bijection on 32-bit words. */
  lemma TemperBijection(y: Word)
    ensures Untemper(Temper(y)) == y && Temper(Untemper(y)) == y
  {
    hide Temper1, Temper2, Temper3, Temper4, Untemper1, Untemper2;
    Untemper1Inverts(y);
    Untemper2Inverts(Temper1(y));
    Temper3Inverts(Temper2(Temper1(y)));
    Temper4Inverts(Temper3(Temper2(Temper1(y))));
    Temper4Inverts(y);
    Temper3Inverts(Temper4(y));
    Untemper2Inverts(Temper3(Temper4(y)));
    Untemper1Inverts(Untemper2(Temper3(Temper4(y))));
  }

  lemma TemperZero(y: Word)
    ensures Temper(y) == 0 <==> y == 0
  {
    TemperBijection(y);
    TemperBijection(0);
    assert Temper(0) == 0;
  }

  /** The k-th output of the generator. */
  function Output(init: seq<Word>, k: nat): (r: Word)
    requires |init| == N
  {
    Temper(X(init, k + N))
  }

  // ---------- the state never degenerates ----------

  /** The 19937 bits that the words from k on depend on are all zero. */
  ghost predicate Blank(init: seq<Word>, k: nat)
    requires |init| == N
  {
    X(init, k) & 0x8000_0000 == 0 && forall j :: k < j < k + N ==> X(init, j) == 0
  }

  lemma TwistZero(u: Word, v: Word)
    ensures Twist(u, v) == 0 <==> u & 0x8000_0000 == 0 && v & 0x7fff_ffff == 0
  {}

  lemma HalvesZero(v: Word)
    ensures v == 0 <==> v & 0x8000_0000 == 0 && v & 0x7fff_ffff == 0
  {}

  lemma XorZero(a: Word, b: Word)
    ensures a == 0 ==> Xor(a, b) == b
  {}

  /** The step of the recurrence neither makes the state blank nor repairs a blank one. */
  lemma BlankStep(init: seq<Word>, k: nat)
    requires |init| == N
    ensures Blank(init, k) <==> Blank(init, k + 1)
  {
    hide Twist, Xor;
    var u, v := X(init, k), X(init, k + 1);
    assert X(init, k + N) == Xor(X(init, k + M), Twist(u, v));
    TwistZero(u, v);
    HalvesZero(v);
    XorZero(X(init, k + M), Twist(u, v));
    if Blank(init, k) {
      assert X(init, k + M) == 0;
    }
    if Blank(init, k + 1) {
      assert X(init, k + M) == 0 && X(init, k + N) == 0;
    }
  }

  lemma {:induction false} BlankForever(init: seq<Word>, k: nat)
    requires |init| == N
    ensures Blank(init, k) <==> Blank(init, 0)
    decreases k
  {
    hide Blank;
    if k > 0 {
      BlankForever(init, k - 1);
      BlankStep(init, k - 1);
    }
  }

  /** From a state that is not blank, any 624 consecutive outputs include one that is not zero. */
  lemma OutputsNeverDieOut(init: seq<Word>, k: nat)
    requires |init| == N && !Blank(init, 0)
    ensures exists j :: k <= j < k + N && Output(init, j) != 0
  {
    hide Temper;
    BlankForever(init, k + N);
    var i: nat :| k + N <= i < k + N + N && X(init, i) != 0;
    TemperZero(X(init, i));
    assert Output(init, i - N) != 0;
  }

  // ---------- seeds ----------

  function SeedNext(x: Word, i: nat): (r: Word)
    requires i < 0x1_0000_0000
  {
    1812433253 * (x ^ (x >> 30)) + i as Word
  }

  /** The words of seed(s). */
  function SeedWord(s: Word, i: nat): (r: Word)
    requires i < N
  {
    if i == 0 then s else SeedNext(SeedWord(s, i - 1), i)
  }

  function SeedWords(s: Word): (r: seq<Word>)
    ensures |r| == N && forall i :: 0 <= i < N ==> r[i] == SeedWord(s, i)
  {
    seq(N, i requires 0 <= i < N => SeedWord(s, i))
  }

  lemma SeedNextOfZero()
    ensures SeedNext(0, 2) != 0
  {}

  /** No seed gives a blank state. */
  lemma SeedIsNotBlank(s: Word)
    ensures !Blank(SeedWords(s), 0)
  {
    hide SeedNext;
    SeedNextOfZero();
    var init := SeedWords(s);
    assert X(init, 1) == SeedWord(s, 1) && X(init, 2) == SeedNext(SeedWord(s, 1), 2);
  }

  /** The two mixing steps of seed by key. */
  function KeyMix(replaced: Word, prev: Word, key: Word, j: nat): (r: Word)
    requires j < 0x1_0000_0000
  {
    (replaced ^ ((prev ^ (prev >> 30)) * 1664525)) + key + j as Word
  }

  function IndexMix(replaced: Word, prev: Word, i: nat): (r: Word)
    requires i < 0x1_0000_0000
  {
    (replaced ^ ((prev ^ (prev >> 30)) * 1566083941)) - i as Word
  }

  /** The position in 1..623 that the t-th word is written to. */
  function Place(t: int): (p: int)
    requires t >= 1
    ensures 1 <= p < N
  {
    1 + (t - 1) % (N - 1)
  }

  lemma PlaceAtStart()
    ensures Place(N) == 1
  {}

  lemma PlaceNext(t: int)
    requires t >= 1
    ensures Place(t + 1) == if Place(t) + 1 == N then 1 else Place(t) + 1
  {}

  lemma PlaceRepeats(t: int, u: int)
    requires 1 <= u < t
    ensures t - u < N - 1 ==> Place(u) != Place(t)
    ensures t - u == N - 1 ==> Place(u) == Place(t)
  {
    var p, q := (u - 1) / 623, (t - 1) / 623;
    assert Place(t) - Place(u) == t - u - 623 * (q - p);
  }

  function KeyRounds(key: seq<Word>): (k: nat) {
    if N > |key| then N else |key|
  }

  /** The key is used over and over. */
  function KeyIndex(key: seq<Word>, t: nat): (j: nat)
    requires 0 < |key| && t >= N
    ensures j < |key|
  {
    (t - N) % |key|
  }

  /** The words written while seeding by key: first those of seed(19650218), then one per mixing step. Each mixes the
      word before it with the word 623 earlier, which it replaces. */
  function E(key: seq<Word>, t: nat): (r: Word)
    requires 0 < |key| < 0x8000_0000
    decreases t
  {
    if t < N then SeedWord(19650218, t)
    else
      var replaced, before := E(key, t - N + 1), if t == N then E(key, 0) else E(key, t - 1);
      var j := KeyIndex(key, t);
      if t - N < KeyRounds(key) then KeyMix(replaced, before, key[j], j) else IndexMix(replaced, before, Place(t))
  }

  /** The word before the t-th. The first position has the very first word before it. */
  function Before(key: seq<Word>, t: nat): (r: Word)
    requires 0 < |key| < 0x8000_0000 && t >= N
  {
    if t == N then E(key, 0) else E(key, t - 1)
  }

  lemma EStep(key: seq<Word>, t: nat)
    requires 0 < |key| < 0x8000_0000 && t >= N
    ensures var j := KeyIndex(key, t);
            E(key, t) ==
            if t - N < KeyRounds(key) then KeyMix(E(key, t - N + 1), Before(key, t), key[j], j)
            else IndexMix(E(key, t - N + 1), Before(key, t), Place(t))
  {}

  lemma NextKeyIndex(key: seq<Word>, t: nat)
    requires 0 < |key| && t >= N
    ensures KeyIndex(key, N) == 0
    ensures KeyIndex(key, t + 1) == if KeyIndex(key, t) + 1 == |key| then 0 else KeyIndex(key, t) + 1
  {
    var n, length := t - N, |key|;
    var q, p := n / length, (n + 1) / length;
    assert (p - q) * length == p * length - q * length;
    NoMultipleBetween(p - q, length, n % length + 1 - (n + 1) % length);
  }

  lemma NoMultipleBetween(d: int, length: int, r: int)
    requires length > 0 && d * length == r && -length < r <= length
    ensures r == if r == length then length else 0
  {
    assert d >= 1 ==> (d - 1) * length >= 0;
    assert d <= -1 ==> (-d - 1) * length >= 0;
  }

  /** The state after seeding by key. */
  ghost predicate KeyedWith(init: seq<Word>, key: seq<Word>) {
    && |init| == N && 0 < |key| < 0x8000_0000 && init[0] == 0x8000_0000
    && var end := N + KeyRounds(key) + N - 1;
       forall t :: end - N < t < end ==> init[Place(t)] == E(key, t)
  }

  /** No key gives a blank state. */
  lemma KeyIsNotBlank(init: seq<Word>, key: seq<Word>)
    requires KeyedWith(init, key)
    ensures !Blank(init, 0)
  {
    assert X(init, 0) == 0x8000_0000;
    HalvesZero(0x8000_0000);
  }

  // ---------- the numbers of the reference implementation ----------

  /** The first words of the seed 5489. */
  lemma KnownSeedWords()
    ensures SeedWord(5489, 1) == 1301868182 && SeedWord(5489, 2) == 2938499221 && SeedWord(5489, 3) == 2950281878
  {
    assert SeedWord(5489, 0) == 5489;
    assert SeedWord(5489, 1) == 1301868182;
    assert SeedWord(5489, 2) == 2938499221;
  }

  /** From the words of this seed that they depend on, the first two outputs of mt19937. */
  lemma KnownOutputs(init: seq<Word>)
    requires |init| == N && init[0] == 5489 && init[1] == 1301868182 && init[2] == 2938499221
    requires init[397] == 3183906156 && init[398] == 1728556020
    ensures Output(init, 0) == 3499211612 && Output(init, 1) == 581869302
  {
    assert X(init, 624) == 2601187879;
    assert X(init, 625) == 3919438689;
  }

  /** The first words that each loop mixes for the key 0x123, 0x234, 0x345, 0x456. */
  lemma KnownMixes()
    ensures KeyMix(2194844435, 19650218, 0x123, 0) == 4287171284
    ensures KeyMix(874550967, 4287171284, 0x234, 1) == 2540085905
    ensures IndexMix(2540085905, 1400349479, 2) == 1371430253
    ensures IndexMix(567523720, 1371430253, 3) == 3559376401
  {}
}
