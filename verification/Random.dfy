/** The generator of src/brickred/random.cc, which makes 624 words at a time in place. */
module Randoms {
  import opened RandomSpec

  class Random {
    const mt: array<Word>
    var mti: nat

    /** The state after seeding, how many batches were made since, and the number of words drawn. */
    ghost var init: seq<Word>
    ghost var base: nat

    ghost predicate Valid()
      reads this, mt
    {
      && mt.Length == N && mti <= N && |init| == N && base + mti >= N
      && forall j :: 0 <= j < N ==> mt[j] == X(init, base + j)
    }

    ghost function Drawn(): (k: nat)
      requires Valid()
      reads this, mt
    {
      base + mti - N
    }

    constructor (s: Word)
      ensures Valid() && init == SeedWords(s) && Drawn() == 0
      ensures fresh(mt)
    {
      mt := new Word[N];
      mti := 0;
      new;
      Seed(s);
    }

    method Seed(s: Word)
      requires mt.Length == N
      modifies this, mt
      ensures Valid() && init == SeedWords(s) && Drawn() == 0 && base == 0
    {
      hide SeedNext;
      mt[0] := s;
      mti := 1;
      while mti < N
        invariant 1 <= mti <= N
        invariant forall j :: 0 <= j < mti ==> mt[j] == SeedWord(s, j)
      {
        mt[mti] := SeedNext(mt[mti - 1], mti);
        mti := mti + 1;
      }
      init, base := SeedWords(s), 0;
    }

    /** seed by key: key[0] is read, so the key is not empty, and its length is converted to int. */
    method SeedByKey(key: seq<Word>)
      requires mt.Length == N && 0 < |key| < 0x8000_0000
      modifies this, mt
      ensures Valid() && KeyedWith(init, key) && Drawn() == 0
    {
      hide E, Place, SeedWord, KeyIndex, KeyRounds, X;
      Seed(19650218);
      KeyStart(key);
      var i := MixKey(key);
      MixIndex(key, i);
      mt[0] := 0x8000_0000;
      init, base := mt[..], 0;
      XStart(init);
      ghost var t := N + KeyRounds(key) + N - 1;
      assert forall u :: t - N < u < t ==> init[Place(u)] == E(key, u);
    }

    /** The first loop of seed by key. */
    method MixKey(key: seq<Word>) returns (i: nat)
      requires 0 < |key| < 0x8000_0000 && Keyed(key, N)
      modifies mt
      ensures i == Place(N + KeyRounds(key)) && Keyed(key, N + KeyRounds(key))
    {
      hide KeyMix, IndexMix, E, Place, Keyed, KeyIndex;
      PlaceAtStart();
      NextKeyIndex(key, N);
      i := 1;
      var j := 0;
      var k := KeyRounds(key);
      ghost var t := N;
      while k > 0
        invariant 0 <= k && t - N + k == KeyRounds(key)
        invariant i == Place(t) && j == KeyIndex(key, t) && Keyed(key, t)
      {
        EStep(key, t);
        KeyedHere(key, t);
        NextKeyIndex(key, t);
        i := Put(i, KeyMix(mt[i], mt[i - 1], key[j], j), key, t);
        j := j + 1;
        if j >= |key| {
          j := 0;
        }
        k, t := k - 1, t + 1;
      }
    }

    /** The second loop. */
    method MixIndex(key: seq<Word>, start: nat)
      requires 0 < |key| < 0x8000_0000
      requires start == Place(N + KeyRounds(key)) && Keyed(key, N + KeyRounds(key))
      modifies mt
      ensures Keyed(key, N + KeyRounds(key) + N - 1)
    {
      hide KeyMix, IndexMix, E, Place, Keyed;
      var i, k := start, N - 1;
      ghost var t := N + KeyRounds(key);
      while k > 0
        invariant 0 <= k && t + k == N + KeyRounds(key) + N - 1 && t >= N + KeyRounds(key)
        invariant i == Place(t) && Keyed(key, t)
      {
        EStep(key, t);
        KeyedHere(key, t);
        i := Put(i, IndexMix(mt[i], mt[i - 1], i), key, t);
        k, t := k - 1, t + 1;
      }
    }

    lemma KeyedHere(key: seq<Word>, t: nat)
      requires 0 < |key| < 0x8000_0000 && t >= N && Keyed(key, t)
      ensures mt.Length == N && mt[Place(t)] == E(key, t - N + 1) && mt[Place(t) - 1] == Before(key, t)
    {
      PlaceRepeats(t, t - N + 1);
    }

    /** Before the t-th word: the last 623 words are in their places. */
    ghost predicate Keyed(key: seq<Word>, t: nat)
      requires 0 < |key| < 0x8000_0000 && t >= N
      reads mt
    {
      && mt.Length == N && mt[Place(t) - 1] == Before(key, t)
      && forall u :: t - N < u < t ==> mt[Place(u)] == E(key, u)
    }

    lemma KeyStart(key: seq<Word>)
      requires Valid() && init == SeedWords(19650218) && base == 0 && 0 < |key| < 0x8000_0000
      ensures Place(N) == 1 && Keyed(key, N)
    {
      forall u | 0 < u < N ensures Place(u) == u && mt[u] == E(key, u) {
        assert mt[u] == X(init, base + u);
      }
      assert mt[0] == X(init, base + 0);
    }

    /** Writes the t-th word and moves on, over the end back to 1. */
    method Put(i: nat, w: Word, ghost key: seq<Word>, ghost t: nat) returns (next: nat)
      requires 0 < |key| < 0x8000_0000 && t >= N && Keyed(key, t) && i == Place(t) && w == E(key, t)
      modifies mt
      ensures Keyed(key, t + 1) && next == Place(t + 1)
    {
      hide E, Place;
      PlaceNext(t);
      mt[i] := w;
      next := i + 1;
      if next >= N {
        mt[0] := mt[N - 1];
        next := 1;
      }
      forall u | t + 1 - N < u < t + 1 ensures mt[Place(u)] == E(key, u) {
        if u < t {
          PlaceRepeats(t, u);
        }
      }
    }

    /** nextInt: the words of the recurrence in order, tempered. */
    method NextInt() returns (y: Word)
      requires Valid()
      modifies this`mti, this`base, mt
      ensures Valid() && init == old(init) && Drawn() == old(Drawn()) + 1
      ensures y == Output(init, old(Drawn()))
    {
      hide Temper1, Temper2, Temper3, Temper4, X;
      if mti >= N {
        NextBatch();
      }
      y := mt[mti];
      mti := mti + 1;
      y := Temper1(y);
      y := Temper2(y);
      y := Temper3(y);
      y := Temper4(y);
    }

    /** The two loops and the last word of the batch, each word over the one that is needed no more. */
    method NextBatch()
      requires Valid() && mti == N
      modifies this`mti, this`base, mt
      ensures Valid() && mti == 0 && base == old(base) + N
    {
      hide Twist, Xor, X;
      ghost var b := base;
      var i := 0;
      while i < N - M
        invariant 0 <= i <= N - M && Halfway(i) && base == b
      {
        NextWord(i, i + M);
        i := i + 1;
      }
      while i < N - 1
        invariant N - M <= i <= N - 1 && Halfway(i) && base == b
      {
        NextWord(i, i + (M - N));
        i := i + 1;
      }
      NextWord(N - 1, M - 1);
      mti, base := 0, base + N;
    }

    /** The first i words belong to the next batch, the others to this one. */
    ghost predicate Halfway(i: nat)
      reads this`init, this`base, mt
    {
      && mt.Length == N && |init| == N
      && (forall j :: 0 <= j < i && j < N ==> mt[j] == X(init, base + N + j))
      && (forall j :: i <= j < N ==> mt[j] == X(init, base + j))
    }

    /** The body of the loops; far is the index of the word 397 further on. */
    method NextWord(i: nat, far: nat)
      requires i < N && far < N && far == (if i + M < N then i + M else i + M - N) && Halfway(i)
      modifies mt
      ensures Halfway(i + 1)
    {
      hide Twist, Xor;
      var next := if i + 1 < N then mt[i + 1] else mt[0];
      assert X(init, base + N + i)
          == Xor(X(init, base + i + M), Twist(X(init, base + i), X(init, base + i + 1)));
      mt[i] := Xor(mt[far], Twist(mt[i], next));
    }
  }
}
