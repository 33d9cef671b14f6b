/** The in-place Mersenne Twister (jb.c:2227-2241): its block update reads an array it is overwriting, and still
    produces the infinite recurrence. */
module Twister {
  type Word = bv32

  const N := 624
  const M := 397

  /** The next state word from the one M places on, the one being replaced, and the one after it. */
  function Twist(far: Word, a: Word, b: Word): Word {
    var y := (a & 0x8000_0000) | (b & 0x7fff_ffff);
    far ^ (y >> 1) ^ (if y & 1 != 0 then 0x9908_b0df else 0)
  }

  function Temper(w: Word): Word {
    var y1 := w ^ (w >> 11);
    var y2 := y1 ^ ((y1 << 7) & 0x9d2c_5680);
    var y3 := y2 ^ ((y2 << 15) & 0xefc6_0000);
    y3 ^ (y3 >> 18)
  }

  /** The recurrence that defines the generator: word k + N comes from words k + M, k and k + 1. */
  function X(init: seq<Word>, k: nat): Word
    requires |init| == N
    decreases k
  {
    if k < N then init[k] else Twist(X(init, k - N + M), X(init, k - N), X(init, k - N + 1))
  }

  class Generator {
    const mt: array<Word>
    var at: nat
    ghost const init: seq<Word>
    ghost var block: nat
    ghost var drawn: nat

    /** The array holds words `block` up to `block + N`, of which `at` have been drawn, if it is not the seed. */
    ghost predicate Valid()
      reads this, mt
    {
      && |init| == N && mt.Length == N && at <= N
      && (forall i | 0 <= i < N :: mt[i] == X(init, block + i))
      && drawn + N == block + at
    }

    /** A seeded state, nothing drawn yet. */
    constructor (seeded: seq<Word>)
      requires |seeded| == N
      ensures Valid() && init == seeded && drawn == 0 && at == N
    {
      mt := new Word[N](i requires 0 <= i < N => seeded[i]);
      at := N;
      init := seeded;
      block, drawn := 0, 0;
    }

    /** Replaces all words by the next block of them. */
    method Regenerate()
      requires Valid() && at == N
      modifies this`at, this`block, mt
      ensures Valid() && at == 0 && drawn == old(drawn)
    {
      hide Twist, X;
      ghost var next := block + N;
      for i := 0 to N
        invariant block == old(block) && drawn == old(drawn) && at == old(at)
        invariant forall j | 0 <= j < i :: mt[j] == X(init, next + j)
        invariant forall j | i <= j < N :: mt[j] == X(init, block + j)
      {
        FarWord(i);
        Recurrence(block + i);
        assert mt[(i + M) % N] == X(init, block + i + M) by {
          assert i + M >= N ==> mt[i + M - N] == X(init, next + (i + M - N));
          assert i + M < N ==> mt[i + M] == X(init, block + (i + M));
        }
        assert mt[(i + 1) % N] == X(init, block + i + 1) by {
          assert i + 1 >= N ==> mt[0] == X(init, next + 0);
          assert i + 1 < N ==> mt[i + 1] == X(init, block + (i + 1));
        }
        assert next + i == block + i + N;
        mt[i] := Twist(mt[(i + M) % N], mt[i], mt[(i + 1) % N]);
      }
      at := 0;
      block := next;
    }

    lemma Recurrence(k: nat)
      requires |init| == N
      ensures X(init, k + N) == Twist(X(init, k + M), X(init, k), X(init, k + 1))
    {
    }

    lemma FarWord(i: nat)
      requires i < N
      ensures (i + M) % N == if i + M < N then i + M else i + M - N
      ensures (i + 1) % N == if i + 1 < N then i + 1 else 0
    {
    }

    /** Draws a word: the n-th one ever drawn is the tempered n-th word of the recurrence behind the seed, across any
        number of regenerations. */
    method Draw() returns (y: Word)
      requires Valid()
      modifies this`at, this`block, this`drawn, mt
      ensures Valid() && drawn == old(drawn) + 1
      ensures y == Temper(X(init, N + old(drawn)))
    {
      if at >= N {
        Regenerate();
      }
      y := Temper(mt[at]);
      at := at + 1;
      drawn := drawn + 1;
    }
  }

  // ----- known outputs

  /** The first three outputs of the reference generator seeded with 5489, from the words of that seed's state that they
      depend on. */
  lemma ReferenceOutputs(init: seq<Word>)
    requires |init| == N && init[0] == 0x1571 && init[1] == 0x4d98_ee96 && init[2] == 0xaf25_f095
    requires init[3] == 0xafd9_ba96 && init[397] == 0xbdc6_8d6c && init[398] == 0x6707_abf4 && init[399] == 0xd0bf_f638
    ensures Temper(X(init, 624)) == 3499211612
    ensures Temper(X(init, 625)) == 581869302
    ensures Temper(X(init, 626)) == 3890346734
  {
    assert X(init, 624) == Twist(init[397], init[0], init[1]);
    assert X(init, 625) == Twist(init[398], init[1], init[2]);
    assert X(init, 626) == Twist(init[399], init[2], init[3]);
  }
}
