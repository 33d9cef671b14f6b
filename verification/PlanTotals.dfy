/** The planned sizes in bytes (jb.c:5982-6051, 6270-6295, 8301-8320, 8657-8667): what a token, an answer, a document
    and a microbatch take, for numbers of them that leave no padding. */
module PlanTotals {
  import opened Arena
  import opened ForwardPlan
  import opened StoragePlans

  predicate AllAligned(s: seq<nat>) {
    forall i | 0 <= i < |s| :: s[i] % ALIGNMENT == 0
  }

  /** Aligned blocks are planned one right after the other. */
  lemma {:induction false} AlignedPlan(u: nat, s: seq<nat>)
    requires u % ALIGNMENT == 0 && AllAligned(s)
    ensures PlanFrom(u, s) == u + Sum(s) && PlanFrom(u, s) % ALIGNMENT == 0
    decreases |s|
  {
    if s != [] {
      AlignedIs(u);
      AlignedSum(u, s[0]);
      AlignedPlan(u + s[0], s[1..]);
    }
  }

  lemma {:induction false} SumConcat(x: seq<nat>, y: seq<nat>)
    ensures Sum(x + y) == Sum(x) + Sum(y)
    decreases |x|
  {
    if x == [] {
      assert x + y == y;
    } else {
      assert (x + y)[1..] == x[1..] + y;
      SumConcat(x[1..], y);
    }
  }

  lemma SumOfThree(a: nat, b: nat, c: nat)
    ensures Sum([a, b, c]) == a + b + c && Sum([a, b]) == a + b && Sum([a]) == a && Sum([]) == 0
  {
    assert [a][1..] == [] && [b][1..] == [] && [c][1..] == [];
    assert [a, b][1..] == [b] && [b, c][1..] == [c];
    assert [a, b, c][1..] == [b, c];
    assert Sum([b]) == b && Sum([c]) == c && Sum([b, c]) == b + c;
  }

  lemma SumOfFive(a: nat, b: nat, c: nat, d: nat, e: nat)
    ensures Sum([a, b, c, d, e]) == a + b + c + d + e && Sum([a, b, c, d]) == a + b + c + d
  {
    SumOfThree(a, b, c);
    SumOfThree(d, e, 0);
    SumConcat([a, b, c], [d, e]);
    SumConcat([a, b, c], [d]);
    SumOfThree(d, 0, 0);
    assert [a, b, c] + [d, e] == [a, b, c, d, e] && [a, b, c] + [d] == [a, b, c, d];
  }

  lemma Aligned(k: nat, w: nat)
    ensures (16 * k * w * 4) % 64 == 0
  {
    assert 16 * k * w * 4 == (k * w) * 64;
  }

  /** The feed-forward takes 183624 bytes a token, 197704 with quantized activations, and 22528 besides. */
  lemma FeedForwardIs(nvfp4: bool, k: nat)
    ensures FeedForwardPlan(nvfp4, 16 * k) == 16 * k * (if nvfp4 then 197704 else 183624) + 22528
  {
    var n := 16 * k;
    var d, t := DenseSizes(n), TailPlanned(nvfp4, n);
    DenseIs(k);
    TailIs(nvfp4, k);
    SumConcat(d, t);
    assert AllAligned(d + t);
    AlignedPlan(0, d + t);
  }

  lemma DenseIs(k: nat)
    ensures Sum(DenseSizes(16 * k)) == 16 * k * 183616 && AllAligned(DenseSizes(16 * k))
  {
    var n := 16 * k;
    var x := [n * 2816 * 4, n * 2112 * 4, n * 2112 * 4, n * 2816 * 4, n * 2816 * 4];
    var y := [n * 2816 * 4, n * 128 * 4, n * 8 * 4, n * 8 * 4, n * 8 * 2816 * 4];
    var z := [n * 2816 * 4, n * 1408 * 4, n * 704 * 4, n * 2816 * 4];
    assert DenseSizes(n) == x + y + z;
    SumOfFive(n * 2816 * 4, n * 2112 * 4, n * 2112 * 4, n * 2816 * 4, n * 2816 * 4);
    SumOfFive(n * 2816 * 4, n * 128 * 4, n * 8 * 4, n * 8 * 4, n * 8 * 2816 * 4);
    SumOfFive(n * 2816 * 4, n * 1408 * 4, n * 704 * 4, n * 2816 * 4, 0);
    SumConcat(x + y, z);
    SumConcat(x, y);
    AlignedWidths(k);
  }

  lemma AlignedWidths(k: nat)
    ensures var n := 16 * k;
      (n * 2816 * 4) % 64 == (n * 2112 * 4) % 64 == (n * 128 * 4) % 64 == (n * 8 * 4) % 64 == (n * 8 * 2816 * 4) % 64
      == (n * 1408 * 4) % 64 == (n * 704 * 4) % 64 == (n * 2 * 4) % 64 == 0
  {
    Aligned(k, 2816);
    Aligned(k, 2112);
    Aligned(k, 128);
    Aligned(k, 8);
    Aligned(k, 8 * 2816);
    Aligned(k, 1408);
    Aligned(k, 704);
    Aligned(k, 2);
  }

  lemma TailIs(nvfp4: bool, k: nat)
    ensures Sum(TailPlanned(nvfp4, 16 * k)) == 16 * k * (if nvfp4 then 14088 else 8) + 22528
    ensures AllAligned(TailPlanned(nvfp4, 16 * k))
  {
    var n := 16 * k;
    AlignedWidths(k);
    if nvfp4 {
      assert TailPlanned(nvfp4, n) == [n * 2816 * 4, n * 2 * 4, n * 704 * 4, 11264, 11264];
      SumOfFive(n * 2816 * 4, n * 2 * 4, n * 704 * 4, 11264, 11264);
    } else {
      assert TailPlanned(nvfp4, n) == [n * 2 * 4, 11264, 11264];
      SumOfThree(n * 2 * 4, 11264, 11264);
    }
  }

  /** Attention over one document takes 73728 bytes a token, and 4 for each token and position that it may see. */
  lemma AttentionIs(n: nat, past: nat, count: nat)
    ensures AttentionPlan(n, past, count, 1, true) == n * 73728 + n * (past + count) * 4
  {
    hide AttentionSizes;
    AttentionTotal(true, n, past, count, 0);
    assert WrapperSizes(1, true) == [];
    assert [] + AttentionSizes(true, n, past, count) == AttentionSizes(true, n, past, count);
  }

  /** Over several documents it takes 12 bytes a document besides. */
  lemma SegmentsAre(n: nat, past: nat, count: nat, k: nat)
    requires k > 0
    ensures AttentionPlan(n, past, count, 16 * k, true) == 16 * k * 12 + n * 73728 + n * (past + count) * 4
  {
    hide AttentionSizes;
    var w, s := [16 * k * 8, 16 * k * 4], AttentionSizes(true, n, past, count);
    Aligned(k, 2);
    Aligned(k, 1);
    AlignedPlan(0, w);
    SumOfThree(16 * k * 8, 16 * k * 4, 0);
    PlanConcat(0, w, s);
    AttentionTotal(true, n, past, count, 16 * k * 12);
    AlignedIs(16 * k * 12);
  }

  /** A pass: its rows, then two more rows a token and the larger of attention and feed-forward, or the scoring tail. */
  lemma ForwardIs(nvfp4: bool, k: nat, past: nat, count: nat, tail: nat)
    ensures var n := 16 * k;
      var attention, dense := n * 73728 + n * (past + count) * 4, n * (if nvfp4 then 197704 else 183624) + 22528;
      var layer := n * 22528 + if attention > dense then attention else dense;
      ForwardBytes(nvfp4, n, past, count, 1, true, tail) == n * 11264 + if layer > tail then layer else tail
  {
    hide DenseSizes, AttentionSizes, TailPlanned;
    var n := 16 * k;
    AttentionIs(n, past, count);
    FeedForwardIs(nvfp4, k);
    AlignedWidths(k);
    AlignedPlan(0, [n * 2816 * 4, n * 2816 * 4]);
    SumOfThree(n * 2816 * 4, n * 2816 * 4, 0);
    AlignedPlan(0, [n * 2816 * 4]);
    SumOfThree(n * 2816 * 4, 0, 0);
  }

  /** The most candidates of a question. */
  lemma {:induction false} MostIs(s: seq<nat>)
    ensures (forall i | 0 <= i < |s| :: s[i] <= Most(s)) && (s != [] ==> Most(s) in s)
    decreases |s|
  {
    if s != [] {
      MostIs(s[1..]);
      if |s| == 1 {
        assert Most([]) == 0 && s[1..] == [];
      }
    }
  }

  /** Scoring takes 8 bytes a question, 8 a candidate and 8 for each of the most candidates, and the first automatic
      read 1059844 bytes a question and 2097152 besides for the scores of the whole vocabulary. */
  lemma ScoreIs(job: Job, read: nat, q: nat, c: nat)
    requires |job.candidates| == 16 * q && Sum(job.candidates) == 8 * c
    ensures ScoreBytes(job, read) == 16 * q * 8 + 8 * c * 8 + Most(job.candidates) * 8
      + if job.requested || read > 0 then 0 else 16 * q * 1059844 + 2097152
  {
    hide Sum, Most, PlanFrom;
    var last := Most(job.candidates) * 8;
    var x := [16 * q * 8, 8 * c * 8];
    SumOfThree(16 * q * 8, 8 * c * 8, 0);
    Aligned(q, 2);
    if job.requested || read > 0 {
      assert ScoreSizes(job, read) == x + [last];
      AlignedTotal(0, x, last);
    } else {
      var y := VocabularySizes(q);
      VocabularyIs(q);
      assert ScoreSizes(job, read) == x + y + [last];
      SumConcat(x, y);
      AlignedTotal(0, x + y, last);
    }
  }

  function VocabularySizes(q: nat): seq<nat> {
    [16 * q * 2816 * 4, 16 * q * 4, 16 * q * 262144 * 4, 262144 * 8]
  }

  lemma VocabularyIs(q: nat)
    ensures AllAligned(VocabularySizes(q)) && Sum(VocabularySizes(q)) == 16 * q * 1059844 + 2097152
  {
    hide Sum;
    Aligned(q, 2816);
    Aligned(q, 262144);
    Aligned(q, 1);
    SumOfFive(16 * q * 2816 * 4, 16 * q * 4, 16 * q * 262144 * 4, 262144 * 8, 0);
  }

  /** A token's K and V take 450560 bytes in all layers. */
  lemma PerTokenIs()
    ensures PerToken() == 450560
  {
    hide TokenBytes;
    NoLayers();
    SixLayers(0);
    SixLayers(1);
    SixLayers(2);
    SixLayers(3);
    SixLayers(4);
  }

  lemma NoLayers()
    ensures TokenBytes(0) == 0
  {
  }

  /** Five local layers and a full one. */
  lemma SixLayers(k: nat)
    ensures TokenBytes(6 * k + 6) == TokenBytes(6 * k) + 90112
  {
    hide TokenBytes;
    OneLayer(6 * k);
    OneLayer(6 * k + 1);
    OneLayer(6 * k + 2);
    OneLayer(6 * k + 3);
    OneLayer(6 * k + 4);
    OneLayer(6 * k + 5);
  }

  lemma OneLayer(l: nat)
    ensures TokenBytes(l + 1) == TokenBytes(l) + if l % 6 == 5 then 8192 else 16384
  {
  }

  /** A microbatch's control arrays take 756 bytes a document and 4 for each place of its padded suffix, and 16 a canvas
      and 4 for each of its tokens. */
  lemma ControlIs(b: nat, length: nat, c: nat, width: nat)
    ensures PlanFrom(0, ControlSizes(16 * b, length, 16 * c, width))
      == 16 * b * (756 + 4 * length) + 16 * c * (16 + 4 * width)
  {
    hide Sum, PlanFrom;
    var x, y := ControlStart(b, length, c, width), ControlRest(b, c);
    ControlParts(b, length, c, width);
    ControlStartIs(b, length, c, width);
    ControlRestIs(b, c);
    SumConcat(x, y);
    hide ControlSizes, ControlStart, ControlRest;
    AlignedTotal(0, x + y, 16 * b * 24);
    ControlSum(b, length, c, width);
  }

  lemma ControlSum(b: nat, length: nat, c: nat, width: nat)
    ensures 16 * b * (728 + 4 * length) + 16 * c * (4 * width) + (16 * b * 4 + 16 * c * 16) + 16 * b * 24
      == 16 * b * (756 + 4 * length) + 16 * c * (16 + 4 * width)
  {
    assert 16 * b * (728 + 4 * length) + 16 * b * 28 == 16 * b * (756 + 4 * length);
    assert 16 * c * (4 * width) + 16 * c * 16 == 16 * c * (16 + 4 * width);
  }

  function ControlStart(b: nat, length: nat, c: nat, width: nat): seq<nat> {
    [16 * b * 4, 16 * b * length * 4, 16 * b * 30 * 24, 16 * b * 4, 16 * c * width * 4]
  }

  function ControlRest(b: nat, c: nat): seq<nat> {
    [16 * c * 4, 16 * b * 4, 16 * c * 4, 16 * c * 8]
  }

  lemma ControlParts(b: nat, length: nat, c: nat, width: nat)
    ensures ControlSizes(16 * b, length, 16 * c, width)
      == ControlStart(b, length, c, width) + ControlRest(b, c) + [16 * b * 24]
  {
  }

  lemma ControlStartIs(b: nat, length: nat, c: nat, width: nat)
    ensures AllAligned(ControlStart(b, length, c, width))
    ensures Sum(ControlStart(b, length, c, width)) == 16 * b * (728 + 4 * length) + 16 * c * (4 * width)
  {
    hide Sum;
    Aligned(b, 1);
    Aligned(b, length);
    Aligned(b, 180);
    Aligned(c, width);
    SumOfFive(16 * b * 4, 16 * b * length * 4, 16 * b * 30 * 24, 16 * b * 4, 16 * c * width * 4);
    assert 16 * b * length * 4 == 16 * b * (4 * length);
    assert 16 * b * (728 + 4 * length) == 16 * b * 728 + 16 * b * (4 * length);
    assert 16 * c * width * 4 == 16 * c * (4 * width);
  }

  lemma ControlRestIs(b: nat, c: nat)
    ensures AllAligned(ControlRest(b, c)) && Sum(ControlRest(b, c)) == 16 * b * 4 + 16 * c * 16
  {
    hide Sum;
    Aligned(b, 1);
    Aligned(c, 1);
    Aligned(c, 2);
    SumOfFive(16 * c * 4, 16 * b * 4, 16 * c * 4, 16 * c * 8, 0);
  }
}
