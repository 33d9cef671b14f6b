/** The planned size of a forward pass's workspace, and what a pass allocates (jb.c:5982-6051, 6270-6276,
    6351-6369, 6545-6556, 6668-6824, 6952-7197, 8301-8388). */
module ForwardPlan {
  import opened Arena

  const H := 2816
  const LAYERS := 30
  const HEADS := 16
  const VOCAB := 262144
  const DENSE := 2112
  const MOE := 704
  const TOPK := 8
  const EXPERTS := 128
  const EXPERT_PAIR := 2 * MOE
  const FULL_EVERY := 6
  const FULL_HEAD_DIM := 512
  const LOCAL_HEAD_DIM := 256
  const FULL_KV_HEADS := 2
  const LOCAL_KV_HEADS := 8
  const FLOAT := 4
  const INT := 4
  const DOUBLE := 8
  const ADDRESS := 8

  predicate Full(l: nat) {
    l % FULL_EVERY == FULL_EVERY - 1
  }

  // ----- what is allocated, in the order of the allocations

  /** The wrapper's tables of caches and lengths, for more than one segment. */
  function WrapperSizes(segments: nat, wrapper: bool): seq<nat> {
    if wrapper && segments > 1 then [segments * ADDRESS, segments * INT] else []
  }

  /** Queries, keys, values, outputs, and the score buffer with room for `room` cached positions. */
  function AttentionSizes(full: bool, n: nat, room: nat, count: nat): seq<nat> {
    var hd := if full then FULL_HEAD_DIM else LOCAL_HEAD_DIM;
    var kvh := if full then FULL_KV_HEADS else LOCAL_KV_HEADS;
    [n * (HEADS * hd) * FLOAT, n * (kvh * hd) * FLOAT, n * (kvh * hd) * FLOAT, n * (HEADS * hd) * FLOAT,
     n * (room + count) * FLOAT]
  }

  /** The feed-forward's blocks up to the experts' outputs. */
  function DenseSizes(n: nat): seq<nat> {
    [n * H * FLOAT, n * DENSE * FLOAT, n * DENSE * FLOAT, n * H * FLOAT, n * H * FLOAT, n * H * FLOAT,
     n * EXPERTS * FLOAT, n * TOPK * INT, n * TOPK * FLOAT, n * TOPK * H * FLOAT, n * H * FLOAT,
     n * EXPERT_PAIR * FLOAT, n * MOE * FLOAT, n * H * FLOAT]
  }

  /** The last blocks as the plan lists them: the owner table before the quantized hidden rows. */
  function TailPlanned(nvfp4: bool, n: nat): seq<nat> {
    (if nvfp4 then [n * H * FLOAT] else []) + [n * 2 * INT] + (if nvfp4 then [n * MOE * FLOAT] else [])
    + [H * FLOAT, H * FLOAT]
  }

  /** The last blocks as the pass places them: the owner table after the quantized hidden rows. */
  function TailPlaced(nvfp4: bool, n: nat): seq<nat> {
    (if nvfp4 then [n * H * FLOAT] else []) + (if nvfp4 then [n * MOE * FLOAT] else []) + [n * 2 * INT]
    + [H * FLOAT, H * FLOAT]
  }

  // ----- the plans

  function AttentionPlan(n: nat, past: nat, count: nat, segments: nat, wrapper: bool): nat {
    PlanFrom(0, WrapperSizes(segments, wrapper) + AttentionSizes(true, n, past, count))
  }

  function FeedForwardPlan(nvfp4: bool, n: nat): nat {
    PlanFrom(0, DenseSizes(n) + TailPlanned(nvfp4, n))
  }

  function LayerPlan(nvfp4: bool, n: nat, past: nat, count: nat, segments: nat, wrapper: bool): nat {
    PlanFrom(0, [n * H * FLOAT, n * H * FLOAT])
    + Max(AttentionPlan(n, past, count, segments, wrapper), FeedForwardPlan(nvfp4, n))
  }

  function ForwardBytes(nvfp4: bool, n: nat, past: nat, count: nat, segments: nat, wrapper: bool, tail: nat): nat {
    PlanFrom(0, [n * H * FLOAT]) + Max(LayerPlan(nvfp4, n, past, count, segments, wrapper), tail)
  }

  /** A job to score: how many questions, their candidate counts, and whether the reads were requested. */
  datatype Job = Job(candidates: seq<nat>, requested: bool)

  function Sum(s: seq<nat>): nat {
    if s == [] then 0 else s[0] + Sum(s[1..])
  }

  function Most(s: seq<nat>): nat {
    if s == [] then 0 else Max(s[0], Most(s[1..]))
  }

  /** The blocks that scoring one read of a job needs. */
  function ScoreSizes(job: Job, read: nat): seq<nat> {
    var nq := |job.candidates|;
    [nq * ADDRESS, Sum(job.candidates) * DOUBLE]
    + (if !job.requested && read == 0
       then [nq * H * FLOAT, nq * INT, nq * VOCAB * FLOAT, VOCAB * DOUBLE] else [])
    + [Most(job.candidates) * DOUBLE]
  }

  function ScoreBytes(job: Job, read: nat): nat {
    PlanFrom(0, ScoreSizes(job, read))
  }

  // ----- the two orders need the same space

  lemma PlacedAsPlanned(nvfp4: bool, n: nat, used: nat)
    ensures PlanFrom(used, DenseSizes(n) + TailPlaced(nvfp4, n))
      == PlanFrom(used, DenseSizes(n) + TailPlanned(nvfp4, n))
  {
    hide DenseSizes;
    PlanConcat(used, DenseSizes(n), TailPlaced(nvfp4, n));
    PlanConcat(used, DenseSizes(n), TailPlanned(nvfp4, n));
    TailsAgree(nvfp4, n, PlanFrom(used, DenseSizes(n)));
  }

  lemma TailsAgree(nvfp4: bool, n: nat, used: nat)
    ensures PlanFrom(used, TailPlaced(nvfp4, n)) == PlanFrom(used, TailPlanned(nvfp4, n))
  {
    if nvfp4 {
      var q, odd, even, rest := [n * H * FLOAT], n * 2 * INT, n * MOE * FLOAT, [H * FLOAT, H * FLOAT];
      assert TailPlaced(nvfp4, n) == q + ([even, odd] + rest);
      assert TailPlanned(nvfp4, n) == q + ([odd, even] + rest);
      PlanConcat(used, q, [even, odd] + rest);
      PlanConcat(used, q, [odd, even] + rest);
      assert even % ALIGNMENT == 0 by { assert even == (n * 44) * 64; }
      PlanSwap(PlanFrom(used, q), odd, even, rest);
    }
  }

  /** A local layer's attention needs no more than a full layer's. */
  lemma FullDominates(full: bool, n: nat, room: nat, past: nat, count: nat, segments: nat, wrapper: bool)
    requires room <= past
    ensures PlanFrom(0, WrapperSizes(segments, wrapper) + AttentionSizes(full, n, room, count))
            <= AttentionPlan(n, past, count, segments, wrapper)
  {
    var w := WrapperSizes(segments, wrapper);
    PlanConcat(0, w, AttentionSizes(full, n, room, count));
    PlanConcat(0, w, AttentionSizes(true, n, past, count));
    var u := PlanFrom(0, w);
    LocalIsSmaller(full, n, room, past, count, u);
  }

  /** The sum for a local layer: keys and values are wider there, but queries and outputs are half as wide. */
  lemma LocalIsSmaller(full: bool, n: nat, room: nat, past: nat, count: nat, u: nat)
    requires room <= past
    ensures PlanFrom(u, AttentionSizes(full, n, room, count)) <= PlanFrom(u, AttentionSizes(true, n, past, count))
  {
    hide PlanFrom, AlignUp, AttentionSizes;
    AttentionTotal(full, n, room, count, u);
    AttentionTotal(true, n, past, count, u);
    assert n * (past + count) == n * (room + count) + n * (past - room);
  }

  lemma AttentionTotal(full: bool, n: nat, room: nat, count: nat, u: nat)
    ensures PlanFrom(u, AttentionSizes(full, n, room, count))
            == AlignUp(u) + n * (if full then 73728 else 49152) + n * (room + count) * FLOAT
  {
    var qn := if full then 32768 else 16384;
    var kn := if full then 4096 else 8192;
    var s := AttentionSizes(full, n, room, count);
    var last := n * (room + count) * FLOAT;
    assert s == [n * qn, n * kn, n * kn, n * qn] + [last];
    assert n * qn == (n * (qn / 64)) * 64 && n * kn == (n * (kn / 64)) * 64;
    AlignedTotal(u, [n * qn, n * kn, n * kn, n * qn], last);
    SumOfFour(n * qn, n * kn);
  }

  /** Blocks of aligned sizes leave no padding between them. */
  lemma {:induction false} AlignedTotal(u: nat, sizes: seq<nat>, last: nat)
    requires forall i | 0 <= i < |sizes| :: sizes[i] % ALIGNMENT == 0
    ensures PlanFrom(u, sizes + [last]) == AlignUp(u) + Sum(sizes) + last
    decreases |sizes|
  {
    if sizes == [] {
      assert sizes + [last] == [last];
    } else {
      var s := sizes + [last];
      assert s[1..] == sizes[1..] + [last];
      AlignedTotal(PlanAdd(u, s[0]), sizes[1..], last);
      AlignShift(s[0], AlignUp(u));
      AlignIdempotent(u);
    }
  }

  lemma SumOfFour(a: nat, b: nat)
    ensures Sum([a, b, b, a]) == 2 * a + 2 * b
  {
    assert [a][1..] == [] && Sum([a]) == a;
    assert [b, a][1..] == [a] && Sum([b, a]) == b + a;
    assert [b, b, a][1..] == [b, a] && Sum([b, b, a]) == b + b + a;
    assert [a, b, b, a][1..] == [b, b, a];
  }
}
