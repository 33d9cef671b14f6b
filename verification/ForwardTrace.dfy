/** A forward pass uses exactly the workspace that was planned for it (jb.c:6074-6089, 6351-6369,
    6545-6628, 6668-6824, 6952-7197, 8322-8388). */
module ForwardTrace {
  import opened Arena
  import opened ForwardPlan

  /** Attention's blocks, the wrapper's first, given back afterwards. */
  method Attention(a: JbArena, full: bool, n: nat, room: nat, count: nat, segments: nat, wrapper: bool)
    requires a.Valid() && PlanFrom(a.used, WrapperSizes(segments, wrapper) + AttentionSizes(full, n, room, count))
      <= a.size
    modifies a
    ensures a.Valid() && a.size == old(a.size) && a.used == old(a.used)
    ensures a.peak == Max(old(a.peak), PlanFrom(old(a.used),
      WrapperSizes(segments, wrapper) + AttentionSizes(full, n, room, count)))
  {
    hide AttentionSizes, WrapperSizes, PlanFrom;
    var outer := a.used;
    var w, s := WrapperSizes(segments, wrapper), AttentionSizes(full, n, room, count);
    PlanConcat(a.used, w, s);
    PlanGrows(PlanFrom(a.used, w), s);
    PlanGrows(a.used, w);
    a.AllocAll(w);
    var inner := a.used;
    a.AllocAll(s);
    a.Reset(inner);
    a.Reset(outer);
  }

  /** The feed-forward's blocks, in the order the pass places them. */
  method FeedForward(a: JbArena, nvfp4: bool, n: nat)
    requires a.Valid() && PlanFrom(a.used, DenseSizes(n) + TailPlaced(nvfp4, n)) <= a.size
    modifies a
    ensures a.Valid() && a.size == old(a.size) && a.used == old(a.used)
    ensures a.peak == Max(old(a.peak), PlanFrom(old(a.used), DenseSizes(n) + TailPlaced(nvfp4, n)))
  {
    hide DenseSizes, TailPlaced, PlanFrom;
    var mark := a.used;
    PlanGrows(a.used, DenseSizes(n) + TailPlaced(nvfp4, n));
    a.AllocAll(DenseSizes(n) + TailPlaced(nvfp4, n));
    a.Reset(mark);
  }

  /** What one layer needs behind an aligned start. */
  function LayerNeeds(full: bool, nvfp4: bool, n: nat, past: nat, count: nat, segments: nat, wrapper: bool): nat {
    n * H * FLOAT + n * H * FLOAT
    + Max(PlanFrom(0, WrapperSizes(segments, wrapper) + AttentionSizes(full, n, past, count)),
      FeedForwardPlan(nvfp4, n))
  }

  lemma RowsAligned(n: nat)
    ensures (n * H * FLOAT) % ALIGNMENT == 0
  {
    assert n * H * FLOAT == (n * 176) * 64;
  }

  lemma TwoRows(n: nat, base: nat)
    requires base % ALIGNMENT == 0
    ensures PlanFrom(base, [n * H * FLOAT, n * H * FLOAT]) == base + n * H * FLOAT + n * H * FLOAT
    ensures (base + n * H * FLOAT + n * H * FLOAT) % ALIGNMENT == 0
  {
    RowsAligned(n);
    TwoAligned(n * H * FLOAT, base);
  }

  lemma TwoAligned(x: nat, base: nat)
    requires base % ALIGNMENT == 0 && x % ALIGNMENT == 0
    ensures PlanFrom(base, [x, x]) == base + x + x && (base + x + x) % ALIGNMENT == 0
  {
    hide AlignUp;
    AlignedSum(base, x);
    AlignedSum(base + x, x);
    AlignedIs(base);
    AlignedIs(base + x);
    PlanTwo(base, x, x, []);
    assert [x, x] + [] == [x, x];
  }

  lemma OneRows(n: nat)
    ensures PlanFrom(0, [n * H * FLOAT]) == n * H * FLOAT
  {
    assert [n * H * FLOAT][1..] == [];
  }

  /** Full layers need the most, and what they need is the layer plan. */
  lemma NeedsPlanned(full: bool, nvfp4: bool, n: nat, past: nat, count: nat, segments: nat, wrapper: bool)
    ensures LayerNeeds(full, nvfp4, n, past, count, segments, wrapper)
      <= LayerPlan(nvfp4, n, past, count, segments, wrapper)
    ensures LayerNeeds(true, nvfp4, n, past, count, segments, wrapper)
      == LayerPlan(nvfp4, n, past, count, segments, wrapper)
  {
    hide AttentionSizes, WrapperSizes, PlanFrom, FeedForwardPlan;
    TwoRows(n, 0);
    FullDominates(full, n, past, past, count, segments, wrapper);
  }

  /** One layer: residual and normalized rows, attention, feed-forward. */
  method Layer(a: JbArena, l: nat, nvfp4: bool, n: nat, past: nat, count: nat, segments: nat, wrapper: bool)
    requires a.Valid() && a.used % ALIGNMENT == 0
    requires a.used + LayerNeeds(Full(l), nvfp4, n, past, count, segments, wrapper) <= a.size
    modifies a
    ensures a.Valid() && a.size == old(a.size) && a.used == old(a.used)
    ensures a.peak == Max(old(a.peak), old(a.used) + LayerNeeds(Full(l), nvfp4, n, past, count, segments, wrapper))
  {
    hide AttentionSizes, WrapperSizes, DenseSizes, TailPlaced, TailPlanned, PlanFrom, Full;
    var mark := a.used;
    var rows := [n * H * FLOAT, n * H * FLOAT];
    TwoRows(n, mark);
    a.AllocAll(rows);
    PlanShift(a.used, 0, WrapperSizes(segments, wrapper) + AttentionSizes(Full(l), n, past, count));
    PlanShift(a.used, 0, DenseSizes(n) + TailPlaced(nvfp4, n));
    PlacedAsPlanned(nvfp4, n, 0);
    Attention(a, Full(l), n, past, count, segments, wrapper);
    FeedForward(a, nvfp4, n);
    a.Reset(mark);
  }

  /** One read of a job that is scored behind the layers. */
  datatype Scored = Scored(job: Job, read: nat)

  function MostScored(s: seq<Scored>): nat {
    if s == [] then 0 else Max(MostScored(s[..|s| - 1]), ScoreBytes(s[|s| - 1].job, s[|s| - 1].read))
  }

  method Score(a: JbArena, s: Scored)
    requires a.Valid() && a.used % ALIGNMENT == 0 && a.used + ScoreBytes(s.job, s.read) <= a.size
    modifies a
    ensures a.Valid() && a.size == old(a.size) && a.used == old(a.used)
    ensures a.peak == Max(old(a.peak), old(a.used) + ScoreBytes(s.job, s.read))
  {
    hide ScoreSizes, PlanFrom;
    var mark := a.used;
    PlanShift(mark, 0, ScoreSizes(s.job, s.read));
    a.AllocAll(ScoreSizes(s.job, s.read));
    a.Reset(mark);
  }

  lemma {:induction false} ScoredFits(s: seq<Scored>, i: nat)
    requires i <= |s|
    ensures MostScored(s[..i]) <= MostScored(s)
    ensures i < |s| ==> ScoreBytes(s[i].job, s[i].read) <= MostScored(s)
    ensures i < |s| ==> MostScored(s[..i + 1]) == Max(MostScored(s[..i]), ScoreBytes(s[i].job, s[i].read))
    decreases |s| - i
  {
    hide ScoreBytes;
    if i < |s| {
      ScoredFits(s, i + 1);
      assert s[..i + 1][..i] == s[..i];
    } else {
      assert s[..i] == s;
    }
  }

  lemma SomeLayerIsFull()
    ensures Full(5) && 5 < LAYERS
  {
  }

  /** Opens a workspace of the planned size. */
  method WorkspaceBegin(required: nat) returns (a: JbArena)
    ensures fresh(a) && a.Valid() && a.size == required && a.used == a.peak == 0
  {
    a := new JbArena(required);
  }

  /** Closing a workspace fails unless everything was given back and the plan was reached exactly. */
  method WorkspaceEnd(a: JbArena) returns (ok: bool)
    ensures ok <==> a.used == 0 && a.peak == a.size
  {
    ok := a.used == 0 && a.peak == a.size;
  }

  /** A forward pass over all layers and then the scoring of any reads, in a workspace of the planned size: no block
      ever fails to fit, and at the end everything is given back and the peak is exactly the plan. */
  method ForwardPass(a: JbArena, nvfp4: bool, n: nat, past: nat, count: nat, segments: nat, wrapper: bool,
                     scored: seq<Scored>)
    requires a.Valid() && a.used == a.peak == 0
    requires a.size == ForwardBytes(nvfp4, n, past, count, segments, wrapper, MostScored(scored))
    modifies a
    ensures a.Valid() && a.size == old(a.size) && a.used == 0 && a.peak == a.size
  {
    hide LayerNeeds, LayerPlan, MostScored, PlanFrom;
    var size := a.size;
    OneRows(n);
    RowsAligned(n);
    var rows := n * H * FLOAT;
    a.AllocAll([rows]);
    ghost var needs := LayerPlan(nvfp4, n, past, count, segments, wrapper);
    for l := 0 to LAYERS
      invariant a.Valid() && a.size == size && a.used == rows
      invariant a.peak <= rows + needs && (l > 5 ==> a.peak == rows + needs)
    {
      NeedsPlanned(Full(l), nvfp4, n, past, count, segments, wrapper);
      Layer(a, l, nvfp4, n, past, count, segments, wrapper);
      if l == 5 {
        SomeLayerIsFull();
      }
    }
    NoneScored(scored);
    for i := 0 to |scored|
      invariant a.Valid() && a.size == size && a.used == rows
      invariant a.peak == rows + Max(needs, MostScored(scored[..i]))
    {
      ScoredFits(scored, i);
      Score(a, scored[i]);
    }
    assert scored[..|scored|] == scored;
    a.Reset(0);
  }

  /** A whole call: plan, begin, run, end. The end check always passes. */
  method PlannedPass(nvfp4: bool, n: nat, past: nat, count: nat, segments: nat, wrapper: bool, scored: seq<Scored>)
    returns (ok: bool)
    ensures ok
  {
    var tail := MostOf(scored);
    var a := WorkspaceBegin(ForwardBytes(nvfp4, n, past, count, segments, wrapper, tail));
    ForwardPass(a, nvfp4, n, past, count, segments, wrapper, scored);
    ok := WorkspaceEnd(a);
  }

  lemma NoneScored(s: seq<Scored>)
    ensures MostScored(s[..0]) == 0
  {
  }

  method MostOf(scored: seq<Scored>) returns (tail: nat)
    ensures tail == MostScored(scored)
  {
    tail := 0;
    for i := 0 to |scored|
      invariant tail == MostScored(scored[..i])
    {
      ScoredFits(scored, i);
      var one := ScoreBytes(scored[i].job, scored[i].read);
      if one > tail {
        tail := one;
      }
    }
    assert scored[..|scored|] == scored;
  }

  /** The reads `read` up to `read + count` of one job. */
  function SharedReads(job: Job, read: nat, count: nat): (s: seq<Scored>)
    ensures |s| == count
  {
    seq(count, k requires 0 <= k < count => Scored(job, read + k))
  }

  /** The reads that share one decode all need the plan of the first: only the first automatic read scores the whole
      vocabulary, and it runs alone. */
  lemma SharedDecodePlan(job: Job, read: nat, count: nat, k: nat)
    requires k < count && (!job.requested && read == 0 ==> count == 1)
    ensures ScoreSizes(job, read + k) == ScoreSizes(job, read)
  {
  }

  lemma {:induction false} SharedMost(job: Job, read: nat, count: nat)
    requires 0 < count && (!job.requested && read == 0 ==> count == 1)
    ensures MostScored(SharedReads(job, read, count)) == ScoreBytes(job, read)
  {
    hide ScoreSizes, PlanFrom;
    SharedDecodePlan(job, read, count, count - 1);
    var s := SharedReads(job, read, count);
    assert s[..count - 1] == SharedReads(job, read, count - 1);
    if count > 1 {
      SharedMost(job, read, count - 1);
    } else {
      assert s[..0] == [];
    }
  }

  /** A decode that several reads share, with one block planned for scoring: the first read's. Whatever reads share it,
      they are scored in that block and the end check passes. */
  method SharedPass(nvfp4: bool, past: nat, width: nat, groups: nat, job: Job, read: nat, count: nat) returns (ok: bool)
    requires 0 < count && (!job.requested && read == 0 ==> count == 1)
    ensures ok
  {
    hide MostScored;
    var segments := groups * count;
    var n := width * segments;
    SharedMost(job, read, count);
    var a := WorkspaceBegin(ForwardBytes(nvfp4, n, past, width, segments, segments > 1, ScoreBytes(job, read)));
    ForwardPass(a, nvfp4, n, past, width, segments, segments > 1, SharedReads(job, read, count));
    ok := WorkspaceEnd(a);
  }
}
