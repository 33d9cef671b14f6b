/** Reading a prompt several times (jb.c:8229-8243, jb.c:8286-8299, jb.c:8321-8392, jb.c:8484-8526): reads that share
    one decode give what reads that run one after the other give. */
module Reads {
  import opened Transformer
  import opened Segments
  import opened Passes

  const MAX_CTX := 4096
  const AUTOMATIC_READS := 4

  type Total(==, 0, !new)

  /** What a job's reads depend on: its canvases, and how a read's rows are added up and judged. */
  datatype Plan = Plan(
    requested: nat, groups: nat, width: nat,
    /* read r's answer canvases, one group after the other, with that read's random tokens */
    canvas: nat -> seq<int>,
    /* the running totals after a read's rows */
    score: (Total, nat, seq<seq<Row>>) -> Total,
    /* whether the first automatic read was already certain */
    certain: seq<seq<Row>> -> bool)
  {
    ghost predicate Valid() {
      groups * width <= MAX_CTX && 0 < groups * width && forall r: nat :: |canvas(r)| == groups * width
    }

    function MaxReads(): nat {
      if requested > 0 then requested else AUTOMATIC_READS
    }
  }

  /** A job in progress. */
  datatype Progress = Progress(total: Total, taken: nat, active: bool, log: seq<nat>)

  /** The rows of read `r`: every group's canvas decoded alone. */
  ghost function RowsOfRead(net: Net, p: Plan, cache: seq<KvRows>, past: nat, r: nat): (rows: seq<seq<Row>>)
    requires net.window > 0 && Caches(net, cache, past) && p.Valid()
    ensures |rows| == p.groups
  {
    seq(p.groups, g requires 0 <= g < p.groups => CanvasRows(net, Seg(p.canvas(r), g, p.groups, p.width), cache, past))
  }

  /** Scoring one read. */
  function Scored(p: Plan, s: Progress, r: nat, rows: seq<seq<Row>>): Progress {
    Progress(p.score(s.total, r, rows), s.taken + 1, s.active && !(p.requested == 0 && r == 0 && p.certain(rows)),
      s.log + [r])
  }

  /** The sequential loop, from read `r` on: stop after the first automatic read if it was certain. */
  ghost function Sequential(net: Net, p: Plan, cache: seq<KvRows>, past: nat, s: Progress, r: nat): Progress
    requires net.window > 0 && Caches(net, cache, past) && p.Valid()
    decreases p.MaxReads() - r
  {
    if r >= p.MaxReads() || !s.active then s
    else Sequential(net, p, cache, past, Scored(p, s, r, RowsOfRead(net, p, cache, past, r)), r + 1)
  }

  function Upto(n: nat): (r: seq<nat>)
    ensures |r| == n && forall i | 0 <= i < n :: r[i] == i
  {
    seq(n, i => i)
  }

  lemma {:induction false} RestTaken(net: Net, p: Plan, cache: seq<KvRows>, past: nat, s: Progress, r: nat)
    requires net.window > 0 && Caches(net, cache, past) && p.Valid() && r <= p.MaxReads()
    requires s.active && s.taken == r && s.log == Upto(r) && (p.requested > 0 || r > 0)
    ensures var f := Sequential(net, p, cache, past, s, r); f.taken == p.MaxReads() && f.log == Upto(p.MaxReads())
    decreases p.MaxReads() - r
  {
    if r < p.MaxReads() {
      var t := Scored(p, s, r, RowsOfRead(net, p, cache, past, r));
      assert t.log == Upto(r + 1);
      RestTaken(net, p, cache, past, t, r + 1);
    }
  }

  /** Every read runs once and in order: as many as were requested, or else one if it was certain and four if not. */
  lemma ReadsTaken(net: Net, p: Plan, cache: seq<KvRows>, past: nat, total: Total)
    requires net.window > 0 && Caches(net, cache, past) && p.Valid()
    ensures var f := Sequential(net, p, cache, past, Progress(total, 0, true, []), 0);
            && f.log == Upto(f.taken)
            && f.taken == if p.requested > 0 then p.requested
                          else if p.certain(RowsOfRead(net, p, cache, past, 0)) then 1 else 4
  {
    var s := Progress(total, 0, true, []);
    assert s.log == Upto(0);
    if p.requested > 0 {
      RestTaken(net, p, cache, past, s, 0);
    } else {
      var t := Scored(p, s, 0, RowsOfRead(net, p, cache, past, 0));
      assert t.log == Upto(1);
      if t.active {
        RestTaken(net, p, cache, past, t, 1);
      }
    }
  }

  // ----- what the answers are, apart from the loop

  /** `rows(r)` are the rows of read `r`: each of its canvases decoded over the prompt, by itself. */
  ghost predicate ReadRowsAre(net: Net, p: Plan, cache: seq<KvRows>, past: nat, rows: nat -> seq<seq<Row>>)
    requires net.window > 0 && Caches(net, cache, past)
  {
    forall r: nat :: ReadIs(net, p, cache, past, r, rows(r))
  }

  ghost predicate ReadIs(net: Net, p: Plan, cache: seq<KvRows>, past: nat, r: nat, h: seq<seq<Row>>)
    requires net.window > 0 && Caches(net, cache, past)
  {
    && |h| == p.groups
    && forall g: nat | g < p.groups ::
         g * p.width + p.width <= |p.canvas(r)|
         && h[g] == CanvasRows(net, p.canvas(r)[g * p.width..g * p.width + p.width], cache, past)
  }

  /** The totals after the first `n` reads: each read's rows added once, in order. */
  ghost function Added(p: Plan, rows: nat -> seq<seq<Row>>, total: Total, n: nat): Total {
    if n == 0 then total else p.score(Added(p, rows, total, n - 1), n - 1, rows(n - 1))
  }

  /** The answers of a job: as many reads as were requested, or else one if it was certain and four if not, all added,
      in order. */
  ghost predicate Answers(net: Net, p: Plan, cache: seq<KvRows>, past: nat, total: Total, f: Progress)
    requires net.window > 0 && Caches(net, cache, past)
  {
    exists rows: nat -> seq<seq<Row>> ::
      ReadRowsAre(net, p, cache, past, rows)
      && f.taken == (if p.requested > 0 then p.requested else if p.certain(rows(0)) then 1 else 4)
      && f.total == Added(p, rows, total, f.taken)
      && f.log == Upto(f.taken)
      && f.active == (p.requested > 0 || !p.certain(rows(0)))
  }

  lemma RowsOfReadAre(net: Net, p: Plan, cache: seq<KvRows>, past: nat, r: nat)
    requires net.window > 0 && Caches(net, cache, past) && p.Valid()
    ensures ReadIs(net, p, cache, past, r, RowsOfRead(net, p, cache, past, r))
  {
    hide CanvasRows;
    var c, h := p.canvas(r), RowsOfRead(net, p, cache, past, r);
    forall g: nat | g < p.groups
      ensures g * p.width + p.width <= |c|
        && h[g] == CanvasRows(net, c[g * p.width..g * p.width + p.width], cache, past)
    {
      Fits(p.groups, g, p.width);
      SegSlice(c, g, p.groups, p.width, p.width);
      TakeWhole(Seg(c, g, p.groups, p.width));
    }
  }

  lemma {:induction false} RestAdded(net: Net, p: Plan, cache: seq<KvRows>, past: nat, s: Progress, r: nat,
                                     rows: nat -> seq<seq<Row>>, total: Total)
    requires net.window > 0 && Caches(net, cache, past) && p.Valid() && r <= p.MaxReads()
    requires forall i: nat :: rows(i) == RowsOfRead(net, p, cache, past, i)
    requires s.active && s.total == Added(p, rows, total, r) && (p.requested > 0 || r > 0)
    ensures var f := Sequential(net, p, cache, past, s, r);
      f.total == Added(p, rows, total, p.MaxReads()) && f.active
    decreases p.MaxReads() - r
  {
    hide RowsOfRead;
    if r < p.MaxReads() {
      var t := Scored(p, s, r, RowsOfRead(net, p, cache, past, r));
      assert rows(r) == RowsOfRead(net, p, cache, past, r);
      RestAdded(net, p, cache, past, t, r + 1, rows, total);
    }
  }

  /** The loop's answers are those: it scores every read once, in order, with the rows of its own canvases, and adds
      nothing else. */
  lemma AnswersAre(net: Net, p: Plan, cache: seq<KvRows>, past: nat, total: Total)
    requires net.window > 0 && Caches(net, cache, past) && p.Valid()
    ensures Answers(net, p, cache, past, total, Sequential(net, p, cache, past, Progress(total, 0, true, []), 0))
  {
    hide ReadIs, RowsOfRead;
    var rows: nat -> seq<seq<Row>> := (r: nat) => RowsOfRead(net, p, cache, past, r);
    var s := Progress(total, 0, true, []);
    forall r: nat
      ensures ReadIs(net, p, cache, past, r, rows(r))
    {
      RowsOfReadAre(net, p, cache, past, r);
    }
    ReadsTaken(net, p, cache, past, total);
    if p.requested > 0 {
      RestAdded(net, p, cache, past, s, 0, rows, total);
    } else {
      var t := Scored(p, s, 0, RowsOfRead(net, p, cache, past, 0));
      assert t.total == Added(p, rows, total, 1);
      if t.active {
        RestAdded(net, p, cache, past, t, 1, rows, total);
      }
    }
  }

  /** A job that has not read yet. */
  predicate Unread(s: Progress) {
    s.taken == 0 && s.active && s.log == []
  }

  class Job {
    const plan: Plan
    var state: Progress
    var canvas: array<int>

    /** Room for as many reads' canvases as one decode takes. */
    constructor (plan: Plan, total: Total)
      requires plan.Valid()
      ensures this.plan == plan && state == Progress(total, 0, true, []) && fresh(canvas) && Roomy()
    {
      this.plan := plan;
      state := Progress(total, 0, true, []);
      var perRead := plan.groups * plan.width;
      var most := MAX_CTX / perRead;
      var n := plan.MaxReads();
      canvas := new int[perRead * (if most < n then most else n)];
    }

    ghost predicate Roomy()
      requires plan.Valid()
      reads this
    {
      var perRead := plan.groups * plan.width;
      var most := MAX_CTX / perRead;
      canvas.Length == perRead * (if most < plan.MaxReads() then most else plan.MaxReads())
    }

    /** Read `r`'s canvases, `k` reads into the buffer. */
    method FillCanvas(k: nat, r: nat)
      requires plan.Valid() && (k + 1) * (plan.groups * plan.width) <= canvas.Length
      modifies canvas
      ensures var perRead := plan.groups * plan.width;
              k * perRead + perRead == (k + 1) * perRead
              && canvas[..k * perRead] == old(canvas[..k * perRead])
              && canvas[k * perRead..(k + 1) * perRead] == plan.canvas(r)
              && canvas[(k + 1) * perRead..] == old(canvas[(k + 1) * perRead..])
    {
      var perRead := plan.groups * plan.width;
      assert (k + 1) * perRead == k * perRead + perRead;
      var tokens := plan.canvas(r);
      for i := 0 to perRead
        invariant canvas[..k * perRead] == old(canvas[..k * perRead])
        invariant canvas[k * perRead..k * perRead + i] == tokens[..i]
        invariant canvas[(k + 1) * perRead..] == old(canvas[(k + 1) * perRead..])
      {
        canvas[k * perRead + i] := tokens[i];
      }
    }

    method Score(r: nat, rows: seq<seq<Row>>)
      modifies this`state
      ensures state == Scored(plan, old(state), r, rows)
    {
      state := Scored(plan, state, r, rows);
    }
  }

  /** A segment's rows, read out of a decode's buffer. */
  method ReadSegment(x: seq<Row>, s: nat, segments: nat, count: nat) returns (rows: seq<Row>)
    requires |x| == segments * count && s < segments
    ensures rows == Seg(x, s, segments, count)
  {
    Fits(segments, s, count);
    SegSlice(x, s, segments, count, count);
    assert Seg(x, s, segments, count)[..count] == Seg(x, s, segments, count);
    rows := x[s * count..s * count + count];
  }

  /** One group's canvas on its own. */
  method DecodeGroup(net: Net, p: Plan, cache: seq<KvRows>, ghost past: nat, tokens: seq<int>, g: nat)
    returns (rows: seq<Row>)
    requires net.window > 0 && Caches(net, cache, past) && |tokens| == p.groups * p.width && g < p.groups
    ensures rows == CanvasRows(net, Seg(tokens, g, p.groups, p.width), cache, past)
  {
    hide Seg, CanvasRows, Caches;
    Fits(p.groups, g, p.width);
    SegSlice(tokens, g, p.groups, p.width, p.width);
    var one := tokens[g * p.width..g * p.width + p.width];
    TakeWhole(Seg(tokens, g, p.groups, p.width));
    SegOfOne(one);
    var x := Decode(net, cache, past, one, p.width, 1);
    SegOfOne(x[..]);
    rows := x[..];
  }

  method DecodeGroups(net: Net, p: Plan, cache: seq<KvRows>, ghost past: nat, r: nat) returns (h: seq<seq<Row>>)
    requires net.window > 0 && Caches(net, cache, past) && p.Valid()
    ensures h == RowsOfRead(net, p, cache, past, r)
  {
    hide Seg, CanvasRows, Caches;
    var tokens := p.canvas(r);
    h := [];
    for g := 0 to p.groups
      invariant h == RowsOfRead(net, p, cache, past, r)[..g]
    {
      var rows := DecodeGroup(net, p, cache, past, tokens, g);
      h := h + [rows];
    }
  }

  /** The reads one after the other, and each group's canvas on its own. */
  method RunSequential(net: Net, job: Job, cache: seq<KvRows>, ghost past: nat)
    requires net.window > 0 && Caches(net, cache, past) && job.plan.Valid() && job.Roomy() && job.state.active
    modifies job`state, job.canvas
    ensures job.state == Sequential(net, job.plan, cache, past, old(job.state), 0)
    ensures Unread(old(job.state)) ==> Answers(net, job.plan, cache, past, old(job.state).total, job.state)
  {
    hide Seg, CanvasRows, Plan.Valid, Caches, Job.Roomy, Answers;
    if Unread(job.state) {
      AnswersAre(net, job.plan, cache, past, job.state.total);
    }
    var p := job.plan;
    for r := 0 to p.MaxReads()
      invariant job.state.active
      invariant Sequential(net, p, cache, past, job.state, r) == Sequential(net, p, cache, past, old(job.state), 0)
    {
      PlanFacts(p, r);
      var h := DecodeGroups(net, p, cache, past, r);
      job.Score(r, h);
      if !job.state.active {
        return;
      }
    }
  }

  lemma TakeWhole<T>(s: seq<T>)
    ensures s[..|s|] == s
  {
  }

  lemma PlanFacts(p: Plan, r: nat)
    requires p.Valid()
    ensures |p.canvas(r)| == p.groups * p.width && 0 < p.groups * p.width <= MAX_CTX
  {
  }

  /** How many reads share the next decode. */
  function Share(p: Plan, r: nat): (n: nat)
    requires p.Valid() && r < p.MaxReads()
    ensures 0 < n <= p.MaxReads() - r && n <= MAX_CTX / (p.groups * p.width)
    ensures p.requested == 0 && r == 0 ==> n == 1
  {
    var want := if p.requested == 0 && r == 0 then 1 else p.MaxReads() - r;
    var most := MAX_CTX / (p.groups * p.width);
    AtLeastOne(p.groups * p.width);
    if want > most then most else want
  }

  /** The first automatic read is alone. Otherwise the decode takes the rest of the reads, or as many as the context
      holds. */
  lemma ShareIsMost(p: Plan, r: nat)
    requires p.Valid() && r < p.MaxReads()
    ensures p.requested == 0 && r == 0 ==> Share(p, r) == 1
    ensures Share(p, r) * (p.groups * p.width) <= 4096
    ensures p.requested > 0 || r > 0 ==>
      var all := if p.requested > 0 then p.requested else 4;
      r + Share(p, r) == all || (Share(p, r) + 1) * (p.groups * p.width) > 4096
  {
    var gw, n := p.groups * p.width, Share(p, r);
    var most := MAX_CTX / gw;
    assert MAX_CTX == most * gw + MAX_CTX % gw;
    Product(n, most, gw);
    assert (n + 1) * gw == n * gw + gw;
  }

  lemma AtLeastOne(perRead: nat)
    requires 0 < perRead <= MAX_CTX
    ensures MAX_CTX / perRead >= 1
  {
    var q := MAX_CTX / perRead;
    assert MAX_CTX == q * perRead + MAX_CTX % perRead;
  }

  lemma SharedIndex(groups: nat, width: nat, count: nat, k: nat, g: nat, t: nat)
    requires k < count && g < groups && t < width
    ensures k * groups + g < groups * count
    ensures At(k * groups + g, t, groups * count, width) == k * (groups * width) + At(g, t, groups, width)
  {
    Fits(count, k, groups);
    assert groups * count == count * groups;
    assert (k * groups + g) * width == k * (groups * width) + g * width;
  }

  /** Segment `k * groups + g` of the reads' canvases side by side is group `g` of read `k`. */
  lemma SharedSegment(tokens: seq<int>, one: seq<int>, groups: nat, width: nat, count: nat, k: nat, g: nat)
    requires k < count && g < groups && |tokens| == (groups * count) * width && |one| == groups * width
    requires k * (groups * width) + groups * width <= |tokens|
    requires tokens[k * (groups * width)..k * (groups * width) + groups * width] == one
    ensures k * groups + g < groups * count
    ensures Seg(tokens, k * groups + g, groups * count, width) == Seg(one, g, groups, width)
  {
    hide At;
    Fits(count, k, groups);
    assert groups * count == count * groups;
    var s, base, perRead := k * groups + g, k * (groups * width), groups * width;
    forall t | 0 <= t < width
      ensures Seg(tokens, s, groups * count, width)[t] == Seg(one, g, groups, width)[t]
    {
      SharedIndex(groups, width, count, k, g, t);
      SliceAt(tokens, base, perRead, At(g, t, groups, width));
    }
  }

  lemma SliceAt(tokens: seq<int>, base: nat, n: nat, i: nat)
    requires i < n && base + n <= |tokens|
    ensures tokens[base..base + n][i] == tokens[base + i]
  {
  }

  /** The buffer holds the canvases of reads `r` up to `r + count`. */
  ghost predicate Filled(p: Plan, canvas: seq<int>, r: nat, count: nat)
    requires p.Valid()
  {
    forall k | 0 <= k < count ::
      k * (p.groups * p.width) + p.groups * p.width <= |canvas|
      && canvas[k * (p.groups * p.width)..k * (p.groups * p.width) + p.groups * p.width] == p.canvas(r + k)
  }

  lemma FilledStep(p: Plan, before: seq<int>, after: seq<int>, r: nat, k: nat)
    requires p.Valid() && Filled(p, before, r, k) && |after| == |before|
    requires k * (p.groups * p.width) + p.groups * p.width <= |after|
    requires after[..k * (p.groups * p.width)] == before[..k * (p.groups * p.width)]
    requires after[k * (p.groups * p.width)..k * (p.groups * p.width) + p.groups * p.width] == p.canvas(r + k)
    ensures Filled(p, after, r, k + 1)
  {
    var gw := p.groups * p.width;
    forall i | 0 <= i < k + 1
      ensures i * gw + gw <= |after| && after[i * gw..i * gw + gw] == p.canvas(r + i)
    {
      if i < k {
        Fits(k, i, gw);
        assert before[i * gw..i * gw + gw] == before[..k * gw][i * gw..i * gw + gw];
        assert after[i * gw..i * gw + gw] == after[..k * gw][i * gw..i * gw + gw];
      }
    }
  }

  lemma FilledPrefix(p: Plan, canvas: seq<int>, r: nat, count: nat, n: nat)
    requires p.Valid() && Filled(p, canvas, r, count) && n == count * (p.groups * p.width) <= |canvas|
    ensures Filled(p, canvas[..n], r, count)
  {
    var gw := p.groups * p.width;
    forall k | 0 <= k < count
      ensures k * gw + gw <= n && canvas[..n][k * gw..k * gw + gw] == p.canvas(r + k)
    {
      Fits(count, k, gw);
      assert canvas[..n][k * gw..k * gw + gw] == canvas[k * gw..k * gw + gw];
    }
  }

  /** A decode's canvases fit the buffer and the context. */
  lemma ShareFits(p: Plan, r: nat, length: nat)
    requires p.Valid() && r < p.MaxReads()
    requires var most := MAX_CTX / (p.groups * p.width);
             length == p.groups * p.width * (if most < p.MaxReads() then most else p.MaxReads())
    ensures Share(p, r) * (p.groups * p.width) <= length
    ensures Share(p, r) * (p.groups * p.width) <= MAX_CTX
  {
    var gw, most := p.groups * p.width, MAX_CTX / (p.groups * p.width);
    var room := if most < p.MaxReads() then most else p.MaxReads();
    Product(Share(p, r), room, gw);
    Product(Share(p, r), most, gw);
    assert MAX_CTX == most * gw + MAX_CTX % gw;
  }

  lemma Product(a: nat, b: nat, c: nat)
    requires a <= b
    ensures a * c <= b * c == c * b
  {
    assert b * c == a * c + (b - a) * c;
  }

  method FillAll(job: Job, r: nat, count: nat)
    requires job.plan.Valid() && count * (job.plan.groups * job.plan.width) <= job.canvas.Length
    modifies job.canvas
    ensures Filled(job.plan, job.canvas[..], r, count)
  {
    hide Filled, Plan.Valid;
    var p := job.plan;
    var gw := p.groups * p.width;
    NothingFilled(p, job.canvas[..], r);
    for k := 0 to count
      invariant Filled(p, job.canvas[..], r, k)
    {
      Fits(count, k, gw);
      ghost var before := job.canvas[..];
      job.FillCanvas(k, r + k);
      assert k * gw + gw == (k + 1) * gw;
      assert job.canvas[..][..k * gw] == job.canvas[..k * gw];
      FilledStep(p, before, job.canvas[..], r, k);
    }
  }

  lemma NothingFilled(p: Plan, canvas: seq<int>, r: nat)
    requires p.Valid()
    ensures Filled(p, canvas, r, 0)
  {
  }

  /** The groups of one read, read out of a shared decode. */
  method ReadRows(net: Net, p: Plan, cache: seq<KvRows>, ghost past: nat, tokens: seq<int>, x: seq<Row>, r: nat,
                  count: nat, k: nat) returns (h: seq<seq<Row>>)
    requires net.window > 0 && Caches(net, cache, past) && p.Valid() && k < count
    requires |tokens| == |x| == (p.groups * count) * p.width && Filled(p, tokens, r, count)
    requires forall s | 0 <= s < p.groups * count ::
               Seg(x, s, p.groups * count, p.width)
                 == CanvasRows(net, Seg(tokens, s, p.groups * count, p.width), cache, past)
    ensures h == RowsOfRead(net, p, cache, past, r + k)
  {
    hide Seg, CanvasRows, Caches;
    h := [];
    for g := 0 to p.groups
      invariant h == RowsOfRead(net, p, cache, past, r + k)[..g]
    {
      SharedSegment(tokens, p.canvas(r + k), p.groups, p.width, count, k, g);
      var rows := ReadSegment(x, k * p.groups + g, p.groups * count, p.width);
      h := h + [rows];
    }
  }

  /** Decodes the canvases of `count` reads in one pass. */
  method DecodeShared(net: Net, job: Job, cache: seq<KvRows>, ghost past: nat, r: nat, count: nat)
    returns (tokens: seq<int>, x: seq<Row>)
    requires net.window > 0 && Caches(net, cache, past) && job.plan.Valid()
    requires count * (job.plan.groups * job.plan.width) <= job.canvas.Length
    modifies job.canvas
    ensures var p := job.plan;
            && |tokens| == |x| == (p.groups * count) * p.width && Filled(p, tokens, r, count)
            && forall s | 0 <= s < p.groups * count ::
                 Seg(x, s, p.groups * count, p.width)
                   == CanvasRows(net, Seg(tokens, s, p.groups * count, p.width), cache, past)
  {
    hide Seg, CanvasRows, Caches, Filled;
    var p := job.plan;
    FillAll(job, r, count);
    var n := count * (p.groups * p.width);
    tokens := job.canvas[..n];
    FilledPrefix(p, job.canvas[..], r, count, n);
    assert n == (p.groups * count) * p.width;
    var rows := Decode(net, cache, past, tokens, p.width, p.groups * count);
    x := rows[..];
  }

  lemma SequentialStep(net: Net, p: Plan, cache: seq<KvRows>, past: nat, s: Progress, r: nat)
    requires net.window > 0 && Caches(net, cache, past) && p.Valid() && r < p.MaxReads() && s.active
    ensures var t := Scored(p, s, r, RowsOfRead(net, p, cache, past, r));
            && Sequential(net, p, cache, past, s, r) == Sequential(net, p, cache, past, t, r + 1)
            && (p.requested > 0 || r > 0 ==> t.active)
  {
  }

  lemma SequentialDone(net: Net, p: Plan, cache: seq<KvRows>, past: nat, s: Progress, r: nat)
    requires net.window > 0 && Caches(net, cache, past) && p.Valid() && (r >= p.MaxReads() || !s.active)
    ensures Sequential(net, p, cache, past, s, r) == s
  {
  }

  /** The reads in shared decodes: as many at once as the context takes, the first automatic one alone. The totals, the
      number of reads, their order and where they stop are those of the sequential loop. */
  method RunShared(net: Net, job: Job, cache: seq<KvRows>, ghost past: nat)
    requires net.window > 0 && Caches(net, cache, past) && job.plan.Valid() && job.Roomy() && job.state.active
    modifies job`state, job.canvas
    ensures job.state == Sequential(net, job.plan, cache, past, old(job.state), 0)
    ensures Unread(old(job.state)) ==> Answers(net, job.plan, cache, past, old(job.state).total, job.state)
  {
    hide Seg, CanvasRows, Caches, Filled, Share, RowsOfRead, Sequential, Scored, Plan.Valid, Answers;
    if Unread(job.state) {
      AnswersAre(net, job.plan, cache, past, job.state.total);
    }
    var p := job.plan;
    var r: nat := 0;
    while r < p.MaxReads() && job.state.active
      invariant r <= p.MaxReads()
      invariant Sequential(net, p, cache, past, job.state, r) == Sequential(net, p, cache, past, old(job.state), 0)
      decreases p.MaxReads() - r
    {
      var count := Share(p, r);
      ShareFits(p, r, job.canvas.Length);
      var tokens, x := DecodeShared(net, job, cache, past, r, count);
      for k := 0 to count
        invariant k < count ==> job.state.active
        invariant Sequential(net, p, cache, past, job.state, r + k)
          == Sequential(net, p, cache, past, old(job.state), 0)
      {
        var h := ReadRows(net, p, cache, past, tokens, x, r, count, k);
        SequentialStep(net, p, cache, past, job.state, r + k);
        job.Score(r + k, h);
      }
      r := r + count;
    }
    SequentialDone(net, p, cache, past, job.state, r);
  }
}
