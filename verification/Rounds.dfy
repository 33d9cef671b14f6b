/** The decode rounds of a microbatch (jb.c:8690-8730): in each round the jobs that still read are decoded together,
    every job's canvases over its own document's cache. Each job ends as it would alone. */
module Rounds {
  import opened Transformer
  import opened Segments
  import opened Engine
  import opened Passes
  import opened Reads

  /** The jobs of a batch: what each reads from, all canvases of one width. */
  datatype Jobs = Jobs(plans: seq<Plan>, width: nat, caches: seq<seq<KvRows>>, past: seq<nat>) {
    ghost predicate Valid(net: Net) {
      && |plans| == |caches| && CachesAll(net, caches, past) && width > 0
      && forall b | 0 <= b < |plans| :: plans[b].Valid() && plans[b].width == width
    }
  }

  /** Whether a job takes part in round `r`. */
  predicate Live(p: Plan, s: Progress, r: nat) {
    s.active && r < p.MaxReads()
  }

  /** Segment `i` of a buffer of canvases. */
  function Piece(x: seq<int>, i: nat, width: nat): (piece: seq<int>)
    requires i * width + width <= |x|
    ensures |piece| == width
  {
    x[i * width..i * width + width]
  }

  lemma PieceIsSeg(x: seq<int>, i: nat, segments: nat, width: nat)
    requires |x| == segments * width && i < segments
    ensures i * width + width <= |x| && Piece(x, i, width) == Seg(x, i, segments, width)
  {
    Fits(segments, i, width);
    SegSlice(x, i, segments, width, width);
    assert Seg(x, i, segments, width)[..width] == Seg(x, i, segments, width);
  }

  lemma PieceKept(x: seq<int>, more: seq<int>, i: nat, width: nat)
    requires i * width + width <= |x|
    ensures i * width + width <= |x + more| && Piece(x + more, i, width) == Piece(x, i, width)
  {
  }

  /** Job `b`'s first `g` canvases of round `r` lie from segment `at` on. */
  ghost predicate LaidJob(p: Plan, width: nat, r: nat, tokens: seq<int>, doc: seq<nat>, b: nat, at: nat, g: nat)
    requires p.Valid() && p.width == width && g <= p.groups
  {
    && at + g <= |doc| && |tokens| == |doc| * width
    && forall i: nat {:trigger Matching(p, width, r, tokens, doc, b, at, i)} | i < g ::
      Matching(p, width, r, tokens, doc, b, at, i)
  }

  /** Segment `at + i` is job `b`'s canvas `i`. */
  ghost predicate Matching(p: Plan, width: nat, r: nat, tokens: seq<int>, doc: seq<nat>, b: nat, at: nat, i: nat) {
    && at + i < |doc| && doc[at + i] == b && (at + i) * width + width <= |tokens| && i * width + width <= |p.canvas(r)|
    && Piece(tokens, at + i, width) == Piece(p.canvas(r), i, width)
  }

  lemma LaidJobKept(p: Plan, width: nat, r: nat, tokens: seq<int>, doc: seq<nat>, b: nat, at: nat, g: nat,
                    more: seq<int>, docs: seq<nat>)
    requires p.Valid() && p.width == width && g <= p.groups && LaidJob(p, width, r, tokens, doc, b, at, g)
    requires |more| == |docs| * width
    ensures LaidJob(p, width, r, tokens + more, doc + docs, b, at, g)
  {
    hide Plan.Valid, Piece;
    assert |doc + docs| * width == |doc| * width + |docs| * width;
    forall i: nat | i < g
      ensures Matching(p, width, r, tokens + more, doc + docs, b, at, i)
    {
      assert Matching(p, width, r, tokens, doc, b, at, i);
      PieceKept(tokens, more, at + i, width);
    }
  }

  /** The round's canvases of the jobs before `n`: where each live one's begin, -1 for the others. */
  ghost predicate Laid(net: Net, j: Jobs, states: seq<Progress>, r: nat, tokens: seq<int>, doc: seq<nat>,
                       base: seq<int>)
    requires j.Valid(net) && |states| == |j.plans|
  {
    && |base| <= |j.plans| && |tokens| == |doc| * j.width && (forall s | 0 <= s < |doc| :: doc[s] < |base|)
    && forall b | 0 <= b < |base| ::
         if Live(j.plans[b], states[b], r) then base[b] >= 0
           && LaidJob(j.plans[b], j.width, r, tokens, doc, b, base[b], j.plans[b].groups)
         else base[b] == -1
  }

  /** Lays out one job's canvases. */
  method LayJob(p: Plan, width: nat, r: nat, tokens: seq<int>, doc: seq<nat>, b: nat)
    returns (tokens': seq<int>, doc': seq<nat>)
    requires p.Valid() && p.width == width && |tokens| == |doc| * width
    ensures LaidJob(p, width, r, tokens', doc', b, |doc|, p.groups)
    ensures tokens <= tokens' && doc <= doc' && |tokens'| == |doc'| * width
    ensures |doc'| == |doc| + p.groups && forall s | |doc| <= s < |doc'| :: doc'[s] == b
  {
    hide LaidJob, Plan.Valid;
    PlanFacts(p, r);
    var canvas := p.canvas(r);
    tokens', doc' := tokens, doc;
    NoneLaid(p, width, r, tokens, doc, b);
    for g: nat := 0 to p.groups
      invariant |doc'| == |doc| + g && |tokens'| == |doc'| * width && tokens <= tokens' && doc <= doc'
      invariant forall s | |doc| <= s < |doc'| :: doc'[s] == b
      invariant LaidJob(p, width, r, tokens', doc', b, |doc|, g)
    {
      Fits(p.groups, g, width);
      LayOne(p, width, r, tokens', doc', b, |doc|, g);
      tokens' := tokens' + canvas[g * width..g * width + width];
      doc' := doc' + [b];
    }
  }

  lemma NoneLaid(p: Plan, width: nat, r: nat, tokens: seq<int>, doc: seq<nat>, b: nat)
    requires p.Valid() && p.width == width && |tokens| == |doc| * width
    ensures LaidJob(p, width, r, tokens, doc, b, |doc|, 0)
  {
  }

  lemma LayOne(p: Plan, width: nat, r: nat, tokens: seq<int>, doc: seq<nat>, b: nat, at: nat, g: nat)
    requires p.Valid() && p.width == width && g < p.groups && LaidJob(p, width, r, tokens, doc, b, at, g)
      && |doc| == at + g
    ensures g * width + width <= |p.canvas(r)|
    ensures |tokens| + width == (|doc| + 1) * width
    ensures LaidJob(p, width, r, tokens + p.canvas(r)[g * width..g * width + width], doc + [b], b, at, g + 1)
  {
    PlanFacts(p, r);
    Fits(p.groups, g, width);
    var piece := Piece(p.canvas(r), g, width);
    LaidJobKept(p, width, r, tokens, doc, b, at, g, piece, [b]);
    assert (|doc| + 1) * width == |doc| * width + width;
    assert Piece(tokens + piece, |doc|, width) == piece;
    assert Matching(p, width, r, tokens + piece, doc + [b], b, at, g);
  }

  /** The groups of all jobs: the segments that the round's arrays have room for. */
  function Groups(plans: seq<Plan>): nat {
    if plans == [] then 0 else Groups(plans[..|plans| - 1]) + plans[|plans| - 1].groups
  }

  /** Lays out the canvases of every live job: never more of them than the arrays have room for. */
  method LayRound(net: Net, j: Jobs, states: seq<Progress>, r: nat)
    returns (tokens: seq<int>, doc: seq<nat>, base: seq<int>)
    requires j.Valid(net) && |states| == |j.plans|
    ensures Laid(net, j, states, r, tokens, doc, base) && |base| == |j.plans|
    ensures |doc| <= Groups(j.plans)
  {
    hide Laid, LaidJob, Jobs.Valid, Plan.Valid;
    tokens, doc, base := [], [], [];
    NothingLaid(net, j, states, r);
    for b: nat := 0 to |j.plans|
      invariant |base| == b && |tokens| == |doc| * j.width && Laid(net, j, states, r, tokens, doc, base)
      invariant |doc| <= Groups(j.plans[..b])
    {
      JobFacts(net, j, b);
      ghost var t, d := tokens, doc;
      var at := -1;
      if Live(j.plans[b], states[b], r) {
        at := |doc|;
        tokens, doc := LayJob(j.plans[b], j.width, r, tokens, doc, b);
      }
      LaidMore(net, j, states, r, t, d, base, tokens, doc, at);
      base := base + [at];
      assert j.plans[..b + 1][..b] == j.plans[..b];
    }
    assert j.plans[..|j.plans|] == j.plans;
  }

  lemma JobFacts(net: Net, j: Jobs, b: nat)
    requires j.Valid(net) && b < |j.plans|
    ensures j.plans[b].Valid() && j.plans[b].width == j.width && |j.caches| == |j.past| == |j.plans|
    ensures Caches(net, j.caches[b], j.past[b])
  {
  }

  lemma JobsLength(net: Net, j: Jobs)
    requires j.Valid(net)
    ensures |j.plans| == |j.caches| == |j.past|
  {
  }

  lemma NothingLaid(net: Net, j: Jobs, states: seq<Progress>, r: nat)
    requires j.Valid(net) && |states| == |j.plans|
    ensures Laid(net, j, states, r, [], [], [])
  {
  }

  lemma LaidMore(net: Net, j: Jobs, states: seq<Progress>, r: nat, tokens: seq<int>, doc: seq<nat>, base: seq<int>,
                 tokens': seq<int>, doc': seq<nat>, at: int)
    requires j.Valid(net) && |states| == |j.plans| && Laid(net, j, states, r, tokens, doc, base) && |base| < |j.plans|
    requires tokens <= tokens' && doc <= doc' && |tokens'| == |doc'| * j.width
    requires forall s | |doc| <= s < |doc'| :: doc'[s] == |base|
    requires j.plans[|base|].Valid() && j.plans[|base|].width == j.width
    requires if Live(j.plans[|base|], states[|base|], r)
             then at >= 0 && LaidJob(j.plans[|base|], j.width, r, tokens', doc', |base|, at, j.plans[|base|].groups)
             else at == -1
    ensures Laid(net, j, states, r, tokens', doc', base + [at])
  {
    var more, docs := tokens'[|tokens|..], doc'[|doc|..];
    assert tokens' == tokens + more && doc' == doc + docs;
    assert |more| == |docs| * j.width by {
      assert |doc'| * j.width == |doc| * j.width + |docs| * j.width;
    }
    hide LaidJob, Plan.Valid;
    forall i | 0 <= i < |base| && Live(j.plans[i], states[i], r)
      ensures j.plans[i].Valid() && j.plans[i].width == j.width
      ensures base[i] >= 0 && LaidJob(j.plans[i], j.width, r, tokens', doc', i, base[i], j.plans[i].groups)
    {
      LaidJobKept(j.plans[i], j.width, r, tokens, doc, i, base[i], j.plans[i].groups, more, docs);
    }
  }

  /** The rows of a job, read out of the round's decode, are those of its read alone. */
  method JobRows(net: Net, p: Plan, cache: seq<KvRows>, ghost past: nat, tokens: seq<int>, doc: seq<nat>, x: seq<Row>,
                 ghost caches: seq<seq<KvRows>>, ghost pasts: seq<nat>, b: nat, at: nat, r: nat)
                 returns (h: seq<seq<Row>>)
    requires net.window > 0 && Caches(net, cache, past) && p.Valid()
    requires LaidJob(p, p.width, r, tokens, doc, b, at, p.groups) && |x| == |doc| * p.width
    requires CachesAll(net, caches, pasts) && |caches| == |doc|
    requires forall s | 0 <= s < |doc| && doc[s] == b :: caches[s] == cache && pasts[s] == past
    requires forall s | 0 <= s < |doc| ::
      Seg(x, s, |doc|, p.width) == CanvasRows(net, Seg(tokens, s, |doc|, p.width), caches[s], pasts[s])
    ensures h == RowsOfRead(net, p, cache, past, r)
  {
    hide Seg, CanvasRows, Caches;
    h := [];
    for g: nat := 0 to p.groups
      invariant h == RowsOfRead(net, p, cache, past, r)[..g]
    {
      assert Matching(p, p.width, r, tokens, doc, b, at, g);
      PieceIsSeg(tokens, at + g, |doc|, p.width);
      PieceIsSeg(p.canvas(r), g, p.groups, p.width);
      var rows := ReadSegment(x, at + g, |doc|, p.width);
      h := h + [rows];
    }
  }

  /** The most reads any job may take. */
  method MostReads(plans: seq<Plan>) returns (most: nat)
    ensures forall b | 0 <= b < |plans| :: plans[b].MaxReads() <= most
  {
    most := 0;
    for b: nat := 0 to |plans|
      invariant forall i | 0 <= i < b :: plans[i].MaxReads() <= most
    {
      if plans[b].MaxReads() > most {
        most := plans[b].MaxReads();
      }
    }
  }

  /** Each segment of a round is over its own document's cache. */
  method DocumentCaches(net: Net, j: Jobs, doc: seq<nat>) returns (caches: seq<seq<KvRows>>, ghost pasts: seq<nat>)
    requires j.Valid(net) && forall s | 0 <= s < |doc| :: doc[s] < |j.plans|
    ensures |caches| == |doc| && CachesAll(net, caches, pasts)
    ensures forall s | 0 <= s < |doc| :: caches[s] == j.caches[doc[s]] && pasts[s] == j.past[doc[s]]
  {
    hide Caches, Plan.Valid;
    caches, pasts := [], [];
    for s: nat := 0 to |doc|
      invariant |caches| == |pasts| == s
      invariant forall i | 0 <= i < s :: caches[i] == j.caches[doc[i]] && pasts[i] == j.past[doc[i]]
    {
      caches, pasts := caches + [j.caches[doc[s]]], pasts + [j.past[doc[s]]];
    }
  }

  lemma LaidMeans(net: Net, j: Jobs, states: seq<Progress>, r: nat, tokens: seq<int>, doc: seq<nat>, base: seq<int>)
    requires j.Valid(net) && |states| == |j.plans| == |base| && Laid(net, j, states, r, tokens, doc, base)
    ensures |tokens| == |doc| * j.width && forall s | 0 <= s < |doc| :: doc[s] < |j.plans|
  {
    hide LaidJob;
  }

  lemma LaidAt(net: Net, j: Jobs, states: seq<Progress>, r: nat, tokens: seq<int>, doc: seq<nat>, base: seq<int>,
               b: nat)
    requires j.Valid(net) && |states| == |j.plans| == |base| && b < |base| && Laid(net, j, states, r, tokens, doc, base)
    ensures j.plans[b].Valid() && j.plans[b].width == j.width && Caches(net, j.caches[b], j.past[b])
    ensures base[b] >= 0 <==> Live(j.plans[b], states[b], r)
    ensures base[b] >= 0 ==> LaidJob(j.plans[b], j.width, r, tokens, doc, b, base[b], j.plans[b].groups)
  {
    hide LaidJob;
  }

  /** A job that takes no part in a round is done. */
  lemma IdleStep(net: Net, p: Plan, cache: seq<KvRows>, past: nat, s: Progress, r: nat)
    requires net.window > 0 && Caches(net, cache, past) && p.Valid() && !Live(p, s, r)
    ensures Sequential(net, p, cache, past, s, r) == s == Sequential(net, p, cache, past, s, r + 1)
  {
    SequentialDone(net, p, cache, past, s, r);
    SequentialDone(net, p, cache, past, s, r + 1);
  }

  /** One job of the batch is where its own sequential loop is. */
  ghost predicate JobInStep(net: Net, j: Jobs, b: nat, s: Progress, start: Progress, r: nat)
    requires net.window > 0 && j.Valid(net) && b < |j.plans|
  {
    Caches(net, j.caches[b], j.past[b])
    && Sequential(net, j.plans[b], j.caches[b], j.past[b], s, r)
       == Sequential(net, j.plans[b], j.caches[b], j.past[b], start, 0)
  }

  /** One round: it decodes the canvases of all live jobs together and scores each; `any` says if there were some. */
  method RunRound(net: Net, j: Jobs, states: array<Progress>, r: nat, ghost start: seq<Progress>) returns (any: bool)
    requires net.window > 0 && j.Valid(net) && states.Length == |j.plans| == |start|
    requires forall b | 0 <= b < |start| :: JobInStep(net, j, b, states[b], start[b], r)
    modifies states
    ensures forall b | 0 <= b < |start| :: JobInStep(net, j, b, states[b], start[b], if any then r + 1 else r)
    ensures !any ==> states[..] == old(states[..]) && forall b | 0 <= b < |start| :: !Live(j.plans[b], states[b], r)
  {
    hide Laid, LaidJob, JobInStep, Caches, Plan.Valid, Jobs.Valid, CachesAll, Scored, Seg, CanvasRows;
    ghost var before := states[..];
    var tokens, doc, base := LayRound(net, j, states[..], r);
    LaidMeans(net, j, before, r, tokens, doc, base);
    if |doc| == 0 {
      forall b | 0 <= b < |start|
        ensures !Live(j.plans[b], before[b], r)
      {
        NothingLive(net, j, before, r, tokens, doc, base, b);
      }
      return false;
    }
    var caches, pasts := DocumentCaches(net, j, doc);
    CachesLength(net, caches, pasts);
    var rows := DecodeMulti(net, |doc|, j.width, tokens, caches, pasts);
    var x := rows[..];
    for b: nat := 0 to |j.plans|
      invariant forall i | 0 <= i < b :: JobInStep(net, j, i, states[i], start[i], r + 1)
      invariant forall i | b <= i < |start| :: states[i] == before[i]
    {
      LaidAt(net, j, before, r, tokens, doc, base, b);
      JobFacts(net, j, b);
      if base[b] >= 0 {
        var h := JobRows(net, j.plans[b], j.caches[b], j.past[b], tokens, doc, x, caches, pasts, b, base[b], r);
        LiveStep(net, j, b, before[b], start[b], r);
        states[b] := Scored(j.plans[b], states[b], r, h);
      } else {
        RestStep(net, j, b, before[b], start[b], r);
      }
    }
    return true;
  }

  lemma CachesLength(net: Net, caches: seq<seq<KvRows>>, pasts: seq<nat>)
    requires CachesAll(net, caches, pasts)
    ensures |caches| == |pasts| && forall s | 0 <= s < |caches| :: Caches(net, caches[s], pasts[s])
  {
  }

  lemma NothingLive(net: Net, j: Jobs, states: seq<Progress>, r: nat, tokens: seq<int>, doc: seq<nat>, base: seq<int>,
                    b: nat)
    requires j.Valid(net) && |states| == |j.plans| == |base| && b < |base|
      && Laid(net, j, states, r, tokens, doc, base) && doc == []
    ensures !Live(j.plans[b], states[b], r)
  {
    LaidAt(net, j, states, r, tokens, doc, base, b);
    PlanFacts(j.plans[b], 0);
    assert j.plans[b].groups > 0;
  }

  lemma LiveStep(net: Net, j: Jobs, b: nat, s: Progress, start: Progress, r: nat)
    requires net.window > 0 && j.Valid(net) && b < |j.plans| && JobInStep(net, j, b, s, start, r)
      && Live(j.plans[b], s, r)
    ensures Caches(net, j.caches[b], j.past[b]) && j.plans[b].Valid()
    ensures JobInStep(net, j, b, Scored(j.plans[b], s, r, RowsOfRead(net, j.plans[b], j.caches[b], j.past[b], r)),
      start, r + 1)
  {
    SequentialStep(net, j.plans[b], j.caches[b], j.past[b], s, r);
  }

  lemma RestStep(net: Net, j: Jobs, b: nat, s: Progress, start: Progress, r: nat)
    requires net.window > 0 && j.Valid(net) && b < |j.plans| && JobInStep(net, j, b, s, start, r)
      && !Live(j.plans[b], s, r)
    ensures JobInStep(net, j, b, s, start, r + 1)
    ensures Caches(net, j.caches[b], j.past[b]) && j.plans[b].Valid()
    ensures s == Sequential(net, j.plans[b], j.caches[b], j.past[b], start, 0)
  {
    IdleStep(net, j.plans[b], j.caches[b], j.past[b], s, r);
  }

  /** All rounds of a microbatch: jobs drop out when they are done, and every job's totals, reads and order end as
      those of its own sequential loop. */
  method RunRounds(net: Net, j: Jobs, states: array<Progress>)
    requires net.window > 0 && j.Valid(net) && states.Length == |j.plans|
    modifies states
    ensures forall b | 0 <= b < |j.plans| :: j.plans[b].Valid() && Caches(net, j.caches[b], j.past[b])
    ensures forall b | 0 <= b < |j.plans| ::
      states[b] == Sequential(net, j.plans[b], j.caches[b], j.past[b], old(states[b]), 0)
    ensures forall b | 0 <= b < |j.plans| && Unread(old(states[b])) ::
      Answers(net, j.plans[b], j.caches[b], j.past[b], old(states[b]).total, states[b])
  {
    hide Answers, JobInStep, Caches, Plan.Valid, Jobs.Valid;
    JobsLength(net, j);
    ghost var start := states[..];
    var most := MostReads(j.plans);
    forall b: nat | b < |start|
      ensures JobInStep(net, j, b, start[b], start[b], 0)
    {
      InStepAtStart(net, j, b, start[b]);
    }
    var r: nat := 0;
    var any := true;
    while r < most && any
      invariant r <= most
      invariant forall b | 0 <= b < |start| :: JobInStep(net, j, b, states[b], start[b], r)
      invariant !any ==> forall b | 0 <= b < |start| :: !Live(j.plans[b], states[b], r)
      decreases most - r, any
    {
      any := RunRound(net, j, states, r, start);
      if any {
        r := r + 1;
      }
    }
    forall b: nat | b < |start|
      ensures j.plans[b].Valid() && Caches(net, j.caches[b], j.past[b])
      ensures states[b] == Sequential(net, j.plans[b], j.caches[b], j.past[b], start[b], 0)
      ensures Unread(start[b]) ==> Answers(net, j.plans[b], j.caches[b], j.past[b], start[b].total, states[b])
    {
      RestStep(net, j, b, states[b], start[b], r);
      if Unread(start[b]) {
        AnswersAre(net, j.plans[b], j.caches[b], j.past[b], start[b].total);
      }
    }
  }

  lemma InStepAtStart(net: Net, j: Jobs, b: nat, s: Progress)
    requires net.window > 0 && j.Valid(net) && b < |j.plans|
    ensures JobInStep(net, j, b, s, s, 0)
  {
  }
}
