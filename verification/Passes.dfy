/** Prefill and decoding, alone and batched (jb.c:7063-7197). */
module Passes {
  import opened Transformer
  import opened Segments
  import opened Attention
  import opened Engine

  /** One sequence's K and V storage: a buffer per layer, for `n` positions. */
  ghost predicate Storage(net: Net, kv: seq<KvBuffer>, n: nat)
    reads kv
  {
    |kv| == net.layers && Separate(kv) && ValidAll(kv) && forall l | 0 <= l < net.layers :: kv[l].n == n
  }

  lemma OneSegment(l: nat, layers: nat)
    requires l < layers
    ensures At(0, l, 1, layers) == l
  {
  }

  lemma SegOfOne<T>(x: seq<T>)
    ensures |x| == 1 * |x| && Seg(x, 0, 1, |x|) == x
  {
  }

  lemma OnePlan(net: Net, kv: seq<KvBuffer>, past: nat, n: nat)
    requires Storage(net, kv, past + n)
    ensures PlannedAll(net, kv, [n], 1, n, [past])
  {
    forall s, l | 0 <= s < 1 && 0 <= l < net.layers
      ensures kv[At(s, l, 1, net.layers)].n == past + n
    {
      OneSegment(l, net.layers);
    }
  }

  /** A pass over one sequence alone, with K and V output. */
  method One(net: Net, tokens: seq<int>, cache: seq<KvRows>, ghost past: nat, mode: Mode, kv: seq<KvBuffer>)
    requires net.window > 0 && Caches(net, cache, past) && Storage(net, kv, past + |tokens|)
    modifies kv
    ensures |kv| == net.layers && ValidAll(kv)
    ensures forall l | 0 <= l < net.layers :: kv[l].Rows() == Kv(net, tokens, false, cache, past, mode, l)
  {
    OnePlan(net, kv, past, |tokens|);
    SegOfOne(tokens);
    var x := Forward(net, tokens, false, 1, |tokens|, [cache], [past], mode, [|tokens|], kv);
    forall l | 0 <= l < net.layers
      ensures kv[l].Rows() == Kv(net, tokens, false, cache, past, mode, l)
    {
      OneSegment(l, net.layers);
      assert Contents(kv)[At(0, l, 1, net.layers)] == kv[l].Rows();
      TakeAll(Kv(net, tokens, false, cache, past, mode, l));
    }
  }

  lemma TakeAll(r: KvRows)
    requires r.Valid()
    ensures r.Take(|r.k|) == r
  {
  }

  /** Prefill of a whole prompt. */
  method Prefill(net: Net, prompt: seq<int>, kv: seq<KvBuffer>)
    requires net.window > 0 && Storage(net, kv, |prompt|)
    modifies kv
    ensures |kv| == net.layers && ValidAll(kv)
    ensures forall l | 0 <= l < net.layers :: kv[l].Rows() == Monolithic(net, prompt, l)
  {
    hide Kv;
    One(net, prompt, EmptyCaches(net), 0, Causal, kv);
  }

  /** Prefill of a prompt's last tokens over cached rows of its first ones. */
  method PrefillSuffix(net: Net, token: seq<int>, prefix: seq<KvRows>, ghost past: nat, kv: seq<KvBuffer>)
    requires net.window > 0 && Caches(net, prefix, past) && Storage(net, kv, past + |token|)
    modifies kv
    ensures |kv| == net.layers && ValidAll(kv)
    ensures forall l | 0 <= l < net.layers :: kv[l].Rows() == Kv(net, token, false, prefix, past, Suffix, l)
  {
    One(net, token, prefix, past, Suffix, kv);
  }

  /** The rows of one canvas that attends to a prompt's K and V and to itself only. */
  ghost function CanvasRows(net: Net, canvas: seq<int>, cache: seq<KvRows>, past: nat): (r: seq<Row>)
    requires net.window > 0 && Caches(net, cache, past)
    ensures |r| == |canvas|
  {
    var x := Rows(net, canvas, true, cache, past, Canvas, net.layers);
    seq(|canvas|, t requires 0 <= t < |canvas| => net.finalNorm(x[t]))
  }

  /** Decoding of several canvases in one pass, each over the caches of its own document. Every canvas's rows
      are those it gets when it is decoded alone. */
  method DecodeMulti(net: Net, segments: nat, count: nat, canvas: seq<int>, caches: seq<seq<KvRows>>,
                     ghost past: seq<nat>)
    returns (x: array<Row>)
    requires net.window > 0 && CachesAll(net, caches, past) && |caches| == segments && |canvas| == segments * count
    ensures fresh(x) && x.Length == segments * count
    ensures forall s | 0 <= s < segments ::
              Seg(x[..], s, segments, count) == CanvasRows(net, Seg(canvas, s, segments, count), caches[s], past[s])
  {
    hide At, Rows;
    var lens := seq(segments, s => count);
    x := Forward(net, canvas, true, segments, count, caches, past, Canvas, lens, []);
    ghost var y := x[..];
    for t := 0 to x.Length
      invariant forall i | 0 <= i < t :: x[i] == net.finalNorm(y[i])
      invariant forall i | t <= i < x.Length :: x[i] == y[i]
    {
      x[t] := net.finalNorm(x[t]);
    }
    forall s | 0 <= s < segments
      ensures Seg(x[..], s, segments, count) == CanvasRows(net, Seg(canvas, s, segments, count), caches[s], past[s])
    {
      CanvasSegment(net, canvas, segments, count, caches, past, y, x[..], s);
    }
  }

  lemma CanvasSegment(net: Net, canvas: seq<int>, segments: nat, count: nat, caches: seq<seq<KvRows>>, past: seq<nat>,
                      y: seq<Row>, x: seq<Row>, s: nat)
    requires net.window > 0 && CachesAll(net, caches, past) && |caches| == segments && |canvas| == segments * count
    requires RowsAlone(net, canvas, true, segments, count, caches, past, Canvas, net.layers, y) && s < segments
    requires |x| == |y| && forall i | 0 <= i < |y| :: x[i] == net.finalNorm(y[i])
    ensures Seg(x, s, segments, count) == CanvasRows(net, Seg(canvas, s, segments, count), caches[s], past[s])
  {
    hide At, Rows;
    forall t | 0 <= t < count
      ensures Seg(x, s, segments, count)[t] == net.finalNorm(Seg(y, s, segments, count)[t])
    {
    }
  }

  /** Decoding of `batch` canvases that share one document's K and V. */
  method Decode(net: Net, cache: seq<KvRows>, ghost past: nat, canvas: seq<int>, count: nat, batch: nat)
    returns (x: array<Row>)
    requires net.window > 0 && Caches(net, cache, past) && |canvas| == batch * count
    ensures fresh(x) && x.Length == batch * count
    ensures forall s | 0 <= s < batch ::
              Seg(x[..], s, batch, count) == CanvasRows(net, Seg(canvas, s, batch, count), cache, past)
  {
    x := DecodeMulti(net, batch, count, canvas, seq(batch, s => cache), seq(batch, s => past));
  }

  /** Suffix prefill of several documents over one shared prefix, each padded to the longest. */
  method PrefillSuffixMulti(net: Net, token: seq<int>, lens: seq<nat>, batch: nat, count: nat, prefix: seq<KvRows>,
                            ghost past: nat, kv: seq<KvBuffer>, ghost own: seq<seq<int>>)
    requires net.window > 0 && Caches(net, prefix, past) && |token| == batch * count
    requires |kv| == batch * net.layers && PlannedAll(net, kv, lens, batch, count, seq(batch, b => past))
    requires |own| == batch && |lens| == batch
    requires forall b | 0 <= b < batch ::
      lens[b] == |own[b]| <= count && own[b] == Seg(token, b, batch, count)[..lens[b]]
    modifies kv
    ensures ValidAll(kv)
    ensures forall b, l {:trigger At(b, l, batch, net.layers)} | 0 <= b < batch && 0 <= l < net.layers ::
              kv[At(b, l, batch, net.layers)].Rows() == Kv(net, own[b], false, prefix, past, Suffix, l)
  {
    hide At, Kv, Rows, Seg;
    ghost var pasts := seq(batch, b => past);
    var caches := seq(batch, b => prefix);
    var x := Forward(net, token, false, batch, count, caches, pasts, Suffix, lens, kv);
    forall b, l {:trigger At(b, l, batch, net.layers)} | 0 <= b < batch && 0 <= l < net.layers
      ensures kv[At(b, l, batch, net.layers)].Rows() == Kv(net, own[b], false, prefix, past, Suffix, l)
    {
      var z := Seg(token, b, batch, count);
      assert z == own[b] + z[lens[b]..];
      PaddingIsInvisible(net, own[b], z[lens[b]..], prefix, past, l);
      assert Contents(kv)[At(b, l, batch, net.layers)] == kv[At(b, l, batch, net.layers)].Rows();
    }
  }
}
