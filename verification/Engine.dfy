/** The passes over the model: prefill, suffix prefill, decoding, alone and batched (jb.c:7046-7197). */
module Engine {
  import opened Transformer
  import opened Segments
  import opened Attention
  import opened Layer

  /** Every segment's caches, one per layer, each segment's all of one length. */
  ghost predicate CachesAll(net: Net, caches: seq<seq<KvRows>>, past: seq<nat>) {
    |caches| == |past| && forall s | 0 <= s < |caches| :: Caches(net, caches[s], past[s])
  }

  ghost function CachesAt(net: Net, caches: seq<seq<KvRows>>, past: seq<nat>, l: nat): (r: seq<KvRows>)
    requires CachesAll(net, caches, past) && l < net.layers
    ensures ValidCaches(r, |caches|)
    ensures forall s | 0 <= s < |caches| :: r[s] == caches[s][l] && |r[s].k| == past[s]
  {
    seq(|caches|, s requires 0 <= s < |caches| => caches[s][l])
  }

  method LayerCaches(net: Net, caches: seq<seq<KvRows>>, ghost past: seq<nat>, l: nat) returns (r: seq<KvRows>)
    requires CachesAll(net, caches, past) && l < net.layers
    ensures r == CachesAt(net, caches, past, l)
  {
    r := [];
    for s := 0 to |caches|
      invariant r == CachesAt(net, caches, past, l)[..s]
    {
      assert Caches(net, caches[s], past[s]);
      r := r + [caches[s][l]];
    }
  }

  method Embed(net: Net, tokens: seq<int>, decoder: bool) returns (x: array<Row>)
    ensures fresh(x) && x[..] == Embedded(net, tokens, decoder)
  {
    x := new Row[|tokens|];
    for t := 0 to |tokens|
      invariant x[..t] == Embedded(net, tokens, decoder)[..t]
    {
      x[t] := net.embed(tokens[t], decoder);
    }
  }

  /** All segments' rows on entry to layer `l` are those of each segment run alone. */
  ghost predicate RowsAlone(net: Net, tokens: seq<int>, decoder: bool, segments: nat, count: nat,
                            caches: seq<seq<KvRows>>,
                            past: seq<nat>, mode: Mode, l: nat, x: seq<Row>)
    requires net.window > 0 && CachesAll(net, caches, past) && |caches| == segments && |tokens| == segments * count
    requires l <= net.layers
  {
    && |x| == segments * count
    && forall s | 0 <= s < segments ::
         Seg(x, s, segments, count)
         == Rows(net, Seg(tokens, s, segments, count), decoder, caches[s], past[s], mode, l)
  }

  lemma EmbeddedAlone(net: Net, tokens: seq<int>, decoder: bool, segments: nat, count: nat, caches: seq<seq<KvRows>>,
                      past: seq<nat>, mode: Mode)
    requires net.window > 0 && CachesAll(net, caches, past) && |caches| == segments && |tokens| == segments * count
    ensures RowsAlone(net, tokens, decoder, segments, count, caches, past, mode, 0, Embedded(net, tokens, decoder))
  {
    hide At;
    var x := Embedded(net, tokens, decoder);
    forall s | 0 <= s < segments
      ensures Seg(x, s, segments, count) == Rows(net, Seg(tokens, s, segments, count), decoder, caches[s], past[s],
        mode, 0)
    {
      assert Seg(x, s, segments, count) == Embedded(net, Seg(tokens, s, segments, count), decoder);
    }
  }

  lemma LayerAlone(net: Net, tokens: seq<int>, decoder: bool, segments: nat, count: nat, caches: seq<seq<KvRows>>,
                   past: seq<nat>, mode: Mode, l: nat, x: seq<Row>, y: seq<Row>)
    requires net.window > 0 && CachesAll(net, caches, past) && |caches| == segments && |tokens| == segments * count
    requires l < net.layers && RowsAlone(net, tokens, decoder, segments, count, caches, past, mode, l, x)
    requires |y| == |x| && forall s | 0 <= s < segments ::
               Seg(y, s, segments, count)
               == LayerRows(net, l, Seg(x, s, segments, count), CachesAt(net, caches, past, l)[s], mode)
    ensures RowsAlone(net, tokens, decoder, segments, count, caches, past, mode, l + 1, y)
  {
    hide At, Seg, LayerRows, Rows;
    forall s | 0 <= s < segments
      ensures Seg(y, s, segments, count) == Rows(net, Seg(tokens, s, segments, count), decoder, caches[s], past[s],
        mode, l + 1)
    {
      RowsStep(net, Seg(tokens, s, segments, count), decoder, caches[s], past[s], mode, l);
    }
  }

  /** The buffers of every segment's layers, one segment after the other; none shares storage with another. */
  ghost predicate PlannedAll(net: Net, outs: seq<KvBuffer>, lens: seq<nat>, segments: nat, count: nat, past: seq<nat>)
    reads outs
  {
    && (outs != [] ==> |outs| == segments * net.layers)
    && |lens| == |past| == segments && (forall s | 0 <= s < segments :: lens[s] <= count)
    && Separate(outs) && ValidAll(outs)
    && (outs != [] ==> forall s, l {:trigger At(s, l, segments, net.layers)} | 0 <= s < segments
      && 0 <= l < net.layers ::
          outs[At(s, l, segments, net.layers)].n == past[s] + lens[s])
  }

  /** What the buffers hold. */
  ghost function Contents(outs: seq<KvBuffer>): (r: seq<KvRows>)
    reads outs
    ensures |r| == |outs| && forall j | 0 <= j < |outs| :: r[j] == outs[j].Rows()
  {
    seq(|outs|, j requires 0 <= j < |outs| reads outs => outs[j].Rows())
  }

  /** Layers before `l` have put out every segment's K and V, as if run alone, up to its useful length. */
  ghost predicate KvAlone(net: Net, tokens: seq<int>, decoder: bool, segments: nat, count: nat,
                          caches: seq<seq<KvRows>>,
                          past: seq<nat>, mode: Mode, l: nat, held: seq<KvRows>, lens: seq<nat>)
    requires net.window > 0 && CachesAll(net, caches, past) && |caches| == segments && |tokens| == segments * count
    requires l <= net.layers && (held != [] ==> |held| == segments * net.layers) && |lens| == segments
    requires forall s | 0 <= s < segments :: lens[s] <= count
  {
    held != [] ==>
      forall s, i {:trigger At(s, i, segments, net.layers)} | 0 <= s < segments && 0 <= i < l ::
        held[At(s, i, segments, net.layers)]
        == Kv(net, Seg(tokens, s, segments, count), decoder, caches[s], past[s], mode, i).Take(past[s] + lens[s])
  }

  /** The buffers of one layer, one per segment. */
  method LayerOut(net: Net, outs: seq<KvBuffer>, segments: nat, l: nat) returns (out: seq<KvBuffer>)
    requires l < net.layers && (outs != [] ==> |outs| == segments * net.layers)
    ensures |out| == if outs == [] then 0 else segments
    ensures forall s | 0 <= s < |out| :: out[s] == outs[At(s, l, segments, net.layers)]
  {
    out := [];
    if outs != [] {
      for s := 0 to segments
        invariant |out| == s && forall i | 0 <= i < s :: out[i] == outs[At(i, l, segments, net.layers)]
      {
        out := out + [outs[At(s, l, segments, net.layers)]];
      }
    }
  }

  /** A layer's buffers are ready for it, and no other layer's are among them. */
  lemma LayerOutReady(net: Net, outs: seq<KvBuffer>, lens: seq<nat>, segments: nat, count: nat,
                      caches: seq<seq<KvRows>>,
                      past: seq<nat>, l: nat, out: seq<KvBuffer>)
    requires PlannedAll(net, outs, lens, segments, count, past) && CachesAll(net, caches, past) && l < net.layers
    requires |out| == if outs == [] then 0 else segments
    requires forall s | 0 <= s < |out| :: out[s] == outs[At(s, l, segments, net.layers)]
    ensures Outputs(out, lens, segments, count) && Planned(out, CachesAt(net, caches, past, l), lens)
    ensures forall o | o in out :: o in outs
    ensures outs != [] ==> forall s, i {:trigger At(s, i, segments, net.layers)} | 0 <= s < segments
      && 0 <= i < net.layers ::
              i != l ==> outs[At(s, i, segments, net.layers)] !in out
  {
    hide At;
    forall s, i, s' | outs != [] && 0 <= s < segments && 0 <= i < net.layers && 0 <= s' < segments
      ensures i != l || s != s' ==> outs[At(s, i, segments, net.layers)] != outs[At(s', l, segments, net.layers)]
    {
      if At(s, i, segments, net.layers) == At(s', l, segments, net.layers) {
        AtInjective(s, i, s', l, segments, net.layers);
      }
    }
  }

  /** One layer of a pass over all segments. */
  method ForwardLayer(net: Net, x: array<Row>, ghost tokens: seq<int>, ghost decoder: bool, segments: nat, count: nat,
                      caches: seq<seq<KvRows>>, ghost past: seq<nat>, mode: Mode, lens: seq<nat>, outs: seq<KvBuffer>,
                      l: nat)
    requires net.window > 0 && CachesAll(net, caches, past) && |caches| == segments && |tokens| == segments * count
    requires l < net.layers && PlannedAll(net, outs, lens, segments, count, past)
    requires RowsAlone(net, tokens, decoder, segments, count, caches, past, mode, l, x[..])
    requires KvAlone(net, tokens, decoder, segments, count, caches, past, mode, l, Contents(outs), lens)
    modifies x, outs
    ensures RowsAlone(net, tokens, decoder, segments, count, caches, past, mode, l + 1, x[..])
    ensures PlannedAll(net, outs, lens, segments, count, past)
    ensures KvAlone(net, tokens, decoder, segments, count, caches, past, mode, l + 1, Contents(outs), lens)
  {
    hide At, RowsAlone, CachesAt, Rows, Kv, LayerRows, LayerKv, CachesAll, KvAlone, Outputs, Planned, Shaped, Seg;
    var cache := LayerCaches(net, caches, past, l);
    var out := LayerOut(net, outs, segments, l);
    LayerOutReady(net, outs, lens, segments, count, caches, past, l, out);
    ghost var before, held := x[..], Contents(outs);
    AloneShape(net, tokens, decoder, segments, count, caches, past, mode, l, before);
    var ok := LayerSegments(net, l, x, segments, count, cache, lens, out, mode);
    LayerAlone(net, tokens, decoder, segments, count, caches, past, mode, l, before, x[..]);
    forall j | 0 <= j < |outs|
      ensures outs[j].Valid() && outs[j].n == old(outs[j].n)
      ensures outs[j] !in out ==> Contents(outs)[j] == held[j]
    {
      assert outs[j] in outs;
      if outs[j] in out {
        var s :| 0 <= s < |out| && out[s] == outs[j];
      }
    }
    KvStep(net, tokens, decoder, segments, count, caches, past, mode, l, held, Contents(outs), lens, before);
  }

  lemma ForwardFacts(net: Net, caches: seq<seq<KvRows>>, past: seq<nat>, outs: seq<KvBuffer>, lens: seq<nat>,
                     segments: nat, count: nat)
    requires CachesAll(net, caches, past) && PlannedAll(net, outs, lens, segments, count, past)
    ensures outs != [] ==> |outs| == segments * net.layers
    ensures |lens| == |past| == segments && forall s | 0 <= s < segments :: lens[s] <= count
    ensures Separate(outs) && ValidAll(outs)
  {
  }

  /** A whole pass over all segments at once: rows, K and V are those of every segment run alone. */
  method Forward(net: Net, tokens: seq<int>, decoder: bool, segments: nat, count: nat, caches: seq<seq<KvRows>>,
                 ghost past: seq<nat>, mode: Mode, lens: seq<nat>, outs: seq<KvBuffer>) returns (x: array<Row>)
    requires net.window > 0 && CachesAll(net, caches, past) && |caches| == segments && |tokens| == segments * count
    requires PlannedAll(net, outs, lens, segments, count, past)
    modifies outs
    ensures fresh(x) && RowsAlone(net, tokens, decoder, segments, count, caches, past, mode, net.layers, x[..])
    ensures ValidAll(outs) && KvAlone(net, tokens, decoder, segments, count, caches, past, mode, net.layers,
      Contents(outs), lens)
  {
    hide *;
    ForwardFacts(net, caches, past, outs, lens, segments, count);
    x := Embed(net, tokens, decoder);
    EmbeddedAlone(net, tokens, decoder, segments, count, caches, past, mode);
    KvStart(net, tokens, decoder, segments, count, caches, past, mode, outs, lens);
    for l := 0 to net.layers
      invariant fresh(x) && RowsAlone(net, tokens, decoder, segments, count, caches, past, mode, l, x[..])
      invariant PlannedAll(net, outs, lens, segments, count, past)
      invariant KvAlone(net, tokens, decoder, segments, count, caches, past, mode, l, Contents(outs), lens)
    {
      ForwardLayer(net, x, tokens, decoder, segments, count, caches, past, mode, lens, outs, l);
    }
    ForwardFacts(net, caches, past, outs, lens, segments, count);
  }

  lemma KvStart(net: Net, tokens: seq<int>, decoder: bool, segments: nat, count: nat, caches: seq<seq<KvRows>>,
                past: seq<nat>, mode: Mode, outs: seq<KvBuffer>, lens: seq<nat>)
    requires net.window > 0 && CachesAll(net, caches, past) && |caches| == segments && |tokens| == segments * count
    requires PlannedAll(net, outs, lens, segments, count, past)
    ensures KvAlone(net, tokens, decoder, segments, count, caches, past, mode, 0, Contents(outs), lens)
  {
  }

  lemma AloneShape(net: Net, tokens: seq<int>, decoder: bool, segments: nat, count: nat, caches: seq<seq<KvRows>>,
                   past: seq<nat>, mode: Mode, l: nat, x: seq<Row>)
    requires net.window > 0 && CachesAll(net, caches, past) && |caches| == segments && |tokens| == segments * count
    requires l < net.layers && RowsAlone(net, tokens, decoder, segments, count, caches, past, mode, l, x)
    ensures Shaped(x, CachesAt(net, caches, past, l), segments, count)
  {
  }

  lemma KvStep(net: Net, tokens: seq<int>, decoder: bool, segments: nat, count: nat, caches: seq<seq<KvRows>>,
               past: seq<nat>, mode: Mode, l: nat, held: seq<KvRows>, after: seq<KvRows>, lens: seq<nat>, x: seq<Row>)
    requires net.window > 0 && CachesAll(net, caches, past) && |caches| == segments && |tokens| == segments * count
    requires l < net.layers && RowsAlone(net, tokens, decoder, segments, count, caches, past, mode, l, x)
    requires |lens| == segments && (forall s | 0 <= s < segments :: lens[s] <= count)
    requires |after| == |held| && (held != [] ==> |held| == segments * net.layers)
    requires KvAlone(net, tokens, decoder, segments, count, caches, past, mode, l, held, lens)
    requires held != [] ==> forall s, i {:trigger At(s, i, segments, net.layers)} | 0 <= s < segments && 0 <= i < l ::
               after[At(s, i, segments, net.layers)] == held[At(s, i, segments, net.layers)]
    requires held != [] ==> forall s {:trigger At(s, l, segments, net.layers)} | 0 <= s < segments ::
               after[At(s, l, segments, net.layers)]
               == LayerKv(net, l, Seg(x, s, segments, count), CachesAt(net, caches, past, l)[s]).Take(past[s] + lens[s])
    ensures KvAlone(net, tokens, decoder, segments, count, caches, past, mode, l + 1, after, lens)
  {
    hide At, Seg, LayerKv, Rows;
    if held != [] {
      forall s | 0 <= s < segments
        ensures after[At(s, l, segments, net.layers)]
                == Kv(net, Seg(tokens, s, segments, count), decoder, caches[s], past[s], mode,
                  l).Take(past[s] + lens[s])
      {
        RowsStep(net, Seg(tokens, s, segments, count), decoder, caches[s], past[s], mode, l);
      }
    }
  }
}
