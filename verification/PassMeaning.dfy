/** What a whole pass computes, layer by layer and token by token (jb.c:6952-6996, 7063-7131), apart from the functions
    that the loops are proved against. */
module PassMeaning {
  import opened Transformer
  import opened AttentionMeaning
  import opened Passes

  /** `a` is what attention gives token `t`: its heads, each over the rows at the positions it sees. */
  ghost predicate Attends(net: Net, l: nat, z: seq<Row>, cache: KvRows, mode: Mode, t: nat, a: Row)
    requires cache.Valid() && t < |z|
  {
    exists seen: seq<nat>, heads: seq<Vec> :: AttendsBy(net, l, z, cache, mode, t, seen, heads)
      && a == net.output(l, heads)
  }

  ghost predicate AttendsBy(net: Net, l: nat, z: seq<Row>, cache: KvRows, mode: Mode, t: nat, seen: seq<nat>,
                            heads: seq<Vec>)
    requires cache.Valid() && t < |z|
  {
    && SeenOnly(net, l, mode, |cache.k|, |z|, t, seen) && |heads| == net.heads
    && forall h | 0 <= h < net.heads ::
         heads[h] == AttendAt(net, l, z, cache, net.head(net.query(l, z[t], |cache.k| + t), h), net.KvHead(l, h), seen)
  }

  /** Attention gives every token one row. */
  lemma AttendsIs(net: Net, l: nat, z: seq<Row>, cache: KvRows, mode: Mode, t: nat, a: Row)
    requires net.window > 0 && cache.Valid() && t < |z|
    ensures Attends(net, l, z, cache, mode, t, a) <==> a == AttendToken(net, l, z, cache, mode, t)
  {
    hide AttendToken, AttendAt, Sees, Net.KvHead, StartOf, EndOf;
    forall seen, heads | AttendsBy(net, l, z, cache, mode, t, seen, heads)
      ensures net.output(l, heads) == AttendToken(net, l, z, cache, mode, t)
    {
      AttendTokenIs(net, l, z, cache, mode, t, seen, heads);
    }
    var past := |cache.k|;
    SeenBounds(net, l, mode, past, |z|, t);
    var start, end := StartOf(net, l, mode, past, t), EndOf(net, l, mode, past, |z|, t);
    var seen := seq(end - start, i requires 0 <= i < end - start => start + i);
    Interval(net, l, mode, past, |z|, t, seen);
    var heads := seq(net.heads, h requires 0 <= h < net.heads =>
      AttendAt(net, l, z, cache, net.head(net.query(l, z[t], past + t), h), net.KvHead(l, h), seen));
    assert AttendsBy(net, l, z, cache, mode, t, seen, heads);
  }

  lemma Interval(net: Net, l: nat, mode: Mode, past: nat, count: nat, t: nat, seen: seq<nat>)
    requires net.window > 0 && t < count
    requires var start, end := StartOf(net, l, mode, past, t), EndOf(net, l, mode, past, count, t);
      start <= end && seen == seq(end - start, i requires 0 <= i < end - start => start + i)
    ensures SeenOnly(net, l, mode, past, count, t, seen)
  {
    hide StartOf, EndOf, Sees;
    SeenBounds(net, l, mode, past, count, t);
    var start := StartOf(net, l, mode, past, t);
    forall j: nat
      ensures j in seen <==> Sees(net, l, mode, past, count, t, j)
    {
      SeenIff(net, l, mode, past, count, t, j);
      if start <= j < EndOf(net, l, mode, past, count, t) {
        assert seen[j - start] == j;
      }
    }
  }

  /** A pass written out: `xs[l]` are the rows on entry to layer `l`, `zs[l]` the same normed. */
  ghost predicate Trace(net: Net, tokens: seq<int>, decoder: bool, caches: seq<KvRows>, past: nat, mode: Mode,
                        xs: seq<seq<Row>>, zs: seq<seq<Row>>)
    requires Caches(net, caches, past)
  {
    && |xs| == net.layers + 1 && |zs| == net.layers
    && |xs[0]| == |tokens| && (forall t | 0 <= t < |tokens| :: xs[0][t] == net.embed(tokens[t], decoder))
    && forall l | 0 <= l < net.layers :: LayerStep(net, l, caches[l], mode, |tokens|, xs[l], zs[l], xs[l + 1])
  }

  /** One layer: the norm, attention, the residual, and the feed-forward. */
  ghost predicate LayerStep(net: Net, l: nat, cache: KvRows, mode: Mode, n: nat, x: seq<Row>, z: seq<Row>, y: seq<Row>)
    requires cache.Valid()
  {
    && |x| == |z| == |y| == n
    && (forall t | 0 <= t < n :: z[t] == net.preNorm(l, x[t]))
    && forall t | 0 <= t < n :: TokenStep(net, l, z, cache, mode, t, x[t], y[t])
  }

  ghost predicate TokenStep(net: Net, l: nat, z: seq<Row>, cache: KvRows, mode: Mode, t: nat, x: Row, y: Row)
    requires cache.Valid() && t < |z|
  {
    exists a :: Attends(net, l, z, cache, mode, t, a) && y == net.feedForward(l, net.residual(l, a, x))
  }

  lemma TokenStepIs(net: Net, l: nat, z: seq<Row>, cache: KvRows, mode: Mode, t: nat, x: Row, y: Row)
    requires net.window > 0 && cache.Valid() && t < |z|
    ensures TokenStep(net, l, z, cache, mode, t, x, y)
      <==> y == net.feedForward(l, net.residual(l, AttendToken(net, l, z, cache, mode, t), x))
  {
    hide Attends, AttendToken;
    AttendsIs(net, l, z, cache, mode, t, AttendToken(net, l, z, cache, mode, t));
    forall a | Attends(net, l, z, cache, mode, t, a)
      ensures a == AttendToken(net, l, z, cache, mode, t)
    {
      AttendsIs(net, l, z, cache, mode, t, a);
    }
  }

  lemma LayerStepIs(net: Net, l: nat, cache: KvRows, mode: Mode, n: nat, x: seq<Row>, z: seq<Row>, y: seq<Row>)
    requires net.window > 0 && cache.Valid() && |x| == n
    ensures LayerStep(net, l, cache, mode, n, x, z, y) <==>
      z == Normed(net, l, x) && y == LayerRows(net, l, x, cache, mode)
  {
    hide TokenStep, AttendToken;
    if |z| == |y| == n && z == Normed(net, l, x) {
      forall t | 0 <= t < n
        ensures TokenStep(net, l, z, cache, mode, t, x[t], y[t]) <==> y[t] == LayerRows(net, l, x, cache, mode)[t]
      {
        TokenStepIs(net, l, z, cache, mode, t, x[t], y[t]);
      }
    }
  }

  /** There is exactly one such writing out, and its rows are the pass's. */
  lemma PassIs(net: Net, tokens: seq<int>, decoder: bool, caches: seq<KvRows>, past: nat, mode: Mode,
               xs: seq<seq<Row>>, zs: seq<seq<Row>>)
    requires net.window > 0 && Caches(net, caches, past)
    ensures Trace(net, tokens, decoder, caches, past, mode, xs, zs) <==>
      && |xs| == net.layers + 1 && |zs| == net.layers
      && (forall l | 0 <= l <= net.layers :: xs[l] == Rows(net, tokens, decoder, caches, past, mode, l))
      && (forall l | 0 <= l < net.layers :: zs[l] == Normed(net, l, xs[l]))
  {
    hide LayerStep, LayerRows;
    if |xs| == net.layers + 1 && |zs| == net.layers {
      assert |xs[0]| == |tokens| && (forall t | 0 <= t < |tokens| :: xs[0][t] == net.embed(tokens[t], decoder))
        <==> xs[0] == Embedded(net, tokens, decoder);
      if Trace(net, tokens, decoder, caches, past, mode, xs, zs) {
        TraceRows(net, tokens, decoder, caches, past, mode, xs, zs, net.layers);
      } else if (forall l | 0 <= l <= net.layers :: xs[l] == Rows(net, tokens, decoder, caches, past, mode, l))
        && (forall l | 0 <= l < net.layers :: zs[l] == Normed(net, l, xs[l])) {
        forall l | 0 <= l < net.layers
          ensures LayerStep(net, l, caches[l], mode, |tokens|, xs[l], zs[l], xs[l + 1])
        {
          LayerStepIs(net, l, caches[l], mode, |tokens|, xs[l], zs[l], xs[l + 1]);
        }
        assert false;
      }
    }
  }

  lemma {:induction false} TraceRows(net: Net, tokens: seq<int>, decoder: bool, caches: seq<KvRows>, past: nat,
                                     mode: Mode, xs: seq<seq<Row>>, zs: seq<seq<Row>>, n: nat)
    requires net.window > 0 && Caches(net, caches, past) && n <= net.layers
    requires Trace(net, tokens, decoder, caches, past, mode, xs, zs)
    ensures forall l | 0 <= l <= n :: xs[l] == Rows(net, tokens, decoder, caches, past, mode, l)
    ensures forall l | 0 <= l < n :: zs[l] == Normed(net, l, xs[l])
  {
    hide LayerStep, LayerRows;
    if n == 0 {
      assert xs[0] == Embedded(net, tokens, decoder);
    } else {
      TraceRows(net, tokens, decoder, caches, past, mode, xs, zs, n - 1);
      LayerStepIs(net, n - 1, caches[n - 1], mode, |tokens|, xs[n - 1], zs[n - 1], xs[n]);
    }
  }

  /** The K and V a pass stores at a layer: the cached rows, then its tokens' own, each made for its own position. */
  lemma StoredIs(net: Net, tokens: seq<int>, decoder: bool, caches: seq<KvRows>, past: nat, mode: Mode,
                 xs: seq<seq<Row>>, zs: seq<seq<Row>>, l: nat)
    requires net.window > 0 && Caches(net, caches, past) && l < net.layers
    requires Trace(net, tokens, decoder, caches, past, mode, xs, zs)
    ensures |zs[l]| == |tokens|
    ensures forall j | 0 <= j < past + |tokens| ::
      (var kv := Kv(net, tokens, decoder, caches, past, mode, l); (kv.k[j], kv.v[j]))
        == RowAt(net, l, zs[l], caches[l], j)
  {
    hide LayerStep, Rows, Trace;
    TraceAt(net, tokens, decoder, caches, past, mode, xs, zs, l);
    var x := Rows(net, tokens, decoder, caches, past, mode, l);
    LayerKvAt(net, l, x, caches[l], zs[l]);
  }

  lemma TraceAt(net: Net, tokens: seq<int>, decoder: bool, caches: seq<KvRows>, past: nat, mode: Mode,
                xs: seq<seq<Row>>, zs: seq<seq<Row>>, l: nat)
    requires net.window > 0 && Caches(net, caches, past) && l < net.layers
    requires Trace(net, tokens, decoder, caches, past, mode, xs, zs)
    ensures |zs| == net.layers && zs[l] == Normed(net, l, Rows(net, tokens, decoder, caches, past, mode, l))
  {
    hide LayerStep, Rows;
    TraceRows(net, tokens, decoder, caches, past, mode, xs, zs, net.layers);
  }

  lemma LayerKvAt(net: Net, l: nat, x: seq<Row>, cache: KvRows, z: seq<Row>)
    requires cache.Valid() && z == Normed(net, l, x)
    ensures var kv := LayerKv(net, l, x, cache);
      forall j | 0 <= j < |cache.k| + |x| :: (kv.k[j], kv.v[j]) == RowAt(net, l, z, cache, j)
  {
  }

  /** A decoded canvas's rows: the decoder's embedding, every layer in order over the prompt and the canvas, and the
      final norm. */
  lemma CanvasIs(net: Net, canvas: seq<int>, cache: seq<KvRows>, past: nat, xs: seq<seq<Row>>, zs: seq<seq<Row>>)
    requires net.window > 0 && Caches(net, cache, past) && Trace(net, canvas, true, cache, past, Canvas, xs, zs)
    ensures |xs[net.layers]| == |canvas|
    ensures CanvasRows(net, canvas, cache, past) ==
      seq(|canvas|, t requires 0 <= t < |canvas| => net.finalNorm(xs[net.layers][t]))
  {
    hide LayerStep;
    TraceRows(net, canvas, true, cache, past, Canvas, xs, zs, net.layers);
  }

  /** A prompt's prefill: the encoder's embedding, causal attention, and no cache. */
  lemma PrefillIs(net: Net, prompt: seq<int>, caches: seq<KvRows>, xs: seq<seq<Row>>, zs: seq<seq<Row>>, l: nat)
    requires net.window > 0 && l < net.layers && Caches(net, caches, 0)
    requires Trace(net, prompt, false, caches, 0, Causal, xs, zs)
    ensures |zs[l]| == |prompt|
    ensures Monolithic(net, prompt, l) ==
      KvRows(seq(|prompt|, j requires 0 <= j < |prompt| => net.key(l, zs[l][j], j)),
             seq(|prompt|, j requires 0 <= j < |prompt| => net.value(l, zs[l][j], j)))
  {
    hide LayerStep, Kv, Rows;
    NoCaches(net, caches);
    StoredIs(net, prompt, false, caches, 0, Causal, xs, zs, l);
    var kv := Monolithic(net, prompt, l);
    assert forall j | 0 <= j < |prompt| :: (kv.k[j], kv.v[j]) == RowAt(net, l, zs[l], caches[l], j);
  }

  lemma NoCaches(net: Net, caches: seq<KvRows>)
    requires Caches(net, caches, 0)
    ensures caches == EmptyCaches(net)
  {
    forall i | 0 <= i < net.layers
      ensures caches[i] == NO_ROWS
    {
      assert caches[i].Valid() && |caches[i].k| == 0;
    }
  }
}
