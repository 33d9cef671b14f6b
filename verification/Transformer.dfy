/** What a forward pass computes, one sequence at a time (jb.c:6504-6628, 6952-7109).

    Floats, head vectors and rows are opaque, and every arithmetic operation is an arbitrary function, so
    two equal results are the same operations on the same operands in the same order. */
module Transformer {
  type Float(==, 0, !new)
  type Vec(==, 0, !new)
  type Row(==, 0, !new)
  type Wide(==, 0, !new)

  /** The model: its shape, and each of its numeric steps as an uninterpreted function. */
  datatype Net = Net(
    layers: nat,
    /* a layer is full-attention when its number is fullEvery - 1 modulo this */
    fullEvery: nat,
    heads: nat,
    /* query heads that share one key/value head, in full and in local layers */
    share: bool -> nat,
    window: nat,
    /* a token's row, for the encoder (false) and the decoder (true) */
    embed: (int, bool) -> Row,
    finalNorm: Row -> Row,
    preNorm: (nat, Row) -> Row,
    /* projection, head norms and rotary embedding of a row at a position */
    query: (nat, Row, nat) -> Wide,
    key: (nat, Row, nat) -> Wide,
    value: (nat, Row, nat) -> Wide,
    head: (Wide, nat) -> Vec,
    dot: (Vec, Vec) -> Float,
    lowest: Float,
    greater: (Float, Float) -> bool,
    expOf: (Float, Float) -> Float,
    zero: Float,
    add: (Float, Float) -> Float,
    div: (Float, Float) -> Float,
    zeroVec: Vec,
    accumulate: (Vec, Float, Vec) -> Vec,
    /* output projection of a token's heads, residual after attention, feed-forward with the layer scalar */
    output: (nat, seq<Vec>) -> Row,
    residual: (nat, Row, Row) -> Row,
    feedForward: (nat, Row) -> Row)
  {
    predicate Full(l: nat) {
      fullEvery > 0 && l % fullEvery == fullEvery - 1
    }

    function KvHead(l: nat, h: nat): nat {
      var group := share(Full(l));
      if group == 0 then 0 else h / group
    }
  }

  datatype Mode = Causal | Canvas | Suffix

  /** The K and V rows of a sequence of positions. */
  datatype KvRows = KvRows(k: seq<Wide>, v: seq<Wide>) {
    ghost predicate Valid() {
      |k| == |v|
    }

    function Then(more: KvRows): KvRows {
      KvRows(k + more.k, v + more.v)
    }

    function Take(n: nat): KvRows
      requires n <= |k| && n <= |v|
    {
      KvRows(k[..n], v[..n])
    }
  }

  const NO_ROWS := KvRows([], [])

  // ----- one query head over a list of keys and values

  function Dots(net: Net, q: Vec, keys: seq<Wide>, kh: nat): (r: seq<Float>)
    ensures |r| == |keys|
    ensures forall j | 0 <= j < |keys| :: r[j] == net.dot(q, net.head(keys[j], kh))
  {
    seq(|keys|, j requires 0 <= j < |keys| => net.dot(q, net.head(keys[j], kh)))
  }

  function MaxOf(net: Net, s: seq<Float>): Float {
    if s == [] then net.lowest
    else
      var mx := MaxOf(net, s[..|s| - 1]);
      if net.greater(s[|s| - 1], mx) then s[|s| - 1] else mx
  }

  function Exps(net: Net, s: seq<Float>, mx: Float): (r: seq<Float>)
    ensures |r| == |s|
    ensures forall j | 0 <= j < |s| :: r[j] == net.expOf(s[j], mx)
  {
    seq(|s|, j requires 0 <= j < |s| => net.expOf(s[j], mx))
  }

  function SumOf(net: Net, s: seq<Float>): Float {
    if s == [] then net.zero else net.add(SumOf(net, s[..|s| - 1]), s[|s| - 1])
  }

  function Mix(net: Net, e: seq<Float>, den: Float, values: seq<Wide>, kh: nat): Vec
    requires |e| == |values|
  {
    if e == [] then net.zeroVec
    else
      var n := |e| - 1;
      net.accumulate(Mix(net, e[..n], den, values[..n], kh), net.div(e[n], den), net.head(values[n], kh))
  }

  function Attend(net: Net, q: Vec, keys: seq<Wide>, values: seq<Wide>, kh: nat): Vec
    requires |keys| == |values|
  {
    var s := Dots(net, q, keys, kh);
    var e := Exps(net, s, MaxOf(net, s));
    Mix(net, e, SumOf(net, e), values, kh)
  }

  // ----- which positions a token sees

  function EndOf(net: Net, l: nat, mode: Mode, past: nat, count: nat, t: nat): nat {
    var end := if mode.Canvas? then past + count else past + t + 1;
    if !net.Full(l) && mode.Canvas? && end > past + t + net.window then past + t + net.window else end
  }

  function StartOf(net: Net, l: nat, mode: Mode, past: nat, t: nat): nat {
    if net.Full(l) then 0
    else if mode.Canvas? then (if past + t >= net.window then past + t - net.window + 1 else 0)
    else (if past + t + 1 > net.window then past + t + 1 - net.window else 0)
  }

  lemma SeenBounds(net: Net, l: nat, mode: Mode, past: nat, count: nat, t: nat)
    requires t < count
    ensures StartOf(net, l, mode, past, t) <= past + t + 1
    ensures net.window > 0 ==> StartOf(net, l, mode, past, t) <= past + t < EndOf(net, l, mode, past, count, t)
    ensures EndOf(net, l, mode, past, count, t) <= past + count
  {
  }

  /** Which positions token `t`, at position `past + t`, sees: none that there is not yet, outside a canvas none after
      its own, and in a local layer only those less than a window away. */
  predicate Sees(net: Net, l: nat, mode: Mode, past: nat, count: nat, t: nat, j: nat) {
    && j < past + count
    && (mode.Canvas? || j <= past + t)
    && (net.Full(l) || (past + t < j + net.window && j < past + t + net.window))
  }

  /** The two bounds are exactly that. */
  lemma SeenIff(net: Net, l: nat, mode: Mode, past: nat, count: nat, t: nat, j: nat)
    requires net.window > 0 && t < count
    ensures StartOf(net, l, mode, past, t) <= j < EndOf(net, l, mode, past, count, t)
      <==> Sees(net, l, mode, past, count, t, j)
  {
    hide Net.Full;
  }

  // ----- one layer over one sequence

  /** The K and V rows of a sequence's own tokens, the first of them at position `base`. */
  function OwnRows(net: Net, l: nat, z: seq<Row>, base: nat): (r: KvRows)
    ensures r.Valid() && |r.k| == |z|
    ensures forall t | 0 <= t < |z| :: r.k[t] == net.key(l, z[t], base + t) && r.v[t] == net.value(l, z[t], base + t)
  {
    KvRows(seq(|z|, t requires 0 <= t < |z| => net.key(l, z[t], base + t)),
           seq(|z|, t requires 0 <= t < |z| => net.value(l, z[t], base + t)))
  }

  /** A token's heads, from all the rows of its sequence, cached ones first. */
  function Heads(net: Net, l: nat, q: Wide, all: KvRows, start: nat, end: nat): (r: seq<Vec>)
    requires all.Valid() && start <= end <= |all.k|
    ensures |r| == net.heads
    ensures forall h | 0 <= h < net.heads ::
              r[h] == Attend(net, net.head(q, h), all.k[start..end], all.v[start..end], net.KvHead(l, h))
  {
    seq(net.heads, h requires 0 <= h < net.heads =>
      Attend(net, net.head(q, h), all.k[start..end], all.v[start..end], net.KvHead(l, h)))
  }

  function AttendToken(net: Net, l: nat, z: seq<Row>, cache: KvRows, mode: Mode, t: nat): Row
    requires net.window > 0 && cache.Valid() && t < |z|
  {
    var past := |cache.k|;
    SeenBounds(net, l, mode, past, |z|, t);
    var all := cache.Then(OwnRows(net, l, z, past));
    net.output(l, Heads(net, l, net.query(l, z[t], past + t), all,
                        StartOf(net, l, mode, past, t), EndOf(net, l, mode, past, |z|, t)))
  }

  function Normed(net: Net, l: nat, x: seq<Row>): (r: seq<Row>)
    ensures |r| == |x|
    ensures forall t | 0 <= t < |x| :: r[t] == net.preNorm(l, x[t])
  {
    seq(|x|, t requires 0 <= t < |x| => net.preNorm(l, x[t]))
  }

  /** The rows of a sequence after layer `l`. */
  function LayerRows(net: Net, l: nat, x: seq<Row>, cache: KvRows, mode: Mode): (r: seq<Row>)
    requires net.window > 0 && cache.Valid()
    ensures |r| == |x|
    ensures forall t | 0 <= t < |x| ::
              r[t] == net.feedForward(l, net.residual(l, AttendToken(net, l, Normed(net, l, x), cache, mode, t), x[t]))
  {
    seq(|x|, t requires 0 <= t < |x| =>
      net.feedForward(l, net.residual(l, AttendToken(net, l, Normed(net, l, x), cache, mode, t), x[t])))
  }

  /** All K and V rows of a sequence at layer `l`: its cached ones, then its own. */
  function LayerKv(net: Net, l: nat, x: seq<Row>, cache: KvRows): (r: KvRows)
    requires cache.Valid()
    ensures r.Valid() && |r.k| == |cache.k| + |x|
  {
    cache.Then(OwnRows(net, l, Normed(net, l, x), |cache.k|))
  }

  // ----- a whole pass over one sequence

  /** One cache per layer, all of the same length. */
  ghost predicate Caches(net: Net, caches: seq<KvRows>, past: nat) {
    && |caches| == net.layers
    && forall l | 0 <= l < net.layers :: caches[l].Valid() && |caches[l].k| == past
  }

  function EmptyCaches(net: Net): (r: seq<KvRows>)
    ensures Caches(net, r, 0)
  {
    seq(net.layers, l => NO_ROWS)
  }

  function Embedded(net: Net, tokens: seq<int>, decoder: bool): (r: seq<Row>)
    ensures |r| == |tokens|
    ensures forall t | 0 <= t < |tokens| :: r[t] == net.embed(tokens[t], decoder)
  {
    seq(|tokens|, t requires 0 <= t < |tokens| => net.embed(tokens[t], decoder))
  }

  /** A sequence's rows on entry to layer `l`. */
  ghost function Rows(net: Net, tokens: seq<int>, decoder: bool, caches: seq<KvRows>, past: nat, mode: Mode, l: nat)
    : (r: seq<Row>)
    requires net.window > 0 && Caches(net, caches, past) && l <= net.layers
    ensures |r| == |tokens|
  {
    if l == 0 then Embedded(net, tokens, decoder)
    else LayerRows(net, l - 1, Rows(net, tokens, decoder, caches, past, mode, l - 1), caches[l - 1], mode)
  }

  /** A sequence's K and V rows at layer `l`. */
  ghost function Kv(net: Net, tokens: seq<int>, decoder: bool, caches: seq<KvRows>, past: nat, mode: Mode, l: nat)
    : (r: KvRows)
    requires net.window > 0 && Caches(net, caches, past) && l < net.layers
    ensures r.Valid() && |r.k| == past + |tokens|
  {
    LayerKv(net, l, Rows(net, tokens, decoder, caches, past, mode, l), caches[l])
  }

  /** The monolithic reference: a causal prefill of the whole prompt, with no cache. */
  ghost function Monolithic(net: Net, prompt: seq<int>, l: nat): (r: KvRows)
    requires net.window > 0 && l < net.layers
    ensures r.Valid() && |r.k| == |prompt|
  {
    Kv(net, prompt, false, EmptyCaches(net), 0, Causal, l)
  }

  ghost function MonolithicRows(net: Net, prompt: seq<int>, l: nat): (r: seq<Row>)
    requires net.window > 0 && l <= net.layers
    ensures |r| == |prompt|
  {
    Rows(net, prompt, false, EmptyCaches(net), 0, Causal, l)
  }

  // ----- tokens never see what follows them

  /** In a causal or suffix pass a token depends only on the rows up to it. */
  lemma AttendTokenLocal(net: Net, l: nat, z: seq<Row>, y: seq<Row>, cache: KvRows, mode: Mode, t: nat)
    requires net.window > 0 && cache.Valid() && !mode.Canvas?
    requires t < |z| && t < |y| && z[..t + 1] == y[..t + 1]
    ensures AttendToken(net, l, z, cache, mode, t) == AttendToken(net, l, y, cache, mode, t)
  {
    var past := |cache.k|;
    SeenBounds(net, l, mode, past, |z|, t);
    SeenBounds(net, l, mode, past, |y|, t);
    var a := cache.Then(OwnRows(net, l, z, past));
    var b := cache.Then(OwnRows(net, l, y, past));
    var s, e := StartOf(net, l, mode, past, t), past + t + 1;
    assert z[t] == z[..t + 1][t] && y[t] == y[..t + 1][t];
    assert forall j | 0 <= j <= t :: z[j] == z[..t + 1][j] && y[j] == y[..t + 1][j];
    assert a.k[s..e] == b.k[s..e] && a.v[s..e] == b.v[s..e];
    assert Heads(net, l, net.query(l, z[t], past + t), a, s, e) == Heads(net, l, net.query(l, y[t], past + t), b, s, e);
  }

  lemma LayerRowsLocal(net: Net, l: nat, x: seq<Row>, y: seq<Row>, cache: KvRows, mode: Mode, n: nat)
    requires net.window > 0 && cache.Valid() && !mode.Canvas?
    requires n <= |x| && n <= |y| && x[..n] == y[..n]
    ensures LayerRows(net, l, x, cache, mode)[..n] == LayerRows(net, l, y, cache, mode)[..n]
  {
    var zx, zy := Normed(net, l, x), Normed(net, l, y);
    forall t | 0 <= t < n
      ensures LayerRows(net, l, x, cache, mode)[t] == LayerRows(net, l, y, cache, mode)[t]
    {
      assert forall j | 0 <= j <= t :: x[j] == x[..n][j] && y[j] == y[..n][j];
      assert zx[..t + 1] == zy[..t + 1];
      AttendTokenLocal(net, l, zx, zy, cache, mode, t);
    }
  }

  lemma RowsStep(net: Net, tokens: seq<int>, decoder: bool, caches: seq<KvRows>, past: nat, mode: Mode, l: nat)
    requires net.window > 0 && Caches(net, caches, past) && l < net.layers
    ensures |caches| == net.layers && caches[l].Valid() && |caches[l].k| == past
    ensures Rows(net, tokens, decoder, caches, past, mode, l + 1)
            == LayerRows(net, l, Rows(net, tokens, decoder, caches, past, mode, l), caches[l], mode)
    ensures Kv(net, tokens, decoder, caches, past, mode, l)
            == LayerKv(net, l, Rows(net, tokens, decoder, caches, past, mode, l), caches[l])
  {
  }

  /** Two token sequences with a common prefix have the same rows over it, whatever follows. */
  lemma {:induction false} RowsLocal(net: Net, a: seq<int>, b: seq<int>, decoder: bool, caches: seq<KvRows>,
                                     past: nat, mode: Mode,
                                     l: nat, n: nat)
    requires net.window > 0 && Caches(net, caches, past) && l <= net.layers && !mode.Canvas?
    requires n <= |a| && n <= |b| && a[..n] == b[..n]
    ensures Rows(net, a, decoder, caches, past, mode, l)[..n] == Rows(net, b, decoder, caches, past, mode, l)[..n]
  {
    hide *;
    if l == 0 {
      RowsLocalStart(net, a, b, decoder, caches, past, mode, n);
    } else {
      RowsLocal(net, a, b, decoder, caches, past, mode, l - 1, n);
      RowsStep(net, a, decoder, caches, past, mode, l - 1);
      RowsStep(net, b, decoder, caches, past, mode, l - 1);
      LayerRowsLocal(net, l - 1, Rows(net, a, decoder, caches, past, mode, l - 1),
                     Rows(net, b, decoder, caches, past, mode, l - 1), caches[l - 1], mode, n);
    }
  }

  lemma RowsLocalStart(net: Net, a: seq<int>, b: seq<int>, decoder: bool, caches: seq<KvRows>, past: nat, mode: Mode,
                       n: nat)
    requires net.window > 0 && Caches(net, caches, past)
    requires n <= |a| && n <= |b| && a[..n] == b[..n]
    ensures Rows(net, a, decoder, caches, past, mode, 0)[..n] == Rows(net, b, decoder, caches, past, mode, 0)[..n]
  {
    assert forall j | 0 <= j < n :: a[j] == a[..n][j] && b[j] == b[..n][j];
  }

  lemma OwnRowsLocal(net: Net, l: nat, x: seq<Row>, y: seq<Row>, base: nat, n: nat)
    requires n <= |x| && n <= |y| && x[..n] == y[..n]
    ensures OwnRows(net, l, Normed(net, l, x), base).Take(n) == OwnRows(net, l, Normed(net, l, y), base).Take(n)
  {
    assert forall j | 0 <= j < n :: x[j] == x[..n][j] && y[j] == y[..n][j];
  }

  /** The same for K and V rows: with `n` tokens in common, the first `past + n` rows agree. */
  lemma KvLocal(net: Net, a: seq<int>, b: seq<int>, decoder: bool, caches: seq<KvRows>, past: nat, mode: Mode, l: nat,
                n: nat)
    requires net.window > 0 && Caches(net, caches, past) && l < net.layers && !mode.Canvas?
    requires n <= |a| && n <= |b| && a[..n] == b[..n]
    ensures Kv(net, a, decoder, caches, past, mode, l).Take(past + n)
      == Kv(net, b, decoder, caches, past, mode, l).Take(past + n)
  {
    RowsLocal(net, a, b, decoder, caches, past, mode, l, n);
    var x, y := Rows(net, a, decoder, caches, past, mode, l), Rows(net, b, decoder, caches, past, mode, l);
    OwnRowsLocal(net, l, x, y, past, n);
    var p, q := OwnRows(net, l, Normed(net, l, x), past), OwnRows(net, l, Normed(net, l, y), past);
    assert LayerKv(net, l, x, caches[l]).k[..past + n] == caches[l].k + p.k[..n];
    assert LayerKv(net, l, y, caches[l]).k[..past + n] == caches[l].k + q.k[..n];
    assert LayerKv(net, l, x, caches[l]).v[..past + n] == caches[l].v + p.v[..n];
    assert LayerKv(net, l, y, caches[l]).v[..past + n] == caches[l].v + q.v[..n];
  }

  // ----- a cached suffix pass equals the monolithic one

  /** The rows of a prompt's first `c` positions, one entry per layer, as a cache. */
  ghost function PrefixOf(net: Net, prompt: seq<int>, c: nat): (r: seq<KvRows>)
    requires net.window > 0 && c <= |prompt|
    ensures Caches(net, r, c)
    ensures forall l | 0 <= l < net.layers :: r[l] == Monolithic(net, prompt, l).Take(c)
  {
    seq(net.layers, l requires 0 <= l < net.layers => Monolithic(net, prompt, l).Take(c))
  }

  /** A suffix token over the first `c` rows as a cache computes what its causal pass computes. */
  lemma SuffixTokenIsCausal(net: Net, l: nat, z: seq<Row>, c: nat, t: nat)
    requires net.window > 0 && c <= |z| && t < |z| - c
    ensures var cache := OwnRows(net, l, z, 0).Take(c);
            AttendToken(net, l, z[c..], cache, Suffix, t) == AttendToken(net, l, z, NO_ROWS, Causal, c + t)
  {
    var cache := OwnRows(net, l, z, 0).Take(c);
    var a := cache.Then(OwnRows(net, l, z[c..], c));
    var b := NO_ROWS.Then(OwnRows(net, l, z, 0));
    assert a.k == b.k && a.v == b.v;
    SeenBounds(net, l, Suffix, c, |z| - c, t);
    SeenBounds(net, l, Causal, 0, |z|, c + t);
  }

  /** One layer: the suffix rows over the cached prefix are the last rows of the causal layer, and the
      cached rows with the suffix's own are all of its K and V. */
  lemma SuffixLayerIsCausal(net: Net, l: nat, x: seq<Row>, c: nat)
    requires net.window > 0 && c <= |x|
    ensures var cache := LayerKv(net, l, x, NO_ROWS).Take(c);
            && LayerRows(net, l, x[c..], cache, Suffix) == LayerRows(net, l, x, NO_ROWS, Causal)[c..]
            && LayerKv(net, l, x[c..], cache) == LayerKv(net, l, x, NO_ROWS)
  {
    var z := Normed(net, l, x);
    var cache := LayerKv(net, l, x, NO_ROWS).Take(c);
    assert cache == OwnRows(net, l, z, 0).Take(c);
    assert Normed(net, l, x[c..]) == z[c..];
    forall t | 0 <= t < |x| - c
      ensures LayerRows(net, l, x[c..], cache, Suffix)[t] == LayerRows(net, l, x, NO_ROWS, Causal)[c + t]
    {
      SuffixTokenIsCausal(net, l, z, c, t);
    }
    assert LayerKv(net, l, x[c..], cache).k == LayerKv(net, l, x, NO_ROWS).k;
    assert LayerKv(net, l, x[c..], cache).v == LayerKv(net, l, x, NO_ROWS).v;
  }

  lemma MonolithicStep(net: Net, prompt: seq<int>, l: nat)
    requires net.window > 0 && l < net.layers
    ensures NO_ROWS.Valid() && NO_ROWS.k == []
    ensures Monolithic(net, prompt, l) == LayerKv(net, l, MonolithicRows(net, prompt, l), NO_ROWS)
    ensures MonolithicRows(net, prompt, l + 1) == LayerRows(net, l, MonolithicRows(net, prompt, l), NO_ROWS, Causal)
  {
  }

  lemma RowsStart(net: Net, prompt: seq<int>, c: nat)
    requires net.window > 0 && c <= |prompt|
    ensures Rows(net, prompt[c..], false, PrefixOf(net, prompt, c), c, Suffix, 0) == MonolithicRows(net, prompt, 0)[c..]
  {
    assert Embedded(net, prompt[c..], false) == Embedded(net, prompt, false)[c..];
  }

  lemma {:induction false} SuffixRows(net: Net, prompt: seq<int>, c: nat, l: nat)
    requires net.window > 0 && c <= |prompt| && l <= net.layers
    ensures Rows(net, prompt[c..], false, PrefixOf(net, prompt, c), c, Suffix, l) == MonolithicRows(net, prompt, l)[c..]
  {
    hide *;
    if l == 0 {
      RowsStart(net, prompt, c);
    } else {
      SuffixRows(net, prompt, c, l - 1);
      MonolithicStep(net, prompt, l - 1);
      RowsStep(net, prompt[c..], false, PrefixOf(net, prompt, c), c, Suffix, l - 1);
      SuffixLayerIsCausal(net, l - 1, MonolithicRows(net, prompt, l - 1), c);
    }
  }

  /** Prompts with a common prefix have the same K and V rows over it. */
  lemma SamePrefix(net: Net, a: seq<int>, b: seq<int>, c: nat)
    requires net.window > 0 && c <= |a| && c <= |b| && a[..c] == b[..c]
    ensures PrefixOf(net, a, c) == PrefixOf(net, b, c)
  {
    hide Kv, Rows;
    forall i | 0 <= i < net.layers
      ensures PrefixOf(net, a, c)[i] == PrefixOf(net, b, c)[i]
    {
      KvLocal(net, a, b, false, EmptyCaches(net), 0, Causal, i, c);
    }
  }

  /** For any two prompts with a common prefix, running the rest of one over the other's cached prefix rows
      gives, at every layer and position, the K, V and hidden rows of its own monolithic prefill. */
  lemma CachedSuffixIsExact(net: Net, cached: seq<int>, prompt: seq<int>, c: nat, l: nat)
    requires net.window > 0 && l < net.layers
    requires c <= |cached| && c <= |prompt| && cached[..c] == prompt[..c]
    ensures PrefixOf(net, cached, c) == PrefixOf(net, prompt, c)
    ensures Kv(net, prompt[c..], false, PrefixOf(net, cached, c), c, Suffix, l) == Monolithic(net, prompt, l)
    ensures Rows(net, prompt[c..], false, PrefixOf(net, cached, c), c, Suffix, l) == MonolithicRows(net, prompt, l)[c..]
  {
    hide *;
    SamePrefix(net, cached, prompt, c);
    SuffixRows(net, prompt, c, l);
    MonolithicStep(net, prompt, l);
    RowsStep(net, prompt[c..], false, PrefixOf(net, prompt, c), c, Suffix, l);
    SuffixLayerIsCausal(net, l, MonolithicRows(net, prompt, l), c);
  }

  /** Padding a suffix changes neither the rows nor the K and V of its useful tokens. */
  lemma PaddingIsInvisible(net: Net, tokens: seq<int>, padding: seq<int>, caches: seq<KvRows>, past: nat, l: nat)
    requires net.window > 0 && Caches(net, caches, past) && l < net.layers
    ensures Kv(net, tokens + padding, false, caches, past, Suffix, l).Take(past + |tokens|)
            == Kv(net, tokens, false, caches, past, Suffix, l)
    ensures Rows(net, tokens + padding, false, caches, past, Suffix, l)[..|tokens|]
            == Rows(net, tokens, false, caches, past, Suffix, l)
  {
    hide Kv, Rows;
    assert (tokens + padding)[..|tokens|] == tokens[..|tokens|];
    KvLocal(net, tokens + padding, tokens, false, caches, past, Suffix, l, |tokens|);
    RowsLocal(net, tokens + padding, tokens, false, caches, past, Suffix, l, |tokens|);
  }
}
