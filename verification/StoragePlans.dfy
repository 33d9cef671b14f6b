/** The storage of a request's K/V and of a microbatch's control arrays is planned exactly (jb.c:6254-6276,
    jb.c:6278-6334, jb.c:8635-8681). */
module StoragePlans {
  import opened Arena
  import opened ForwardPlan

  /** A K/V header: two pointers and a count, padded. */
  const HEADER := 24

  function KvWidth(l: nat): nat {
    (if Full(l) then FULL_KV_HEADS else LOCAL_KV_HEADS) * (if Full(l) then FULL_HEAD_DIM else LOCAL_HEAD_DIM)
  }

  /** The K rows, or the V rows, of `n` tokens in one layer. */
  function RowBytes(n: nat, l: nat): nat {
    n * KvWidth(l) * FLOAT
  }

  /** What one token takes in the layers before `layers`. */
  function TokenBytes(layers: nat): nat {
    if layers == 0 then 0 else TokenBytes(layers - 1) + 2 * KvWidth(layers - 1) * FLOAT
  }

  function Times(a: nat, b: nat): nat {
    a * b
  }

  lemma TimesGrows(a: nat, b: nat, c: nat)
    requires a <= b
    ensures Times(a, c) <= Times(b, c)
  {
    assert b * c == a * c + (b - a) * c;
  }

  /** What one token takes in all layers. */
  function PerToken(): nat {
    TokenBytes(LAYERS)
  }

  /** Where a document's K of layer `l` starts when `before` tokens are stored ahead of the document: no padding lies
      between any two blocks. */
  function KvStart(before: nat, n: nat, l: nat): nat {
    Times(before, PerToken()) + Times(n, TokenBytes(l))
  }

  /** One layer's K and V rows of a document, by their offsets. */
  datatype LayerRows = LayerRows(n: nat, k: nat, v: nat)

  lemma RowsAligned(n: nat, l: nat)
    ensures RowBytes(n, l) % ALIGNMENT == 0
  {
    hide KvWidth;
    WidthAligned(l);
    var w := KvWidth(l) / ALIGNMENT;
    assert n * KvWidth(l) * FLOAT == (n * w * FLOAT) * ALIGNMENT;
  }

  lemma WidthAligned(l: nat)
    ensures KvWidth(l) % ALIGNMENT == 0
  {
  }

  lemma TokenAligned(layers: nat)
    ensures TokenBytes(layers) % ALIGNMENT == 0
  {
    hide KvWidth, RowBytes;
    if layers > 0 {
      TokenAligned(layers - 1);
      TwoRowBytes(layers - 1);
      RowsAligned(2, layers - 1);
      AlignedSum(TokenBytes(layers - 1), RowBytes(2, layers - 1));
    }
  }

  lemma TwoRowBytes(l: nat)
    ensures 2 * KvWidth(l) * FLOAT == RowBytes(2, l)
  {
  }

  lemma TimesAligned(n: nat, x: nat)
    requires x % ALIGNMENT == 0
    ensures Times(n, x) % ALIGNMENT == 0
  {
    assert n * x == (n * (x / 64)) * 64;
  }

  lemma StartAligned(before: nat, n: nat, l: nat)
    ensures KvStart(before, n, l) % ALIGNMENT == 0
  {
    hide TokenBytes, Times;
    TokenAligned(LAYERS);
    TokenAligned(l);
    TimesAligned(before, PerToken());
    TimesAligned(n, TokenBytes(l));
  }

  lemma TimesSum(n: nat, a: nat, b: nat)
    ensures Times(n, a + b) == Times(n, a) + Times(n, b)
    ensures Times(a + b, n) == Times(a, n) + Times(b, n)
  {
  }

  lemma TimesTwice(n: nat, w: nat)
    ensures Times(n, 2 * w * FLOAT) == n * w * FLOAT + n * w * FLOAT
  {
  }

  lemma TimesNone(a: nat, b: nat)
    ensures Times(0, b) == Times(a, 0) == 0
  {
  }

  /** Behind a layer's K lies its V, and behind that the next layer's K. */
  lemma NextStart(before: nat, n: nat, l: nat)
    ensures KvStart(before, n, l + 1) == KvStart(before, n, l) + RowBytes(n, l) + RowBytes(n, l)
    ensures KvStart(before + n, 0, 0) == KvStart(before, n, LAYERS)
  {
    hide KvWidth, Times;
    var w := KvWidth(l);
    TimesSum(n, TokenBytes(l), 2 * w * FLOAT);
    TimesTwice(n, w);
    TimesSum(PerToken(), before, n);
    TimesNone(before, TokenBytes(0));
    assert PerToken() == TokenBytes(LAYERS);
  }

  /** Placing a layer's K and V at an aligned end pads nothing. */
  lemma TwoRowsAt(before: nat, n: nat, l: nat)
    ensures AlignUp(KvStart(before, n, l)) == KvStart(before, n, l)
    ensures PlanAdd(KvStart(before, n, l), RowBytes(n, l)) == KvStart(before, n, l) + RowBytes(n, l)
    ensures AlignUp(KvStart(before, n, l) + RowBytes(n, l)) == KvStart(before, n, l) + RowBytes(n, l)
    ensures PlanAdd(KvStart(before, n, l) + RowBytes(n, l), RowBytes(n, l)) == KvStart(before, n, l + 1)
  {
    hide KvStart, RowBytes, AlignUp;
    StartAligned(before, n, l);
    RowsAligned(n, l);
    AlignedIs(KvStart(before, n, l));
    AlignedIs(RowBytes(n, l));
    AlignShift(KvStart(before, n, l), RowBytes(n, l));
    NextStart(before, n, l);
  }

  /** The plan: every document's K and V of every layer. It is exactly the tokens times what one token takes, which is
      what the limit on a microbatch's K/V is compared with. */
  method KvPlan(lengths: seq<nat>) returns (bytes: nat)
    ensures bytes == Times(Sum(lengths), PerToken())
  {
    hide KvStart, RowBytes, PlanAdd, PerToken;
    bytes := 0;
    StartOfNone();
    for d: nat := 0 to |lengths|
      invariant bytes == KvStart(Sum(lengths[..d]), 0, 0)
    {
      ghost var before := Sum(lengths[..d]);
      AnyEmpty(before, lengths[d]);
      for l: nat := 0 to LAYERS
        invariant bytes == KvStart(before, lengths[d], l)
      {
        TwoRowsAt(before, lengths[d], l);
        bytes := PlanAdd(bytes, RowBytes(lengths[d], l));
        bytes := PlanAdd(bytes, RowBytes(lengths[d], l));
      }
      NextStart(before, lengths[d], 0);
      SumMore(lengths, d);
    }
    assert lengths[..|lengths|] == lengths;
    StartOfAll(Sum(lengths));
  }

  /** What a microbatch's K/V is counted as before it is let through: a token's bytes, times every document's tokens. */
  method BatchBytes(lengths: seq<nat>) returns (bytes: nat)
    ensures bytes == Times(Sum(lengths), PerToken())
  {
    hide PerToken, KvWidth, Times;
    var token := 0;
    for l: nat := 0 to LAYERS
      invariant token == TokenBytes(l)
    {
      token := token + 2 * KvWidth(l) * FLOAT;
    }
    AllLayers();
    bytes := 0;
    TimesNone(0, token);
    for d: nat := 0 to |lengths|
      invariant bytes == Times(Sum(lengths[..d]), token)
    {
      SumMore(lengths, d);
      TimesSum(token, Sum(lengths[..d]), lengths[d]);
      bytes := bytes + Times(lengths[d], token);
    }
    assert lengths[..|lengths|] == lengths;
  }

  lemma AllLayers()
    ensures PerToken() == TokenBytes(LAYERS)
  {
    hide TokenBytes;
  }

  lemma StartOfNone()
    ensures KvStart(Sum([]), 0, 0) == 0
  {
    hide PerToken;
  }

  lemma AnyEmpty(before: nat, n: nat)
    ensures KvStart(before, 0, 0) == KvStart(before, n, 0)
  {
    hide PerToken;
  }

  lemma StartOfAll(tokens: nat)
    ensures KvStart(tokens, 0, 0) == Times(tokens, PerToken())
  {
    hide PerToken;
  }

  lemma {:induction false} SumMore(s: seq<nat>, d: nat)
    requires d < |s|
    ensures Sum(s[..d + 1]) == Sum(s[..d]) + s[d]
    decreases d
  {
    if d > 0 {
      SumMore(s[1..], d - 1);
      assert s[..d + 1][1..] == s[1..][..d] && s[..d][1..] == s[1..][..d - 1];
    } else {
      assert s[..1] == [s[0]] && [s[0]][1..] == [] && s[..0] == [];
    }
  }

  /** A document's layers are where they belong. */
  ghost predicate Bound(before: nat, n: nat, layers: seq<LayerRows>) {
    forall l | 0 <= l < |layers| ::
      layers[l] == LayerRows(n, KvStart(before, n, l), KvStart(before, n, l) + RowBytes(n, l))
  }

  /** The first documents are where they belong. */
  ghost predicate AllBound(lengths: seq<nat>, kv: seq<seq<LayerRows>>) {
    && |kv| <= |lengths|
    && forall d | 0 <= d < |kv| :: |kv[d]| == LAYERS && Bound(Sum(lengths[..d]), lengths[d], kv[d])
  }

  /** One document's K and V of every layer. */
  method BindDocument(a: JbArena, n: nat, ghost before: nat) returns (layers: seq<LayerRows>, ok: bool)
    requires a.Valid() && a.used == a.peak == KvStart(before, n, 0) && KvStart(before, n, LAYERS) <= a.size
    modifies a
    ensures ok && a.Valid() && a.size == old(a.size) && a.used == a.peak == KvStart(before, n, LAYERS)
    ensures |layers| == LAYERS && Bound(before, n, layers)
  {
    hide KvStart, RowBytes, PlanAdd, AlignUp, KvWidth;
    layers, ok := [], true;
    for l: nat := 0 to LAYERS
      invariant ok && a.Valid() && a.size == old(a.size) && a.used == a.peak == KvStart(before, n, l)
      invariant |layers| == l && Bound(before, n, layers)
    {
      TwoRowsAt(before, n, l);
      StartsGrow(before, n, l);
      FloatBytes(n, l);
      var k, v;
      ok, k := a.Alloc(n * KvWidth(l), FLOAT);
      ok, v := a.Alloc(n * KvWidth(l), FLOAT);
      layers := layers + [LayerRows(n, k, v)];
    }
  }

  lemma FloatBytes(n: nat, l: nat)
    ensures n * KvWidth(l) * FLOAT == RowBytes(n, l)
  {
  }

  lemma {:induction false} StartsGrow(before: nat, n: nat, l: nat)
    requires l < LAYERS
    ensures KvStart(before, n, l) + RowBytes(n, l) <= KvStart(before, n, l + 1) <= KvStart(before, n, LAYERS)
    decreases LAYERS - l
  {
    hide KvStart, RowBytes;
    NextStart(before, n, l);
    if l + 1 < LAYERS {
      StartsGrow(before, n, l + 1);
    }
  }

  /** All documents' K and V in a slab of the planned size: nothing fails to fit, and the slab is used up. */
  method KvBind(a: JbArena, lengths: seq<nat>) returns (kv: seq<seq<LayerRows>>, ok: bool)
    requires a.Valid() && a.used == a.peak == 0 && a.size == Times(Sum(lengths), PerToken())
    modifies a
    ensures ok && a.Valid() && a.size == old(a.size) && a.used == a.peak == a.size
    ensures |kv| == |lengths| && AllBound(lengths, kv)
  {
    hide KvStart, RowBytes, PerToken, Bound;
    kv, ok := [], true;
    StartOfNone();
    StartOfAll(Sum(lengths));
    for d: nat := 0 to |lengths|
      invariant ok && a.Valid() && a.size == old(a.size) && a.used == a.peak == KvStart(Sum(lengths[..d]), 0, 0)
      invariant |kv| == d && AllBound(lengths, kv)
    {
      ghost var before := Sum(lengths[..d]);
      AnyEmpty(before, lengths[d]);
      NextStart(before, lengths[d], 0);
      SumMore(lengths, d);
      DocumentFits(lengths, d);
      var layers;
      layers, ok := BindDocument(a, lengths[d], before);
      kv := kv + [layers];
    }
    assert lengths[..|lengths|] == lengths;
  }

  lemma {:induction false} SumPrefix(s: seq<nat>, d: nat)
    requires d <= |s|
    ensures Sum(s[..d]) <= Sum(s)
    decreases |s| - d
  {
    if d < |s| {
      SumMore(s, d);
      SumPrefix(s, d + 1);
    } else {
      assert s[..d] == s;
    }
  }

  lemma DocumentFits(lengths: seq<nat>, d: nat)
    requires d < |lengths|
    ensures KvStart(Sum(lengths[..d + 1]), 0, 0) <= Times(Sum(lengths), PerToken())
  {
    hide KvStart, PerToken, Times;
    SumPrefix(lengths, d + 1);
    StartOfAll(Sum(lengths[..d + 1]));
    TimesGrows(Sum(lengths[..d + 1]), Sum(lengths), PerToken());
  }

  /** No two of a slab's K and V rooms overlap: an earlier document's end before a later one's begin, and so do an
      earlier layer's. */
  lemma RoomsApart(lengths: seq<nat>, d: nat, l: nat, e: nat, m: nat)
    requires d < |lengths| && e < |lengths| && l < LAYERS && m < LAYERS && (d < e || (d == e && l < m))
    ensures KvStart(Sum(lengths[..d]), lengths[d], l) + 2 * RowBytes(lengths[d], l)
            <= KvStart(Sum(lengths[..e]), lengths[e], m)
  {
    hide KvStart, RowBytes;
    NextStart(Sum(lengths[..d]), lengths[d], l);
    if d == e {
      LayersApart(Sum(lengths[..d]), lengths[d], l + 1, m);
    } else {
      LayersApart(Sum(lengths[..d]), lengths[d], l + 1, LAYERS);
      SumMore(lengths, d);
      DocumentsApart(lengths, d + 1, e);
      AnyEmpty(Sum(lengths[..e]), lengths[e]);
      LayersApart(Sum(lengths[..e]), lengths[e], 0, m);
    }
  }

  lemma {:induction false} LayersApart(before: nat, n: nat, l: nat, m: nat)
    requires l <= m <= LAYERS
    ensures KvStart(before, n, l) <= KvStart(before, n, m)
    decreases m - l
  {
    hide KvStart, RowBytes;
    if l < m {
      NextStart(before, n, l);
      LayersApart(before, n, l + 1, m);
    }
  }

  lemma DocumentsApart(lengths: seq<nat>, d: nat, e: nat)
    requires d <= e <= |lengths|
    ensures KvStart(Sum(lengths[..d]), 0, 0) <= KvStart(Sum(lengths[..e]), 0, 0)
  {
    hide KvStart, PerToken, Times;
    SumPrefix(lengths[..e], d);
    assert lengths[..e][..d] == lengths[..d];
    StartOfAll(Sum(lengths[..d]));
    StartOfAll(Sum(lengths[..e]));
    TimesGrows(Sum(lengths[..d]), Sum(lengths[..e]), PerToken());
  }

  /** Releasing storage that is planned exactly fails unless it is used up. */
  method StorageEnd(a: JbArena) returns (ok: bool)
    ensures ok <==> a.used == a.size && a.peak == a.size
  {
    ok := a.used == a.size && a.peak == a.size;
  }

  /** A request's K/V storage from begin to end: every layer's rows are where they belong, and the end check passes. */
  method WorkerKv(lengths: seq<nat>) returns (kv: seq<seq<LayerRows>>, ok: bool)
    ensures ok && |kv| == |lengths| && AllBound(lengths, kv)
  {
    var bytes := KvPlan(lengths);
    var a := new JbArena(bytes);
    kv, ok := KvBind(a, lengths);
    if ok {
      ok := StorageEnd(a);
    }
  }

  // ----- a microbatch's control arrays

  /** The plan of the ten arrays. */
  method ControlPlan(batch: nat, length: nat, segments: nat, width: nat) returns (bytes: nat)
    ensures bytes == PlanFrom(0, ControlSizes(batch, length, segments, width))
  {
    var s := ControlSizes(batch, length, segments, width);
    bytes := 0;
    for i := 0 to |s|
      invariant PlanFrom(bytes, s[i..]) == PlanFrom(0, s)
    {
      assert s[i..][1..] == s[i + 1..];
      bytes := PlanAdd(bytes, s[i]);
    }
  }

  function ControlSizes(batch: nat, length: nat, segments: nat, width: nat): seq<nat> {
    [batch * INT, batch * length * INT, batch * LAYERS * HEADER, batch * INT, segments * width * INT, segments * INT,
     batch * INT, segments * INT, segments * ADDRESS, batch * HEADER]
  }

  /** The ten arrays in storage of the planned size, and the check at the end. */
  method Control(batch: nat, length: nat, segments: nat, width: nat) returns (ok: bool)
    ensures ok
  {
    hide ControlSizes;
    var bytes := ControlPlan(batch, length, segments, width);
    var a := new JbArena(bytes);
    a.AllocAll(ControlSizes(batch, length, segments, width));
    ok := StorageEnd(a);
  }
}
