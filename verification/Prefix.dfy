/** The one-entry prefix cache and the prefill through it (jb.c:8432-8482), and batches that share its entry
    (jb.c:8610-8690). */
module Prefix {
  import opened Wrappers
  import opened Transformer
  import opened Segments
  import opened Attention
  import opened Passes

  datatype Outcome = Hit | Miss | NoReusablePrefix | PrefixConsumesPrompt

  /** A cached schema: its token ids and, per layer, the K and V rows of those tokens. */
  class PrefixCache {
    var schema: Option<string>
    var ids: seq<int>
    var rows: seq<KvRows>

    constructor ()
      ensures schema.None?
    {
      schema, ids, rows := None, [], [];
    }

    /** An entry is empty, or complete for its ids: the rows of the monolithic prefill of just those. */
    ghost predicate Valid(net: Net)
      requires net.window > 0
      reads this
    {
      schema.Some? ==> |rows| == net.layers && forall l | 0 <= l < net.layers :: rows[l] == Monolithic(net, ids, l)
    }

    method Free()
      modifies this
      ensures schema.None? && ids == [] && rows == []
    {
      schema, ids, rows := None, [], [];
    }
  }

  /** How many leading tokens two sequences share. */
  method CommonPrefix(a: seq<int>, b: seq<int>) returns (n: nat)
    ensures n <= |a| && n <= |b| && a[..n] == b[..n]
    ensures n < |a| && n < |b| ==> a[n] != b[n]
  {
    n := 0;
    while n < |a| && n < |b| && a[n] == b[n]
      invariant n <= |a| && n <= |b| && a[..n] == b[..n]
    {
      n := n + 1;
    }
  }

  function Common(a: seq<int>, b: seq<int>): (n: nat)
    ensures n <= |a| && n <= |b|
  {
    if a == [] || b == [] || a[0] != b[0] then 0 else 1 + Common(a[1..], b[1..])
  }

  lemma {:induction false} CommonIs(a: seq<int>, b: seq<int>, n: nat)
    requires n <= |a| && n <= |b| && a[..n] == b[..n] && (n < |a| && n < |b| ==> a[n] != b[n])
    ensures n == Common(a, b)
    decreases n
  {
    if n > 0 {
      assert a[0] == a[..n][0] && b[0] == b[..n][0];
      assert a[1..][..n - 1] == a[..n][1..] && b[1..][..n - 1] == b[..n][1..];
      CommonIs(a[1..], b[1..], n - 1);
    }
  }

  lemma PrefixRowsAreMonolithic(net: Net, prompt: seq<int>, c: nat, l: nat)
    requires net.window > 0 && c <= |prompt| && l < net.layers
    ensures Monolithic(net, prompt, l).Take(c) == Monolithic(net, prompt[..c], l)
  {
    hide Kv;
    assert prompt[..c][..c] == prompt[..c];
    KvLocal(net, prompt, prompt[..c], false, EmptyCaches(net), 0, Causal, l, c);
    TakeAll(Monolithic(net, prompt[..c], l));
  }

  /** Whether a cached entry serves a prompt with this schema. */
  predicate Serves(schema: Option<string>, ids: seq<int>, sys: string, prompt: seq<int>) {
    schema == Some(sys) && ids <= prompt
  }

  lemma ServedPrefix(net: Net, ids: seq<int>, rows: seq<KvRows>, prompt: seq<int>)
    requires net.window > 0 && ids <= prompt && |rows| == net.layers
    requires forall l | 0 <= l < net.layers :: rows[l] == Monolithic(net, ids, l)
    ensures rows == PrefixOf(net, prompt, |ids|) && Caches(net, rows, |ids|)
  {
    hide Kv;
    assert prompt[..|ids|] == ids;
    forall l | 0 <= l < net.layers
      ensures rows[l] == PrefixOf(net, prompt, |ids|)[l]
    {
      PrefixRowsAreMonolithic(net, prompt, |ids|, l);
    }
  }

  /** Copies the first `common` rows of every layer. */
  method FirstRows(net: Net, prompt: seq<int>, kv: seq<KvBuffer>, common: nat) returns (rows: seq<KvRows>)
    requires net.window > 0 && common <= |prompt| && |kv| == net.layers
    requires forall l | 0 <= l < net.layers :: kv[l].Rows() == Monolithic(net, prompt, l)
    ensures |rows| == net.layers && forall l | 0 <= l < net.layers :: rows[l] == Monolithic(net, prompt[..common], l)
  {
    hide Monolithic;
    rows := [];
    for l := 0 to net.layers
      invariant |rows| == l && forall i | 0 <= i < l :: rows[i] == Monolithic(net, prompt[..common], i)
    {
      PrefixRowsAreMonolithic(net, prompt, common, l);
      assert kv[l].Rows() == Monolithic(net, prompt, l);
      rows := rows + [KvRows(kv[l].k[..common], kv[l].v[..common])];
    }
  }

  /** Prefills a prompt through the cache: a hit computes only the rest of the prompt, a miss computes all of it and
      replaces the entry. Whatever the cache held, the K and V are those of the monolithic prefill. */
  method PrefillThrough(net: Net, cache: PrefixCache, sys: string, pre: seq<int>, prompt: seq<int>, kv: seq<KvBuffer>)
    returns (r: Outcome, processed: nat)
    requires net.window > 0 && cache.Valid(net) && Storage(net, kv, |prompt|)
    modifies cache, kv
    ensures cache.Valid(net)
    ensures r.Hit? || r.Miss? ==> |kv| == net.layers && forall l | 0 <= l < net.layers ::
      kv[l].Rows() == Monolithic(net, prompt, l)
    ensures r.Hit? || r.PrefixConsumesPrompt? <==> old(Serves(cache.schema, cache.ids, sys, prompt))
    ensures r.Hit? || r.PrefixConsumesPrompt? <==> old(cache.schema) == Some(sys) && old(cache.ids) <= prompt
    ensures r.PrefixConsumesPrompt? ==> old(cache.ids) == prompt
    ensures r.Hit? ==> processed == |prompt| - |old(cache.ids)| > 0
    ensures r.Miss? ==> processed == |prompt| && cache.schema == Some(sys)
    ensures r.Miss? ==> 0 < |cache.ids| < |prompt| && cache.ids == prompt[..Common(pre, prompt)] <= pre
    ensures r.NoReusablePrefix? <==>
      !old(Serves(cache.schema, cache.ids, sys, prompt)) && !(0 < Common(pre, prompt) < |prompt|)
    ensures !r.Miss? ==> unchanged(cache)
  {
    hide Monolithic, PrefixCache.Valid;
    processed := |prompt|;
    var common := CommonPrefix(pre, prompt);
    CommonIs(pre, prompt, common);
    if Serves(cache.schema, cache.ids, sys, prompt) {
      var n := |cache.ids|;
      processed := |prompt| - n;
      if processed == 0 {
        return PrefixConsumesPrompt, 0;
      }
      Served(net, cache, sys, prompt);
      PrefillSuffix(net, prompt[n..], cache.rows, n, kv);
      forall l | 0 <= l < net.layers
        ensures kv[l].Rows() == Monolithic(net, prompt, l)
      {
        CachedSuffixIsExact(net, prompt, prompt, n, l);
      }
      return Hit, processed;
    }
    if common == 0 || common >= |prompt| {
      return NoReusablePrefix, 0;
    }
    cache.Free();
    Prefill(net, prompt, kv);
    var rows := FirstRows(net, prompt, kv, common);
    cache.schema, cache.ids, cache.rows := Some(sys), prompt[..common], rows;
    Installed(net, cache);
    r := Miss;
  }

  lemma Served(net: Net, cache: PrefixCache, sys: string, prompt: seq<int>)
    requires net.window > 0 && cache.Valid(net) && Serves(cache.schema, cache.ids, sys, prompt)
    ensures cache.rows == PrefixOf(net, prompt, |cache.ids|) && Caches(net, cache.rows, |cache.ids|)
  {
    ServedPrefix(net, cache.ids, cache.rows, prompt);
  }

  lemma Installed(net: Net, cache: PrefixCache)
    requires net.window > 0 && |cache.rows| == net.layers
    requires forall l | 0 <= l < net.layers :: cache.rows[l] == Monolithic(net, cache.ids, l)
    ensures cache.Valid(net)
  {
  }

  /** The longest suffix of a batch, which the others are padded to. */
  method LongestSuffix(prompts: seq<seq<int>>, n: nat) returns (count: nat)
    requires forall b | 0 <= b < |prompts| :: n <= |prompts[b]|
    ensures forall b | 0 <= b < |prompts| :: |prompts[b]| - n <= count
  {
    count := 0;
    for b := 0 to |prompts|
      invariant forall i | 0 <= i < b :: |prompts[i]| - n <= count
    {
      if |prompts[b]| - n > count {
        count := |prompts[b]| - n;
      }
    }
  }

  /** The suffixes laid out in one buffer, zero after each. */
  method PadSuffixes(prompts: seq<seq<int>>, n: nat, count: nat) returns (token: seq<int>)
    requires forall b | 0 <= b < |prompts| :: n <= |prompts[b]| && |prompts[b]| - n <= count
    ensures |token| == |prompts| * count
    ensures forall b | 0 <= b < |prompts| ::
              Seg(token, b, |prompts|, count)[..|prompts[b]| - n] == prompts[b][n..]
  {
    var batch := |prompts|;
    token := seq(batch * count, i => 0);
    for b := 0 to batch
      invariant |token| == batch * count
      invariant forall i | 0 <= i < b :: Seg(token, i, batch, count)[..|prompts[i]| - n] == prompts[i][n..]
    {
      Fits(batch, b, count);
      ghost var before := token;
      token := Copied(token, b * count, prompts[b][n..]);
      PadKeeps(before, token, prompts, n, batch, count, b);
    }
  }

  lemma PadKeeps(before: seq<int>, after: seq<int>, prompts: seq<seq<int>>, n: nat, batch: nat, count: nat, b: nat)
    requires |prompts| == batch && b < batch && |before| == batch * count
    requires forall i | 0 <= i < batch :: n <= |prompts[i]| && |prompts[i]| - n <= count
    requires b * count + |prompts[b][n..]| <= |before| && after == Copied(before, b * count, prompts[b][n..])
    requires forall i | 0 <= i < b :: Seg(before, i, batch, count)[..|prompts[i]| - n] == prompts[i][n..]
    ensures forall i | 0 <= i <= b :: Seg(after, i, batch, count)[..|prompts[i]| - n] == prompts[i][n..]
  {
    forall i | 0 <= i <= b
      ensures Seg(after, i, batch, count)[..|prompts[i]| - n] == prompts[i][n..]
    {
      var keep := |prompts[i]| - n;
      SegSlice(after, i, batch, count, keep);
      if i < b {
        SegSlice(before, i, batch, count, keep);
        Fits(b, i, count);
        assert after[..b * count] == before[..b * count];
        assert after[i * count..i * count + keep] == before[i * count..i * count + keep];
      }
    }
  }

  /** Prefills several prompts that all hit the cached entry in one pass. Each document's K and V are those of its
      own monolithic prefill, whatever the other documents and the padding. */
  method PrefillBatch(net: Net, cache: PrefixCache, sys: string, prompts: seq<seq<int>>, kv: seq<KvBuffer>,
                      lens: seq<nat>)
    requires net.window > 0 && cache.Valid(net)
    requires forall b | 0 <= b < |prompts| :: Serves(cache.schema, cache.ids, sys, prompts[b])
    requires |prompts| > 0 && |kv| == |prompts| * net.layers && |lens| == |prompts| && Separate(kv) && ValidAll(kv)
    requires forall b | 0 <= b < |prompts| :: lens[b] == |prompts[b]| - |cache.ids|
    requires forall b, l {:trigger At(b, l, |prompts|, net.layers)} | 0 <= b < |prompts| && 0 <= l < net.layers ::
               kv[At(b, l, |prompts|, net.layers)].n == |prompts[b]|
    modifies kv
    ensures ValidAll(kv)
    ensures forall b, l {:trigger At(b, l, |prompts|, net.layers)} | 0 <= b < |prompts| && 0 <= l < net.layers ::
              kv[At(b, l, |prompts|, net.layers)].Rows() == Monolithic(net, prompts[b], l)
  {
    hide At, Monolithic, PrefixCache.Valid, Seg;
    var n, batch := |cache.ids|, |prompts|;
    var count := LongestSuffix(prompts, n);
    var token := PadSuffixes(prompts, n, count);
    Served(net, cache, sys, prompts[0]);
    ghost var own := seq(batch, b requires 0 <= b < batch => prompts[b][n..]);
    PrefillSuffixMulti(net, token, lens, batch, count, cache.rows, n, kv, own);
    forall b, l {:trigger At(b, l, batch, net.layers)} | 0 <= b < batch && 0 <= l < net.layers
      ensures kv[At(b, l, batch, net.layers)].Rows() == Monolithic(net, prompts[b], l)
    {
      Served(net, cache, sys, prompts[b]);
      CachedSuffixIsExact(net, prompts[b], prompts[b], n, l);
    }
  }
}
