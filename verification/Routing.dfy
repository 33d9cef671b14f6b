/** Routing tokens to experts and running them (jb.c:6633-6666, 6745-6820): when the selection of every token is one
    that the expert groups' buffers have room for. */
module Routing {
  import opened Segments
  import TopK
  import opened Experts

  /** Every token's logits, none below the marker. */
  ghost predicate Logits(rts: seq<seq<real>>, lowest: real, experts: nat) {
    forall t | 0 <= t < |rts| :: |rts[t]| == experts && forall e | 0 <= e < experts :: rts[t][e] >= lowest
  }

  /** What is chosen for each token, stored token by token. */
  ghost predicate Routed(rts: seq<seq<real>>, lowest: real, k: nat, top: seq<nat>) {
    |top| == |rts| * k
    && forall t {:trigger rts[t]} | 0 <= t < |rts| && k <= |rts[t]| ::
      TokenRouted(rts[t], lowest, k, Seg(top, t, |rts|, k))
  }

  /** A token's experts are in range, and they are the best ones, and distinct, under one condition. */
  ghost predicate TokenRouted(rt: seq<real>, lowest: real, k: nat, chosen: seq<nat>)
    requires k <= |rt|
  {
    && |chosen| == k && (forall i | 0 <= i < k :: chosen[i] < |rt|)
    && (TopK.Best(rt, chosen, k) <==> TopK.Enough(rt, lowest, k))
    && (TopK.Distinct(chosen) <==> TopK.Enough(rt, lowest, k))
  }

  /** How a token's weights come from its logits and its experts. */
  type Weigh = (seq<real>, seq<nat>) -> seq<Weight>

  ghost predicate Weighs(weigh: Weigh) {
    forall rt, chosen :: |weigh(rt, chosen)| == |chosen|
  }

  /** Every token's weights are its own. */
  ghost predicate Weighed(rts: seq<seq<real>>, weigh: Weigh, k: nat, top: seq<nat>, weight: seq<Weight>) {
    |top| == |weight| == |rts| * k
    && forall t {:trigger rts[t]} | 0 <= t < |rts| ::
      Seg(weight, t, |rts|, k) == weigh(rts[t], Seg(top, t, |rts|, k))
  }

  /** The part of `top` and `weight` that is token `i`'s. */
  ghost predicate TokenStored(rts: seq<seq<real>>, lowest: real, weigh: Weigh, k: nat, top: seq<nat>,
                              weight: seq<Weight>, i: nat) {
    && i < |rts| && k <= |rts[i]| && i * k + k <= |top| == |weight|
    && TokenRouted(rts[i], lowest, k, top[i * k..i * k + k])
    && weight[i * k..i * k + k] == weigh(rts[i], top[i * k..i * k + k])
  }

  /** Routes all tokens: each one's experts and weights. */
  method RouteAll(rts: seq<seq<real>>, lowest: real, weigh: Weigh, k: nat, experts: nat)
    returns (top: seq<nat>, weight: seq<Weight>)
    requires Logits(rts, lowest, experts) && k <= experts && Weighs(weigh)
    ensures Routed(rts, lowest, k, top) && Weighed(rts, weigh, k, top, weight)
  {
    hide TopK.Best, TopK.Enough, TopK.Distinct, TopK.Kept, TopK.Slots, At, TokenStored;
    top, weight := [], [];
    var n := |rts|;
    for t: nat := 0 to n
      invariant |top| == |weight| == t * k
      invariant forall i: nat | i < t :: TokenStored(rts, lowest, weigh, k, top, weight, i)
    {
      var one := TopK.Select(rts[t], lowest, k);
      StoreMore(rts, lowest, weigh, k, top, weight, t, one);
      top, weight := top + one, weight + weigh(rts[t], one);
    }
    forall t | 0 <= t < n
      ensures TokenRouted(rts[t], lowest, k, Seg(top, t, n, k))
      ensures Seg(weight, t, n, k) == weigh(rts[t], Seg(top, t, n, k))
    {
      StoredAt(rts, lowest, weigh, k, top, weight, t);
    }
  }

  lemma StoreMore(rts: seq<seq<real>>, lowest: real, weigh: Weigh, k: nat, top: seq<nat>, weight: seq<Weight>, t: nat,
                  one: seq<nat>)
    requires t < |rts| && k <= |rts[t]| && |top| == |weight| == t * k && Weighs(weigh)
    requires TokenRouted(rts[t], lowest, k, one)
    requires forall i: nat | i < t :: TokenStored(rts, lowest, weigh, k, top, weight, i)
    ensures |top + one| == |weight + weigh(rts[t], one)| == (t + 1) * k
    ensures forall i: nat | i <= t :: TokenStored(rts, lowest, weigh, k, top + one, weight + weigh(rts[t], one), i)
  {
    hide TopK.Best, TopK.Enough, TopK.Distinct;
    var top', weight' := top + one, weight + weigh(rts[t], one);
    assert t * k + k == (t + 1) * k;
    forall i: nat | i <= t
      ensures TokenStored(rts, lowest, weigh, k, top', weight', i)
    {
      if i < t {
        assert TokenStored(rts, lowest, weigh, k, top, weight, i);
        assert top'[i * k..i * k + k] == top[i * k..i * k + k];
        assert weight'[i * k..i * k + k] == weight[i * k..i * k + k];
      } else {
        assert top'[t * k..t * k + k] == one && weight'[t * k..t * k + k] == weigh(rts[t], one);
      }
    }
  }

  lemma StoredAt(rts: seq<seq<real>>, lowest: real, weigh: Weigh, k: nat, top: seq<nat>, weight: seq<Weight>, t: nat)
    requires t < |rts| && |top| == |weight| == |rts| * k && TokenStored(rts, lowest, weigh, k, top, weight, t)
    ensures TokenRouted(rts[t], lowest, k, Seg(top, t, |rts|, k))
    ensures Seg(weight, t, |rts|, k) == weigh(rts[t], Seg(top, t, |rts|, k))
  {
    hide TokenRouted;
    SegSlice(top, t, |rts|, k, k);
    SegSlice(weight, t, |rts|, k, k);
    assert Seg(top, t, |rts|, k)[..k] == Seg(top, t, |rts|, k);
    assert Seg(weight, t, |rts|, k)[..k] == Seg(weight, t, |rts|, k);
  }

  ghost predicate AllEnough(rts: seq<seq<real>>, lowest: real, k: nat) {
    forall t | 0 <= t < |rts| :: k <= |rts[t]| && TopK.Enough(rts[t], lowest, k)
  }

  ghost predicate BatchOf(b: Batch, rts: seq<seq<real>>, lowest: real) {
    && b.n == |rts| && b.k <= b.experts && Logits(rts, lowest, b.experts) && Routed(rts, lowest, b.k, b.top)
    && |b.weight| == b.n * b.k && |b.rows| == b.n
  }

  lemma RoutedIsShaped(b: Batch, rts: seq<seq<real>>, lowest: real)
    requires BatchOf(b, rts, lowest)
    ensures b.Shaped()
  {
    hide TopK.Best, TopK.Enough, TopK.Distinct;
    forall i | 0 <= i < |b.top|
      ensures b.top[i] < b.experts
    {
      AtOf(b.n, b.k, i);
      assert Seg(b.top, i / b.k, b.n, b.k)[i % b.k] == b.top[i];
      assert TokenRouted(rts[i / b.k], lowest, b.k, Seg(b.top, i / b.k, b.n, b.k));
    }
  }

  /** No token repeats an expert if and only if every token has enough logits above the marker. */
  lemma DistinctIffEnough(b: Batch, rts: seq<seq<real>>, lowest: real)
    requires BatchOf(b, rts, lowest)
    ensures b.Distinct() <==> AllEnough(rts, lowest, b.k)
  {
    RoutedIsShaped(b, rts, lowest);
    hide TopK.Best, TopK.Enough, At;
    if AllEnough(rts, lowest, b.k) {
      forall t, a, c {:trigger At(t, a, b.n, b.k), At(t, c, b.n, b.k)} | 0 <= t < b.n && 0 <= a < c < b.k
        ensures b.top[At(t, a, b.n, b.k)] != b.top[At(t, c, b.n, b.k)]
      {
        var chosen := Seg(b.top, t, b.n, b.k);
        assert TokenRouted(rts[t], lowest, b.k, chosen);
        assert chosen[a] != chosen[c];
      }
    }
    if b.Distinct() {
      forall t | 0 <= t < |rts|
        ensures TopK.Enough(rts[t], lowest, b.k)
      {
        var chosen := Seg(b.top, t, b.n, b.k);
        assert TokenRouted(rts[t], lowest, b.k, chosen);
        forall i, j | 0 <= i < j < |chosen|
          ensures chosen[i] != chosen[j]
        {
          assert chosen[i] == b.top[At(t, i, b.n, b.k)] && chosen[j] == b.top[At(t, j, b.n, b.k)];
        }
      }
    }
  }

  /** Then the groups fit their buffers. */
  lemma EnoughIsValid(b: Batch, rts: seq<seq<real>>, lowest: real)
    requires BatchOf(b, rts, lowest) && AllEnough(rts, lowest, b.k)
    ensures b.Valid() && b.Distinct()
  {
    DistinctIffEnough(b, rts, lowest);
    DistinctIsValid(b);
  }

  /** A token that chooses an expert twice adds it twice. */
  lemma ChosenTwice(b: Batch, e: nat, t: nat, a: nat, c: nat)
    requires b.Shaped() && t < b.n && a < c < b.k
    requires b.top[At(t, a, b.n, b.k)] == e == b.top[At(t, c, b.n, b.k)]
    ensures (t + 1) * b.k <= |b.top| && b.Chosen(e, (t + 1) * b.k) >= b.Chosen(e, t * b.k) + 2
  {
    Positions(b, t, a);
    Positions(b, t, c);
    Fits(b.n, t, b.k);
    var p := t * b.k;
    ChosenGrows(b, e, p, p + a);
    ChosenGrows(b, e, p + a + 1, p + c);
    ChosenGrows(b, e, p + c + 1, (t + 1) * b.k);
  }

  lemma {:induction false} ChosenByAll(b: Batch, e: nat, a: nat, c: nat, t: nat)
    requires b.Shaped() && a < c < b.k && t <= b.n
    requires forall i {:trigger At(i, a, b.n, b.k)} | 0 <= i < b.n :: b.top[At(i, a, b.n, b.k)] == e
    requires forall i {:trigger At(i, c, b.n, b.k)} | 0 <= i < b.n :: b.top[At(i, c, b.n, b.k)] == e
    ensures t * b.k <= |b.top| && b.Chosen(e, t * b.k) >= 2 * t
    decreases t
  {
    if t > 0 {
      ChosenByAll(b, e, a, c, t - 1);
      ChosenTwice(b, e, t - 1, a, c);
    }
  }

  /** The condition cannot be dropped: whenever tokens with the same choice repeat an expert in it, that expert's
      group has two pairs for each of them, and outgrows buffers that have room for each token once. */
  lemma RepeatsOutgrow(b: Batch, chosen: seq<nat>)
    requires b.Shaped() && b.n > 0 && |chosen| == b.k && !TopK.Distinct(chosen)
    requires forall t | 0 <= t < b.n :: Seg(b.top, t, b.n, b.k) == chosen
    ensures exists e: nat :: b.Chosen(e, |b.top|) >= 2 * b.n > b.n
    ensures !b.Valid()
  {
    var a, c :| 0 <= a < c < |chosen| && chosen[a] == chosen[c];
    forall i | 0 <= i < b.n
      ensures b.top[At(i, a, b.n, b.k)] == chosen[a] && b.top[At(i, c, b.n, b.k)] == chosen[a]
    {
      assert Seg(b.top, i, b.n, b.k)[a] == chosen[a] && Seg(b.top, i, b.n, b.k)[c] == chosen[c];
    }
    ChosenByAll(b, chosen[a], a, c, b.n);
    assert b.Chosen(chosen[a], |b.top|) >= 2 * b.n;
  }

  /** The sum over a token's first `s` slots, from the token's own row, experts and weights. */
  ghost function OwnSum(m: Moe, chosen: seq<nat>, weights: seq<Weight>, row: Row, s: nat): Row
    requires s <= |chosen| == |weights|
  {
    if s == 0 then m.zero
    else m.add(OwnSum(m, chosen, weights, row, s - 1), m.weighted(weights[s - 1], m.expert(chosen[s - 1], row)))
  }

  /** What a token becomes when it is routed alone: nothing of another token is in it. */
  ghost function OwnRow(m: Moe, weigh: Weigh, rt: seq<real>, chosen: seq<nat>, row: Row, dense: Row, x: Row): Row
    requires Weighs(weigh)
  {
    m.finish(dense, OwnSum(m, chosen, weigh(rt, chosen), row, |chosen|), x)
  }

  /** Slot `s` adds its expert's output, weighted. */
  ghost predicate SlotAdded(m: Moe, weights: seq<Weight>, chosen: seq<nat>, row: Row, s: nat, before: Row, after: Row) {
    && s < |weights| && s < |chosen|
    && after == m.add(before, m.weighted(weights[s], m.expert(chosen[s], row)))
  }

  /** `y` is the token's row: from zero on every slot is added once, in order, and the sum goes to the dense output and
      the residual. */
  ghost predicate RowIs(m: Moe, weights: seq<Weight>, chosen: seq<nat>, row: Row, dense: Row, x: Row, y: Row) {
    exists sums: seq<Row> :: AllAdded(m, weights, chosen, row, sums) && y == m.finish(dense, sums[|chosen|], x)
  }

  ghost predicate AllAdded(m: Moe, weights: seq<Weight>, chosen: seq<nat>, row: Row, sums: seq<Row>) {
    && |sums| == |chosen| + 1 && sums[0] == m.zero
    && forall s: nat | s < |chosen| :: SlotAdded(m, weights, chosen, row, s, sums[s], sums[s + 1])
  }

  lemma OwnRowIs(m: Moe, weigh: Weigh, rt: seq<real>, chosen: seq<nat>, row: Row, dense: Row, x: Row)
    requires Weighs(weigh)
    ensures RowIs(m, weigh(rt, chosen), chosen, row, dense, x, OwnRow(m, weigh, rt, chosen, row, dense, x))
  {
    var weights := weigh(rt, chosen);
    assert |weights| == |chosen|;
    var sums := seq(|chosen| + 1, s requires 0 <= s <= |chosen| => OwnSum(m, chosen, weights, row, s));
    assert AllAdded(m, weights, chosen, row, sums);
  }

  lemma {:induction false} SlotSumIsOwn(m: Moe, b: Batch, t: nat, s: nat)
    requires b.Valid() && t < b.n && s <= b.k
    ensures SlotSum(m, b, t, s) == OwnSum(m, Seg(b.top, t, b.n, b.k), Seg(b.weight, t, b.n, b.k), b.rows[t], s)
  {
    hide At;
    if s > 0 {
      SlotSumIsOwn(m, b, t, s - 1);
    }
  }

  /** Within any batch a token's row is its own: it depends on the token's logits, row, dense output and residual, and
      on its best experts, of which there is one list. */
  lemma TokenIsOwn(m: Moe, b: Batch, rts: seq<seq<real>>, lowest: real, weigh: Weigh, dense: seq<Row>, x: seq<Row>,
                   t: nat, chosen: seq<nat>)
    requires BatchOf(b, rts, lowest) && b.Valid() && Weighs(weigh) && Weighed(rts, weigh, b.k, b.top, b.weight)
    requires t < b.n && |dense| == |x| == b.n && AllEnough(rts, lowest, b.k) && TopK.Best(rts[t], chosen, b.k)
    ensures TokenAlone(m, b, dense, x, t) == OwnRow(m, weigh, rts[t], chosen, b.rows[t], dense[t], x[t])
  {
    hide TopK.Best, TopK.Enough, TopK.Distinct, Batch.Valid;
    SlotSumIsOwn(m, b, t, b.k);
    assert TokenRouted(rts[t], lowest, b.k, Seg(b.top, t, b.n, b.k));
    OneBest(rts[t], chosen, Seg(b.top, t, b.n, b.k), b.k);
  }

  ghost predicate HasBest(rt: seq<real>, k: nat) {
    exists chosen :: TopK.Best(rt, chosen, k)
  }

  lemma OneBest(rt: seq<real>, a: seq<nat>, b: seq<nat>, k: nat)
    requires TopK.Best(rt, a, k) && TopK.Best(rt, b, k)
    ensures a == b
  {
    TopK.BestIsUnique(rt, a, b, k, k);
    assert a[..k] == a && b[..k] == b;
  }

  /** Batches that share a token give it the same row, a batch of it alone included. */
  lemma SameInEveryBatch(m: Moe, b: Batch, rts: seq<seq<real>>, b': Batch, rts': seq<seq<real>>, lowest: real,
                         weigh: Weigh, dense: seq<Row>, x: seq<Row>, dense': seq<Row>, x': seq<Row>, t: nat, t': nat)
    requires BatchOf(b, rts, lowest) && b.Valid() && Weighed(rts, weigh, b.k, b.top, b.weight) && t < b.n
    requires BatchOf(b', rts', lowest) && b'.Valid() && Weighed(rts', weigh, b'.k, b'.top, b'.weight) && t' < b'.n
    requires Weighs(weigh) && b.k == b'.k && AllEnough(rts, lowest, b.k) && AllEnough(rts', lowest, b.k)
    requires |dense| == |x| == b.n && |dense'| == |x'| == b'.n
    requires rts[t] == rts'[t'] && b.rows[t] == b'.rows[t'] && dense[t] == dense'[t'] && x[t] == x'[t']
    ensures TokenAlone(m, b, dense, x, t) == TokenAlone(m, b', dense', x', t')
  {
    hide TopK.Best, TopK.Enough, TopK.Distinct, Batch.Valid, TokenAlone;
    var chosen := Seg(b.top, t, b.n, b.k);
    assert TokenRouted(rts[t], lowest, b.k, chosen);
    TokenIsOwn(m, b, rts, lowest, weigh, dense, x, t, chosen);
    TokenIsOwn(m, b', rts', lowest, weigh, dense', x', t', chosen);
  }

  /** Routes every token and runs the experts: with enough logits above the marker for each token, every token's row
      is what evaluating the best experts of that token alone gives. */
  method RouteAndRun(m: Moe, rts: seq<seq<real>>, lowest: real, weigh: Weigh, k: nat, experts: nat, rows: seq<Row>,
                     dense: seq<Row>, x: array<Row>)
    requires Logits(rts, lowest, experts) && k <= experts && AllEnough(rts, lowest, k) && Weighs(weigh)
    requires |rows| == |dense| == x.Length == |rts|
    modifies x
    ensures forall t | 0 <= t < |rts| :: HasBest(rts[t], k)
    ensures forall t, chosen | 0 <= t < |rts| && TopK.Best(rts[t], chosen, k) ::
      x[t] == OwnRow(m, weigh, rts[t], chosen, rows[t], dense[t], old(x[t]))
      && RowIs(m, weigh(rts[t], chosen), chosen, rows[t], dense[t], old(x[t]), x[t])
  {
    hide TopK.Best, TopK.Enough, TopK.Distinct, Batch.Valid, TokenAlone, OwnRow, Routed, Weighed, RowIs;
    var top, weight := RouteAll(rts, lowest, weigh, k, experts);
    StoredLengths(rts, lowest, weigh, k, top, weight);
    var b := Batch(|rts|, k, experts, top, weight, rows);
    EnoughIsValid(b, rts, lowest);
    ghost var was := x[..];
    RunExperts(m, b, dense, x);
    forall t | 0 <= t < |rts|
      ensures HasBest(rts[t], k)
    {
      RoutedBest(rts, lowest, k, top, t);
    }
    forall t, chosen | 0 <= t < |rts| && TopK.Best(rts[t], chosen, k)
      ensures x[t] == OwnRow(m, weigh, rts[t], chosen, rows[t], dense[t], was[t])
      ensures RowIs(m, weigh(rts[t], chosen), chosen, rows[t], dense[t], was[t], x[t])
    {
      OwnRowIs(m, weigh, rts[t], chosen, rows[t], dense[t], was[t]);
      TokenIsOwn(m, b, rts, lowest, weigh, dense, was, t, chosen);
    }
  }

  lemma RoutedBest(rts: seq<seq<real>>, lowest: real, k: nat, top: seq<nat>, t: nat)
    requires t < |rts| && k <= |rts[t]| && Routed(rts, lowest, k, top) && TopK.Enough(rts[t], lowest, k)
    ensures HasBest(rts[t], k)
  {
    hide TopK.Best, TopK.Enough, TopK.Distinct;
    assert TokenRouted(rts[t], lowest, k, Seg(top, t, |rts|, k));
  }

  lemma StoredLengths(rts: seq<seq<real>>, lowest: real, weigh: Weigh, k: nat, top: seq<nat>, weight: seq<Weight>)
    requires Weighed(rts, weigh, k, top, weight)
    ensures |top| == |weight| == |rts| * k
  {
  }
}
