/** Running the chosen experts group by group (jb.c:6754-6820): each expert gathers its tokens, computes them together
    and scatters the weighted results, which are then summed token by token. */
module Experts {
  import opened Segments

  type Row(==, 0, !new)
  type Weight(==, 0, !new)

  /** The numeric steps, uninterpreted: an expert on a row, a weighted row, a sum, and the norms and residual after
      it. */
  datatype Moe = Moe(
    expert: (nat, Row) -> Row,
    weighted: (Weight, Row) -> Row,
    zero: Row,
    add: (Row, Row) -> Row,
    finish: (Row, Row, Row) -> Row)

  /** `n` tokens with `k` chosen experts and weights each, and the rows the experts read. */
  datatype Batch = Batch(n: nat, k: nat, experts: nat, top: seq<nat>, weight: seq<Weight>, rows: seq<Row>) {
    ghost predicate Shaped() {
      |top| == |weight| == n * k && |rows| == n && forall i | 0 <= i < |top| :: top[i] < experts
    }

    /** How often expert `e` is chosen in the first `p` slots. */
    ghost function Chosen(e: nat, p: nat): nat
      requires p <= |top|
    {
      if p == 0 then 0 else Chosen(e, p - 1) + if top[p - 1] == e then 1 else 0
    }

    /** No expert's group is larger than the buffers for it, which have room for each token once. */
    ghost predicate Valid() {
      Shaped() && forall e: nat :: Chosen(e, |top|) <= n
    }

    /** No token chooses an expert twice. */
    ghost predicate Distinct() {
      Shaped() && forall t, a, c {:trigger At(t, a, n, k), At(t, c, n, k)} | 0 <= t < n && 0 <= a < c < k ::
        top[At(t, a, n, k)] != top[At(t, c, n, k)]
    }

    /** The contribution of token `t`'s slot `s`, computed for that token alone. */
    ghost function Contribution(m: Moe, t: nat, s: nat): Row
      requires Valid() && t < n && s < k
    {
      m.weighted(weight[At(t, s, n, k)], m.expert(top[At(t, s, n, k)], rows[t]))
    }
  }

  /** The (token, slot) pairs that an expert serves, among those stored before `pos`, in order. */
  ghost predicate Serves(b: Batch, e: nat, owners: seq<(nat, nat)>, pos: nat)
    requires b.Shaped()
  {
    && pos <= |b.top| && |owners| == b.Chosen(e, pos)
    && (forall q | 0 <= q < |owners| :: owners[q].0 < b.n && owners[q].1 < b.k
          && At(owners[q].0, owners[q].1, b.n, b.k) < pos && b.top[At(owners[q].0, owners[q].1, b.n, b.k)] == e)
    && (forall p, q | 0 <= p < q < |owners| ::
          At(owners[p].0, owners[p].1, b.n, b.k) < At(owners[q].0, owners[q].1, b.n, b.k))
    && (forall t', s' {:trigger At(t', s', b.n, b.k)} | 0 <= t' < b.n && 0 <= s' < b.k && At(t', s', b.n, b.k) < pos
          && b.top[At(t', s', b.n, b.k)] == e :: (t', s') in owners)
  }

  lemma {:induction false} ChosenGrows(b: Batch, e: nat, p: nat, q: nat)
    requires p <= q <= |b.top|
    ensures b.Chosen(e, p) <= b.Chosen(e, q)
    decreases q
  {
    if p < q {
      ChosenGrows(b, e, p, q - 1);
    }
  }

  /** Where a token's slots begin, and where the slot after `s` is. */
  lemma Positions(b: Batch, t: nat, s: nat)
    requires b.Shaped() && t < b.n && s < b.k
    ensures At(t, s, b.n, b.k) == t * b.k + s < |b.top| == |b.weight| && |b.rows| == b.n
    ensures t * b.k + b.k == (t + 1) * b.k
  {
    Fits(b.n, t, b.k);
  }

  /** A token that chooses no expert twice adds each expert at most once. */
  lemma {:induction false} ChosenInToken(b: Batch, e: nat, t: nat, s: nat)
    requires b.Distinct() && t < b.n && s <= b.k && t * b.k + s <= |b.top| && t * b.k <= |b.top|
    ensures b.Chosen(e, t * b.k + s) <= b.Chosen(e, t * b.k) + 1
    ensures (forall a | 0 <= a < s :: b.top[At(t, a, b.n, b.k)] != e) ==>
      b.Chosen(e, t * b.k + s) == b.Chosen(e, t * b.k)
    decreases s
  {
    if s > 0 {
      Positions(b, t, s - 1);
      ChosenInToken(b, e, t, s - 1);
      assert At(t, s - 1, b.n, b.k) == t * b.k + s - 1;
    }
  }

  /** If no token chooses an expert twice, no expert's group is larger than the number of tokens. */
  lemma {:induction false} DistinctFits(b: Batch, e: nat, t: nat)
    requires b.Distinct() && t <= b.n
    ensures t * b.k <= |b.top| && b.Chosen(e, t * b.k) <= t
    decreases t
  {
    if t > 0 {
      DistinctFits(b, e, t - 1);
      Fits(b.n, t - 1, b.k);
      ChosenInToken(b, e, t - 1, b.k);
    }
  }

  lemma DistinctIsValid(b: Batch)
    requires b.Distinct()
    ensures b.Valid()
  {
    forall e: nat
      ensures b.Chosen(e, |b.top|) <= b.n
    {
      DistinctFits(b, e, b.n);
    }
  }

  lemma ServeOne(b: Batch, e: nat, owners: seq<(nat, nat)>, t: nat, s: nat)
    requires b.Valid() && t < b.n && s < b.k && Serves(b, e, owners, At(t, s, b.n, b.k))
    ensures b.top[At(t, s, b.n, b.k)] == e ==> Serves(b, e, owners + [(t, s)], At(t, s, b.n, b.k) + 1) && |owners| < b.n
    ensures b.top[At(t, s, b.n, b.k)] != e ==> Serves(b, e, owners, At(t, s, b.n, b.k) + 1)
  {
    var pos := At(t, s, b.n, b.k);
    ChosenGrows(b, e, pos + 1, |b.top|);
    forall t', s' {:trigger At(t', s', b.n, b.k)} | 0 <= t' < b.n && 0 <= s' < b.k && At(t', s', b.n, b.k) == pos
      ensures t' == t && s' == s
    {
      AtInjective(t', s', t, s, b.n, b.k);
    }
    hide At;
    var o := owners + [(t, s)];
    assert o[|owners|] == (t, s) && forall x | x in owners :: x in o;
  }

  method GatherOne(b: Batch, e: nat, owner: array<(nat, nat)>, gather: array<Row>, ne: nat, t: nat, s: nat)
    returns (n: nat)
    requires b.Valid() && owner.Length == gather.Length == b.n && (owner as object) != gather && t < b.n && s < b.k
    requires ne <= b.n && Serves(b, e, owner[..ne], At(t, s, b.n, b.k))
    requires forall q | 0 <= q < ne :: owner[q].0 < b.n && gather[q] == b.rows[owner[q].0]
    modifies owner, gather
    ensures n <= b.n && Serves(b, e, owner[..n], At(t, s, b.n, b.k) + 1)
    ensures forall q | 0 <= q < n :: owner[q].0 < b.n && gather[q] == b.rows[owner[q].0]
  {
    hide Serves, At, Batch.Valid;
    NoneServed(b, e);
    ServeOne(b, e, owner[..ne], t, s);
    TopAt(b, t, s);
    n := ne;
    if b.top[At(t, s, b.n, b.k)] == e {
      ghost var before := owner[..ne];
      owner[ne] := (t, s);
      gather[ne] := b.rows[t];
      n := ne + 1;
      assert owner[..n] == before + [(t, s)];
    }
  }

  /** Collects an expert's pairs, and their tokens' rows behind one another. */
  method Gather(b: Batch, e: nat, owner: array<(nat, nat)>, gather: array<Row>) returns (ne: nat)
    requires b.Valid() && owner.Length == gather.Length == b.n && (owner as object) != gather
    modifies owner, gather
    ensures ne <= b.n && Serves(b, e, owner[..ne], |b.top|)
    ensures forall q | 0 <= q < ne :: owner[q].0 < b.n && gather[q] == b.rows[owner[q].0]
  {
    hide Serves, At, Batch.Valid;
    ne := 0;
    NoneServed(b, e);
    assert owner[..0] == [];
    for t := 0 to b.n
      invariant ne <= b.n && Serves(b, e, owner[..ne], t * b.k)
      invariant forall q | 0 <= q < ne :: owner[q].0 < b.n && gather[q] == b.rows[owner[q].0]
    {
      for s := 0 to b.k
        invariant ne <= b.n && Serves(b, e, owner[..ne], t * b.k + s)
        invariant forall q | 0 <= q < ne :: owner[q].0 < b.n && gather[q] == b.rows[owner[q].0]
      {
        Positions(b, t, s);
        ne := GatherOne(b, e, owner, gather, ne, t, s);
      }
      assert t * b.k + b.k == (t + 1) * b.k;
    }
  }

  lemma NoneServed(b: Batch, e: nat)
    requires b.Valid()
    ensures b.Shaped() && Serves(b, e, [], 0) && |b.rows| == b.n && |b.top| == b.n * b.k
  {
  }

  lemma TopAt(b: Batch, t: nat, s: nat)
    requires b.Valid() && t < b.n && s < b.k
    ensures At(t, s, b.n, b.k) < |b.top| == |b.weight| && |b.rows| == b.n
  {
  }

  /** Experts before `e` have written every contribution of theirs, exactly once; the others are untouched. */
  ghost predicate Written(m: Moe, b: Batch, e: nat, contrib: seq<Row>, writes: seq<nat>)
    requires b.Valid()
  {
    && |contrib| == |writes| == b.n * b.k
    && forall t, s {:trigger At(t, s, b.n, b.k)} | 0 <= t < b.n && 0 <= s < b.k ::
         var i := At(t, s, b.n, b.k);
         if b.top[i] < e then contrib[i] == b.Contribution(m, t, s) && writes[i] == 1 else writes[i] == 0
  }

  /** The scatter of expert `e` after its first `q` pairs. */
  ghost predicate Scattered(m: Moe, b: Batch, e: nat, owners: seq<(nat, nat)>, q: nat, contrib: seq<Row>,
                            writes: seq<nat>)
    requires b.Valid() && Serves(b, e, owners, |b.top|) && q <= |owners|
  {
    && |contrib| == |writes| == b.n * b.k
    && forall t, s {:trigger At(t, s, b.n, b.k)} | 0 <= t < b.n && 0 <= s < b.k ::
         var i := At(t, s, b.n, b.k);
         if b.top[i] < e || (t, s) in owners[..q] then contrib[i] == b.Contribution(m, t, s) && writes[i] == 1
           else writes[i] == 0
  }

  lemma ScatterOne(m: Moe, b: Batch, e: nat, owners: seq<(nat, nat)>, q: nat, contrib: seq<Row>, writes: seq<nat>)
    requires b.Valid() && Serves(b, e, owners, |b.top|) && q < |owners|
      && Scattered(m, b, e, owners, q, contrib, writes)
    ensures owners[q].0 < b.n && owners[q].1 < b.k
    ensures var i := At(owners[q].0, owners[q].1, b.n, b.k);
            && writes[i] == 0 && b.top[i] == e
            && Scattered(m, b, e, owners, q + 1, contrib[i := b.Contribution(m, owners[q].0, owners[q].1)],
              writes[i := 1])
  {
    hide At, Batch.Contribution;
    var (t, s) := owners[q];
    var i := At(t, s, b.n, b.k);
    assert owners[..q + 1] == owners[..q] + [(t, s)];
    forall p | 0 <= p < q
      ensures owners[p] != owners[q]
    {
    }
    assert (t, s) !in owners[..q];
    forall t', s' {:trigger At(t', s', b.n, b.k)} | 0 <= t' < b.n && 0 <= s' < b.k && At(t', s', b.n, b.k) == i
      ensures t' == t && s' == s
    {
      AtInjective(t', s', t, s, b.n, b.k);
    }
  }

  lemma ScatterEnds(m: Moe, b: Batch, e: nat, owners: seq<(nat, nat)>, contrib: seq<Row>, writes: seq<nat>)
    requires b.Valid() && Serves(b, e, owners, |b.top|)
    ensures Written(m, b, e, contrib, writes) <==> Scattered(m, b, e, owners, 0, contrib, writes)
    ensures Scattered(m, b, e, owners, |owners|, contrib, writes) <==> Written(m, b, e + 1, contrib, writes)
  {
    hide At, Batch.Contribution;
    assert owners[..|owners|] == owners && owners[..0] == [];
    forall t, s {:trigger At(t, s, b.n, b.k)} | 0 <= t < b.n && 0 <= s < b.k
      ensures b.top[At(t, s, b.n, b.k)] == e <==> (t, s) in owners
    {
    }
  }

  /** Writes the weighted rows of one expert's group back to their tokens' slots. */
  method Scatter(m: Moe, b: Batch, e: nat, owner: array<(nat, nat)>, gather: array<Row>, ne: nat, contrib: array<Row>,
                 ghost writes: seq<nat>) returns (ghost after: seq<nat>)
    requires b.Valid() && ne <= owner.Length == gather.Length && Serves(b, e, owner[..ne], |b.top|)
    requires forall q | 0 <= q < ne :: owner[q].0 < b.n && gather[q] == b.rows[owner[q].0]
    requires contrib != gather && (contrib as object) != owner && Written(m, b, e, contrib[..], writes)
    modifies contrib
    ensures Written(m, b, e + 1, contrib[..], after)
  {
    hide Serves, Scattered, Written, At, Batch.Valid;
    ghost var owners := owner[..ne];
    ScatterEnds(m, b, e, owners, contrib[..], writes);
    after := writes;
    var out := GroupOutput(m, e, gather[..ne]);
    for q := 0 to ne
      invariant owner[..ne] == owners
      invariant Scattered(m, b, e, owners, q, contrib[..], after)
    {
      ghost var was := contrib[..];
      ScatterOne(m, b, e, owners, q, was, after);
      var (t, s) := owner[q];
      assert owners[q] == (t, s);
      TopAt(b, t, s);
      ScatterLength(m, b, e, owners, q, was, after);
      var i := At(t, s, b.n, b.k);
      contrib[i] := m.weighted(b.weight[i], out[q]);
      after := after[i := 1];
      assert out[q] == m.expert(e, b.rows[t]);
      assert contrib[..] == was[i := b.Contribution(m, t, s)];
    }
    ScatterEnds(m, b, e, owners, contrib[..], after);
  }

  lemma ScatterLength(m: Moe, b: Batch, e: nat, owners: seq<(nat, nat)>, q: nat, contrib: seq<Row>, writes: seq<nat>)
    requires b.Valid() && Serves(b, e, owners, |b.top|) && q <= |owners|
      && Scattered(m, b, e, owners, q, contrib, writes)
    ensures |contrib| == |writes| == b.n * b.k == |b.top|
  {
  }

  /** The expert's rows for its whole group, one row of output per row of input. */
  function GroupOutput(m: Moe, e: nat, rows: seq<Row>): (r: seq<Row>)
    ensures |r| == |rows| && forall q | 0 <= q < |rows| :: r[q] == m.expert(e, rows[q])
  {
    seq(|rows|, q requires 0 <= q < |rows| => m.expert(e, rows[q]))
  }

  /** The sum of a token's first `s` contributions, in slot order, from zero. */
  ghost function SlotSum(m: Moe, b: Batch, t: nat, s: nat): Row
    requires b.Valid() && t < b.n && s <= b.k
  {
    if s == 0 then m.zero else m.add(SlotSum(m, b, t, s - 1), b.Contribution(m, t, s - 1))
  }

  /** A token's row after the experts, when it runs alone. */
  ghost function TokenAlone(m: Moe, b: Batch, dense: seq<Row>, x: seq<Row>, t: nat): Row
    requires b.Valid() && t < b.n && |dense| == |x| == b.n
  {
    m.finish(dense[t], SlotSum(m, b, t, b.k), x[t])
  }

  /** All experts over all tokens, grouped by expert. Every contribution is written exactly once, and every token's
      row is what direct evaluation of that token gives. */
  method RunExperts(m: Moe, b: Batch, dense: seq<Row>, x: array<Row>)
    requires b.Valid() && |dense| == x.Length == b.n
    modifies x
    ensures forall t | 0 <= t < b.n :: x[t] == TokenAlone(m, b, dense, old(x[..]), t)
  {
    hide Written, Serves, At, Batch.Valid;
    var owner, gather, contrib := new (nat, nat)[b.n], new Row[b.n], new Row[b.n * b.k](i => m.zero);
    ghost var writes: seq<nat> := seq(b.n * b.k, i => 0);
    NoneWritten(m, b, contrib[..], writes);
    for e := 0 to b.experts
      invariant Written(m, b, e, contrib[..], writes)
      invariant x[..] == old(x[..])
    {
      var ne := Gather(b, e, owner, gather);
      if ne > 0 {
        writes := Scatter(m, b, e, owner, gather, ne, contrib, writes);
      } else {
        assert owner[..0] == [];
        SkipExpert(m, b, e, contrib[..], writes);
      }
    }
    for t := 0 to b.n
      invariant forall i | 0 <= i < t :: x[i] == TokenAlone(m, b, dense, old(x[..]), i)
      invariant forall i | t <= i < b.n :: x[i] == old(x[i])
      invariant Written(m, b, b.experts, contrib[..], writes)
    {
      var moe := SumSlots(m, b, contrib, writes, t);
      x[t] := m.finish(dense[t], moe, x[t]);
    }
  }

  method SumSlots(m: Moe, b: Batch, contrib: array<Row>, ghost writes: seq<nat>, t: nat) returns (moe: Row)
    requires b.Valid() && t < b.n && Written(m, b, b.experts, contrib[..], writes)
    ensures moe == SlotSum(m, b, t, b.k)
  {
    hide At;
    moe := m.zero;
    for s := 0 to b.k
      invariant moe == SlotSum(m, b, t, s)
    {
      assert b.top[At(t, s, b.n, b.k)] < b.experts;
      moe := m.add(moe, contrib[At(t, s, b.n, b.k)]);
    }
  }

  lemma NoneWritten(m: Moe, b: Batch, contrib: seq<Row>, writes: seq<nat>)
    requires b.Valid() && |contrib| == |writes| == b.n * b.k && forall i | 0 <= i < |writes| :: writes[i] == 0
    ensures Written(m, b, 0, contrib, writes)
  {
  }

  lemma SkipExpert(m: Moe, b: Batch, e: nat, contrib: seq<Row>, writes: seq<nat>)
    requires b.Valid() && Serves(b, e, [], |b.top|) && Written(m, b, e, contrib, writes)
    ensures Written(m, b, e + 1, contrib, writes)
  {
    ScatterEnds(m, b, e, [], contrib, writes);
  }
}
