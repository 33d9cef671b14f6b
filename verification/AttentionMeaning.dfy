/** What attention computes, apart from how (jb.c:6559-6619): which rows a token attends to, and over exact arithmetic
    their weighted mean. */
module AttentionMeaning {
  import opened Transformer
  import opened Segments

  /** Every `fullEvery`-th layer is full. */
  lemma FullIs(net: Net, l: nat)
    ensures net.Full(l) <==> net.fullEvery > 0 && (l + 1) % net.fullEvery == 0
  {
    if net.fullEvery > 0 {
      var f, q, r := net.fullEvery, l / net.fullEvery, l % net.fullEvery;
      assert l == q * f + r;
      if r == f - 1 {
        Remainder(q + 1, 0, f);
        assert l + 1 == (q + 1) * f + 0;
      } else {
        Remainder(q, r + 1, f);
        assert l + 1 == q * f + (r + 1);
      }
    }
  }

  lemma Remainder(q: nat, r: nat, f: nat)
    requires r < f
    ensures (q * f + r) % f == r && (q * f + r) / f == q
  {
    var n := q * f + r;
    var q', r' := n / f, n % f;
    assert n == q' * f + r';
    SameQuotient(q, r, q', r', f);
  }

  lemma SameQuotient(q: nat, r: nat, q': nat, r': nat, f: nat)
    requires r < f && r' < f && q * f + r == q' * f + r'
    ensures q == q' && r == r'
  {
    if q < q' {
      Fits(q', q, f);
    } else if q' < q {
      Fits(q, q', f);
    }
  }

  /** Consecutive query heads share a key/value head, a layer's share at a time. */
  lemma HeadsShare(net: Net, l: nat, kh: nat, i: nat)
    requires i < net.share(net.Full(l))
    ensures net.KvHead(l, kh * net.share(net.Full(l)) + i) == kh
  {
    Remainder(kh, i, net.share(net.Full(l)));
  }

  // ----- which rows

  /** The key and value at position `j`: a cached row's, or that of a token of this pass, made for its own position. */
  function RowAt(net: Net, l: nat, z: seq<Row>, cache: KvRows, j: nat): (Wide, Wide)
    requires cache.Valid() && j < |cache.k| + |z|
  {
    if j < |cache.k| then (cache.k[j], cache.v[j])
    else (net.key(l, z[j - |cache.k|], j), net.value(l, z[j - |cache.k|], j))
  }

  /** The positions a token sees, in order. */
  ghost predicate SeenOnly(net: Net, l: nat, mode: Mode, past: nat, count: nat, t: nat, seen: seq<nat>) {
    && (forall i, j | 0 <= i < j < |seen| :: seen[i] < seen[j])
    && (forall i | 0 <= i < |seen| :: seen[i] < past + count)
    && (forall j: nat :: j in seen <==> Sees(net, l, mode, past, count, t, j))
  }

  /** Attention of one head over the rows at some positions. */
  function AttendAt(net: Net, l: nat, z: seq<Row>, cache: KvRows, q: Vec, kh: nat, seen: seq<nat>): Vec
    requires cache.Valid() && forall i | 0 <= i < |seen| :: seen[i] < |cache.k| + |z|
  {
    Attend(net, q, seq(|seen|, i requires 0 <= i < |seen| => RowAt(net, l, z, cache, seen[i]).0),
           seq(|seen|, i requires 0 <= i < |seen| => RowAt(net, l, z, cache, seen[i]).1), kh)
  }

  lemma NotIn(seen: seq<nat>, start: nat, end: nat)
    requires |seen| > 0 && forall j: nat :: j in seen <==> start <= j < end
    ensures start < end
  {
    assert seen[0] in seen;
  }

  /** Increasing positions that are exactly those of an interval are the interval. */
  lemma {:induction false} IntervalIs(seen: seq<nat>, start: nat, end: nat)
    requires start <= end && forall i, j | 0 <= i < j < |seen| :: seen[i] < seen[j]
    requires forall j: nat :: j in seen <==> start <= j < end
    ensures seen == seq(end - start, i requires 0 <= i < end - start => start + i)
    decreases end - start
  {
    if start == end {
      assert |seen| == 0 by {
        if |seen| > 0 {
          NotIn(seen, start, end);
        }
      }
    } else {
      assert start in seen;
      var k :| 0 <= k < |seen| && seen[k] == start;
      assert seen[0] in seen;
      assert k == 0;
      var rest := seen[1..];
      forall j: nat
        ensures j in rest <==> start + 1 <= j < end
      {
        assert j in seen <==> j == seen[0] || j in rest;
        if j in rest {
          var i :| 0 <= i < |rest| && rest[i] == j;
          assert seen[i + 1] == j && seen[0] < seen[i + 1];
        }
      }
      IntervalIs(rest, start + 1, end);
      assert seen == [start] + rest;
    }
  }

  /** A token's row after attention: each of its heads, made for its own position, attends to the rows at exactly the
      positions it sees, in order. */
  lemma AttendTokenIs(net: Net, l: nat, z: seq<Row>, cache: KvRows, mode: Mode, t: nat, seen: seq<nat>,
                      heads: seq<Vec>)
    requires net.window > 0 && cache.Valid() && t < |z| && |heads| == net.heads
    requires SeenOnly(net, l, mode, |cache.k|, |z|, t, seen)
    requires forall h | 0 <= h < net.heads ::
      heads[h] == AttendAt(net, l, z, cache, net.head(net.query(l, z[t], |cache.k| + t), h), net.KvHead(l, h), seen)
    ensures AttendToken(net, l, z, cache, mode, t) == net.output(l, heads)
  {
    hide Attend, Net.Full, Net.KvHead, StartOf, EndOf;
    var past := |cache.k|;
    SeenBounds(net, l, mode, past, |z|, t);
    var start, end := StartOf(net, l, mode, past, t), EndOf(net, l, mode, past, |z|, t);
    forall j: nat
      ensures j in seen <==> start <= j < end
    {
      SeenIff(net, l, mode, past, |z|, t, j);
    }
    IntervalIs(seen, start, end);
    var all := cache.Then(OwnRows(net, l, z, past));
    RowsOf(net, l, z, cache, seen, start, end);
    assert heads == Heads(net, l, net.query(l, z[t], past + t), all, start, end);
  }

  lemma RowsOf(net: Net, l: nat, z: seq<Row>, cache: KvRows, seen: seq<nat>, start: nat, end: nat)
    requires cache.Valid() && start <= end <= |cache.k| + |z|
    requires seen == seq(end - start, i requires 0 <= i < end - start => start + i)
    ensures var all := cache.Then(OwnRows(net, l, z, |cache.k|));
      && seq(|seen|, i requires 0 <= i < |seen| => RowAt(net, l, z, cache, seen[i]).0) == all.k[start..end]
      && seq(|seen|, i requires 0 <= i < |seen| => RowAt(net, l, z, cache, seen[i]).1) == all.v[start..end]
  {
  }

  // ----- how they are mixed

  /** The sum of `f` below `n`. */
  ghost function Total(f: nat -> real, n: nat): real {
    if n == 0 then 0.0 else f(n - 1) + Total(f, n - 1)
  }

  /** Readings of floats and of one coordinate of vectors as numbers, under which the arithmetic is exact. */
  ghost predicate Exact(net: Net, val: Float -> real, coord: Vec -> real) {
    && val(net.zero) == 0.0 && (forall x, y :: val(net.add(x, y)) == val(x) + val(y))
    && coord(net.zeroVec) == 0.0
    && (forall a, p, v :: coord(net.accumulate(a, p, v)) == coord(a) + val(p) * coord(v))
  }

  lemma {:induction false} TotalSame(f: nat -> real, g: nat -> real, n: nat)
    requires forall i: nat | i < n :: f(i) == g(i)
    ensures Total(f, n) == Total(g, n)
  {
    if n > 0 {
      TotalSame(f, g, n - 1);
    }
  }

  /** The denominator is the sum. */
  lemma {:induction false} SumIsTotal(net: Net, val: Float -> real, coord: Vec -> real, s: seq<Float>)
    requires Exact(net, val, coord)
    ensures val(SumOf(net, s)) == Total((i: nat) => if i < |s| then val(s[i]) else 0.0, |s|)
  {
    var f := (i: nat) => if i < |s| then val(s[i]) else 0.0;
    if s != [] {
      var n := |s| - 1;
      SumIsTotal(net, val, coord, s[..n]);
      TotalSame((i: nat) => if i < n then val(s[..n][i]) else 0.0, f, n);
    }
  }

  /** The mix is the sum of the values, each times its share. */
  lemma {:induction false} MixIsTotal(net: Net, val: Float -> real, coord: Vec -> real, e: seq<Float>, den: Float,
                                      values: seq<Wide>, kh: nat)
    requires Exact(net, val, coord) && |e| == |values|
    ensures coord(Mix(net, e, den, values, kh)) ==
      Total((i: nat) => if i < |e| then val(net.div(e[i], den)) * coord(net.head(values[i], kh)) else 0.0, |e|)
  {
    var f := (i: nat) => if i < |e| then val(net.div(e[i], den)) * coord(net.head(values[i], kh)) else 0.0;
    if e != [] {
      var n := |e| - 1;
      MixIsTotal(net, val, coord, e[..n], den, values[..n], kh);
      TotalSame((i: nat) => if i < n then val(net.div(e[..n][i], den)) * coord(net.head(values[..n][i], kh)) else 0.0,
        f, n);
    }
  }

  /** A strict order of floats, as far as a maximum needs one. */
  ghost predicate Ordered(net: Net) {
    && (forall x, y | net.greater(x, y) :: !net.greater(y, x))
    && (forall x, y, z | net.greater(x, y) && !net.greater(z, y) :: net.greater(x, z))
  }

  /** The maximum is one of the scores, unless all are as low as can be, and none is above it. */
  lemma {:induction false} MaximumIsMost(net: Net, s: seq<Float>)
    requires Ordered(net)
    ensures forall x | x in s :: !net.greater(x, MaxOf(net, s))
    ensures !net.greater(net.lowest, MaxOf(net, s))
    ensures MaxOf(net, s) == net.lowest || MaxOf(net, s) in s
  {
    if s != [] {
      var n := |s| - 1;
      MaximumIsMost(net, s[..n]);
      forall x | x in s
        ensures !net.greater(x, MaxOf(net, s))
      {
        assert x in s[..n] || x == s[n];
      }
    }
  }

  /** Attention of one head, over exact arithmetic: with the weight of each key the exponential of its score, taken
      against the greatest score, over the sum of all of these, the sum of the values' coordinates so weighted. */
  lemma AttendIsMean(net: Net, val: Float -> real, coord: Vec -> real, q: Vec, keys: seq<Wide>, values: seq<Wide>,
                     kh: nat, w: seq<Float>, most: Float, den: Float)
    requires Exact(net, val, coord) && |keys| == |values| == |w|
    requires most == MaxOf(net, seq(|keys|, i requires 0 <= i < |keys| => net.dot(q, net.head(keys[i], kh))))
    requires forall i | 0 <= i < |w| :: w[i] == net.expOf(net.dot(q, net.head(keys[i], kh)), most)
    requires den == SumOf(net, w)
    ensures val(den) == Total((i: nat) => if i < |w| then val(w[i]) else 0.0, |w|)
    ensures coord(Attend(net, q, keys, values, kh)) ==
      Total((i: nat) => if i < |w| then val(net.div(w[i], den)) * coord(net.head(values[i], kh)) else 0.0, |w|)
  {
    hide MaxOf, SumOf, Mix, Exact, Total;
    var s := Dots(net, q, keys, kh);
    assert s == seq(|keys|, i requires 0 <= i < |keys| => net.dot(q, net.head(keys[i], kh)));
    assert w == Exps(net, s, most);
    SumIsTotal(net, val, coord, w);
    MixIsTotal(net, val, coord, w, den, values, kh);
  }

  // ----- a canvas

  /** A canvas of one token attends as a suffix of one token does. */
  lemma CanvasOfOne(net: Net, l: nat, x: Row, cache: KvRows)
    requires net.window > 0 && cache.Valid()
    ensures AttendToken(net, l, [x], cache, Canvas, 0) == AttendToken(net, l, [x], cache, Suffix, 0)
  {
    hide Attend, Net.Full;
  }
}
