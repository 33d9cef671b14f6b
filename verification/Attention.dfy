/** Attention over equal-stride segments, in place (jb.c:6371-6386, 6504-6628). */
module Attention {
  import opened Transformer
  import opened Segments

  /** One layer's K and V storage for one sequence, of a planned length. */
  class KvBuffer {
    var n: nat
    var k: seq<Wide>
    var v: seq<Wide>

    constructor (k: seq<Wide>, v: seq<Wide>)
      requires |k| == |v|
      ensures Valid() && Rows() == KvRows(k, v)
    {
      this.n, this.k, this.v := |k|, k, v;
    }

    ghost predicate Valid()
      reads this
    {
      |k| == |v| == n
    }

    ghost function Rows(): (r: KvRows)
      reads this
      ensures Valid() ==> r.Valid() && |r.k| == n
    {
      KvRows(k, v)
    }
  }

  // ----- one query head

  /** The dots of a query with consecutive keys, written from `at` on. */
  method DotRun(net: Net, qq: Vec, kh: nat, keys: seq<Wide>, ts: array<Float>, at: nat)
    requires at + |keys| <= ts.Length
    modifies ts
    ensures forall j | at <= j < at + |keys| :: ts[j] == net.dot(qq, net.head(keys[j - at], kh))
    ensures forall j | 0 <= j < at :: ts[j] == old(ts[j])
  {
    for j := 0 to |keys|
      invariant forall i | at <= i < at + j :: ts[i] == net.dot(qq, net.head(keys[i - at], kh))
      invariant forall i | 0 <= i < at :: ts[i] == old(ts[i])
    {
      ts[at + j] := net.dot(qq, net.head(keys[j], kh));
    }
  }

  /** The row of position `j`: a cached one below `past`, else this call's own, counted from `own`. */
  ghost predicate RowsAre(all: seq<Wide>, cache: seq<Wide>, mine: array<Wide>, own: nat, end: nat)
    reads mine
  {
    && end <= |all| && (end > |cache| ==> own + (end - |cache|) <= mine.Length)
    && (forall j {:trigger all[j]} | 0 <= j < end :: all[j] == if j < |cache| then cache[j]
      else mine[own + j - |cache|])
  }

  /** The scores of positions `start` up to `end`: cached keys first, then this call's own. */
  method Scores(net: Net, qq: Vec, kh: nat, cache: seq<Wide>, k: array<Wide>, own: nat, start: nat, end: nat,
                ts: array<Float>, ghost all: seq<Wide>)
    requires start <= end <= ts.Length && RowsAre(all, cache, k, own, end) && (k as object) != ts
    modifies ts
    ensures ts[start..end] == Dots(net, qq, all[start..end], kh)
  {
    var past := |cache|;
    var split := if end < past then end else past;
    var fresh' := if start > past then start else past;
    if start < split {
      DotRun(net, qq, kh, cache[start..split], ts, start);
      assert forall j | start <= j < split :: ts[j] == net.dot(qq, net.head(all[j], kh));
    }
    if fresh' < end {
      DotRun(net, qq, kh, k[own + (fresh' - past)..own + (end - past)], ts, fresh');
      forall j | fresh' <= j < end
        ensures ts[j] == net.dot(qq, net.head(all[j], kh))
      {
        assert all[j] == k[own + j - past];
      }
    }
    assert forall j | start <= j < end :: ts[j] == net.dot(qq, net.head(all[j], kh));
  }

  method Maximum(net: Net, ts: array<Float>, lo: nat, hi: nat) returns (mx: Float)
    requires lo <= hi <= ts.Length
    ensures mx == MaxOf(net, ts[lo..hi])
  {
    mx := net.lowest;
    for j := lo to hi
      invariant mx == MaxOf(net, ts[lo..j])
    {
      assert ts[lo..j + 1][..j - lo] == ts[lo..j];
      if net.greater(ts[j], mx) {
        mx := ts[j];
      }
    }
  }

  lemma SliceStep<T>(x: seq<T>, n: nat)
    requires n < |x|
    ensures x[..n + 1][..n] == x[..n] && x[..n + 1][n] == x[n]
  {
  }

  method Exponentials(net: Net, ts: array<Float>, lo: nat, hi: nat, mx: Float) returns (den: Float)
    requires lo <= hi <= ts.Length
    modifies ts
    ensures ts[lo..hi] == Exps(net, old(ts[lo..hi]), mx) && den == SumOf(net, ts[lo..hi])
  {
    ghost var e := Exps(net, ts[lo..hi], mx);
    den := net.zero;
    for j := lo to hi
      invariant forall i | lo <= i < j :: ts[i] == e[i - lo]
      invariant forall i | j <= i < hi :: ts[i] == old(ts[i])
      invariant den == SumOf(net, e[..j - lo])
    {
      SliceStep(e, j - lo);
      ts[j] := net.expOf(ts[j], mx);
      den := net.add(den, ts[j]);
    }
    assert ts[lo..hi] == e && e[..hi - lo] == e;
  }

  lemma NoMix(net: Net, den: Float, kh: nat)
    ensures Mix(net, [], den, [], kh) == net.zeroVec
  {
  }

  lemma MixStep(net: Net, e: seq<Float>, den: Float, values: seq<Wide>, kh: nat, n: nat)
    requires n < |e| == |values|
    ensures Mix(net, e[..n + 1], den, values[..n + 1], kh)
            == net.accumulate(Mix(net, e[..n], den, values[..n], kh), net.div(e[n], den), net.head(values[n], kh))
  {
    SliceStep(e, n);
    SliceStep(values, n);
  }

  /** The values of positions `start` up to `end`, each weighted by its share of `den`. */
  method WeightedSum(net: Net, kh: nat, cache: seq<Wide>, v: array<Wide>, own: nat, start: nat, end: nat,
                     ts: array<Float>, den: Float, ghost all: seq<Wide>) returns (oo: Vec)
    requires start <= end <= ts.Length && RowsAre(all, cache, v, own, end)
    ensures oo == Mix(net, ts[start..end], den, all[start..end], kh)
  {
    hide Mix;
    ghost var e, values := ts[start..end], all[start..end];
    oo := net.zeroVec;
    NoMix(net, den, kh);
    for j := start to end
      invariant oo == Mix(net, e[..j - start], den, values[..j - start], kh)
    {
      MixStep(net, e, den, values, kh, j - start);
      assert values[j - start] == all[j];
      var p := net.div(ts[j], den);
      oo := net.accumulate(oo, p, net.head(if j < |cache| then cache[j] else v[own + j - |cache|], kh));
    }
    assert values[..end - start] == values && e[..end - start] == e;
  }

  /** A query head over positions `start` up to `end`: keys and values come from the cache as far as it goes
      and from this call's own rows, which start at `own`, after that. */
  method AttendHead(net: Net, qq: Vec, kh: nat, cacheK: seq<Wide>, cacheV: seq<Wide>, k: array<Wide>, v: array<Wide>,
                    own: nat, start: nat, end: nat, ts: array<Float>, ghost all: KvRows) returns (oo: Vec)
    requires start <= end <= ts.Length && all.Valid() && (k as object) != ts && (v as object) != ts
    requires RowsAre(all.k, cacheK, k, own, end) && RowsAre(all.v, cacheV, v, own, end)
    modifies ts
    ensures oo == Attend(net, qq, all.k[start..end], all.v[start..end], kh)
  {
    Scores(net, qq, kh, cacheK, k, own, start, end, ts, all.k);
    var mx := Maximum(net, ts, start, end);
    var den := Exponentials(net, ts, start, end, mx);
    oo := WeightedSum(net, kh, cacheV, v, own, start, end, ts, den, all.v);
  }

  // ----- segments of equal stride

  /** Buffers that do not share storage. */
  ghost predicate Separate(out: seq<KvBuffer>) {
    forall i, j | 0 <= i < j < |out| :: out[i] != out[j]
  }

  ghost predicate ValidAll(b: seq<KvBuffer>)
    reads b
  {
    forall i | 0 <= i < |b| :: b[i].Valid()
  }

  /** What segment `s` must put out: its cached rows, then the first `keep` of its own. */
  ghost function Output(past: KvRows, k: seq<Wide>, v: seq<Wide>, s: nat, segments: nat, count: nat,
                        keep: nat): (r: KvRows)
    requires |k| == |v| == segments * count && s < segments && keep <= count
    ensures |r.k| == |past.k| + keep && |r.v| == |past.v| + keep
  {
    past.Then(KvRows(Seg(k, s, segments, count)[..keep], Seg(v, s, segments, count)[..keep]))
  }

  /** A buffer after copying `rows` over it from index `at` on. */
  function Copied<T>(buffer: seq<T>, at: nat, rows: seq<T>): (r: seq<T>)
    requires at + |rows| <= |buffer|
    ensures |r| == |buffer|
  {
    buffer[..at] + rows + buffer[at + |rows|..]
  }

  lemma CopiedTwice<T>(buffer: seq<T>, a: seq<T>, b: seq<T>)
    requires |a| + |b| == |buffer|
    ensures Copied(Copied(buffer, 0, a), |a|, b) == a + b
  {
  }

  /** Buffer `o` holds exactly what segment `s` must put out. */
  ghost predicate Holds(o: KvBuffer, past: KvRows, k: seq<Wide>, v: seq<Wide>, s: nat, segments: nat, count: nat,
                        keep: nat)
    requires |k| == |v| == segments * count && s < segments && keep <= count
    reads o
  {
    o.n == |past.k| + keep && o.Rows() == Output(past, k, v, s, segments, count, keep)
  }

  /** Copies one segment's rows over a buffer of exactly the right length. */
  method CopyRows(o: KvBuffer, past: KvRows, k: array<Wide>, v: array<Wide>, s: nat, segments: nat, count: nat,
                  keep: nat)
    requires k.Length == v.Length == segments * count && s < segments && keep <= count
    requires o.Valid() && past.Valid() && o.n == |past.k| + keep
    modifies o
    ensures o.Valid() && o.n == old(o.n)
    ensures Holds(o, past, k[..], v[..], s, segments, count, keep)
  {
    hide Copied;
    var at := s * count;
    SegSlice(k[..], s, segments, count, keep);
    SegSlice(v[..], s, segments, count, keep);
    var ownK, ownV := k[at..at + keep], v[at..at + keep];
    CopiedTwice(o.k, past.k, ownK);
    CopiedTwice(o.v, past.v, ownV);
    o.k := Copied(o.k, 0, past.k);
    o.v := Copied(o.v, 0, past.v);
    o.k := Copied(o.k, |past.k|, ownK);
    o.v := Copied(o.v, |past.k|, ownV);
  }

  /** Each segment's K and V output: its cached rows, then its own useful ones. Padding rows are not copied. */
  method KvOutput(out: seq<KvBuffer>, cache: seq<KvRows>, lens: seq<nat>, segments: nat, count: nat,
                  k: array<Wide>, v: array<Wide>) returns (ok: bool)
    requires |out| == |lens| == |cache| == segments && Separate(out) && ValidAll(out)
    requires forall s | 0 <= s < segments :: cache[s].Valid() && lens[s] <= count
    requires k.Length == v.Length == segments * count
    modifies out
    ensures ok <==> forall s | 0 <= s < segments :: old(out[s].n) == |cache[s].k| + lens[s]
    ensures ValidAll(out) && forall s | 0 <= s < segments :: out[s].n == old(out[s].n)
    ensures ok ==> forall s | 0 <= s < segments :: Holds(out[s], cache[s], k[..], v[..], s, segments, count, lens[s])
  {
    hide Holds, Output;
    for s := 0 to segments
      invariant ValidAll(out) && forall i | 0 <= i < segments :: out[i].n == old(out[i].n)
      invariant forall i | 0 <= i < s :: out[i].n == |cache[i].k| + lens[i]
      invariant forall i | 0 <= i < s :: Holds(out[i], cache[i], k[..], v[..], i, segments, count, lens[i])
    {
      if out[s].n != |cache[s].k| + lens[s] {
        return false;
      }
      CopyRows(out[s], cache[s], k, v, s, segments, count, lens[s]);
    }
    ok := true;
  }
}
