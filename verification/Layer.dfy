/** One layer over several segments at once (jb.c:6504-6628, jb.c:6952-7044). */
module Layer {
  import opened Transformer
  import opened Segments
  import opened Attention

  /** The caches of `segments` segments. */
  ghost predicate ValidCaches(cache: seq<KvRows>, segments: nat) {
    |cache| == segments && forall s | 0 <= s < segments :: cache[s].Valid()
  }

  /** A buffer of `segments` segments of `count` rows, and their caches. */
  ghost predicate Shaped(z: seq<Row>, cache: seq<KvRows>, segments: nat, count: nat) {
    |z| == segments * count && ValidCaches(cache, segments)
  }

  /** All rows of a segment at layer `l`: its cached ones, then its own. */
  ghost function AllRows(net: Net, l: nat, z: seq<Row>, cache: seq<KvRows>, segments: nat, count: nat,
                         s: nat): (r: KvRows)
    requires Shaped(z, cache, segments, count) && s < segments
    ensures r.Valid() && |r.k| == |cache[s].k| + count
  {
    cache[s].Then(OwnRows(net, l, Seg(z, s, segments, count), |cache[s].k|))
  }

  /** What attention gives token `t` of segment `s` when that segment runs alone. */
  ghost function AloneToken(net: Net, l: nat, z: seq<Row>, cache: seq<KvRows>, mode: Mode, segments: nat, count: nat,
                            s: nat, t: nat): Row
    requires net.window > 0 && Shaped(z, cache, segments, count) && s < segments && t < count
  {
    AttendToken(net, l, Seg(z, s, segments, count), cache[s], mode, t)
  }

  /** The first `n` tokens' query, key and value rows, each at its position in its own segment. */
  ghost predicate Prepared(net: Net, l: nat, z: seq<Row>, cache: seq<KvRows>, segments: nat, count: nat,
                           q: seq<Wide>, k: seq<Wide>, v: seq<Wide>, n: nat)
    requires Shaped(z, cache, segments, count)
  {
    && |q| == |k| == |v| == |z|
    && forall s, t {:trigger At(s, t, segments, count)} | 0 <= s < segments && 0 <= t < count ::
         var i := At(s, t, segments, count);
         i < n ==> q[i] == net.query(l, z[i], |cache[s].k| + t)
                   && k[i] == net.key(l, z[i], |cache[s].k| + t)
                   && v[i] == net.value(l, z[i], |cache[s].k| + t)
  }

  method Prepare(net: Net, l: nat, z: array<Row>, cache: seq<KvRows>, segments: nat, count: nat)
    returns (q: array<Wide>, k: array<Wide>, v: array<Wide>)
    requires Shaped(z[..], cache, segments, count)
    ensures fresh(q) && fresh(k) && fresh(v) && q.Length == k.Length == v.Length == z.Length
    ensures Prepared(net, l, z[..], cache, segments, count, q[..], k[..], v[..], z.Length)
  {
    var n := z.Length;
    q, k, v := new Wide[n], new Wide[n], new Wide[n];
    for i := 0 to n
      invariant Prepared(net, l, z[..], cache, segments, count, q[..], k[..], v[..], i)
    {
      AtOf(segments, count, i);
      var s, t := i / count, i % count;
      var pos := |cache[s].k| + t;
      ghost var (q0, k0, v0) := (q[..], k[..], v[..]);
      q[i] := net.query(l, z[i], pos);
      k[i] := net.key(l, z[i], pos);
      v[i] := net.value(l, z[i], pos);
      PreparedStep(net, l, z[..], cache, segments, count, q0, k0, v0, s, t);
      assert q[..] == q0[i := q[i]] && k[..] == k0[i := k[i]] && v[..] == v0[i := v[i]];
    }
  }

  lemma PreparedStep(net: Net, l: nat, z: seq<Row>, cache: seq<KvRows>, segments: nat, count: nat,
                     q: seq<Wide>, k: seq<Wide>, v: seq<Wide>, s: nat, t: nat)
    requires Shaped(z, cache, segments, count) && s < segments && t < count
    requires Prepared(net, l, z, cache, segments, count, q, k, v, At(s, t, segments, count))
    ensures var i := At(s, t, segments, count);
            var pos := |cache[s].k| + t;
            Prepared(net, l, z, cache, segments, count, q[i := net.query(l, z[i], pos)], k[i := net.key(l, z[i], pos)],
                     v[i := net.value(l, z[i], pos)], i + 1)
  {
    hide At;
    var i := At(s, t, segments, count);
    forall s', t' | 0 <= s' < segments && 0 <= t' < count && At(s', t', segments, count) == i
      ensures s' == s && t' == t
    {
      AtInjective(s, t, s', t', segments, count);
    }
  }

  /** The prepared rows of a segment are its own rows. */
  lemma PreparedRows(net: Net, l: nat, z: seq<Row>, cache: seq<KvRows>, segments: nat, count: nat,
                     q: seq<Wide>, k: seq<Wide>, v: seq<Wide>, s: nat)
    requires Shaped(z, cache, segments, count) && s < segments
    requires Prepared(net, l, z, cache, segments, count, q, k, v, |z|)
    ensures KvRows(Seg(k, s, segments, count), Seg(v, s, segments, count))
            == OwnRows(net, l, Seg(z, s, segments, count), |cache[s].k|)
  {
    hide At;
    forall t | 0 <= t < count
      ensures Seg(k, s, segments, count)[t] == net.key(l, Seg(z, s, segments, count)[t], |cache[s].k| + t)
      ensures Seg(v, s, segments, count)[t] == net.value(l, Seg(z, s, segments, count)[t], |cache[s].k| + t)
    {
      var i := At(s, t, segments, count);
    }
  }

  /** Attention reads a segment's positions from the cache and the prepared rows. */
  lemma SegmentRowsAre(net: Net, l: nat, z: seq<Row>, cache: seq<KvRows>, segments: nat, count: nat,
                       q: seq<Wide>, k: array<Wide>, v: array<Wide>, s: nat)
    requires Shaped(z, cache, segments, count) && s < segments
    requires Prepared(net, l, z, cache, segments, count, q, k[..], v[..], |z|)
    ensures var all := AllRows(net, l, z, cache, segments, count, s);
            && RowsAre(all.k, cache[s].k, k, s * count, |all.k|)
            && RowsAre(all.v, cache[s].v, v, s * count, |all.k|)
  {
    hide Prepared;
    PreparedRows(net, l, z, cache, segments, count, q, k[..], v[..], s);
    Fits(segments, s, count);
    var all := AllRows(net, l, z, cache, segments, count, s);
    PreparedLengths(net, l, z, cache, segments, count, q, k[..], v[..]);
    forall j | |cache[s].k| <= j < |all.k|
      ensures all.k[j] == k[s * count + j - |cache[s].k|] && all.v[j] == v[s * count + j - |cache[s].k|]
    {
      var t := j - |cache[s].k|;
      assert At(s, t, segments, count) == s * count + t;
      assert all.k[j] == Seg(k[..], s, segments, count)[t] && all.v[j] == Seg(v[..], s, segments, count)[t];
    }
  }

  lemma PreparedLengths(net: Net, l: nat, z: seq<Row>, cache: seq<KvRows>, segments: nat, count: nat,
                        q: seq<Wide>, k: seq<Wide>, v: seq<Wide>)
    requires Shaped(z, cache, segments, count) && Prepared(net, l, z, cache, segments, count, q, k, v, |z|)
    ensures |q| == |k| == |v| == |z|
  {
  }

  lemma RowsUpTo(all: seq<Wide>, cache: seq<Wide>, mine: array<Wide>, own: nat, end: nat, upto: nat)
    requires RowsAre(all, cache, mine, own, end) && upto <= end
    ensures RowsAre(all, cache, mine, own, upto)
  {
  }

  /** The window of positions that token `t` sees. */
  method Seen(net: Net, l: nat, mode: Mode, past: nat, count: nat, t: nat) returns (start: nat, end: nat)
    requires net.window > 0 && t < count
    ensures start == StartOf(net, l, mode, past, t) && end == EndOf(net, l, mode, past, count, t)
    ensures start <= end <= past + count
    ensures forall j: nat :: start <= j < end <==> Sees(net, l, mode, past, count, t, j)
  {
    forall j: nat
      ensures StartOf(net, l, mode, past, t) <= j < EndOf(net, l, mode, past, count, t)
        <==> Sees(net, l, mode, past, count, t, j)
    {
      SeenIff(net, l, mode, past, count, t, j);
    }
    end := if mode.Canvas? then past + count else past + t + 1;
    start := 0;
    if !net.Full(l) {
      if mode.Canvas? {
        var pos := past + t;
        start := if pos >= net.window then pos - net.window + 1 else 0;
        if end > pos + net.window {
          end := pos + net.window;
        }
      } else {
        start := if end > net.window then end - net.window else 0;
      }
    }
  }

  /** One token's heads, over positions `start` up to `end` of its segment, whose own rows start at `own`. */
  method TokenHeads(net: Net, l: nat, qq: Wide, cache: KvRows, own: nat, start: nat, end: nat, k: array<Wide>,
                    v: array<Wide>, ts: array<Float>, ghost all: KvRows) returns (heads: seq<Vec>)
    requires cache.Valid() && all.Valid() && start <= end <= |all.k| && end <= ts.Length
    requires (k as object) != ts && (v as object) != ts
    requires RowsAre(all.k, cache.k, k, own, end) && RowsAre(all.v, cache.v, v, own, end)
    modifies ts
    ensures heads == Heads(net, l, qq, all, start, end)
  {
    hide RowsAre, Attend;
    heads := [];
    for h := 0 to net.heads
      invariant heads == Heads(net, l, qq, all, start, end)[..h]
      invariant RowsAre(all.k, cache.k, k, own, end) && RowsAre(all.v, cache.v, v, own, end)
    {
      var oo := AttendHead(net, net.head(qq, h), net.KvHead(l, h), cache.k, cache.v, k, v, own, start, end, ts, all);
      heads := heads + [oo];
    }
  }

  /** Attention's first `n` results: row by row what each segment gets when it runs alone. */
  ghost predicate Attended(net: Net, l: nat, z: seq<Row>, cache: seq<KvRows>, mode: Mode, segments: nat, count: nat,
                           a: seq<Row>, n: nat)
    requires net.window > 0 && Shaped(z, cache, segments, count)
  {
    && |a| == |z|
    && forall s, t {:trigger At(s, t, segments, count)} | 0 <= s < segments && 0 <= t < count ::
         At(s, t, segments, count) < n ==>
           a[At(s, t, segments, count)] == AloneToken(net, l, z, cache, mode, segments, count, s, t)
  }

  lemma AttendedStep(net: Net, l: nat, z: seq<Row>, cache: seq<KvRows>, mode: Mode, segments: nat, count: nat,
                     a: seq<Row>, s: nat, t: nat)
    requires net.window > 0 && Shaped(z, cache, segments, count) && s < segments && t < count
    requires Attended(net, l, z, cache, mode, segments, count, a, At(s, t, segments, count))
    ensures var i := At(s, t, segments, count);
            Attended(net, l, z, cache, mode, segments, count,
                     a[i := AloneToken(net, l, z, cache, mode, segments, count, s, t)], i + 1)
  {
    hide At, AloneToken;
    var i := At(s, t, segments, count);
    forall s', t' | 0 <= s' < segments && 0 <= t' < count && At(s', t', segments, count) == i
      ensures s' == s && t' == t
    {
      AtInjective(s, t, s', t', segments, count);
    }
  }

  lemma AloneIsHeads(net: Net, l: nat, z: seq<Row>, cache: seq<KvRows>, mode: Mode, segments: nat, count: nat, s: nat,
                     t: nat)
    requires net.window > 0 && Shaped(z, cache, segments, count) && s < segments && t < count
    ensures var past := |cache[s].k|;
            var all := AllRows(net, l, z, cache, segments, count, s);
            var start, end := StartOf(net, l, mode, past, t), EndOf(net, l, mode, past, count, t);
            && start <= end <= |all.k| == past + count
            && AloneToken(net, l, z, cache, mode, segments, count, s, t)
               == net.output(l, Heads(net, l, net.query(l, z[At(s, t, segments, count)], past + t), all, start, end))
  {
    SeenBounds(net, l, mode, |cache[s].k|, count, t);
  }

  /** The attention core and its output projection: every token of every segment, each over its own segment only.
      `room` is the longest cache; the score buffer holds that many positions and one segment's. */
  method AttendAll(net: Net, l: nat, z: array<Row>, cache: seq<KvRows>, mode: Mode, segments: nat, count: nat,
                   q: array<Wide>, k: array<Wide>, v: array<Wide>, room: nat) returns (a: array<Row>)
    requires net.window > 0 && Shaped(z[..], cache, segments, count)
    requires q.Length == k.Length == v.Length == z.Length
    requires Prepared(net, l, z[..], cache, segments, count, q[..], k[..], v[..], z.Length)
    requires forall s | 0 <= s < segments :: |cache[s].k| <= room
    ensures fresh(a) && a.Length == z.Length && Attended(net, l, z[..], cache, mode, segments, count, a[..], z.Length)
  {
    hide Prepared, Attended, RowsAre, Heads, AloneToken, AllRows, At;
    var n := z.Length;
    a := new Row[n];
    ghost var was := z[..];
    NothingAttended(net, l, was, cache, mode, segments, count, a[..]);
    for i := 0 to n
      invariant z[..] == was && Prepared(net, l, was, cache, segments, count, q[..], k[..], v[..], n)
      invariant Attended(net, l, was, cache, mode, segments, count, a[..], i)
    {
      AtOf(segments, count, i);
      var s, t := i / count, i % count;
      var ts := new Float[room + count];
      ghost var all := AllRows(net, l, was, cache, segments, count, s);
      SegmentRowsAre(net, l, was, cache, segments, count, q[..], k, v, s);
      var start, end := Seen(net, l, mode, |cache[s].k|, count, t);
      RowsUpTo(all.k, cache[s].k, k, s * count, |all.k|, end);
      RowsUpTo(all.v, cache[s].v, v, s * count, |all.k|, end);
      QueryAt(net, l, was, cache, segments, count, q[..], k[..], v[..], s, t);
      AloneIsHeads(net, l, was, cache, mode, segments, count, s, t);
      var heads := TokenHeads(net, l, q[i], cache[s], s * count, start, end, k, v, ts, all);
      AttendedStep(net, l, was, cache, mode, segments, count, a[..], s, t);
      ghost var a0 := a[..];
      a[i] := net.output(l, heads);
      assert a[..] == a0[i := net.output(l, heads)];
    }
  }

  lemma NothingAttended(net: Net, l: nat, z: seq<Row>, cache: seq<KvRows>, mode: Mode, segments: nat, count: nat,
                        a: seq<Row>)
    requires net.window > 0 && Shaped(z, cache, segments, count) && |a| == |z|
    ensures Attended(net, l, z, cache, mode, segments, count, a, 0)
  {
  }

  lemma QueryAt(net: Net, l: nat, z: seq<Row>, cache: seq<KvRows>, segments: nat, count: nat,
                q: seq<Wide>, k: seq<Wide>, v: seq<Wide>, s: nat, t: nat)
    requires Shaped(z, cache, segments, count) && s < segments && t < count
    requires Prepared(net, l, z, cache, segments, count, q, k, v, |z|)
    ensures |q| == |z| && q[At(s, t, segments, count)] == net.query(l, z[At(s, t, segments, count)], |cache[s].k| + t)
  {
  }

  /** What a segment puts out: its cached rows and its first `keep` own ones. */
  ghost function KeptRows(net: Net, l: nat, z: seq<Row>, cache: seq<KvRows>, segments: nat, count: nat, s: nat,
                          keep: nat)
    : (r: KvRows)
    requires Shaped(z, cache, segments, count) && s < segments && keep <= count
  {
    AllRows(net, l, z, cache, segments, count, s).Take(|cache[s].k| + keep)
  }

  lemma HoldsKept(net: Net, l: nat, z: seq<Row>, cache: seq<KvRows>, segments: nat, count: nat,
                  q: seq<Wide>, k: seq<Wide>, v: seq<Wide>, s: nat, keep: nat, o: KvBuffer)
    requires Shaped(z, cache, segments, count) && s < segments && keep <= count
    requires Prepared(net, l, z, cache, segments, count, q, k, v, |z|)
    requires |k| == |v| == |z| && Holds(o, cache[s], k, v, s, segments, count, keep)
    ensures o.Rows() == KeptRows(net, l, z, cache, segments, count, s, keep)
  {
    hide Prepared, Seg;
    PreparedRows(net, l, z, cache, segments, count, q, k, v, s);
    var past := |cache[s].k|;
    var all := AllRows(net, l, z, cache, segments, count, s);
    var own := OwnRows(net, l, Seg(z, s, segments, count), past);
    assert all.k[..past + keep] == cache[s].k + own.k[..keep];
    assert all.v[..past + keep] == cache[s].v + own.v[..keep];
  }

  method Longest(cache: seq<KvRows>) returns (room: nat)
    ensures forall s | 0 <= s < |cache| :: |cache[s].k| <= room
  {
    room := 0;
    for s := 0 to |cache|
      invariant forall i | 0 <= i < s :: |cache[i].k| <= room
    {
      if |cache[s].k| > room {
        room := |cache[s].k|;
      }
    }
  }

  /** Every output buffer is planned for its cached rows and its useful ones. */
  ghost predicate Planned(out: seq<KvBuffer>, cache: seq<KvRows>, lens: seq<nat>)
    requires |out| <= |cache| && |out| <= |lens|
    reads out
  {
    forall s | 0 <= s < |out| :: out[s].n == |cache[s].k| + lens[s]
  }

  /** The segments' output buffers, if the caller wants K and V: one per segment, not sharing storage. */
  ghost predicate Outputs(out: seq<KvBuffer>, lens: seq<nat>, segments: nat, count: nat)
    reads out
  {
    && (out != [] ==> |out| == segments)
    && |lens| == segments && (forall s | 0 <= s < segments :: lens[s] <= count)
    && Separate(out) && ValidAll(out)
  }

  /** Attention of every segment, in place. Fails only when the K/V output was planned for other lengths. */
  method AttentionSegments(net: Net, l: nat, x: array<Row>, segments: nat, count: nat, cache: seq<KvRows>,
                           lens: seq<nat>, out: seq<KvBuffer>, mode: Mode) returns (ok: bool)
    requires net.window > 0 && Shaped(x[..], cache, segments, count) && Outputs(out, lens, segments, count)
    modifies x, out
    ensures ok <==> old(Planned(out, cache, lens))
    ensures Attended(net, l, old(x[..]), cache, mode, segments, count, x[..], x.Length)
    ensures ValidAll(out) && forall s | 0 <= s < |out| :: out[s].n == old(out[s].n)
    ensures ok ==> forall s | 0 <= s < |out| ::
              out[s].Rows() == KeptRows(net, l, old(x[..]), cache, segments, count, s, lens[s])
  {
    hide Prepared, Attended, Holds, KeptRows;
    ghost var z := x[..];
    var q, k, v := Prepare(net, l, x, cache, segments, count);
    var room := Longest(cache);
    var a := AttendAll(net, l, x, cache, mode, segments, count, q, k, v, room);
    PreparedLengths(net, l, z, cache, segments, count, q[..], k[..], v[..]);
    CopyAll(a, x);
    ok := true;
    if out != [] {
      ok := KvOutput(out, cache, lens, segments, count, k, v);
      if ok {
        forall s | 0 <= s < |out|
          ensures out[s].Rows() == KeptRows(net, l, z, cache, segments, count, s, lens[s])
        {
          HoldsKept(net, l, z, cache, segments, count, q[..], k[..], v[..], s, lens[s], out[s]);
        }
      }
    }
  }

  method CopyAll(a: array<Row>, x: array<Row>)
    requires a.Length == x.Length && a != x
    modifies x
    ensures x[..] == a[..]
  {
    for i := 0 to x.Length
      invariant x[..i] == a[..i]
    {
      x[i] := a[i];
    }
  }

  /** One layer, in place: every segment's rows, and its K and V, are those of the segment run alone. */
  method LayerSegments(net: Net, l: nat, x: array<Row>, segments: nat, count: nat, cache: seq<KvRows>,
                       lens: seq<nat>, out: seq<KvBuffer>, mode: Mode) returns (ok: bool)
    requires net.window > 0 && Shaped(x[..], cache, segments, count) && Outputs(out, lens, segments, count)
    modifies x, out
    ensures ok <==> old(Planned(out, cache, lens))
    ensures forall s | 0 <= s < segments ::
              Seg(x[..], s, segments, count) == LayerRows(net, l, Seg(old(x[..]), s, segments, count), cache[s], mode)
    ensures ValidAll(out) && forall s | 0 <= s < |out| :: out[s].n == old(out[s].n)
    ensures ok ==> forall s | 0 <= s < |out| ::
              out[s].Rows() == LayerKv(net, l, Seg(old(x[..]), s, segments, count),
                cache[s]).Take(|cache[s].k| + lens[s])
  {
    hide Attended, KeptRows, LayerRows, LayerKv, AllRows, Outputs, Planned, Shaped, ValidAll;
    ghost var before := x[..];
    ShapedLength(before, cache, segments, count);
    OutputLengths(out, lens, segments, count);
    var z := NormAll(net, l, x);
    SameShape(before, z[..], cache, segments, count);
    ok := AttentionSegments(net, l, z, segments, count, cache, lens, out, mode);
    ghost var attended := z[..];
    FinishAll(net, l, x, z);
    forall s | 0 <= s < segments
      ensures Seg(x[..], s, segments, count) == LayerRows(net, l, Seg(before, s, segments, count), cache[s], mode)
    {
      SegmentLayer(net, l, before, attended, x[..], cache, mode, segments, count, s);
    }
    if ok {
      forall s | 0 <= s < |out|
        ensures out[s].Rows() == LayerKv(net, l, Seg(before, s, segments, count), cache[s]).Take(|cache[s].k| + lens[s])
      {
        SegmentKv(net, l, before, cache, segments, count, s, lens[s]);
      }
    }
  }

  lemma ShapedLength(z: seq<Row>, cache: seq<KvRows>, segments: nat, count: nat)
    requires Shaped(z, cache, segments, count)
    ensures |z| == segments * count && |cache| == segments && forall s | 0 <= s < segments :: cache[s].Valid()
  {
  }

  lemma SameShape(z: seq<Row>, y: seq<Row>, cache: seq<KvRows>, segments: nat, count: nat)
    requires Shaped(z, cache, segments, count) && |y| == |z|
    ensures Shaped(y, cache, segments, count)
  {
  }

  lemma OutputLengths(out: seq<KvBuffer>, lens: seq<nat>, segments: nat, count: nat)
    requires Outputs(out, lens, segments, count)
    ensures (out == [] || |out| == segments) && |lens| == segments && forall s | 0 <= s < segments :: lens[s] <= count
  {
  }

  method NormAll(net: Net, l: nat, x: array<Row>) returns (z: array<Row>)
    ensures fresh(z) && z.Length == x.Length && z[..] == Normed(net, l, x[..])
  {
    var n := x.Length;
    z := new Row[n];
    for t := 0 to n
      invariant z[..t] == Normed(net, l, x[..])[..t]
    {
      z[t] := net.preNorm(l, x[t]);
    }
  }

  /** Residual and feed-forward of every row. */
  method FinishAll(net: Net, l: nat, x: array<Row>, z: array<Row>)
    requires z.Length == x.Length && z != x
    modifies x
    ensures forall i | 0 <= i < x.Length ::
              x[..][i] == net.feedForward(l, net.residual(l, z[..][i], old(x[..])[i]))
  {
    for t := 0 to x.Length
      invariant forall i | 0 <= i < t :: x[i] == net.feedForward(l, net.residual(l, z[i], old(x[..])[i]))
      invariant forall i | t <= i < x.Length :: x[i] == old(x[i])
    {
      x[t] := net.feedForward(l, net.residual(l, z[t], x[t]));
    }
  }

  lemma SegmentLayer(net: Net, l: nat, before: seq<Row>, attended: seq<Row>, after: seq<Row>, cache: seq<KvRows>,
                     mode: Mode,
                     segments: nat, count: nat, s: nat)
    requires net.window > 0 && Shaped(before, cache, segments, count) && s < segments
    requires Attended(net, l, Normed(net, l, before), cache, mode, segments, count, attended, |before|)
    requires |after| == |before|
    requires forall i | 0 <= i < |before| :: after[i] == net.feedForward(l, net.residual(l, attended[i], before[i]))
    ensures Seg(after, s, segments, count) == LayerRows(net, l, Seg(before, s, segments, count), cache[s], mode)
  {
    hide At, AttendToken;
    NormedSegment(net, l, before, segments, count, s);
    forall t | 0 <= t < count
      ensures Seg(after, s, segments, count)[t] == LayerRows(net, l, Seg(before, s, segments, count), cache[s], mode)[t]
    {
      var i := At(s, t, segments, count);
      assert attended[i] == AloneToken(net, l, Normed(net, l, before), cache, mode, segments, count, s, t);
    }
  }

  lemma NormedSegment(net: Net, l: nat, x: seq<Row>, segments: nat, count: nat, s: nat)
    requires |x| == segments * count && s < segments
    ensures Seg(Normed(net, l, x), s, segments, count) == Normed(net, l, Seg(x, s, segments, count))
  {
  }

  lemma SegmentKv(net: Net, l: nat, before: seq<Row>, cache: seq<KvRows>, segments: nat, count: nat, s: nat, keep: nat)
    requires Shaped(before, cache, segments, count) && s < segments && keep <= count
    ensures KeptRows(net, l, Normed(net, l, before), cache, segments, count, s, keep)
            == LayerKv(net, l, Seg(before, s, segments, count), cache[s]).Take(|cache[s].k| + keep)
  {
    hide Seg;
    NormedSegment(net, l, before, segments, count, s);
  }
}
