/** Buffers that hold several segments of equal stride, one after the other. */
module Segments {
  /** Where item `t` of segment `s` is stored. */
  function At(s: nat, t: nat, segments: nat, count: nat): (r: nat)
    requires s < segments && t < count
    ensures r < segments * count
  {
    Fits(segments, s, count);
    s * count + t
  }

  /** Segment `s` of a buffer. */
  ghost function Seg<T>(x: seq<T>, s: nat, segments: nat, count: nat): (r: seq<T>)
    requires |x| == segments * count && s < segments
    ensures |r| == count
    ensures forall t | 0 <= t < count :: r[t] == x[At(s, t, segments, count)]
  {
    seq(count, t requires 0 <= t < count => x[At(s, t, segments, count)])
  }

  lemma Fits(segments: nat, s: nat, count: nat)
    requires s < segments
    ensures s * count + count == (s + 1) * count <= segments * count
  {
    assert segments * count == (s + 1) * count + (segments - s - 1) * count;
  }

  /** Index `i` is item `i % count` of segment `i / count`. */
  lemma AtOf(segments: nat, count: nat, i: nat)
    requires i < segments * count
    ensures count > 0 && i / count < segments && i % count < count && At(i / count, i % count, segments, count) == i
  {
    var q := i / count;
    assert q * count <= i;
    assert (segments - q) * count > 0;
  }

  lemma SmallerFactor(x: int, y: int, count: nat)
    requires x * count < y * count
    ensures x < y
  {
    assert (y - x) * count > 0;
  }

  /** Different items are stored at different places. */
  lemma AtInjective(s: nat, t: nat, s': nat, t': nat, segments: nat, count: nat)
    requires s < segments && t < count && s' < segments && t' < count
    requires At(s, t, segments, count) == At(s', t', segments, count)
    ensures s == s' && t == t'
  {
    assert (s + 1) * count == s * count + count && (s' + 1) * count == s' * count + count;
    SmallerFactor(s, s' + 1, count);
    SmallerFactor(s', s + 1, count);
  }

  /** A segment's first items, as stored. */
  lemma SegSlice<T>(x: seq<T>, s: nat, segments: nat, count: nat, keep: nat)
    requires |x| == segments * count && s < segments && keep <= count
    ensures s * count + keep <= |x| && x[s * count..s * count + keep] == Seg(x, s, segments, count)[..keep]
  {
    Fits(segments, s, count);
    assert forall t | 0 <= t < keep :: At(s, t, segments, count) == s * count + t;
  }
}
