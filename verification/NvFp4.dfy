/** NVFP4 quantization over the reals (jb.c:2267-2331): scales in E4M3, values in E2M1, both rounded to the nearest
    representable value with ties to the even code. */
module NvFp4 {
  import opened Segments

  function Abs(x: real): (a: real)
    ensures a >= 0.0 && (a == x || a == -x)
  {
    if x < 0.0 then -x else x
  }

  function Dist(x: real, y: real): real {
    Abs(x - y)
  }

  function Pow2(k: nat): (p: real)
    ensures p >= 1.0
  {
    if k == 0 then 1.0 else 2.0 * Pow2(k - 1)
  }

  /** The value of a non-negative E4M3 code. */
  function E4M3(u: nat): real {
    var e, m := u / 8, u % 8;
    if e == 0 then m as real / 512.0 else (8 + m) as real * Pow2(e - 1) / 512.0
  }

  /** The codes up to 448; the next is not a number. */
  function Scales(): (scales: seq<real>)
    ensures |scales| == 127 && forall u | 0 <= u < 127 :: scales[u] == E4M3(u)
  {
    seq(127, u requires 0 <= u < 127 => E4M3(u))
  }

  const VALUES: seq<real> := [0.0, 0.5, 1.0, 1.5, 2.0, 3.0, 4.0, 6.0]

  ghost predicate Increasing(values: seq<real>) {
    forall i, j | 0 <= i < j < |values| :: values[i] < values[j]
  }

  /** Code `u` is as near as any, and even if another is as near. */
  ghost predicate IsNearest(values: seq<real>, x: real, u: nat): (nearest: bool)
    ensures nearest ==> u < |values|
  {
    u < |values| && forall w | 0 <= w < |values| && w != u ::
      Dist(x, values[u]) < Dist(x, values[w]) || (Dist(x, values[u]) == Dist(x, values[w]) && u % 2 == 0)
  }

  /** No number has two nearest codes. */
  lemma NearestIsUnique(values: seq<real>, x: real, u: nat, w: nat)
    requires Increasing(values) && IsNearest(values, x, u) && IsNearest(values, x, w)
    ensures u == w
  {
    hide Dist;
    if u < w {
      Midpoint(values, x, u, w);
    } else if w < u {
      Midpoint(values, x, w, u);
    }
  }

  /** Codes that are equally near, and as near as those between them, are neighbours. */
  lemma Midpoint(values: seq<real>, x: real, u: nat, w: nat)
    requires Increasing(values) && u < w < |values| && Dist(x, values[u]) == Dist(x, values[w])
    requires forall i | u < i < w :: Dist(x, values[u]) <= Dist(x, values[i])
    ensures w == u + 1
  {
    hide Dist;
    if w > u + 1 {
      BetweenIsCloser(x, values[u], values[u + 1], values[w]);
    }
  }

  lemma BetweenIsCloser(x: real, a: real, b: real, c: real)
    requires a < b < c && Dist(x, a) == Dist(x, c)
    ensures Dist(x, b) < Dist(x, a)
  {
  }

  /** One step of the scan: a nearest code of the first `i` becomes one of the first `i + 1`. */
  lemma ScanStep(values: seq<real>, x: real, i: nat, best: nat)
    requires Increasing(values) && i < |values| && IsNearest(values[..i], x, best)
    ensures var closer := Dist(x, values[i]) < Dist(x, values[best])
                       || (Dist(x, values[i]) == Dist(x, values[best]) && i % 2 == 0);
      IsNearest(values[..i + 1], x, if closer then i else best)
  {
    hide Dist;
    assert values[..i + 1][..i] == values[..i];
    forall j | 0 <= j < i
      ensures values[..i][j] == values[j] == values[..i + 1][j]
    {
    }
    if Dist(x, values[best]) == Dist(x, values[i]) {
      Midpoint(values, x, best, i);
    }
  }

  /** Between two neighbouring values the nearer one is nearest, and of equally near ones the even one. */
  lemma NearestOfNeighbours(values: seq<real>, x: real, lo: nat)
    requires Increasing(values) && lo + 1 < |values| && values[lo] <= x <= values[lo + 1]
    ensures var da, db := x - values[lo], values[lo + 1] - x;
      IsNearest(values, x, if da < db || (da == db && lo % 2 == 0) then lo else lo + 1)
  {
    forall w | 0 <= w < |values|
      ensures w < lo ==> Dist(x, values[lo]) < Dist(x, values[w])
      ensures w > lo + 1 ==> Dist(x, values[lo + 1]) < Dist(x, values[w])
    {
    }
  }

  /** Past either end, the end is nearest. */
  lemma NearestOfEnds(values: seq<real>, x: real)
    requires Increasing(values) && |values| > 0
    ensures x <= values[0] ==> IsNearest(values, x, 0)
    ensures x >= values[|values| - 1] ==> IsNearest(values, x, |values| - 1)
  {
  }

  lemma E4M3Next(u: nat)
    ensures E4M3(u) < E4M3(u + 1)
    ensures u >= 8 ==> 17.0 * (E4M3(u + 1) - E4M3(u)) <= 2.0 * (E4M3(u) + (E4M3(u + 1) - E4M3(u)) / 2.0)
  {
    var e, m := u / 8, u % 8;
    if m == 7 {
      assert (u + 1) / 8 == e + 1 && (u + 1) % 8 == 0;
      if e > 0 {
        assert Pow2(e) == 2.0 * Pow2(e - 1);
      }
    } else {
      assert (u + 1) / 8 == e && (u + 1) % 8 == m + 1;
      if e > 0 {
        assert (8 + (m + 1)) as real * Pow2(e - 1) == (8 + m) as real * Pow2(e - 1) + Pow2(e - 1);
        assert (8 + m) as real * Pow2(e - 1) >= 8.0 * Pow2(e - 1);
      }
    }
  }

  lemma {:induction false} E4M3Increases(u: nat, w: nat)
    requires u < w
    ensures E4M3(u) < E4M3(w)
    decreases w
  {
    E4M3Next(w - 1);
    if u < w - 1 {
      E4M3Increases(u, w - 1);
    }
  }

  lemma ScalesIncrease()
    ensures Increasing(Scales()) && E4M3(0) == 0.0 && E4M3(126) == 448.0 && E4M3(8) == 1.0 / 64.0
  {
    forall u, w | 0 <= u < w < 127
      ensures E4M3(u) < E4M3(w)
    {
      E4M3Increases(u, w);
    }
    assert Pow2(14) == 16384.0 by {
      assert Pow2(7) == 128.0;
      assert Pow2(11) == 2048.0;
    }
  }

  /** Rounding a scale, by binary search: the nearest E4M3 value, for every number. */
  method RoundScale(x: real) returns (v: real)
    ensures exists code: nat :: IsNearest(Scales(), x, code) && v == E4M3(code)
  {
    hide E4M3, IsNearest, Increasing;
    ScalesIncrease();
    NearestOfEnds(Scales(), x);
    if !(x > 0.0) {
      assert IsNearest(Scales(), x, 0);
      return 0.0;
    }
    if x >= 448.0 {
      assert IsNearest(Scales(), x, 126);
      return 448.0;
    }
    var lo: nat, hi: nat := 0, 126;
    while lo + 1 < hi
      invariant lo < hi <= 126 && E4M3(lo) < x <= E4M3(hi)
    {
      var m: nat := (lo + hi) / 2;
      if E4M3(m) < x {
        lo := m;
      } else {
        hi := m;
      }
    }
    NearestOfNeighbours(Scales(), x, lo);
    var a, b := E4M3(lo), E4M3(hi);
    var da, db := x - a, b - x;
    v := if da < db || (da == db && lo % 2 == 0) then a else b;
  }

  /** Rounding a value, by a scan: the nearest E2M1 value, of the number's sign. */
  method RoundValue(x: real) returns (v: real)
    ensures exists code: nat :: IsNearest(VALUES, Abs(x), code) && v == Signed(x, code)
  {
    hide IsNearest, Dist, Increasing, Abs;
    var a := Abs(x);
    var best: nat := 0;
    ScanStart(a);
    for i: nat := 1 to 8
      invariant best < i && IsNearest(VALUES[..i], a, best)
    {
      ScanStep(VALUES, a, i, best);
      var d, past := Dist(a, VALUES[i]), Dist(a, VALUES[best]);
      if d < past || (d == past && i % 2 == 0) {
        best := i;
      }
    }
    assert VALUES[..8] == VALUES;
    v := Signed(x, best);
  }

  lemma ScanStart(a: real)
    ensures Increasing(VALUES) && IsNearest(VALUES[..1], a, 0)
  {
  }

  /** The largest magnitude. */
  function Largest(x: seq<real>): (a: real)
    ensures a >= 0.0 && (forall k | 0 <= k < |x| :: Abs(x[k]) <= a)
    ensures a == 0.0 || exists k | 0 <= k < |x| :: Abs(x[k]) == a
  {
    if x == [] then 0.0 else Larger(Largest(x[..|x| - 1]), Abs(x[|x| - 1]))
  }

  function Larger(a: real, b: real): real {
    if b > a then b else a
  }

  /** `y` is `x` divided by the scale, rounded to a nearest value of its sign, and multiplied back. */
  ghost predicate Rounded(x: real, s: real, y: real, q: nat)
    requires s != 0.0
  {
    IsNearest(VALUES, Abs(Quotient(x, s)), q) && y == Times(Signed(Quotient(x, s), q), s)
  }

  function Times(a: real, b: real): real {
    a * b
  }

  function Quotient(x: real, s: real): real
    requires s != 0.0
  {
    x / s
  }

  /** An E2M1 value with the sign of `z`. */
  function Signed(z: real, q: nat): real
    requires q < |VALUES|
  {
    if z < 0.0 then -VALUES[q] else VALUES[q]
  }

  /** The scale that would make a block's largest magnitude 6. */
  function Ideal(amax: real, base: real): real
    requires base > 0.0
  {
    amax / 6.0 / base
  }

  ghost predicate ValueDone(x: real, s: real, y: real) {
    if s == 0.0 then y == 0.0 else exists q: nat :: Rounded(x, s, y, q)
  }

  ghost predicate Scaled(x: seq<real>, s: real, y: seq<real>) {
    |y| == |x| && forall k | 0 <= k < |x| :: ValueDone(x[k], s, y[k])
  }

  /** `y` is block `x` quantized and back: by a scale nearest to a sixth of its largest magnitude, each value
      nearest. */
  ghost predicate Dequantized(x: seq<real>, base: real, code: nat, y: seq<real>)
    requires base > 0.0
  {
    IsNearest(Scales(), Ideal(Largest(x), base), code) && Scaled(x, Times(E4M3(code), base), y)
  }

  function Block(x: seq<real>, g: nat): seq<real>
    requires g * 16 + 16 <= |x|
  {
    x[g * 16..g * 16 + 16]
  }

  /** Block `g` of the output is block `g` of the input, quantized and back. */
  ghost predicate BlockDone(x: seq<real>, base: real, out: seq<real>, g: nat)
    requires base > 0.0
  {
    g * 16 + 16 <= |x| && g * 16 + 16 <= |out| && exists code: nat ::
      Dequantized(Block(x, g), base, code, Block(out, g))
  }

  /** Only one result meets this. */
  lemma DequantizedIsUnique(x: seq<real>, base: real, code: nat, y: seq<real>, code': nat, y': seq<real>)
    requires base > 0.0 && Dequantized(x, base, code, y) && Dequantized(x, base, code', y')
    ensures y == y'
  {
    hide E4M3, IsNearest, Increasing, Abs, Largest, Ideal, ValueDone, Times;
    ScalesIncrease();
    NearestIsUnique(Scales(), Ideal(Largest(x), base), code, code');
    var s := Times(E4M3(code), base);
    assert Scaled(x, s, y) && Scaled(x, s, y');
    forall k | 0 <= k < |x|
      ensures y[k] == y'[k]
    {
      ValueIsUnique(x[k], s, y[k], y'[k]);
    }
  }

  lemma ValueIsUnique(x: real, s: real, y: real, y': real)
    requires ValueDone(x, s, y) && ValueDone(x, s, y')
    ensures y == y'
  {
    hide IsNearest, Increasing, Abs, Quotient, Times;
    ScanStart(0.0);
    if s != 0.0 {
      var q: nat :| Rounded(x, s, y, q);
      var q': nat :| Rounded(x, s, y', q');
      NearestIsUnique(VALUES, Abs(Quotient(x, s)), q, q');
    }
  }

  lemma {:induction false} Bracket(x: real, hi: nat) returns (lo: nat)
    requires 8 < hi <= 126 && E4M3(8) <= x <= E4M3(hi)
    ensures 8 <= lo < 126 && E4M3(lo) <= x <= E4M3(lo + 1)
  {
    if E4M3(hi - 1) <= x {
      lo := hi - 1;
    } else {
      lo := Bracket(x, hi - 1);
    }
  }

  /** In E4M3's normal range the nearest value is off by at most a seventeenth. */
  lemma ScaleError(x: real, code: nat)
    requires 1.0 / 64.0 <= x <= 448.0 && IsNearest(Scales(), x, code)
    ensures Dist(x, E4M3(code)) <= x / 17.0
  {
    ScalesIncrease();
    var lo := Bracket(x, 126);
    E4M3Next(lo);
    assert Dist(x, E4M3(code)) <= Dist(x, E4M3(lo));
    assert Dist(x, E4M3(code)) <= Dist(x, E4M3(lo + 1));
  }

  /** Up to 7, the nearest E2M1 value is off by at most one. */
  lemma ValueError(a: real, q: nat)
    requires 0.0 <= a <= 7.0 && IsNearest(VALUES, a, q)
    ensures Dist(a, VALUES[q]) <= 1.0
  {
    var w := if a <= 1.0 then 0 else if a <= 2.0 then 2 else if a <= 3.0 then 4 else if a <= 4.0 then 5
             else if a <= 5.0 then 6 else 7;
    assert Dist(a, VALUES[q]) <= Dist(a, VALUES[w]);
  }

  /** While a block's scale is in E4M3's normal range and does not saturate, no value moves by more than 3/17 of the
      block's largest magnitude. */
  lemma BlockError(x: seq<real>, base: real, code: nat, y: seq<real>, k: nat)
    requires base > 0.0 && Dequantized(x, base, code, y) && k < |x|
    requires 1.0 / 64.0 <= Ideal(Largest(x), base) <= 448.0
    ensures Dist(x[k], y[k]) <= Largest(x) * 3.0 / 17.0
  {
    hide E4M3, IsNearest, Largest, Dist, Ideal, ValueDone, Times;
    var s := Times(E4M3(code), base);
    ScaleBounds(Largest(x), base, code);
    assert ValueDone(x[k], s, y[k]);
    ValueStaysNear(x[k], s, y[k]);
  }

  lemma ScaleBounds(amax: real, base: real, code: nat)
    requires base > 0.0 && 1.0 / 64.0 <= Ideal(amax, base) <= 448.0 && IsNearest(Scales(), Ideal(amax, base), code)
    ensures var s := Times(E4M3(code), base); s > 0.0 && amax <= 7.0 * s && s <= amax * 3.0 / 17.0
  {
    hide E4M3, IsNearest, Dist, Ideal, Times;
    var r := Ideal(amax, base);
    ScaleError(r, code);
    ScaledBounds(r, E4M3(code), base);
    Quotients(amax, base);
  }

  lemma Quotients(amax: real, base: real)
    requires base > 0.0
    ensures Times(Ideal(amax, base), base) == amax / 6.0
  {
  }

  /** A value within 7 scales of zero moves by at most one scale. */
  lemma ValueStaysNear(x: real, s: real, y: real)
    requires s > 0.0 && Abs(x) <= 7.0 * s && ValueDone(x, s, y)
    ensures Dist(x, y) <= s
  {
    hide IsNearest, Abs, Dist, Quotient, Signed, Times;
    var q: nat :| Rounded(x, s, y, q);
    Divided(x, s);
    RoundedStaysNear(x, s, Quotient(x, s), q);
  }

  lemma RoundedStaysNear(x: real, s: real, z: real, q: nat)
    requires s > 0.0 && Abs(x) <= 7.0 * s && Times(z, s) == x && IsNearest(VALUES, Abs(z), q)
    ensures Dist(x, Times(Signed(z, q), s)) <= s
  {
    hide IsNearest, Abs, Dist, Signed, Times;
    QuotientBound(x, s, z);
    ValueError(Abs(z), q);
    SameSign(z, q);
    ScaledDist(z, Signed(z, q), s);
  }

  lemma Divided(x: real, s: real)
    requires s != 0.0
    ensures Times(Quotient(x, s), s) == x
  {
  }

  lemma SameSign(z: real, q: nat)
    requires q < |VALUES|
    ensures Dist(z, Signed(z, q)) == Dist(Abs(z), VALUES[q])
  {
  }

  lemma ScaledBounds(r: real, v: real, base: real)
    requires base > 0.0 && r > 0.0 && Dist(r, v) <= r / 17.0
    ensures 16.0 / 17.0 * Times(r, base) <= Times(v, base) <= 18.0 / 17.0 * Times(r, base)
    ensures Times(v, base) > 0.0
  {
    assert 16.0 / 17.0 * r <= v <= 18.0 / 17.0 * r;
    ProductGrows(16.0 / 17.0 * r, v, base);
    ProductGrows(v, 18.0 / 17.0 * r, base);
    assert r * base > 0.0;
  }

  lemma ProductGrows(a: real, b: real, s: real)
    requires a <= b && s >= 0.0
    ensures Times(a, s) <= Times(b, s)
  {
  }

  lemma QuotientBound(x: real, s: real, z: real)
    requires s > 0.0 && Times(z, s) == x && Abs(x) <= 7.0 * s
    ensures Abs(z) <= 7.0
  {
    ProductBelow(z, 7.0, s);
    ProductBelow(-z, 7.0, s);
  }

  lemma ProductBelow(a: real, b: real, s: real)
    requires s > 0.0 && Times(a, s) <= Times(b, s)
    ensures a <= b
  {
  }

  lemma ScaledDist(z: real, w: real, s: real)
    requires s > 0.0 && Dist(z, w) <= 1.0
    ensures Dist(Times(z, s), Times(w, s)) <= s
  {
    ScaledDifference(z, w, s);
    ScaledDifference(w, z, s);
  }

  lemma ScaledDifference(z: real, w: real, s: real)
    requires s > 0.0 && z - w <= 1.0
    ensures Times(z, s) - Times(w, s) <= s
  {
    hide Times;
    Distributes(z, w, s);
    ProductGrows(z - w, 1.0, s);
    TimesOne(s);
  }

  lemma TimesOne(s: real)
    ensures Times(1.0, s) == s
  {
  }

  lemma Distributes(z: real, w: real, s: real)
    ensures Times(z - w, s) == Times(z, s) - Times(w, s)
  {
  }

  /** A small enough block becomes all zeros, which moves its largest value by all of it. */
  lemma SmallBlockVanishes(x: seq<real>, base: real, code: nat, y: seq<real>)
    requires base > 0.0 && Dequantized(x, base, code, y) && Ideal(Largest(x), base) < 1.0 / 1024.0
    ensures forall k | 0 <= k < |x| :: y[k] == 0.0
    ensures Largest(x) > 0.0 ==> exists k | 0 <= k < |x| :: Dist(x[k], y[k]) > Largest(x) * 3.0 / 17.0
  {
    hide E4M3, Largest, Ideal;
    NonNegative(Largest(x), base);
    ZeroIsNearest(Ideal(Largest(x), base), code);
    if Largest(x) > 0.0 {
      var k :| 0 <= k < |x| && Abs(x[k]) == Largest(x);
      assert Dist(x[k], y[k]) == Abs(x[k]);
    }
  }

  lemma ZeroIsNearest(x: real, code: nat)
    requires 0.0 <= x < 1.0 / 1024.0 && IsNearest(Scales(), x, code)
    ensures E4M3(code) == 0.0
  {
    assert E4M3(1) == 1.0 / 512.0 && E4M3(0) == 0.0;
    hide E4M3;
    if code > 1 {
      E4M3Increases(1, code);
    }
    assert Dist(x, E4M3(code)) <= Dist(x, Scales()[0]);
  }

  lemma NonNegative(amax: real, base: real)
    requires amax >= 0.0 && base > 0.0
    ensures Ideal(amax, base) >= 0.0
  {
  }

  /** An activation as it comes: a finite number, or an infinity or a NaN. */
  datatype Number = Finite(v: real) | NonFinite

  function ValueOf(n: Number): real {
    if n.Finite? then n.v else 0.0
  }

  function Values(x: seq<Number>): (v: seq<real>)
    ensures |v| == |x|
  {
    seq(|x|, i requires 0 <= i < |x| => ValueOf(x[i]))
  }

  predicate AllFinite(x: seq<Number>) {
    forall i | 0 <= i < |x| :: x[i].Finite?
  }

  /** Block `g` holds the first number that is not finite. */
  ghost predicate StopsAt(x: seq<Number>, g: nat) {
    g * 16 + 16 <= |x| && AllFinite(x[..g * 16]) && !AllFinite(x[g * 16..g * 16 + 16])
  }

  /** Quantizes rows of activations and back, block by block. It refuses a bad scale or row length at once, and a
      non-finite activation when it reaches its block. */
  method Quantize(out: array<real>, x: seq<Number>, tokens: nat, cols: nat, base: Number) returns (ok: bool)
    requires |x| == out.Length == tokens * cols
    modifies out
    ensures ok <==> base.Finite? && base.v > 0.0 && cols % 32 == 0 && AllFinite(x)
    ensures ok ==> BlocksDone(Values(x), base.v, out[..], |x| / 16)
    ensures !(base.Finite? && base.v > 0.0 && cols % 32 == 0) ==> out[..] == old(out[..])
    ensures base.Finite? && base.v > 0.0 && cols % 32 == 0 && !ok ==>
      exists g: nat :: StopsAt(x, g) && BlocksDone(Values(x), base.v, out[..], g) && out[g * 16..] == old(out[g * 16..])
  {
    if base.NonFinite? || !(base.v > 0.0) || cols % 32 != 0 {
      return false;
    }
    hide Reached;
    var nb: nat := cols / 16;
    BlocksFit(|x|, tokens, cols, nb, tokens);
    NothingReached(x, base.v, out[..]);
    for t: nat := 0 to tokens
      invariant Reached(x, base.v, old(out[..]), out[..], t * nb)
    {
      BlocksFit(|x|, tokens, cols, nb, t);
      for b: nat := 0 to nb
        invariant Reached(x, base.v, old(out[..]), out[..], t * nb + b)
      {
        ok := NextBlock(out, x, t * nb + b, base.v, old(out[..]));
        if !ok {
          Stopped(x, base.v, old(out[..]), out[..], t * nb + b);
          return;
        }
      }
    }
    AllReached(x, base.v, old(out[..]), out[..], tokens * nb);
    ok := true;
  }

  /** The first `g` blocks are finite and done, and the others are untouched. */
  ghost predicate Reached(x: seq<Number>, base: real, was: seq<real>, out: seq<real>, g: nat)
    requires base > 0.0
  {
    && g * 16 <= |x| == |was| == |out| && AllFinite(x[..g * 16]) && BlocksDone(Values(x), base, out, g)
    && out[g * 16..] == was[g * 16..]
  }

  lemma NothingReached(x: seq<Number>, base: real, was: seq<real>)
    requires base > 0.0 && |x| == |was|
    ensures Reached(x, base, was, was, 0)
  {
  }

  lemma AllReached(x: seq<Number>, base: real, was: seq<real>, out: seq<real>, g: nat)
    requires base > 0.0 && Reached(x, base, was, out, g) && |x| == g * 16
    ensures AllFinite(x) && BlocksDone(Values(x), base, out, |x| / 16)
  {
    assert x[..|x|] == x;
  }

  /** One block of a row. */
  method NextBlock(out: array<real>, x: seq<Number>, g: nat, base: real, ghost was: seq<real>) returns (ok: bool)
    requires base > 0.0 && g * 16 + 16 <= |x| && Reached(x, base, was, out[..], g)
    modifies out
    ensures ok <==> AllFinite(x[g * 16..g * 16 + 16])
    ensures if ok then Reached(x, base, was, out[..], g + 1) else out[..] == old(out[..])
  {
    hide BlocksDone, AllFinite;
    var z: seq<real>;
    ok, z := ReadBlock(x, g);
    if ok {
      var y, code := QuantizeBlock(z, base);
      BlockLength(z, base, code, y);
      StoreBlock(out, g * 16, y);
      BlockStep(Values(x), base, old(out[..]), out[..], g, code, y);
      FiniteStep(x, g);
      assert out[g * 16 + 16..] == old(out[..])[g * 16 + 16..] == was[g * 16 + 16..];
    }
  }

  lemma BlockLength(x: seq<real>, base: real, code: nat, y: seq<real>)
    requires base > 0.0 && Dequantized(x, base, code, y)
    ensures |y| == |x|
  {
  }

  lemma Stopped(x: seq<Number>, base: real, was: seq<real>, out: seq<real>, g: nat)
    requires base > 0.0 && Reached(x, base, was, out, g)
    requires g * 16 + 16 <= |x| && !AllFinite(x[g * 16..g * 16 + 16])
    ensures StopsAt(x, g) && !AllFinite(x) && BlocksDone(Values(x), base, out, g) && out[g * 16..] == was[g * 16..]
  {
    var i :| 0 <= i < 16 && x[g * 16..g * 16 + 16][i].NonFinite?;
    assert x[g * 16 + i].NonFinite?;
  }

  lemma FiniteStep(x: seq<Number>, g: nat)
    requires g * 16 + 16 <= |x| && AllFinite(x[..g * 16]) && AllFinite(x[g * 16..g * 16 + 16])
    ensures AllFinite(x[..g * 16 + 16])
  {
    assert x[..g * 16 + 16] == x[..g * 16] + x[g * 16..g * 16 + 16];
  }

  /** Reads one block, unless some number in it is not finite. */
  method ReadBlock(x: seq<Number>, g: nat) returns (ok: bool, z: seq<real>)
    requires g * 16 + 16 <= |x|
    ensures ok <==> AllFinite(x[g * 16..g * 16 + 16])
    ensures ok ==> z == Block(Values(x), g)
  {
    var one := x[g * 16..g * 16 + 16];
    z := [];
    for k := 0 to 16
      invariant |z| == k && AllFinite(one[..k]) && forall i | 0 <= i < k :: z[i] == ValueOf(one[i])
    {
      if one[k].NonFinite? {
        return false, z;
      }
      z := z + [one[k].v];
    }
    assert one[..16] == one;
    return true, z;
  }

  lemma BlocksFit(size: nat, tokens: nat, cols: nat, nb: nat, t: nat)
    requires size == tokens * cols && cols % 32 == 0 && nb == cols / 16
    ensures size == tokens * nb * 16
    ensures t < tokens ==> t * nb + nb == (t + 1) * nb && (t * nb + nb) * 16 <= size
  {
    assert cols == nb * 16;
    Regroup(tokens, nb);
    if t < tokens {
      Fits(tokens, t, nb);
    }
  }

  lemma Regroup(tokens: nat, nb: nat)
    ensures tokens * (nb * 16) == tokens * nb * 16
  {
  }

  ghost predicate BlocksDone(x: seq<real>, base: real, out: seq<real>, n: nat)
    requires base > 0.0
  {
    forall g: nat | g < n :: BlockDone(x, base, out, g)
  }

  lemma BlockStep(x: seq<real>, base: real, past: seq<real>, out: seq<real>, g: nat, code: nat, y: seq<real>)
    requires base > 0.0 && BlocksDone(x, base, past, g) && g * 16 + 16 <= |x| == |past|
    requires Dequantized(Block(x, g), base, code, y) && |y| == 16 && out == past[..g * 16] + y + past[g * 16 + 16..]
    ensures BlocksDone(x, base, out, g + 1)
  {
    hide Dequantized;
    assert Block(out, g) == y;
    forall h: nat | h < g
      ensures BlockDone(x, base, out, h)
    {
      assert BlockDone(x, base, past, h);
      assert Block(out, h) == Block(past, h);
    }
  }

  method StoreBlock(out: array<real>, at: nat, y: seq<real>)
    requires at + |y| <= out.Length
    modifies out
    ensures out[..] == old(out[..at]) + y + old(out[at + |y|..])
  {
    for k := 0 to |y|
      invariant out[..] == old(out[..at]) + y[..k] + old(out[at + k..])
    {
      out[at + k] := y[k];
    }
  }

  method QuantizeBlock(x: seq<real>, base: real) returns (y: seq<real>, ghost code: nat)
    requires base > 0.0
    ensures Dequantized(x, base, code, y)
  {
    hide IsNearest, Largest, Abs, E4M3, Quotient, Signed, Ideal, ValueDone, Times;
    var amax := 0.0;
    NoneIsLargest();
    for k := 0 to |x|
      invariant amax == Largest(x[..k])
    {
      LargestStep(x, k);
      if Abs(x[k]) > amax {
        amax := Abs(x[k]);
      }
    }
    assert x[..|x|] == x;
    var v := RoundScale(Ideal(amax, base));
    code :| IsNearest(Scales(), Ideal(amax, base), code) && v == E4M3(code);
    var s := Times(v, base);
    if s == 0.0 {
      y := seq(|x|, _ => 0.0);
      forall k | 0 <= k < |x|
        ensures ValueDone(x[k], s, y[k])
      {
        DoneOf(x[k], s, y[k], 0);
      }
      return;
    }
    y := [];
    for k := 0 to |x|
      invariant |y| == k
      invariant forall i | 0 <= i < k :: ValueDone(x[i], s, y[i])
    {
      var w := RoundValue(Quotient(x[k], s));
      ghost var q: nat :| IsNearest(VALUES, Abs(Quotient(x[k], s)), q) && w == Signed(Quotient(x[k], s), q);
      y := y + [Times(w, s)];
      DoneOf(x[k], s, y[k], q);
    }
    assert Scaled(x, s, y);
  }

  lemma DoneOf(x: real, s: real, y: real, q: nat)
    requires if s == 0.0 then y == 0.0 else Rounded(x, s, y, q)
    ensures ValueDone(x, s, y)
  {
  }

  lemma NoneIsLargest()
    ensures Largest([]) == 0.0
  {
  }

  lemma LargestStep(x: seq<real>, k: nat)
    requires k < |x|
    ensures Largest(x[..k + 1]) == Larger(Largest(x[..k]), Abs(x[k]))
  {
    assert x[..k + 1][..k] == x[..k];
  }
}
