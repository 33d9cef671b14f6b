/** Exactly when NVFP4 quantization keeps every value of a block within 3/17 of the block's largest magnitude
    (jb.c:2310-2331), in and out of E4M3's normal range. */
module NvFp4Error {
  import opened NvFp4

  /** The condition on a block's largest magnitude and its scale: the magnitude is at most 34/7 scales, or between
      17/3 and 51/7 of them. */
  predicate WellScaled(amax: real, s: real) {
    s > 0.0 && (7.0 * amax <= 34.0 * s || (17.0 * s <= 3.0 * amax && 7.0 * amax <= 51.0 * s))
  }

  /** The bound, for every block of sixteen with this largest magnitude. */
  ghost predicate BoundHolds(amax: real, base: real)
    requires base > 0.0
  {
    forall x, code, y | |x| == 16 && Largest(x) == amax && Dequantized(x, base, code, y) :: WithinBound(x, y, amax)
  }

  ghost predicate WithinBound(x: seq<real>, y: seq<real>, amax: real)
  {
    |y| == |x| && forall k | 0 <= k < |x| :: Dist(x[k], y[k]) <= amax * 3.0 / 17.0
  }

  /** The largest error of an E2M1 rounding of magnitudes up to `m`, in units of the scale, when `m` is at least 3. */
  function Worst(m: real): real {
    if m <= 4.5 then 0.5 else if m <= 5.0 then m - 4.0 else if m <= 7.0 then 1.0 else m - 6.0
  }

  lemma WorstError(a: real, m: real, q: nat)
    requires 0.0 <= a <= m && m >= 3.0 && IsNearest(VALUES, a, q)
    ensures Dist(a, VALUES[q]) <= Worst(m)
  {
    var w := if a <= 0.5 then 0 else if a <= 1.0 then 2 else if a <= 1.5 then 2 else if a <= 2.0 then 4
             else if a <= 2.5 then 4 else if a <= 3.5 then 5 else if a <= 5.0 then 6 else 7;
    assert Dist(a, VALUES[w]) <= Worst(m);
    assert Dist(a, VALUES[q]) <= Dist(a, VALUES[w]);
  }

  /** Outside the condition some magnitude is moved by more. */
  lemma WorstIsReached(m: real) returns (a: real)
    requires (34.0 / 7.0 < m < 17.0 / 3.0) || m > 51.0 / 7.0
    ensures 0.0 <= a <= m
    ensures forall q: nat | IsNearest(VALUES, a, q) :: Dist(a, VALUES[q]) > m * 3.0 / 17.0
  {
    a := if 5.0 < m < 17.0 / 3.0 then 5.0 else m;
    forall q: nat | IsNearest(VALUES, a, q)
      ensures Dist(a, VALUES[q]) > m * 3.0 / 17.0
    {
      assert q < 8;
    }
  }

  lemma {:induction false} NearestOfFirst(values: seq<real>, x: real, n: nat) returns (u: nat)
    requires Increasing(values) && 0 < n <= |values|
    ensures IsNearest(values[..n], x, u)
  {
    hide Dist;
    if n == 1 {
      u := 0;
    } else {
      var best := NearestOfFirst(values, x, n - 1);
      ScanStep(values, x, n - 1, best);
      var closer := Dist(x, values[n - 1]) < Dist(x, values[best])
                 || (Dist(x, values[n - 1]) == Dist(x, values[best]) && (n - 1) % 2 == 0);
      u := if closer then n - 1 else best;
    }
  }

  /** Every number has a nearest value. */
  lemma NearestExists(x: real) returns (q: nat)
    ensures IsNearest(VALUES, x, q)
  {
    ScanStart(0.0);
    q := NearestOfFirst(VALUES, x, 8);
    assert VALUES[..8] == VALUES;
  }

  lemma ValueExists(x: real, s: real) returns (y: real)
    ensures ValueDone(x, s, y)
  {
    if s == 0.0 {
      y := 0.0;
    } else {
      var q := NearestExists(Abs(Quotient(x, s)));
      y := Times(Signed(Quotient(x, s), q), s);
      assert Rounded(x, s, y, q);
    }
  }

  lemma {:induction false} BlockExists(x: seq<real>, s: real) returns (y: seq<real>)
    ensures Scaled(x, s, y)
    decreases |x|
  {
    hide ValueDone;
    if x == [] {
      y := [];
    } else {
      var n := |x| - 1;
      var rest := BlockExists(x[..n], s);
      var last := ValueExists(x[n], s);
      y := rest + [last];
      forall k | 0 <= k < |x|
        ensures ValueDone(x[k], s, y[k])
      {
        if k < n {
          assert ValueDone(x[..n][k], s, rest[k]);
        }
      }
    }
  }

  /** A block that has a nonzero scale is at least three scales large. */
  lemma AtLeastThree(amax: real, base: real, code: nat)
    requires base > 0.0 && amax > 0.0 && IsNearest(Scales(), Ideal(amax, base), code)
    ensures var s := Times(E4M3(code), base); s >= 0.0 && 3.0 * s <= amax
  {
    var r := Ideal(amax, base);
    NonNegative(amax, base);
    ScaleAtMostTwice(r, code);
    Quotients(amax, base);
    hide Ideal, E4M3, IsNearest;
    ProductGrows(E4M3(code), r + r, base);
    ProductGrows(0.0, E4M3(code), base);
    TimesFacts(r, base);
  }

  lemma TimesFacts(r: real, base: real)
    ensures Times(r + r, base) == 2.0 * Times(r, base) && Times(0.0, base) == 0.0
  {
  }

  lemma ScaleAtMostTwice(r: real, code: nat)
    requires r >= 0.0 && IsNearest(Scales(), r, code)
    ensures 0.0 <= E4M3(code) <= r + r
  {
    assert E4M3(0) == 0.0;
    if code > 0 {
      E4M3Increases(0, code);
    }
    hide E4M3;
    assert Dist(r, Scales()[code]) <= Dist(r, Scales()[0]);
  }

  /** In units of a positive scale. */
  lemma InScales(x: real, s: real, y: real, q: nat)
    requires s > 0.0 && Rounded(x, s, y, q)
    ensures Dist(x, y) == Times(Dist(Abs(Quotient(x, s)), VALUES[q]), s)
    ensures Abs(x) == Times(Abs(Quotient(x, s)), s)
  {
    hide IsNearest;
    var z := Quotient(x, s);
    Divided(x, s);
    SameSign(z, q);
    DistTimes(z, Signed(z, q), s);
    DistTimes(z, 0.0, s);
    TimesFacts(0.0, s);
  }

  lemma DistTimes(z: real, w: real, s: real)
    requires s > 0.0
    ensures Dist(Times(z, s), Times(w, s)) == Times(Dist(z, w), s)
  {
    Distributes(z, w, s);
    Distributes(w, z, s);
    if z <= w {
      ProductGrows(z, w, s);
    } else {
      ProductGrows(w, z, s);
    }
  }

  /** Under the condition every block keeps the bound. */
  lemma WellScaledKeeps(x: seq<real>, base: real, code: nat, y: seq<real>)
    requires base > 0.0 && Dequantized(x, base, code, y) && Largest(x) > 0.0
    requires WellScaled(Largest(x), Times(E4M3(code), base))
    ensures WithinBound(x, y, Largest(x))
  {
    var amax, s := Largest(x), Times(E4M3(code), base);
    AtLeastThree(amax, base, code);
    hide E4M3, IsNearest, Largest, Ideal, ValueDone, Times, Dist;
    forall k | 0 <= k < |x|
      ensures Dist(x[k], y[k]) <= amax * 3.0 / 17.0
    {
      assert ValueDone(x[k], s, y[k]) && Abs(x[k]) <= amax;
      WellScaledValue(x[k], y[k], amax, s);
    }
  }

  lemma WellScaledValue(x: real, y: real, amax: real, s: real)
    requires ValueDone(x, s, y) && Abs(x) <= amax && WellScaled(amax, s) && 3.0 * s <= amax
    ensures Dist(x, y) <= amax * 3.0 / 17.0
  {
    var q: nat :| Rounded(x, s, y, q);
    hide IsNearest, Quotient, Dist;
    var z, m := Abs(Quotient(x, s)), Quotient(amax, s);
    InScales(x, s, y, q);
    Divided(amax, s);
    Magnitudes(z, m, s);
    RatioFacts(m, s);
    WorstError(z, m, q);
    ProductGrows(Dist(z, VALUES[q]), m * 3.0 / 17.0, s);
    TimesThird(m, s);
  }

  lemma Magnitudes(z: real, m: real, s: real)
    requires s > 0.0 && Times(z, s) <= Times(m, s)
    ensures z <= m
  {
    ProductBelow(z, m, s);
  }

  lemma TimesThird(m: real, s: real)
    ensures Times(m * 3.0 / 17.0, s) == Times(m, s) * 3.0 / 17.0
  {
  }

  /** The condition, in units of the scale. */
  lemma RatioFacts(m: real, s: real)
    requires s > 0.0
    ensures 3.0 * s <= Times(m, s) <==> m >= 3.0
    ensures WellScaled(Times(m, s), s) <==> m <= 34.0 / 7.0 || 17.0 / 3.0 <= m <= 51.0 / 7.0
    ensures WellScaled(Times(m, s), s) && m >= 3.0 ==> Worst(m) <= m * 3.0 / 17.0
  {
    Compare(m, 3.0, s);
    Compare(m, 34.0 / 7.0, s);
    Compare(m, 17.0 / 3.0, s);
    Compare(m, 51.0 / 7.0, s);
  }

  lemma Compare(m: real, c: real, s: real)
    requires s > 0.0
    ensures (Times(m, s) <= c * s <==> m <= c) && (Times(m, s) >= c * s <==> m >= c)
  {
    if m <= c {
      ProductGrows(m, c, s);
    }
    if m >= c {
      ProductGrows(c, m, s);
    }
    assert Times(c, s) == c * s;
    if Times(m, s) <= c * s {
      ProductBelow(m, c, s);
    }
    if Times(m, s) >= c * s {
      ProductBelow(c, m, s);
    }
  }

  /** A block with a given largest magnitude and another one in it. */
  function Witness(amax: real, w: real): (x: seq<real>)
    ensures |x| == 16 && x[0] == amax && x[1] == w
  {
    [amax, w] + seq(14, _ => 0.0)
  }

  lemma WitnessLargest(amax: real, w: real)
    requires 0.0 <= w <= amax
    ensures Largest(Witness(amax, w)) == amax
  {
    var x := Witness(amax, w);
    assert Abs(x[0]) <= Largest(x);
  }

  /** Outside the condition some block does not keep the bound. */
  lemma IllScaledBreaks(amax: real, base: real, code: nat)
    requires base > 0.0 && amax > 0.0 && IsNearest(Scales(), Ideal(amax, base), code)
    requires !WellScaled(amax, Times(E4M3(code), base))
    ensures !BoundHolds(amax, base)
  {
    var s := Times(E4M3(code), base);
    AtLeastThree(amax, base, code);
    hide E4M3, IsNearest, Largest, Ideal, Times, ValueDone;
    var w := BreakingValue(amax, s);
    var x := Witness(amax, w);
    WitnessLargest(amax, w);
    var y := BlockExists(x, s);
    assert Dequantized(x, base, code, y);
    assert ValueDone(x[1], s, y[1]);
    assert !WithinBound(x, y, amax);
  }

  lemma BreakingValue(amax: real, s: real) returns (w: real)
    requires amax > 0.0 && s >= 0.0 && !WellScaled(amax, s)
    ensures 0.0 <= w <= amax
    ensures forall y | ValueDone(w, s, y) :: Dist(w, y) > amax * 3.0 / 17.0
  {
    if s == 0.0 {
      w := amax;
    } else {
      var m := Quotient(amax, s);
      Divided(amax, s);
      RatioFacts(m, s);
      var a := WorstIsReached(m);
      w := Times(a, s);
      BrokenValue(amax, s, m, a, w);
    }
  }

  lemma BrokenValue(amax: real, s: real, m: real, a: real, w: real)
    requires s > 0.0 && Times(m, s) == amax && w == Times(a, s) && 0.0 <= a <= m
    requires forall q: nat | IsNearest(VALUES, a, q) :: Dist(a, VALUES[q]) > m * 3.0 / 17.0
    ensures 0.0 <= w <= amax
    ensures forall y | ValueDone(w, s, y) :: Dist(w, y) > amax * 3.0 / 17.0
  {
    ProductGrows(0.0, a, s);
    ProductGrows(a, m, s);
    TimesFacts(0.0, s);
    QuotientOfTimes(a, s);
    hide IsNearest, Times, Quotient, Dist;
    forall y | ValueDone(w, s, y)
      ensures Dist(w, y) > amax * 3.0 / 17.0
    {
      var q: nat :| Rounded(w, s, y, q);
      InScales(w, s, y, q);
      StrictlyGrows(m * 3.0 / 17.0, Dist(a, VALUES[q]), s);
      TimesThird(m, s);
    }
  }

  lemma QuotientOfTimes(a: real, s: real)
    requires s > 0.0
    ensures Quotient(Times(a, s), s) == a
  {
  }

  lemma StrictlyGrows(a: real, b: real, s: real)
    requires a < b && s > 0.0
    ensures Times(a, s) < Times(b, s)
  {
  }

  /** For a nonzero block of sixteen the bound holds, whatever else is in the block, exactly if its largest magnitude
      and its scale meet the condition. */
  lemma BoundHoldsIff(amax: real, base: real, code: nat)
    requires base > 0.0 && amax > 0.0 && IsNearest(Scales(), Ideal(amax, base), code)
    ensures BoundHolds(amax, base) <==> WellScaled(amax, Times(E4M3(code), base))
  {
    hide E4M3, IsNearest, Largest, Ideal, Times, ValueDone, WithinBound, WellScaled, Scaled;
    if WellScaled(amax, Times(E4M3(code), base)) {
      forall x, c, y | |x| == 16 && Largest(x) == amax && Dequantized(x, base, c, y)
        ensures WithinBound(x, y, amax)
      {
        ScalesIncrease();
        NearestIsUnique(Scales(), Ideal(amax, base), c, code);
        WellScaledKeeps(x, base, c, y);
      }
    } else {
      IllScaledBreaks(amax, base, code);
    }
  }

  /** The normal, unsaturated range always meets it. */
  lemma NormalIsWellScaled(amax: real, base: real, code: nat)
    requires base > 0.0 && 1.0 / 64.0 <= Ideal(amax, base) <= 448.0 && IsNearest(Scales(), Ideal(amax, base), code)
    ensures WellScaled(amax, Times(E4M3(code), base))
  {
    hide E4M3, IsNearest, Dist, Ideal, Times;
    var r := Ideal(amax, base);
    ScaleError(r, code);
    ScaledBounds(r, E4M3(code), base);
    Quotients(amax, base);
  }
}
