/** The weights of a token's experts (jb.c:6651-6667), over reals: a softmax over all experts, divided by its sum over
    the chosen ones, is a softmax over the chosen ones alone. */
module RouterWeights {

  function Times(x: real, y: real): real {
    x * y
  }

  /** An exponential: positive, and turning sums into products. */
  ghost predicate Exponential(exp: real -> real) {
    && (forall x :: exp(x) > 0.0)
    && (forall x, y :: Splits(exp, x, y))
  }

  ghost predicate Splits(exp: real -> real, x: real, y: real) {
    exp(x + y) == Times(exp(x), exp(y))
  }

  /** The sum of the exponentials of `s`, less `shift` each. */
  function SumExp(exp: real -> real, s: seq<real>, shift: real): real {
    if s == [] then 0.0 else SumExp(exp, s[..|s| - 1], shift) + exp(s[|s| - 1] - shift)
  }

  lemma {:induction false} SumExpIsPositive(exp: real -> real, s: seq<real>, shift: real)
    requires Exponential(exp)
    ensures SumExp(exp, s, shift) >= 0.0 && (s != [] ==> SumExp(exp, s, shift) > 0.0)
  {
    if s != [] {
      SumExpIsPositive(exp, s[..|s| - 1], shift);
    }
  }

  lemma Shifted(exp: real -> real, x: real, shift: real)
    requires Exponential(exp)
    ensures Times(exp(x - shift), exp(shift)) == exp(x)
  {
    assert Splits(exp, x - shift, shift);
    assert x - shift + shift == x;
  }

  lemma Distributes(a: real, b: real, c: real)
    ensures Times(a + b, c) == Times(a, c) + Times(b, c)
  {
  }

  lemma {:induction false} SumShifted(exp: real -> real, s: seq<real>, shift: real)
    requires Exponential(exp)
    ensures Times(SumExp(exp, s, shift), exp(shift)) == SumExp(exp, s, 0.0)
  {
    hide Times, Exponential;
    if s == [] {
      TimesZero(exp(shift));
    } else {
      var n := |s| - 1;
      SumShifted(exp, s[..n], shift);
      Shifted(exp, s[n], shift);
      Distributes(SumExp(exp, s[..n], shift), exp(s[n] - shift), exp(shift));
      assert s[n] - 0.0 == s[n];
    }
  }

  lemma TimesZero(x: real)
    ensures Times(0.0, x) == 0.0
  {
  }

  /** The sum of `s`. */
  function Total(s: seq<real>): real {
    if s == [] then 0.0 else Total(s[..|s| - 1]) + s[|s| - 1]
  }

  function Weight(part: real, sum: real, scale: real): real
    requires sum != 0.0
  {
    part / sum * scale
  }

  /** What a slot's weight is: its exponential's share of the chosen ones', times its expert's scale. */
  ghost predicate IsShare(exp: real -> real, ev: seq<real>, k: nat, scale: real, weight: real) {
    k < |ev| && Times(weight, SumExp(exp, ev, 0.0)) == Times(exp(ev[k]), scale)
  }

  /** A token's weights from its logits `rt`, the logits `ev` kept in its slots, and the scales of the chosen
      experts. */
  method Weights(exp: real -> real, rt: seq<real>, ev: seq<real>, scale: seq<real>) returns (tw: seq<real>)
    requires Exponential(exp) && rt != [] && |scale| == |ev|
    ensures |tw| == |ev| && forall k | 0 <= k < |ev| :: IsShare(exp, ev, k, scale[k], tw[k])
  {
    hide Exponential, Times, SumExp, Total, IsShare, Weight;
    var mx := rt[0];
    for e := 1 to |rt| {
      if rt[e] > mx {
        mx := rt[e];
      }
    }
    var all := AddExp(exp, rt, mx);
    SumExpIsPositive(exp, rt, mx);
    var parts: seq<real> := [];
    var sel := 0.0;
    TotalNone();
    for k := 0 to |ev|
      invariant |parts| == k && sel == Total(parts)
      invariant forall i | 0 <= i < k :: parts[i] == exp(ev[i] - mx) / all
    {
      var part := exp(ev[k] - mx) / all;
      TotalMore(parts, part);
      parts, sel := parts + [part], sel + part;
    }
    PartsTotal(exp, ev, mx, all, parts);
    SumExpIsPositive(exp, ev, mx);
    tw := [];
    for k := 0 to |ev|
      invariant |tw| == k && forall i | 0 <= i < k :: IsShare(exp, ev, i, scale[i], tw[i])
    {
      ShareIs(exp, ev, mx, all, sel, k, parts[k], scale[k]);
      tw := tw + [Weight(parts[k], sel, scale[k])];
    }
  }

  method AddExp(exp: real -> real, rt: seq<real>, mx: real) returns (all: real)
    ensures all == SumExp(exp, rt, mx)
  {
    all := 0.0;
    for e := 0 to |rt|
      invariant all == SumExp(exp, rt[..e], mx)
    {
      assert rt[..e + 1][..e] == rt[..e];
      all := all + exp(rt[e] - mx);
    }
    assert rt[..|rt|] == rt;
  }

  lemma TotalNone()
    ensures Total([]) == 0.0
  {
  }

  lemma TotalMore(s: seq<real>, x: real)
    ensures Total(s + [x]) == Total(s) + x
  {
    assert (s + [x])[..|s|] == s;
  }

  lemma {:induction false} PartsTotal(exp: real -> real, ev: seq<real>, mx: real, all: real, parts: seq<real>)
    requires all > 0.0 && |parts| == |ev| && forall i | 0 <= i < |ev| :: parts[i] == exp(ev[i] - mx) / all
    ensures Times(Total(parts), all) == SumExp(exp, ev, mx)
  {
    hide Times;
    if ev == [] {
      TimesZero(all);
    } else {
      var n := |ev| - 1;
      PartsTotal(exp, ev[..n], mx, all, parts[..n]);
      Quotient(exp(ev[n] - mx), all);
      Distributes(Total(parts[..n]), parts[n], all);
    }
  }

  lemma Quotient(x: real, y: real)
    requires y != 0.0
    ensures Times(x / y, y) == x
  {
  }

  /** The sum over all experts and the greatest logit cancel out. */
  lemma ShareIs(exp: real -> real, ev: seq<real>, mx: real, all: real, sel: real, k: nat, part: real, scale: real)
    requires Exponential(exp) && k < |ev| && all > 0.0
    requires part == exp(ev[k] - mx) / all && Times(sel, all) == SumExp(exp, ev, mx) > 0.0
    ensures sel != 0.0 && IsShare(exp, ev, k, scale, Weight(part, sel, scale))
  {
    TimesZero(all);
    assert sel != 0.0;
    Quotient(exp(ev[k] - mx), all);
    Shifted(exp, ev[k], mx);
    SumShifted(exp, ev, mx);
    Cancel(part, sel, scale, all, exp(mx));
  }

  lemma Cancel(part: real, sel: real, scale: real, all: real, e: real)
    requires sel != 0.0
    ensures Times(Weight(part, sel, scale), Times(Times(sel, all), e)) == Times(Times(Times(part, all), e), scale)
  {
    var q := part / sel;
    assert q * sel == part;
    assert q * scale * (sel * all * e) == q * sel * all * e * scale;
  }

  /** Weights depend on the differences of the logits only. */
  lemma WeightsIgnoreShift(exp: real -> real, ev: seq<real>, ev': seq<real>, a: real, k: nat, scale: real, weight: real)
    requires Exponential(exp) && |ev| == |ev'| && forall i | 0 <= i < |ev| :: ev'[i] == ev[i] - a
    ensures IsShare(exp, ev, k, scale, weight) <==> IsShare(exp, ev', k, scale, weight)
  {
    if k < |ev| {
      SumOfShifted(exp, ev, ev', a);
      SumShifted(exp, ev, a);
      Shifted(exp, ev[k], a);
      CancelBoth(weight, SumExp(exp, ev', 0.0), exp(ev'[k]), scale, exp(a));
    }
  }

  lemma {:induction false} SumOfShifted(exp: real -> real, ev: seq<real>, ev': seq<real>, a: real)
    requires |ev| == |ev'| && forall i | 0 <= i < |ev| :: ev'[i] == ev[i] - a
    ensures SumExp(exp, ev', 0.0) == SumExp(exp, ev, a)
  {
    if ev != [] {
      SumOfShifted(exp, ev[..|ev| - 1], ev'[..|ev| - 1], a);
      assert ev'[|ev| - 1] - 0.0 == ev[|ev| - 1] - a;
    }
  }

  lemma CancelBoth(w: real, s: real, x: real, scale: real, e: real)
    requires e > 0.0
    ensures Times(w, s) == Times(x, scale) <==> Times(w, Times(s, e)) == Times(Times(x, e), scale)
  {
    assert w * (s * e) == w * s * e && x * e * scale == x * scale * e;
  }

  /** With no scales, a token's weights sum to one. */
  lemma WeightsSumToOne(exp: real -> real, ev: seq<real>, tw: seq<real>)
    requires Exponential(exp) && ev != [] && |tw| == |ev|
    requires forall k | 0 <= k < |ev| :: IsShare(exp, ev, k, 1.0, tw[k])
    ensures Total(tw) == 1.0
  {
    var s := SumExp(exp, ev, 0.0);
    SumExpIsPositive(exp, ev, 0.0);
    WeightsTotal(exp, ev, tw, s);
    OnlyOne(Total(tw), s);
  }

  lemma OnlyOne(x: real, s: real)
    requires s > 0.0 && Times(x, s) == s
    ensures x == 1.0
  {
    assert (x - 1.0) * s == 0.0;
  }

  lemma {:induction false} WeightsTotal(exp: real -> real, ev: seq<real>, tw: seq<real>, s: real)
    requires |tw| == |ev| && forall k | 0 <= k < |ev| :: Times(tw[k], s) == exp(ev[k])
    ensures Times(Total(tw), s) == SumExp(exp, ev, 0.0)
  {
    hide Times;
    if ev == [] {
      TimesZero(s);
    } else {
      var n := |ev| - 1;
      WeightsTotal(exp, ev[..n], tw[..n], s);
      Distributes(Total(tw[..n]), tw[n], s);
      assert ev[n] - 0.0 == ev[n];
    }
  }
}
