/** The numbers that NVFP4 codes stand for (OCP Microscaling Formats v1.0, section 5.3; jb.c:2267-2304), and what a
    block's scale is for (jb.c:2310-2331). */
module NumberFormats {
  import opened NvFp4

  /** E4M3 has three bits of mantissa: in steps of 1/512 at first, and from 1/64 on eight equal steps up to twice the
      value, up to 448. */
  lemma E4M3Is(u: nat, m: nat)
    ensures u < 8 ==> E4M3(u) == u as real / 512.0
    ensures 8 <= u ==> E4M3(u + 8) == 2.0 * E4M3(u)
    ensures 8 <= u && u % 8 == 0 && m < 8 ==> E4M3(u + m) == E4M3(u) * (8 + m) as real / 8.0
    ensures E4M3(8) == 1.0 / 64.0
  {
    var e := u / 8;
    if 8 <= u {
      assert (u + 8) / 8 == e + 1 && (u + 8) % 8 == u % 8;
      PowerDoubles(e - 1);
      Scaling((8 + u % 8) as real, Pow2(e - 1));
      if u % 8 == 0 && m < 8 {
        assert (u + m) / 8 == e && (u + m) % 8 == m;
        Steps((8 + m) as real, Pow2(e - 1));
      }
    }
  }

  lemma PowerDoubles(k: nat)
    ensures Pow2(k + 1) == 2.0 * Pow2(k)
  {
  }

  lemma Scaling(x: real, p: real)
    ensures x * (2.0 * p) / 512.0 == 2.0 * (x * p / 512.0)
  {
  }

  lemma Steps(x: real, p: real)
    ensures x * p / 512.0 == 8.0 * p / 512.0 * x / 8.0
  {
  }

  /** The largest scale is 448, and code 56 is one. */
  lemma E4M3Range()
    ensures E4M3(56) == 1.0 && E4M3(126) == 448.0 && |Scales()| == 127
  {
    assert Pow2(14) == 16384.0 by {
      FourDoublings(0);
      FourDoublings(4);
      FourDoublings(8);
      PowerDoubles(12);
      PowerDoubles(13);
    }
    assert Pow2(6) == 64.0 by {
      FourDoublings(0);
      PowerDoubles(4);
      PowerDoubles(5);
    }
  }

  lemma FourDoublings(k: nat)
    ensures Pow2(k + 4) == 16.0 * Pow2(k) && Pow2(0) == 1.0
  {
    PowerDoubles(k);
    PowerDoubles(k + 1);
    PowerDoubles(k + 2);
    PowerDoubles(k + 3);
  }

  /** E2M1 has one bit of mantissa: zero and a half, and from one on two equal steps up to twice the value, up to
      six. */
  lemma E2M1Is(u: nat)
    requires u < 8
    ensures |VALUES| == 8
    ensures u < 2 ==> VALUES[u] == u as real / 2.0
    ensures u == 2 ==> VALUES[u] == 1.0
    ensures 2 <= u < 6 ==> VALUES[u + 2] == 2.0 * VALUES[u]
    ensures u == 2 || u == 4 || u == 6 ==> VALUES[u + 1] == 1.5 * VALUES[u]
  {
  }

  /** The largest magnitude of a block: none is larger, and one is as large. */
  lemma {:induction false} LargestIs(x: seq<real>)
    ensures forall k | 0 <= k < |x| :: -Largest(x) <= x[k] <= Largest(x)
    ensures x != [] ==> exists k | 0 <= k < |x| :: x[k] == Largest(x) || x[k] == -Largest(x)
    ensures x == [] ==> Largest(x) == 0.0
  {
    if x != [] {
      var n := |x| - 1;
      LargestIs(x[..n]);
      if n == 0 {
        assert Largest(x[..0]) == 0.0;
        assert x[0] == Largest(x) || x[0] == -Largest(x);
      } else {
        var k :| 0 <= k < n && (x[..n][k] == Largest(x[..n]) || x[..n][k] == -Largest(x[..n]));
        assert x[k] == x[..n][k];
        if Abs(x[n]) > Largest(x[..n]) {
          assert x[n] == Largest(x) || x[n] == -Largest(x);
        } else {
          assert x[k] == Largest(x) || x[k] == -Largest(x);
        }
      }
      assert forall i | 0 <= i < n :: x[i] == x[..n][i];
    }
  }

  /** The ideal scale, times the base and the largest code's value, is the largest magnitude. */
  lemma IdealIs(amax: real, base: real)
    requires base > 0.0
    ensures Ideal(amax, base) * base * 6.0 == amax
  {
    var q := amax / 6.0;
    assert q / base * base == q;
  }

  /** Dividing by a scale and multiplying back with an unrounded value changes nothing. */
  lemma QuotientIs(x: real, s: real)
    requires s != 0.0
    ensures Times(Quotient(x, s), s) == x
  {
  }
}
