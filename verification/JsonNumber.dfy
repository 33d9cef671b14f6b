/** The number grammar of section 6 of RFC 8259, and the scan that accepts it (src/json.inc:33-69). */
module JsonNumber {
  import opened Wrappers
  import opened Utf8
  import opened JsonParse

  const MINUS: byte := 0x2D
  const PLUS: byte := 0x2B
  const POINT: byte := 0x2E
  const ZERO: byte := 0x30

  /** A number's parts. An exponent is its letter, its sign if there is one, and its digits. */
  datatype Number = Number(minus: bool, whole: seq<byte>, fraction: Option<seq<byte>>, exponent: Option<Exponent>)
  datatype Exponent = Exponent(letter: byte, sign: seq<byte>, digits: seq<byte>)

  predicate AllDigits(z: seq<byte>) {
    |z| > 0 && forall k | 0 <= k < |z| :: Digit(z[k])
  }

  /** The grammar: no leading zero, and digits in every part there is. */
  predicate Proper(n: Number) {
    && AllDigits(n.whole) && (n.whole[0] == ZERO ==> |n.whole| == 1)
    && (n.fraction.Some? ==> AllDigits(n.fraction.value))
    && (n.exponent.Some? ==> ProperExponent(n.exponent.value))
  }

  predicate ProperExponent(e: Exponent) {
    && (e.letter == 0x65 || e.letter == 0x45) && (e.sign == [] || e.sign == [PLUS] || e.sign == [MINUS])
    && AllDigits(e.digits)
  }

  function Sign(n: Number): seq<byte> {
    if n.minus then [MINUS] else []
  }

  function Fraction(f: Option<seq<byte>>): seq<byte> {
    if f.None? then [] else [POINT] + f.value
  }

  function ExponentText(e: Option<Exponent>): seq<byte> {
    if e.None? then [] else [e.value.letter] + e.value.sign + e.value.digits
  }

  /** A number as it is written. */
  function Text(n: Number): seq<byte> {
    Sign(n) + n.whole + Fraction(n.fraction) + ExponentText(n.exponent)
  }

  // ----- what is written is accepted

  /** A run of digits is passed to its end. */
  lemma {:induction false} DigitsRun(z: seq<byte>, i: nat, j: nat)
    requires i <= j <= |z| && (forall k | i <= k < j :: Digit(z[k])) && (j < |z| ==> !Digit(z[j]))
    ensures Digits(z, i) == j
    decreases j - i
  {
    if i < j {
      DigitsRun(z, i + 1, j);
    }
  }

  lemma DigitsIn(z: seq<byte>, p: seq<byte>, d: seq<byte>, rest: seq<byte>)
    requires z == p + d + rest && AllDigits(d) && (rest != [] ==> !Digit(rest[0]))
    ensures Digits(z, |p|) == |p| + |d| > |p|
  {
    hide Digits;
    forall k | |p| <= k < |p| + |d|
      ensures Digit(z[k])
    {
      assert z[k] == d[k - |p|];
    }
    DigitsRun(z, |p|, |p| + |d|);
  }

  lemma ExponentIsValid(p: seq<byte>, e: Option<Exponent>)
    requires e.Some? ==> ProperExponent(e.value)
    ensures ExponentValid(p + ExponentText(e), |p|)
  {
    if e.Some? {
      hide Digits, AllDigits;
      var z, x := p + ExponentText(e), e.value;
      var begin := p + [x.letter] + x.sign;
      assert z == begin + x.digits + [];
      DigitsIn(z, begin, x.digits, []);
      SignAt(z, p, x);
    }
  }

  lemma SignAt(z: seq<byte>, p: seq<byte>, x: Exponent)
    requires ProperExponent(x) && z == p + [x.letter] + x.sign + x.digits
    ensures |z| > |p| + 1 && z[|p|] == x.letter
    ensures if x.sign == [] then Digit(z[|p| + 1]) else z[|p| + 1] == x.sign[0]
  {
    assert z == (p + [x.letter]) + (x.sign + x.digits);
    assert x.sign == [] ==> x.sign + x.digits == x.digits;
  }

  lemma FractionIsValid(p: seq<byte>, f: Option<seq<byte>>, e: Option<Exponent>)
    requires (f.Some? ==> AllDigits(f.value)) && (e.Some? ==> ProperExponent(e.value))
    ensures FractionValid(p + Fraction(f) + ExponentText(e), |p|)
  {
    hide ExponentValid, Digits, AllDigits, FractionValid, Fraction, ExponentText;
    ExponentIsValid(p + Fraction(f), e);
    Begins(e);
    if f.Some? {
      WithFraction(p, f.value, ExponentText(e));
    } else {
      WithoutFraction(p, ExponentText(e));
    }
  }

  lemma Begins(e: Option<Exponent>)
    requires e.Some? ==> ProperExponent(e.value)
    ensures ExponentText(e) != [] ==> !Digit(ExponentText(e)[0]) && ExponentText(e)[0] != POINT
  {
  }

  lemma WithFraction(p: seq<byte>, d: seq<byte>, x: seq<byte>)
    requires AllDigits(d) && (x != [] ==> !Digit(x[0]))
    requires ExponentValid(p + Fraction(Some(d)) + x, |p + Fraction(Some(d))|)
    ensures FractionValid(p + Fraction(Some(d)) + x, |p|)
  {
    hide ExponentValid, Digits, AllDigits;
    var z := p + Fraction(Some(d)) + x;
    assert z == p + [POINT] + d + x;
    DigitsIn(z, p + [POINT], d, x);
  }

  lemma WithoutFraction(p: seq<byte>, x: seq<byte>)
    requires x != [] ==> x[0] != POINT
    requires ExponentValid(p + Fraction(None) + x, |p + Fraction(None)|)
    ensures FractionValid(p + Fraction(None) + x, |p|)
  {
    hide ExponentValid, Digits;
    assert p + Fraction(None) == p;
  }

  lemma TextIsValid(n: Number)
    requires Proper(n)
    ensures NumberValid(Text(n))
  {
    hide FractionValid;
    var z, i := Text(n), |Sign(n)|;
    var p := Sign(n) + n.whole;
    FractionIsValid(p, n.fraction, n.exponent);
    assert z == p + Fraction(n.fraction) + ExponentText(n.exponent);
    forall k | i <= k < |p|
      ensures z[k] == n.whole[k - i]
    {
      assert z[k] == p[k];
    }
    assert n.minus ==> z[0] == MINUS;
    Follows(n);
    if z[i] != ZERO {
      DigitsRun(z, i, |p|);
    }
  }

  /** No digit follows the whole part. */
  lemma Follows(n: Number)
    requires Proper(n)
    ensures var j := |Sign(n)| + |n.whole|; j < |Text(n)| ==> !Digit(Text(n)[j])
  {
    var p := Sign(n) + n.whole;
    assert Text(n) == p + (Fraction(n.fraction) + ExponentText(n.exponent));
  }

  // ----- what is accepted is a number that is written so

  lemma {:induction false} DigitsAre(z: seq<byte>, i: nat)
    requires i <= |z|
    ensures forall k | i <= k < Digits(z, i) :: Digit(z[k])
    decreases |z| - i
  {
    if i < |z| && Digit(z[i]) {
      DigitsAre(z, i + 1);
    }
  }

  lemma DigitsCut(z: seq<byte>, i: nat)
    requires i <= |z| && i < Digits(z, i)
    ensures AllDigits(z[i..Digits(z, i)])
  {
    hide Digits;
    DigitsAre(z, i);
  }

  lemma SplitExponent(z: seq<byte>, i: nat) returns (e: Option<Exponent>)
    requires i <= |z| && ExponentValid(z, i)
    ensures (e.Some? ==> ProperExponent(e.value)) && z[i..] == ExponentText(e)
  {
    hide Digits;
    e := None;
    if i < |z| {
      var j := if i + 1 < |z| && (z[i + 1] == PLUS || z[i + 1] == MINUS) then i + 2 else i + 1;
      DigitsCut(z, j);
      assert z[j..Digits(z, j)] == z[j..];
      e := Some(Exponent(z[i], z[i + 1..j], z[j..]));
      assert z[i..] == [z[i]] + z[i + 1..j] + z[j..];
    }
  }

  lemma SplitFraction(z: seq<byte>, i: nat) returns (f: Option<seq<byte>>, e: Option<Exponent>)
    requires i <= |z| && FractionValid(z, i)
    ensures (f.Some? ==> AllDigits(f.value)) && (e.Some? ==> ProperExponent(e.value))
    ensures z[i..] == Fraction(f) + ExponentText(e)
  {
    hide Digits, ExponentValid;
    if i < |z| && z[i] == POINT {
      var j := Digits(z, i + 1);
      DigitsCut(z, i + 1);
      e := SplitExponent(z, j);
      f := Some(z[i + 1..j]);
      assert z[i..] == [POINT] + z[i + 1..j] + z[j..];
    } else {
      e := SplitExponent(z, i);
      f := None;
    }
  }

  lemma Split(z: seq<byte>) returns (n: Number)
    requires NumberValid(z)
    ensures Proper(n) && Text(n) == z
  {
    hide FractionValid, ProperExponent, Fraction, ExponentText, Text, Digits;
    var i := if z[0] == MINUS then 1 else 0;
    var j := if z[i] == ZERO then i + 1 else Digits(z, i);
    WholeCut(z, i);
    var f, e := SplitFraction(z, j);
    n := Number(i == 1, z[i..j], f, e);
    assert Sign(n) == z[..i];
    Joined(z, i, j, n);
  }

  lemma WholeCut(z: seq<byte>, i: nat)
    requires i < |z| && Digit(z[i])
    ensures var j := if z[i] == ZERO then i + 1 else Digits(z, i);
      i < j <= |z| && AllDigits(z[i..j]) && (z[i] == ZERO ==> j == i + 1)
  {
    if z[i] != ZERO {
      DigitsCut(z, i);
    }
  }

  lemma Joined(z: seq<byte>, i: nat, j: nat, n: Number)
    requires i <= j <= |z| && Sign(n) == z[..i] && n.whole == z[i..j]
    requires Fraction(n.fraction) + ExponentText(n.exponent) == z[j..]
    ensures Text(n) == z
  {
    hide Fraction, ExponentText, Sign;
    assert Text(n) == Sign(n) + n.whole + (Fraction(n.fraction) + ExponentText(n.exponent));
    assert z == z[..i] + z[i..j] + z[j..];
  }

  /** The scan accepts exactly the texts of numbers. */
  lemma NumberGrammar(z: seq<byte>)
    ensures NumberValid(z) <==> exists n :: Proper(n) && Text(n) == z
  {
    if NumberValid(z) {
      var n := Split(z);
    }
    forall n | Proper(n) && Text(n) == z
      ensures NumberValid(z)
    {
      TextIsValid(n);
    }
  }
}
