/** Floating point as the strict kernels use it: signed zeros and infinities exactly, one NaN, rounding left open. */
module Floats {
  type Nonzero = r: real | r != 0.0 witness 1.0

  datatype Float = Zero(neg: bool) | Finite(v: Nonzero) | Inf(neg: bool) | NaN

  /** How the machine rounds exact sums and products of finite numbers. All that is asked of it is a fact of IEEE
      arithmetic with subnormals: a sum that is not zero is not rounded to zero. */
  datatype Rounding = Rounding(sum: (real, real) -> Float, product: (real, real) -> Float) {
    ghost predicate Valid() {
      forall x, y | x + y != 0.0 :: !sum(x, y).Zero?
    }
  }

  function Add(m: Rounding, x: Float, y: Float): Float {
    match (x, y)
    case (NaN, _) => NaN
    case (_, NaN) => NaN
    case (Inf(a), Inf(b)) => if a == b then x else NaN
    case (Inf(_), _) => x
    case (_, Inf(_)) => y
    case (Zero(a), Zero(b)) => Zero(a && b)
    case (Zero(_), _) => y
    case (_, Zero(_)) => x
    case (Finite(a), Finite(b)) => if a + b == 0.0 then Zero(false) else m.sum(a, b)
  }

  predicate Negative(x: Float) {
    match x
    case Zero(neg) => neg
    case Finite(v) => v < 0.0
    case Inf(neg) => neg
    case NaN => false
  }

  function Mul(m: Rounding, x: Float, y: Float): Float {
    match (x, y)
    case (NaN, _) => NaN
    case (_, NaN) => NaN
    case (Inf(_), Zero(_)) => NaN
    case (Zero(_), Inf(_)) => NaN
    case (Finite(a), Finite(b)) => m.product(a, b)
    case _ => if x.Inf? || y.Inf? then Inf(Negative(x) != Negative(y)) else Zero(Negative(x) != Negative(y))
  }

  function Neg(x: Float): Float {
    match x
    case Zero(neg) => Zero(!neg)
    case Finite(v) => Finite(0.0 - v)
    case Inf(neg) => Inf(!neg)
    case NaN => NaN
  }

  /** Equal but for the sign of a zero. */
  predicate Like(x: Float, y: Float) {
    x == y || (x.Zero? && y.Zero?)
  }

  /** Products and sums cannot turn the sign of a zero into anything more, and a sum that is not the negative zero
      absorbs it. */
  lemma LikeKept(m: Rounding, x: Float, x': Float, y: Float, y': Float)
    requires m.Valid() && Like(x, x') && Like(y, y')
    ensures Like(Mul(m, x, y), Mul(m, x', y'))
    ensures Like(Add(m, x, y), Add(m, x', y'))
    ensures x == x' && x != Zero(true) ==> Add(m, x, y) == Add(m, x', y') != Zero(true)
  {
  }
}
