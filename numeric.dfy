/**
 * Floating-point values as numpy and Python compare them, with the finite
 * part kept exact (a `real`). Rounding is not modelled; what is modelled is
 * the three non-finite outcomes of a division and IEEE 754's rule that every
 * ordered comparison involving NaN is false.
 */
module Numeric {

  /** A float sample: an exact finite value, NaN, or one of the infinities. */
  datatype Float = Finite(v: real) | NaN | PosInf | NegInf

  /** The largest finite float32, `np.finfo(np.float32).max` = (2 - 2^-23) * 2^127. */
  const MaxFloat32: real := 340282346638528859811704183484516925440.0

  /** IEEE 754 `a <= b`: false whenever either operand is NaN. */
  function Le(a: Float, b: Float): (r: bool)
    ensures a == NaN || b == NaN ==> !r
    ensures a.Finite? && b.Finite? ==> (r <==> a.v <= b.v)
    ensures a != NaN && b == PosInf ==> r
    ensures a == NegInf && b != NaN ==> r
    ensures a == PosInf ==> (r <==> b == PosInf)
    ensures b == NegInf ==> (r <==> a == NegInf)
  {
    match (a, b)
    case (NaN, _) => false
    case (_, NaN) => false
    case (NegInf, _) => true
    case (_, PosInf) => true
    case (PosInf, _) => false
    case (_, NegInf) => false
    case (Finite(x), Finite(y)) => x <= y
  }

  /** IEEE 754 `a >= b`: false whenever either operand is NaN. */
  function Ge(a: Float, b: Float): (r: bool)
    ensures a == NaN || b == NaN ==> !r
    ensures a.Finite? && b.Finite? ==> (r <==> a.v >= b.v)
    ensures a == PosInf && b != NaN ==> r
    ensures a != NaN && b == NegInf ==> r
    ensures a == NegInf ==> (r <==> b == NegInf)
    ensures b == PosInf ==> (r <==> a == PosInf)
  {
    Le(b, a)
  }

  /** IEEE 754 `a < b`: false whenever either operand is NaN. */
  function Lt(a: Float, b: Float): (r: bool)
    ensures a == NaN || b == NaN ==> !r
    ensures a.Finite? && b.Finite? ==> (r <==> a.v < b.v)
    ensures r ==> a != PosInf && b != NegInf
    ensures a != NaN && b != NaN ==> (r <==> !Ge(a, b))
    ensures a == NegInf ==> (r <==> b != NegInf && b != NaN)
    ensures b == PosInf ==> (r <==> a != PosInf && a != NaN)
  {
    Le(a, b) && a != b
  }

  /** On values other than NaN, `<=` is a total order, and `<` is its strict part. */
  lemma LeTotalOffNaN(a: Float, b: Float, c: Float)
    requires a != NaN && b != NaN && c != NaN
    ensures Le(a, a)
    ensures Le(a, b) || Le(b, a)
    ensures Le(a, b) && Le(b, a) ==> a == b
    ensures Le(a, b) && Le(b, c) ==> Le(a, c)
    ensures Lt(a, b) <==> !Le(b, a)
  {
  }
}
