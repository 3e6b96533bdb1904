/**
 * The floating-point world of the tool, reduced to what its discrete logic can observe.
 * A 64-bit float is either finite (a `real`) or one of NaN, +inf and -inf. The table
 * loader and the note matcher treat those three alike, so one tag stands for all of
 * them; the final division of the pitch detector, which tells them apart, has its own
 * `Lag` type.
 * The transcendental functions numpy provides are not defined here: they are function
 * values handed to the model, and `Laws` lists the few identities some lemmas rely on.
 */
module Numerics {

  datatype Float = Finite(value: real) | NonFinite

  /** numpy's `log2` and the power `2 ** x`, kept uninterpreted. */
  datatype Math = Math(log2: real -> real, exp2: real -> real)

  /** Identities of the exact functions that the lemmas use. */
  ghost predicate Laws(math: Math) {
    && math.exp2(0.0) == 1.0
    && math.exp2(1.0) == 2.0
    && math.log2(1.0) == 0.0
    && (forall x :: math.exp2(x) > 0.0)
    && (forall x :: math.exp2(x + 1.0) == 2.0 * math.exp2(x))
  }

  function Abs(x: real): (r: real)
    ensures r >= 0.0 && (r == x || r == -x)
  {
    if x < 0.0 then -x else x
  }

  /** A value the tool accepts as a frequency: finite and strictly positive. */
  predicate IsPositiveFinite(x: Float) {
    x.Finite? && x.value > 0.0
  }
}
