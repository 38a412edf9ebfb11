/** Products and squares of real numbers, named so that proofs can treat them as wholes. */
module Reals {

  function Times(a: real, b: real): real { a * b }

  function Square(d: real): real { Times(d, d) }

  function Total(values: seq<real>): real {
    if values == [] then 0.0 else Total(values[..|values| - 1]) + values[|values| - 1]
  }

  lemma PositiveTimes(a: real, b: real)
    requires a > 0.0 && b > 0.0
    ensures Times(a, b) > 0.0
  {
  }

  lemma SquareNonNegative(d: real)
    ensures Square(d) >= 0.0
    ensures Square(d) == 0.0 <==> d == 0.0
  {
    if d > 0.0 {
      PositiveTimes(d, d);
    } else if d < 0.0 {
      PositiveTimes(-d, -d);
      assert Times(d, d) == Times(-d, -d);
    }
  }

  lemma Sign(n: real, d: real)
    requires n > 0.0
    ensures Times(n, d) >= 0.0 <==> d >= 0.0
    ensures Times(n, d) == 0.0 <==> d == 0.0
  {
  }
}
