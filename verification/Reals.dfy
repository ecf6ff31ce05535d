/** Facts about products of reals that the solver is spared from finding. */
module Reals {
  function Min(a: real, b: real): real {
    if a <= b then a else b
  }

  function Max(a: real, b: real): real {
    if a <= b then b else a
  }

  lemma ProductPositive(x: real, y: real)
    requires x > 0.0 && y > 0.0
    ensures x * y > 0.0
  {
  }

  lemma ProductNonNegative(x: real, y: real)
    requires x >= 0.0 && y >= 0.0
    ensures x * y >= 0.0
  {
  }

  lemma NegativeProduct(x: real, y: real)
    requires x < 0.0 < y
    ensures x * y < 0.0
  {
  }

  lemma SignOfFactor(x: real, y: real)
    requires y > 0.0
    ensures x * y >= 0.0 ==> x >= 0.0
  {
    if x < 0.0 {
      NegativeProduct(x, y);
    }
  }
}
