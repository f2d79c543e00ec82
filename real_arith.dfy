/**
 * Facts about products of reals that both models need. Each one is kept in a
 * lemma of its own, so that callers see only the inequality they ask for.
 */
module RealArith {

  lemma MulNonnegative(x: real, y: real)
    requires 0.0 <= x && 0.0 <= y
    ensures 0.0 <= x * y
  {
  }

  lemma MulMonotone(x: real, y: real, c: real)
    requires x <= y && 0.0 <= c
    ensures x * c <= y * c
  {
    MulNonnegative(y - x, c);
  }

  lemma MulStrict(x: real, y: real, c: real)
    requires x < y && 0.0 < c
    ensures x * c < y * c
  {
  }
}
