/** Facts about products that the counting arguments share. */
module Arithmetic {

  lemma MulStep(k: nat, n: nat)
    requires k > 0
    ensures k * n == (k - 1) * n + n
  {
  }

  /** One more term of the same size. */
  lemma OneMoreTerm(k: nat, sum: nat, term: nat)
    requires k > 0 && sum == (k - 1) * term
    ensures sum + term == k * term
  {
  }

  lemma MulMonotone(a: nat, b: nat, c: nat)
    requires a <= b
    ensures a * c <= b * c
  {
  }
}
