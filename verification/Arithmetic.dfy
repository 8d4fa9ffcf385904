/** Division facts that the sample counts and the packed metadata share. */
module Arithmetic {
  lemma Scaled(d: int, s: nat)
    ensures d > 0 ==> d * s >= s
    ensures d < 0 ==> d * s <= -(s as int)
  {}

  /** Quotient and remainder are unique. */
  lemma QuotientUnique(x: int, s: nat, q: int, r: nat)
    requires s > 0 && r < s && x == q * s + r
    ensures x / s == q && x % s == r
  {
    Scaled(x / s - q, s);
    assert (x / s - q) * s == r - x % s;
  }
}
