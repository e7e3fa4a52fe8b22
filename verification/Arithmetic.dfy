/** The few facts about products and quotients the other modules lean on. */
module Arithmetic {
  lemma SquareMono(p: nat, q: nat)
    requires p <= q
    ensures p * p <= q * q
  {
    assert q * q - p * p == (q - p) * (q + p);
  }

  lemma SquareStrict(p: nat, q: nat)
    requires p < q
    ensures p * p < q * q
  {
    assert q * q - p * p == (q - p) * (q + p);
  }

  lemma RootLess(p: nat, q: nat)
    requires p * p < q * q
    ensures p < q
  {
    if q <= p { SquareMono(q, p); }
  }

  lemma NatMono(k: nat, p: nat, q: nat)
    requires p <= q
    ensures k * p <= k * q
  {
    assert k * q - k * p == k * (q - p);
  }

  lemma NatCancel(k: nat, p: nat, q: nat)
    requires k * p < k * q
    ensures p < q
  {
    if q <= p { NatMono(k, q, p); }
  }

  lemma AtMost(k: nat, p: nat, q: nat)
    requires k > 0 && k * p <= k * q
    ensures p <= q
  {
    assert k * (q + 1) == k * q + k;
    if p > q { NatMono(k, q + 1, p); }
  }

  lemma Successor(k: nat, p: nat)
    ensures (k + 1) * p == k * p + p && k * p >= 0
  {
  }

  lemma Floored(n: nat, d: nat)
    requires d > 0
    ensures 0 <= d * (n / d) <= n < d * (n / d) + d
  {
  }

  lemma SquareOfProduct(p: nat, q: nat)
    ensures (p * q) * (p * q) == (p * p) * (q * q)
  {
    assert (p * q) * (p * q) == p * (q * (p * q));
    assert q * (p * q) == p * (q * q);
  }
}
