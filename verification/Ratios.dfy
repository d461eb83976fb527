/** The few facts about products and floor division that the exchange-rate proofs rest on. */
module Ratios {

  lemma MulMono(a: nat, b: nat, c: nat)
    requires a <= b
    ensures a * c <= b * c
  {
    assert (b - a) * c >= 0;
  }

  lemma CancelFactor(a: nat, b: nat, c: nat)
    requires 0 < c && a * c <= b * c
    ensures a <= b
  {
    if b < a {
      MulMono(b + 1, a, c);
    }
  }

  /** `x * n / d` is the largest quotient whose multiple stays within the product. */
  lemma FloorRatio(x: nat, n: nat, d: nat)
    requires 0 < d
    ensures 0 <= x * n / d
    ensures (x * n / d) * d <= x * n < (x * n / d) * d + d
  {
    var p := x * n;
    assert p == (p / d) * d + p % d;
  }

  lemma Distribute(a: nat, b: nat, c: nat)
    ensures a * (b + c) == a * b + a * c
  {
  }

  lemma DistributeLeft(a: nat, b: nat, c: nat)
    ensures (a + b) * c == a * c + b * c
  {
  }

  lemma FloorAtMost(p: nat, d: nat, q: nat)
    requires 0 < d && p <= q * d
    ensures p / d <= q
  {
    FloorRatio(p, 1, d);
    CancelFactor(p / d, q, d);
  }

  /** When a floor stays within a bound. */
  lemma FloorWithin(p: nat, d: nat, q: nat)
    requires 0 < d
    ensures p / d <= q <==> p < q * d + d
  {
    FloorRatio(p, 1, d);
    if p / d <= q {
      MulMono(p / d, q, d);
    } else {
      MulMono(q + 1, p / d, d);
      DistributeLeft(q, 1, d);
    }
  }

  lemma FloorExact(x: nat, d: nat)
    requires 0 < d
    ensures x * d / d == x
  {
    FloorRatio(x, d, d);
    var q := x * d / d;
    CancelFactor(q, x, d);
    assert (q + 1) * d == q * d + d;
    CancelFactor(x, q + 1, d);
    if x == q + 1 {
      assert false;
    }
  }

  lemma FloorIsGreatest(p: nat, d: nat, q: nat)
    requires 0 < d && q * d <= p
    ensures q <= p / d
  {
    assert p == (p / d) * d + p % d;
    if p / d < q {
      assert (p / d + 1) * d == (p / d) * d + d;
      MulMono(p / d + 1, q, d);
    }
  }

  lemma FloorMono(p: nat, q: nat, d: nat)
    requires 0 < d && p <= q
    ensures p / d <= q / d
  {
    assert p == (p / d) * d + p % d;
    FloorIsGreatest(q, d, p / d);
  }

  /** Comparing two fractions by cross products is transitive when the middle denominator is positive. */
  lemma CrossTransitive(n1: nat, d1: nat, n2: nat, d2: nat, n3: nat, d3: nat)
    requires 0 < d2
    requires n1 * d2 <= n2 * d1 && n2 * d3 <= n3 * d2
    ensures n1 * d3 <= n3 * d1
  {
    MulMono(n1 * d2, n2 * d1, d3);
    MulMono(n2 * d3, n3 * d2, d1);
    assert (n1 * d2) * d3 == (n1 * d3) * d2;
    assert (n2 * d1) * d3 == (n2 * d3) * d1;
    assert (n3 * d2) * d1 == (n3 * d1) * d2;
    CancelFactor(n1 * d3, n3 * d1, d2);
  }
}
