/** How many gaps of a given length fit into a span. */
module Counting {

  lemma FewerProducts(a: int, b: int, d: int)
    requires d > 0 && a * d < b * d
    ensures a < b
  {
  }

  lemma DivideBound(n: nat, d: nat, t: nat)
    requires d > 0 && n * d <= t
    ensures n <= t / d
  {
    assert t == (t / d) * d + t % d < (t / d) * d + d == (t / d + 1) * d;
    FewerProducts(n, t / d + 1, d);
  }
}
