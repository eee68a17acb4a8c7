/** Facts about products and quotients that the solver does not find by itself. */
module Arith {
  lemma TimesMono(a: int, b: int, n: int)
    requires a <= b && 0 <= n
    ensures a * n <= b * n
  {
  }

  lemma OnlyZero(a: int, n: int)
    requires -n < a * n < n
    ensures a == 0
  {
    if a > 0 { TimesMono(1, a, n); }
    if a < 0 { TimesMono(1, -a, n); }
  }

  lemma DivMod(q: int, n: int, r: int)
    requires 0 <= r < n
    ensures (q * n + r) / n == q && (q * n + r) % n == r
  {
    var d, m := (q * n + r) / n, (q * n + r) % n;
    assert (d - q) * n == r - m;
    OnlyZero(d - q, n);
  }
}
