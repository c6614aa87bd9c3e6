/** Division with remainder. */
module Arithmetic {

  lemma DivModIs(x: nat, m: nat, q: nat, r: nat)
    requires m > 0 && x == m * q + r && r < m
    ensures x / m == q && x % m == r
  {
    var k := x / m;
    if k < q {
      MulMonotone(m, k + 1, q);
    } else if k > q {
      MulMonotone(m, q + 1, k);
    }
  }

  lemma MulMonotone(m: nat, a: nat, b: nat)
    requires a <= b
    ensures m * a <= m * b
  {
  }
}
