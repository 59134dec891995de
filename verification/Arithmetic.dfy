/** Multiples, quotients and powers, where the solver needs them spelled out. */
module Arithmetic {
  function Pow(base: nat, n: nat): (p: nat)
    requires base > 0
    ensures p > 0
  {
    if n == 0 then 1 else base * Pow(base, n - 1)
  }

  lemma Multiples(d: nat, a: nat, b: nat)
    requires d > 0
    ensures a < b ==> d * a + d <= d * b
    ensures a >= b ==> d * a >= d * b
  {
    if a < b {
      var t := b - a - 1;
      assert d * b == d * a + d + d * t && d * t >= 0;
    } else {
      var t := a - b;
      assert d * a == d * b + d * t && d * t >= 0;
    }
  }

  lemma DivUnique(k: nat, c: nat, q: nat, r: nat)
    requires k == c * q + r && r < c
    ensures k / c == q && k % c == r
  {
    var q', r' := k / c, k % c;
    assert k == c * q' + r';
    Multiples(c, q, q');
    Multiples(c, q', q);
  }
}
