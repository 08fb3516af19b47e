/** Uniqueness of quotient and remainder, for divisors that are not constants. */
module Division {

  lemma MulAtLeast(x: int, p: nat)
    requires x >= 1
    ensures x * p >= p
  {}

  lemma MulMinus(x: int, y: int, p: nat)
    ensures (x - y) * p == x * p - y * p
  {}

  lemma DivModUnique(q: int, r: nat, p: nat, a: int)
    requires r < p && a == q * p + r
    ensures a / p == q && a % p == r
  {
    var d := a / p;
    assert a == d * p + a % p;
    MulMinus(q, d, p);
    MulMinus(d, q, p);
    if d < q {
      MulAtLeast(q - d, p);
    } else if d > q {
      MulAtLeast(d - q, p);
    }
  }
}
