/** Multiplication, division and remainder by a variable. */
module Arithmetic {
  lemma MulMonotone(a: nat, b: nat, p: nat)
    requires a <= b
    ensures a * p <= b * p
  {
  }

  lemma DivMod(q: nat, r: nat, p: nat)
    requires r < p
    ensures (q * p + r) / p == q && (q * p + r) % p == r
  {
    var n := q * p + r;
    var d := n / p - q;
    assert n == p * (n / p) + n % p;
    assert p * d == r - n % p;
    assert d <= 0;
    assert d >= 0;
  }

  lemma ModBelow(n: nat, m: nat)
    requires m > 0
    ensures 0 <= n % m < m && 0 <= n / m && (n < m ==> n % m == n)
  {
  }

  /** Two multiples of u are at least u apart. */
  lemma MultipleBetween(x: nat, y: nat, u: nat)
    requires u != 0 && x % u == 0 && y % u == 0 && x < y
    ensures x + u <= y
  {
    var d := y / u - x / u;
    assert y - x == u * d;
    if d > 1 {
      assert u * d == u + u * (d - 1) && u * (d - 1) >= 0;
    }
  }

  /** Adding what a number is short of the next multiple makes it one. */
  lemma RoundedUp(value: nat, u: nat)
    requires u != 0 && value % u != 0
    ensures (value + (u - value % u)) % u == 0
  {
    var q, r := value / u, value % u;
    assert value == u * q + r;
    assert value + (u - r) == (q + 1) * u + 0;
    DivMod(q + 1, 0, u);
  }
}
