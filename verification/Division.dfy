/** Facts about Euclidean division by a variable divisor, kept small so that callers stay linear. */
module Division {
  lemma DivMod(x: int, p: int)
    requires p > 0
    ensures x == x / p * p + x % p && 0 <= x % p < p
  {
  }

  lemma Distribute(a: int, b: int, p: int)
    ensures (a - b) * p == a * p - b * p
    ensures (a + b) * p == a * p + b * p
  {
  }

  lemma MulSign(a: int, p: int)
    requires p > 0
    ensures 1 <= a ==> p <= a * p
    ensures a <= -1 ==> a * p <= -p
  {
  }

  lemma MulMonotone(a: int, b: int, p: int)
    requires a <= b && 0 <= p
    ensures a * p <= b * p
  {
  }

  lemma DivModUnique(x: int, q: int, r: int, p: int)
    requires p > 0 && x == q * p + r && 0 <= r < p
    ensures x / p == q && x % p == r
  {
    DivMod(x, p);
    Distribute(x / p, q, p);
    MulSign(x / p - q, p);
  }

  lemma ModPeriod(x: int, p: int)
    requires p > 0
    ensures (x + p) % p == x % p
  {
    DivMod(x, p);
    Distribute(x / p, 1, p);
    DivModUnique(x + p, x / p + 1, x % p, p);
  }

  lemma ModStep(x: int, p: int)
    requires p > 0
    ensures (x - 1) % p == if x % p == 0 then p - 1 else x % p - 1
  {
    DivMod(x, p);
    if x % p == 0 {
      Distribute(x / p, 1, p);
      DivModUnique(x - 1, x / p - 1, p - 1, p);
    } else {
      DivModUnique(x - 1, x / p, x % p - 1, p);
    }
  }
}
