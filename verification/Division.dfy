/** Facts about quotients and remainders with variable divisors. */
module Division {

  lemma AtLeast(d: nat, k: nat)
    requires k > 0
    ensures d * k >= d
  {
  }

  /** Quotient and remainder are the only pair that fits. */
  lemma Euclid(n: nat, d: nat, q: nat, r: nat)
    requires d > 0 && r < d && n == d * q + r
    ensures n / d == q && n % d == r
  {
    var q', r' := n / d, n % d;
    assert d * (q - q') == r' - r by {
      assert d * q' + r' == n;
    }
    if q > q' {
      AtLeast(d, q - q');
    } else if q < q' {
      assert d * (q' - q) == -(d * (q - q'));
      AtLeast(d, q' - q);
    }
  }

  lemma Distribute(d: nat, x: nat, y: nat)
    ensures d * (x + y) == d * x + d * y
  {
  }

  lemma AddModulo(x: nat, y: nat, d: nat)
    requires d > 0
    ensures (x % d + y) % d == (x + y) % d
  {
    var q, z := x / d, x % d + y;
    assert x + y == d * q + z;
    Distribute(d, q, z / d);
    Euclid(x + y, d, q + z / d, z % d);
  }

  lemma RemainderSplits(n: nat, p: nat)
    requires p > 0
    ensures n % (256 * p) / 256 == n / 256 % p
    ensures n % (256 * p) % 256 == n % 256
  {
    var a, b := n / 256, n % 256;
    var q, r := a / p, a % p;
    assert n == (256 * p) * q + (256 * r + b) by {
      assert 256 * (p * q + r) == (256 * p) * q + 256 * r;
    }
    Euclid(n, 256 * p, q, 256 * r + b);
  }
}
