/** Euclidean division by a positive number. */
module Division {

  /** Quotient and remainder are the only ones there are. */
  lemma Unique(n: int, d: int, q: int, r: int)
    requires d > 0 && n == q * d + r && 0 <= r < d
    ensures n / d == q && n % d == r
  {
    var k, rest := n / d - q, n % d;
    assert k * d == r - rest by {
      assert n == n / d * d + rest;
    }
    NonzeroMultiple(k, d);
  }

  lemma NonzeroMultiple(k: int, d: int)
    requires d > 0
    ensures k > 0 ==> k * d >= d
    ensures k < 0 ==> k * d <= -d
  {
    if k > 0 {
      Multiple(k, d);
    } else if k < 0 {
      Multiple(-k, d);
    }
  }

  lemma {:induction false} Multiple(k: nat, d: nat)
    requires k > 0
    ensures k * d >= d
  {
    if k > 1 {
      Multiple(k - 1, d);
    }
  }

  /** A multiple of the divisor does not change the remainder. */
  lemma Shift(n: int, d: int, k: int)
    requires d > 0
    ensures (n + k * d) % d == n % d && (n + k * d) / d == n / d + k
  {
    assert n + k * d == (n / d + k) * d + n % d;
    Unique(n + k * d, d, n / d + k, n % d);
  }

  /** Remainders by a divisor of the divisor. */
  lemma Nested(n: int, d: int, k: int)
    requires d > 0 && k > 0
    ensures n % (d * k) % d == n % d
  {
    var m := d * k;
    assert m > 0;
    assert n == n % m + (n / m * k) * d;
    Shift(n % m, d, n / m * k);
  }

  /** Less than the divisor apart, different numbers have different remainders. */
  lemma Distinct(j: int, k: int, d: int)
    requires d > 0 && j < k < j + d
    ensures j % d != k % d
  {
    if j % d == k % d {
      var m := k / d - j / d;
      assert k - j == m * d by {
        assert k == k / d * d + k % d && j == j / d * d + j % d;
      }
      NonzeroMultiple(m, d);
    }
  }
}
