/** Facts about Dafny's Euclidean `/` and `%` that the index proofs use. */
module Arithmetic {

  /** A multiple of d leaves no Euclidean remainder. */
  lemma MultipleHasNoRemainder(d: int, k: int)
    requires d > 0
    ensures (d * k) % d == 0
  {
    var x := d * k;
    var m := k - x / d;
    assert x == d * (x / d) + x % d;
    assert x % d == d * m;
  }

  /** A multiple of d smaller than d in magnitude is zero. */
  lemma SmallMultipleIsZero(d: int, x: int)
    requires d > 0 && -d < x < d && x % d == 0
    ensures x == 0
  {
    var q := x / d;
    assert x == d * q;
  }

  /** For 0 <= x < 2n the remainder is x or x - n. */
  lemma ModBelowTwice(x: int, n: int)
    requires n > 0 && 0 <= x < 2 * n
    ensures x % n == if x < n then x else x - n
  {
    if x >= n {
      assert x == n * 1 + (x - n);
    }
  }

  /** Adding a multiple of n does not change the remainder. */
  lemma AddMultiple(y: int, q: int, n: int)
    requires n > 0
    ensures (y + n * q) % n == y % n
  {
    var z := y + n * q;
    assert z == n * (z / n) + z % n;
    assert y == n * (y / n) + y % n;
    var t := q + y / n - z / n;
    assert z % n - y % n == n * t;
  }

  /** A product with a positive factor is positive only when the other factor is. */
  lemma PositiveFactor(a: int, k: int)
    requires k > 0 && a * k > 0
    ensures a > 0
  {
    if a <= 0 {
      NonPositiveProduct(a, k);
    }
  }

  lemma NonPositiveProduct(a: int, k: int)
    requires a <= 0 && k >= 0
    ensures a * k <= 0
  {
    assert a * k == -((-a) * k);
  }

  lemma StepProduct(m: nat, k: int)
    requires m > 0 && k >= 0
    ensures (m - 1) * k >= 0 && (m - 1) * k + k == m * k
  {
  }

  lemma ModPlusLength(i: int, n: int)
    requires 0 <= i < n
    ensures (i + n) % n == i
  {
    AddMultiple(i, 1, n);
  }

  /** Taking the remainder before adding does not change the remainder after. */
  lemma ModThenAdd(x: int, k: int, n: int)
    requires n > 0
    ensures (x % n + k) % n == (x + k) % n
  {
    var q := x / n;
    assert x == n * q + x % n;
    AddMultiple(x % n + k, q, n);
  }
}
