/** Facts about products, quotients and remainders that the solver does not find alone. */
module Arithmetic {

  lemma {:induction false} AtLeast(n: int, d: int)
    requires 0 <= n && 1 <= d
    ensures n * d >= n
  {
  }

  /** A multiple of `n` strictly between `-n` and `n` is zero. */
  lemma {:induction false} SmallMultiple(n: int, d: int)
    requires 0 < n && -n < n * d < n
    ensures d == 0
  {
  }

  lemma {:induction false} ModUnique(a: nat, n: nat, q: nat, r: nat)
    requires 0 < n && r < n && a == n * q + r
    ensures a % n == r && a / n == q
  {
    var d := a / n - q;
    assert n * d == r - a % n;
    SmallMultiple(n, d);
  }

  lemma {:induction false} MulAssoc(a: int, b: int, c: int)
    ensures (a * b) * c == a * (b * c)
  {
  }

  lemma {:induction false} MulDist(a: int, b: int, c: int)
    ensures a * (b + c) == a * b + a * c
  {
  }

  lemma {:induction false} AddMul(a: int, b: int, c: int)
    ensures (a + b) * c == a * c + b * c
  {
  }

  lemma {:induction false} MulMono(n: nat, a: int, b: int)
    requires a <= b
    ensures n * a <= n * b
  {
  }

  /** Numbers `n` apart have different quotients. */
  lemma {:induction false} DivStep(x: nat, y: nat, n: nat)
    requires 0 < n && y + n <= x
    ensures y / n < x / n
  {
    var q, m := x / n, y / n;
    assert x == n * q + x % n && y == n * m + y % n;
    if q <= m {
      MulMono(n, q, m);
    }
  }

  lemma {:induction false} DivOne(x: nat, n: nat)
    requires 0 < n <= x
    ensures 1 <= x / n && (x / n == 1 <==> x < 2 * n)
  {
    DivStep(x, x - n, n);
    if x < 2 * n {
      ModUnique(x, n, 1, x - n);
    } else {
      DivStep(x - n, x - 2 * n, n);
    }
  }

  /** The quotient of a number and half the divisor is the nearest one. */
  lemma {:induction false} Nearest(a: nat, n: nat)
    requires 0 < n
    ensures var q := (a + n / 2) / n; 2 * a <= 2 * (n * q) + n && 2 * (n * q) <= 2 * a + n
  {
    var x := a + n / 2;
    assert x == n * (x / n) + x % n;
  }
}
