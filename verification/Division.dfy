/** Quotients and remainders by a variable divisor. */
module Division {
  lemma {:induction false} AtLeast(n: int, d: int)
    requires n > 0 && d > 0
    ensures n * d >= n
    decreases d
  {
    if d > 1 {
      AtLeast(n, d - 1);
      Distribute(n, d, 1);
    }
  }

  lemma {:induction false} Multiple(n: int, d: int)
    requires n > 0 && -n < n * d < n
    ensures d == 0
  {
    if d > 0 { AtLeast(n, d); }
    if d < 0 {
      AtLeast(n, -d);
      Distribute(n, 0, d);
    }
  }

  lemma {:induction false} Distribute(n: int, p: int, q: int)
    ensures n * (p - q) == n * p - n * q
  {
  }

  /** A quotient and a remainder are determined by what they are made from. */
  lemma {:induction false} SameRemainder(n: nat, p: int, r: int, q: int, t: int)
    requires 0 <= r < n && 0 <= t < n && n * p + r == n * q + t
    ensures r == t
  {
    Distribute(n, p, q);
    Multiple(n, p - q);
  }

  lemma {:induction false} RemainderLess(a: nat, n: nat)
    requires 0 < n <= a
    ensures (a - n) % n == a % n
  {
    var b := a - n;
    var p, r, q, t := a / n, a % n, b / n, b % n;
    assert a == n * p + r && b == n * q + t;
    Distribute(n, p, 1);
    SameRemainder(n, p - 1, r, q, t);
  }

  lemma {:induction false} RemainderSmall(a: nat, n: nat)
    requires a < n
    ensures a % n == a
  {
  }

  lemma {:induction false} QuotientIs(a: int, n: int, p: int, r: int)
    requires 0 <= r < n && a == n * p + r
    ensures a / n == p
  {
    var q, t := a / n, a % n;
    assert a == n * q + t;
    Distribute(n, p, q);
    Multiple(n, p - q);
  }

  /** Dividing twice is dividing by the product. */
  lemma {:induction false} QuotientTwice(a: nat, m: nat, n: nat)
    requires m > 0 && n > 0
    ensures m * n > 0 && a / m / n == a / (m * n)
  {
    AtLeast(m, n);
    var q, r := a / m, a % m;
    var p, t := q / n, q % n;
    assert a == m * q + r && q == n * p + t;
    Product(m, n, p, t);
    Within(m, n, t, r);
    QuotientIs(a, m * n, p, m * t + r);
  }

  lemma {:induction false} Product(m: int, n: int, p: int, t: int)
    ensures m * (n * p + t) == (m * n) * p + m * t
  {
  }

  lemma {:induction false} Within(m: int, n: int, t: int, r: int)
    requires 0 <= r < m && 0 <= t < n
    ensures 0 <= m * t + r < m * n
  {
    if t > 0 { AtLeast(m, t); }
    AtLeast(m, n - t);
    Distribute(m, n, t);
  }
}
