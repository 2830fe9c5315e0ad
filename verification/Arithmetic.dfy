/** Division and remainder by variables, one fact at a time. */
module Arithmetic {

  lemma MulAssoc(a: int, b: int, c: int)
    ensures a * b * c == a * (b * c)
  {
  }

  lemma MulSum(a: int, b: int, c: int)
    ensures (a + b) * c == a * c + b * c
  {
  }

  lemma MulMono(a: int, b: int, n: nat)
    requires a <= b
    ensures a * n <= b * n
  {
    MulSum(b - a, a, n);
  }

  lemma Euclid(x: nat, n: nat)
    requires n > 0
    ensures x == x / n * n + x % n && x % n < n
  {
  }

  lemma DivAtLeast(x: nat, n: nat, k: nat)
    requires n > 0 && k * n <= x
    ensures k <= x / n
  {
    Euclid(x, n);
    if x / n + 1 <= k {
      MulMono(x / n + 1, k, n);
      MulSum(x / n, 1, n);
    }
  }

  lemma DivBelow(x: nat, n: nat, k: nat)
    requires n > 0 && x < k * n
    ensures x / n < k
  {
    Euclid(x, n);
    if k <= x / n {
      MulMono(k, x / n, n);
    }
  }

  /** Quotient and remainder are the only numbers that fit. */
  lemma DivModIs(x: nat, n: nat, d: nat, m: nat)
    requires n > 0 && m < n && x == d * n + m
    ensures x / n == d && x % n == m
  {
    MulSum(d, 1, n);
    DivAtLeast(x, n, d);
    DivBelow(x, n, d + 1);
    Euclid(x, n);
  }

  lemma ModNext(k: nat, n: nat)
    requires n > 0
    ensures (k + 1) % n == if k % n + 1 < n then k % n + 1 else 0
  {
    var d, m := k / n, k % n;
    Euclid(k, n);
    if m + 1 < n {
      DivModIs(k + 1, n, d, m + 1);
    } else {
      MulSum(d, 1, n);
      DivModIs(k + 1, n, d + 1, 0);
    }
  }

  /** Dividing by b and by p in turn is dividing by b * p; the remainders fit together as well. */
  lemma DivTwice(v: nat, b: nat, p: nat)
    requires b > 0 && p > 0
    ensures b * p > 0 && v / (b * p) == v / b / p && v % (b * p) / b == v / b % p && v % (b * p) % b == v % b
  {
    var q, r := v / b, v % b;
    var d, m := q / p, q % p;
    Euclid(v, b);
    Euclid(q, p);
    Recombine(b, p, d, m, r);
    DivModIs(v, b * p, d, m * b + r);
    DivModIs(m * b + r, b, m, r);
  }

  lemma Recombine(b: nat, p: nat, d: nat, m: nat, r: nat)
    requires b > 0 && p > 0 && m < p && r < b
    ensures b * p > 0 && (d * p + m) * b + r == d * (b * p) + (m * b + r) && m * b + r < b * p
  {
    MulSum(d * p, m, b);
    MulAssoc(d, p, b);
    MulMono(m, p - 1, b);
    MulSum(p, -1, b);
    MulMono(1, b, p);
  }
}
