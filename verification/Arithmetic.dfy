/** Division and remainder, for divisors that are not constants. */
module Arithmetic {

  lemma Multiple(q: int, d: nat)
    ensures q >= 1 ==> q * d >= d
    ensures q <= -1 ==> q * d + d <= 0
  {}

  lemma SameQuotient(d: nat, q: nat, r: nat, q': nat, r': nat)
    requires r < d && r' < d && q * d + r == q' * d + r'
    ensures q == q' && r == r'
  {
    Multiple(q - q', d);
    assert (q - q') * d == q * d - q' * d;
  }

  lemma RemainderUnique(v: nat, d: nat, q: nat, r: nat)
    requires r < d && v == q * d + r
    ensures v % d == r
  {
    SameQuotient(d, q, r, v / d, v % d);
  }

  /** Reducing modulo a multiple of c first makes no difference modulo c. */
  lemma ModOfMultiple(k: nat, m: nat, c: nat)
    requires c > 0 && m > 0 && m % c == 0
    ensures k % m % c == k % c
  {
    var a, b, s, t := k / m, m / c, k % m / c, k % m % c;
    Regroup(a, b, s, c);
    assert m == b * c;
    assert k == a * m + k % m && k % m == s * c + t;
    RemainderUnique(k, c, a * b + s, t);
  }

  lemma Regroup(a: nat, b: nat, s: nat, c: nat)
    ensures a * (b * c) + s * c == (a * b + s) * c
  {}

  /** Numbers less than c apart have different remainders. */
  lemma DistinctRemainders(j: nat, k: nat, c: nat)
    requires j < k < j + c
    ensures j % c != k % c
  {
    var d := k / c - j / c;
    Multiple(d, c);
    assert d * c == k / c * c - j / c * c;
  }

  lemma DivMod(n: nat, d: nat)
    requires d > 0
    ensures n == n / d * d + n % d && n % d < d
  {}

  lemma Quotient(n: nat, d: nat, b: nat, r: nat)
    requires r < d && n == b * d + r
    ensures n / d == b
  {
    DivMod(n, d);
    SameQuotient(d, b, r, n / d, n % d);
  }

  lemma Nested(base: nat, q: nat, b: nat, s: nat, r: nat)
    requires s < q && r < base
    ensures (b * q + s) * base + r == b * (base * q) + (s * base + r) && s * base + r < base * q
  {
    Multiple(q - s, base);
    assert (q - s) * base == q * base - s * base;
  }

  lemma DividedTwice(n: nat, base: nat, q: nat, b: nat, s: nat, r: nat)
    requires s < q && r < base && n == (b * q + s) * base + r
    ensures base * q > 0 && n / (base * q) == b
  {
    Nested(base, q, b, s, r);
    Quotient(n, base * q, b, s * base + r);
  }

  lemma DivideTwice(n: nat, base: nat, q: nat)
    requires base > 0 && q > 0
    ensures base * q > 0 && n / base / q == n / (base * q)
  {
    DivMod(n, base);
    DivMod(n / base, q);
    DividedTwice(n, base, q, n / base / q, n / base % q, n % base);
  }
}
