/** Facts about products, quotients and remainders that the network blocks and the strided
    groups rest on. */
module Arithmetic {

  lemma Mono(a: int, b: int, s: int)
    requires a <= b && s >= 0
    ensures a * s <= b * s
  {
    assert (b - a) * s >= 0;
  }

  lemma Next(q: int, s: int)
    ensures (q + 1) * s == q * s + s
  {
  }

  /** Only one block of `s` numbers holds a given number. */
  lemma QuotientInBlock(q: int, k: int, s: int, r: int)
    requires s >= 1 && 0 <= r < s && k * s <= q * s + r <= k * s + s - 1
    ensures q == k
  {
    Next(q, s);
    Next(k, s);
    if q < k { Mono(q + 1, k, s); }
    if q > k { Mono(k + 1, q, s); }
  }

  lemma Quotient(a: int, s: int) returns (q: int)
    requires s >= 1
    ensures a == q * s + a % s && 0 <= a % s < s
    ensures a % s == 0 ==> a == q * s
  {
    q := a / s;
  }

  lemma MultipleDivides(q: int, s: int)
    requires s >= 1
    ensures (q * s) % s == 0
  {
    var k := Quotient(q * s, s);
    var r := (q * s) % s;
    Next(k, s);
    QuotientInBlock(q, k, s, 0) by {
      if q < k { Mono(q + 1, k, s); Next(q, s); }
      if q > k { Mono(k + 1, q, s); }
    }
  }

  lemma MultipleBelow(b: int, k: int, s: int)
    requires s >= 1 && b * s < k * s
    ensures b < k && b * s + s <= k * s
  {
    if b >= k { Mono(k, b, s); }
    Next(b, s);
    if b < k { Mono(b + 1, k, s); }
  }

  lemma DivisionUnique(n: int, q: int, s: int, r: int)
    requires s >= 1 && 0 <= r < s && n == q * s + r
    ensures n / s == q && n % s == r
  {
    var k := Quotient(n, s);
    Next(k, s);
    QuotientInBlock(q, k, s, r);
    assert n == (n / s) * s + n % s;
    Next(n / s, s);
    QuotientInBlock(q, n / s, s, r);
  }

  lemma ModStep(n: int, s: int)
    requires s >= 1
    ensures (n + s) % s == n % s && (n + s) / s == n / s + 1
  {
    Next(n / s, s);
    DivisionUnique(n + s, n / s + 1, s, n % s);
  }

  /** Numbers less than `s` apart have quotients at most one apart. */
  lemma QuotientsClose(m: int, n: int, s: int)
    requires s >= 1 && n <= m < n + s
    ensures n / s <= m / s <= n / s + 1
  {
    var p, q := m / s, n / s;
    Next(p, s);
    Next(q, s);
    Next(q + 1, s);
    if p < q { Mono(p + 1, q, s); }
    if p > q + 1 { Mono(q + 2, p, s); }
  }
}
