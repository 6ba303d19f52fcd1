/** Division and remainder by a positive number. */
module Arithmetic {

  lemma ModOfProduct(q: nat, d: nat)
    requires d > 0
    ensures (q * d) % d == 0
  {
    DivUnique(q * d, d, q, 0);
  }

  lemma DivUnique(n: nat, d: nat, q: nat, r: nat)
    requires d > 0 && n == q * d + r && r < d
    ensures n / d == q && n % d == r
  {
    var q', r' := n / d, n % d;
    assert n == q' * d + r';
    NextProduct(q', q, d);
    NextProduct(q, q', d);
  }

  lemma {:induction false} NextProduct(a: nat, b: nat, d: nat)
    ensures a < b ==> a * d + d <= b * d
  {
    if a < b {
      OneMore(b - 1, d);
      NextProduct(a, b - 1, d);
    }
  }

  lemma OneMore(q: nat, d: nat)
    ensures (q + 1) * d == q * d + d
  {
  }

  lemma DivPast(n: nat, d: nat)
    requires 0 < d <= n
    ensures n / d == (n - d) / d + 1 && n % d == (n - d) % d
  {
    var q, r := (n - d) / d, (n - d) % d;
    assert n - d == q * d + r;
    OneMore(q, d);
    DivUnique(n, d, q + 1, r);
  }

  lemma AddMultiple(pos: nat, d: nat, k: nat)
    requires d > 0 && k % d == 0
    ensures (pos + k) % d == pos % d
  {
    var j := k / d;
    assert k == j * d;
    var q, r := pos / d, pos % d;
    assert pos + k == (q + j) * d + r;
    DivUnique(pos + k, d, q + j, r);
  }

  lemma Associates(a: nat, b: nat, c: nat)
    ensures (a * b) * c == a * (b * c)
  {
  }

  function Quotient(n: nat, d: nat): nat
    requires d > 0
  {
    n / d
  }

  // Products without multiplication: what is needed of them to order multiples.
  function Product(a: nat, d: nat): nat {
    a * d
  }

  lemma QuotientAndRest(n: nat, d: nat)
    requires d > 0
    ensures n == Product(n / d, d) + n % d && n % d < d
  {
  }

  lemma ProductsApart(a: nat, b: nat, d: nat)
    ensures a < b ==> Product(a, d) + d <= Product(b, d)
  {
    NextProduct(a, b, d);
  }

  // Two multiples are the same or a whole step apart.
  lemma MultiplesApart(a: nat, b: nat, d: nat)
    requires d > 0 && a % d == 0 && b % d == 0
    ensures a < b ==> a + d <= b
  {
    hide Product;
    QuotientAndRest(a, d);
    QuotientAndRest(b, d);
    ProductsApart(a / d, b / d, d);
    ProductsApart(b / d, a / d, d);
  }
}
