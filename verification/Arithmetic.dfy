/** Facts about quotients and remainders that the solver does not find by itself. */
module Arithmetic {

  function Quotient(n: nat, p: nat): nat
    requires p > 0
  {
    n / p
  }

  lemma QuotientUnique(n: nat, p: nat, q: nat, r: nat)
    requires p > 0 && r < p && n == q * p + r
    ensures n / p == q
  {
    var q', r' := n / p, n % p;
    assert n == q' * p + r';
    NextMultiple(q, q', p);
    NextMultiple(q', q, p);
  }

  lemma NextMultiple(a: nat, b: nat, p: nat)
    ensures a < b ==> a * p + p <= b * p
  {
    if a < b {
      var k := b - a - 1;
      assert b * p == a * p + p + k * p;
    }
  }

  lemma RemainderUnique(n: nat, p: nat, q: nat, r: nat)
    requires p > 0 && r < p && n == q * p + r
    ensures n % p == r
  {
    QuotientUnique(n, p, q, r);
  }

  lemma ModStep(n: nat, p: nat)
    requires p > 1
    ensures (n + 1) % p == if n % p + 1 == p then 0 else n % p + 1
  {
    var q, r := n / p, n % p;
    assert n == q * p + r;
    if r + 1 == p {
      assert n + 1 == (q + 1) * p + 0;
      RemainderUnique(n + 1, p, q + 1, 0);
    } else {
      RemainderUnique(n + 1, p, q, r + 1);
    }
  }
}
