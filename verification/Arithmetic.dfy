/** Products, quotients and remainders of natural numbers, and sizes of multisets. */
module Arithmetic {
  lemma MulMono(a: nat, b: nat, c: nat)
    requires a <= b
    ensures a * c <= b * c
  {
  }

  lemma DivUnique(k: nat, q: nat, d: nat, r: nat)
    requires r < d && k == q * d + r
    ensures k / d == q && k % d == r
  {
    var q', r' := k / d, k % d;
    assert k == q' * d + r';
    if q' < q { MulMono(q' + 1, q, d); }
    if q < q' { MulMono(q + 1, q', d); }
  }

  lemma SmallRemainder(x: nat, n: nat)
    requires 0 < n && x <= n
    ensures x % n == if x < n then x else 0
  {
    if x < n { DivUnique(x, 0, n, x); } else { DivUnique(x, 1, n, 0); }
  }

  lemma ModStep(q: nat, n: nat)
    requires n > 0
    ensures (q + 1) % n == if q % n + 1 < n then q % n + 1 else 0
  {
    var d, r := q / n, q % n;
    assert q == d * n + r;
    if r + 1 < n {
      DivUnique(q + 1, d, n, r + 1);
    } else {
      assert (d + 1) * n == d * n + n;
      DivUnique(q + 1, d + 1, n, 0);
    }
  }

  lemma QuotientBelow(n: nat, q: nat, r: nat, c: nat)
    requires n > 0 && q * n + r < c * n
    ensures q < c
  {
    if q >= c {
      MulMono(c, q, n);
      assert false;
    }
  }

  // Multisets

  lemma RemoveOne(m: multiset<nat>, x: nat)
    requires x in m
    ensures |m| > 0 && |m - multiset{x}| == |m| - 1
  {
    assert m == (m - multiset{x}) + multiset{x};
  }

  lemma AnyOf(m: multiset<nat>) returns (x: nat)
    requires |m| > 0
    ensures x in m && |m - multiset{x}| == |m| - 1
  {
    x :| x in m;
    RemoveOne(m, x);
  }
}
